/**
 * The keyed dictionaries the engine builds and reads. A dictionary has a
 * key comparer (ordinal, or ordinal ignoring case) and keeps its entries
 * in insertion order: writing to a key already present replaces the value
 * where it stands and keeps the key as first written; a new key goes at
 * the end. Enumeration follows that order.
 */
module Dicts {
  import opened Wrappers

  datatype Comparer = Ordinal | OrdinalIgnoreCase

  /** Upper-casing of the ASCII letters; other characters are unchanged. */
  function Upper(c: char): char {
    if 'a' <= c <= 'z' then (c as int - 32) as char else c
  }

  /** The form of a key under which the comparer tells keys apart. */
  function Normalize(cmp: Comparer, key: string): (r: string)
    ensures |r| == |key|
  {
    match cmp
    case Ordinal => key
    case OrdinalIgnoreCase => seq(|key|, i requires 0 <= i < |key| => Upper(key[i]))
  }

  /** The comparer considers `a` and `b` the same key. */
  predicate SameKey(cmp: Comparer, a: string, b: string) {
    Normalize(cmp, a) == Normalize(cmp, b)
  }

  datatype Entry<V> = Entry(key: string, value: V)

  datatype Dict<V> = Dict(comparer: Comparer, entries: seq<Entry<V>>) {
    /** No two entries hold keys the comparer considers the same. */
    predicate Valid() {
      forall i, j :: 0 <= i < j < |entries| ==> !SameKey(comparer, entries[i].key, entries[j].key)
    }

    /** The position of the entry whose key matches `key`, if any. */
    function IndexOf(key: string): (r: Option<nat>)
      ensures r.Some? ==> r.value < |entries| && SameKey(comparer, entries[r.value].key, key)
      ensures r.Some? ==> forall i :: 0 <= i < r.value ==> !SameKey(comparer, entries[i].key, key)
      ensures r.None? ==> forall i :: 0 <= i < |entries| ==> !SameKey(comparer, entries[i].key, key)
    {
      Find(comparer, entries, key, 0)
    }

    /** The lookup `TryGetValue`: the value stored under a matching key. */
    function TryGet(key: string): Option<V> {
      match IndexOf(key)
      case Some(i) => Some(entries[i].value)
      case None => None
    }

    /** The indexer assignment `d[key] = v`. */
    function Put(key: string, v: V): Dict<V> {
      match IndexOf(key)
      case Some(i) => Dict(comparer, entries[i := Entry(entries[i].key, v)])
      case None => Dict(comparer, entries + [Entry(key, v)])
    }
  }

  function Find<V>(cmp: Comparer, entries: seq<Entry<V>>, key: string, from: nat): (r: Option<nat>)
    requires from <= |entries|
    ensures r.Some? ==> from <= r.value < |entries| && SameKey(cmp, entries[r.value].key, key)
    ensures r.Some? ==> forall i :: from <= i < r.value ==> !SameKey(cmp, entries[i].key, key)
    ensures r.None? ==> forall i :: from <= i < |entries| ==> !SameKey(cmp, entries[i].key, key)
    decreases |entries| - from
  {
    if from == |entries| then None
    else if SameKey(cmp, entries[from].key, key) then Some(from)
    else Find(cmp, entries, key, from + 1)
  }

  function Empty<V>(cmp: Comparer): Dict<V> {
    Dict(cmp, [])
  }

  /**
   * After `d[key] = v`, a key matching `key` reads `v` and every other key
   * reads what it read before; keys stay distinct, and the keys already
   * present keep their places.
   */
  lemma PutTryGet<V>(d: Dict<V>, key: string, v: V, k: string)
    requires d.Valid()
    ensures d.Put(key, v).Valid()
    ensures d.Put(key, v).comparer == d.comparer
    ensures d.Put(key, v).TryGet(k) == if SameKey(d.comparer, key, k) then Some(v) else d.TryGet(k)
    ensures |d.Put(key, v).entries| == |d.entries| + (if d.IndexOf(key).Some? then 0 else 1)
    ensures forall i :: 0 <= i < |d.entries| ==> d.Put(key, v).entries[i].key == d.entries[i].key
  {
    if d.IndexOf(key).Some? {
      PutExisting(d, key, v, k);
    } else {
      PutNew(d, key, v, k);
    }
  }

  /** Find reports the first matching position. */
  lemma FindIs<V>(cmp: Comparer, entries: seq<Entry<V>>, key: string, m: nat)
    requires m < |entries| && SameKey(cmp, entries[m].key, key)
    requires forall i :: 0 <= i < m ==> !SameKey(cmp, entries[i].key, key)
    ensures Find(cmp, entries, key, 0) == Some(m)
  {
  }

  lemma PutExisting<V>(d: Dict<V>, key: string, v: V, k: string)
    requires d.Valid() && d.IndexOf(key).Some?
    ensures d.Put(key, v).Valid()
    ensures d.Put(key, v).TryGet(k) == if SameKey(d.comparer, key, k) then Some(v) else d.TryGet(k)
    ensures forall i :: 0 <= i < |d.entries| ==> d.Put(key, v).entries[i].key == d.entries[i].key
  {
    var i := d.IndexOf(key).value;
    var r := d.Put(key, v);
    assert forall j :: 0 <= j < |d.entries| ==> r.entries[j].key == d.entries[j].key;
    if SameKey(d.comparer, key, k) {
      FindIs(d.comparer, r.entries, k, i);
    } else if d.IndexOf(k).Some? {
      FindIs(d.comparer, r.entries, k, d.IndexOf(k).value);
    }
  }

  lemma PutNew<V>(d: Dict<V>, key: string, v: V, k: string)
    requires d.Valid() && d.IndexOf(key).None?
    ensures d.Put(key, v).Valid()
    ensures d.Put(key, v).TryGet(k) == if SameKey(d.comparer, key, k) then Some(v) else d.TryGet(k)
    ensures forall i :: 0 <= i < |d.entries| ==> d.Put(key, v).entries[i].key == d.entries[i].key
  {
    var n := |d.entries|;
    var r := d.Put(key, v);
    assert forall j :: 0 <= j < n ==> r.entries[j] == d.entries[j];
    if SameKey(d.comparer, key, k) {
      FindIs(d.comparer, r.entries, k, n);
    } else if d.IndexOf(k).Some? {
      FindIs(d.comparer, r.entries, k, d.IndexOf(k).value);
    }
  }

  /**
   * The dictionary after assigning every entry of `es` in order, as the
   * engine's `foreach` loops do.
   */
  function Overlay<V>(d: Dict<V>, es: seq<Entry<V>>): Dict<V>
    decreases |es|
  {
    if es == [] then d
    else
      var last := es[|es| - 1];
      Overlay(d, es[..|es| - 1]).Put(last.key, last.value)
  }

  /** The value of the last entry of `es` whose key matches `k`, if any. */
  function LastBinding<V>(cmp: Comparer, es: seq<Entry<V>>, k: string): Option<V>
    decreases |es|
  {
    if es == [] then None
    else if SameKey(cmp, es[|es| - 1].key, k) then Some(es[|es| - 1].value)
    else LastBinding(cmp, es[..|es| - 1], k)
  }

  /** LastBinding names an entry that matches `k` and that no later matching entry overrides. */
  lemma LastBindingIsLast<V>(cmp: Comparer, es: seq<Entry<V>>, k: string)
    ensures LastBinding(cmp, es, k).None? <==> forall i :: 0 <= i < |es| ==> !SameKey(cmp, es[i].key, k)
    ensures LastBinding(cmp, es, k).Some? ==>
      exists i :: 0 <= i < |es| && SameKey(cmp, es[i].key, k) && LastBinding(cmp, es, k) == Some(es[i].value)
        && forall j :: i < j < |es| ==> !SameKey(cmp, es[j].key, k)
  {
    LastBindingNone(cmp, es, k);
    if LastBinding(cmp, es, k).Some? {
      var i := LastBindingSome(cmp, es, k);
    }
  }

  lemma {:induction false} LastBindingNone<V>(cmp: Comparer, es: seq<Entry<V>>, k: string)
    ensures LastBinding(cmp, es, k).None? <==> forall i :: 0 <= i < |es| ==> !SameKey(cmp, es[i].key, k)
    decreases |es|
  {
    if es != [] {
      var n := |es| - 1;
      if !SameKey(cmp, es[n].key, k) {
        var front := es[..n];
        LastBindingNone(cmp, front, k);
        assert forall i :: 0 <= i < n ==> front[i] == es[i];
      }
    }
  }

  /** The position of the entry LastBinding reads. */
  lemma {:induction false} LastBindingSome<V>(cmp: Comparer, es: seq<Entry<V>>, k: string) returns (i: nat)
    requires LastBinding(cmp, es, k).Some?
    ensures i < |es| && SameKey(cmp, es[i].key, k) && LastBinding(cmp, es, k) == Some(es[i].value)
    ensures forall j :: i < j < |es| ==> !SameKey(cmp, es[j].key, k)
    decreases |es|
  {
    var n := |es| - 1;
    if SameKey(cmp, es[n].key, k) {
      i := n;
    } else {
      var front := es[..n];
      i := LastBindingSome(cmp, front, k);
      assert front[i] == es[i];
    }
  }

  /**
   * Override precedence: after the entries of `es` are assigned over `d`,
   * a key reads the last matching entry of `es`, and only when there is
   * none what `d` held. Keys stay distinct.
   */
  lemma {:induction false} OverlayTryGet<V>(d: Dict<V>, es: seq<Entry<V>>, k: string)
    requires d.Valid()
    ensures Overlay(d, es).Valid() && Overlay(d, es).comparer == d.comparer
    ensures Overlay(d, es).TryGet(k) == match LastBinding(d.comparer, es, k)
      case Some(v) => Some(v)
      case None => d.TryGet(k)
    decreases |es|
  {
    if es != [] {
      var last := es[|es| - 1];
      var front := Overlay(d, es[..|es| - 1]);
      OverlayTryGet(d, es[..|es| - 1], k);
      PutTryGet(front, last.key, last.value, k);
    }
  }

  /** Assigning `es` then one more entry is assigning `es` extended by it. */
  lemma OverlayStep<V>(d: Dict<V>, es: seq<Entry<V>>, i: nat)
    requires i < |es|
    ensures Overlay(d, es[..i + 1]) == Overlay(d, es[..i]).Put(es[i].key, es[i].value)
  {
    assert es[..i + 1][..i] == es[..i];
  }
}
