/** JSON objects that keep their keys in insertion order, as values and as the mutable class. */
module OrderedMaps {
  import opened Prelude

  datatype Json =
    | Null
    | Flag(b: bool)
    | Integer(n: int)
    | Decimal(digits: string)
    | Text(s: string)
    | List(items: seq<Json>)
    | Object(entries: seq<Entry>)

  datatype Entry = Entry(key: string, value: Json)

  predicate Distinct(es: seq<Entry>) {
    forall i, j | 0 <= i < j < |es| :: es[i].key != es[j].key
  }

  /** The first position of a key, or the length. */
  function IndexOf(es: seq<Entry>, k: string): (n: nat)
    ensures n <= |es| && (n < |es| ==> es[n].key == k)
    ensures forall i | 0 <= i < n :: es[i].key != k
  {
    if es == [] || es[0].key == k then 0
    else
      assert forall i | 0 <= i < |es| - 1 :: es[1..][i] == es[i + 1];
      1 + IndexOf(es[1..], k)
  }

  predicate HasKey(es: seq<Entry>, k: string) {
    IndexOf(es, k) < |es|
  }

  function Get(es: seq<Entry>, k: string): Option<Json> {
    var n := IndexOf(es, k);
    if n < |es| then Some(es[n].value) else None
  }

  /** Replaces the value of a present key where it stands, appends an absent one. */
  function Set(es: seq<Entry>, k: string, v: Json): seq<Entry> {
    var n := IndexOf(es, k);
    if n < |es| then es[n := Entry(k, v)] else es + [Entry(k, v)]
  }

  lemma SetKeepsDistinct(es: seq<Entry>, k: string, v: Json)
    requires Distinct(es)
    ensures Distinct(Set(es, k, v))
  {
  }

  /** A lookup after a Set finds the new value under its key and the old ones elsewhere. */
  lemma GetSet(es: seq<Entry>, k: string, v: Json, x: string)
    ensures Get(Set(es, k, v), x) == if x == k then Some(v) else Get(es, x)
  {
    var after := Set(es, k, v);
    var n, p := IndexOf(es, x), IndexOf(after, x);
    assert forall i | 0 <= i < |es| && es[i].key != k :: after[i] == es[i];
    assert x != k && n < |es| ==> after[n].key == x;
    assert x != k && p < |es| ==> es[p].key == x;
    assert x == k ==> after[n].key == x;
  }

  function KeysOf(es: seq<Entry>): seq<string> {
    seq(|es|, i requires 0 <= i < |es| => es[i].key)
  }

  /** Keys stay in the order in which they were first set. */
  lemma SetKeepsOrder(es: seq<Entry>, k: string, v: Json)
    ensures KeysOf(Set(es, k, v)) == if k in KeysOf(es) then KeysOf(es) else KeysOf(es) + [k]
  {
    var n := IndexOf(es, k);
    assert n < |es| ==> KeysOf(es)[n] == k;
  }

  class Omap {
    var keys: seq<string>
    var values: map<string, Json>

    /** No key twice, and the two fields agree on what is present. */
    ghost predicate Valid()
      reads this
    {
      && (forall i, j | 0 <= i < j < |keys| :: keys[i] != keys[j])
      && (forall i | 0 <= i < |keys| :: keys[i] in values)
      && (forall k | k in values :: k in keys)
    }

    ghost function Contents(): seq<Entry>
      requires Valid()
      reads this
    {
      seq(|keys|, i requires 0 <= i < |keys| reads this =>
        Entry(keys[i], if keys[i] in values then values[keys[i]] else Null))
    }

    constructor ()
      ensures Valid() && Contents() == []
    {
      keys, values := [], map[];
    }

    lemma IndexInKeys(k: string)
      requires Valid()
      ensures k in values <==> HasKey(Contents(), k)
      ensures k in values ==> Get(Contents(), k) == Some(values[k])
    {
      var n := IndexOf(Contents(), k);
      if k in values {
        var i :| 0 <= i < |keys| && keys[i] == k;
        assert Contents()[i].key == k;
      }
      if n < |keys| { assert Contents()[n].key == keys[n]; }
    }

    method SetKey(k: string, v: Json)
      requires Valid()
      modifies this
      ensures Valid() && Contents() == Set(old(Contents()), k, v)
    {
      IndexInKeys(k);
      ghost var before := Contents();
      if k !in values {
        keys := keys + [k];
      }
      values := values[k := v];
      assert Contents() == Set(before, k, v);
    }

    method GetKey(k: string) returns (r: Option<Json>)
      requires Valid()
      ensures r == Get(Contents(), k)
    {
      IndexInKeys(k);
      return if k in values then Some(values[k]) else None;
    }
  }
}
