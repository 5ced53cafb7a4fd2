/** A JavaScript object used as a dictionary: properties in insertion order, one per key. */
module JsObject {
  datatype Option<+T> = None | Some(value: T)

  datatype Prop<+V> = Prop(key: string, value: V)
  type Obj<+V> = seq<Prop<V>>

  function Lookup<V>(o: Obj<V>, k: string): Option<V> {
    if o == [] then None
    else if o[0].key == k then Some(o[0].value)
    else Lookup(o[1..], k)
  }

  predicate Has<V>(o: Obj<V>, k: string) {
    Lookup(o, k).Some?
  }

  /** Assignment keeps the place of an existing property and appends a new one. */
  function Put<V>(o: Obj<V>, k: string, v: V): Obj<V> {
    if o == [] then [Prop(k, v)]
    else if o[0].key == k then [Prop(k, v)] + o[1..]
    else [o[0]] + Put(o[1..], k, v)
  }

  /** `delete o[k]`. */
  function Delete<V>(o: Obj<V>, k: string): Obj<V> {
    if o == [] then []
    else if o[0].key == k then Delete(o[1..], k)
    else [o[0]] + Delete(o[1..], k)
  }

  lemma {:induction false} PutLookup<V>(o: Obj<V>, k: string, v: V, a: string)
    ensures Lookup(Put(o, k, v), a) == if a == k then Some(v) else Lookup(o, a)
  {
    if o != [] && o[0].key != k {
      PutLookup(o[1..], k, v, a);
      assert Put(o, k, v)[1..] == Put(o[1..], k, v);
    } else if o != [] {
      assert Put(o, k, v)[1..] == o[1..];
    }
  }

  lemma {:induction false} DeleteLookup<V>(o: Obj<V>, k: string, a: string)
    ensures Lookup(Delete(o, k), a) == if a == k then None else Lookup(o, a)
  {
    if o != [] {
      DeleteLookup(o[1..], k, a);
      if o[0].key != k {
        assert Delete(o, k)[1..] == Delete(o[1..], k);
      }
    }
  }

  function Keys<V>(o: Obj<V>): seq<string> {
    seq(|o|, i requires 0 <= i < |o| => o[i].key)
  }

  lemma {:induction false} HasIsKey<V>(o: Obj<V>, k: string)
    ensures Has(o, k) <==> k in Keys(o)
  {
    if o != [] {
      HasIsKey(o[1..], k);
      assert Keys(o) == [o[0].key] + Keys(o[1..]);
    }
  }

  /** The order of insertion: what is new comes last, and what is there keeps its place. */
  lemma {:induction false} PutKeys<V>(o: Obj<V>, k: string, v: V)
    ensures Keys(Put(o, k, v)) == if k in Keys(o) then Keys(o) else Keys(o) + [k]
  {
    if o != [] {
      assert Keys(o) == [o[0].key] + Keys(o[1..]);
      if o[0].key != k {
        PutKeys(o[1..], k, v);
        assert Keys(Put(o, k, v)) == [o[0].key] + Keys(Put(o[1..], k, v));
      }
    }
  }

  /** Deleting takes one key out and leaves the others in their order. */
  function KeysWithout(ks: seq<string>, k: string): seq<string> {
    if ks == [] then [] else (if ks[0] == k then [] else [ks[0]]) + KeysWithout(ks[1..], k)
  }

  lemma {:induction false} DeleteKeys<V>(o: Obj<V>, k: string)
    ensures Keys(Delete(o, k)) == KeysWithout(Keys(o), k)
  {
    if o != [] {
      DeleteKeys(o[1..], k);
      assert Keys(o) == [o[0].key] + Keys(o[1..]) && Keys(o)[1..] == Keys(o[1..]);
      if o[0].key != k {
        assert Keys(Delete(o, k)) == [o[0].key] + Keys(Delete(o[1..], k));
      }
    }
  }

  ghost predicate DistinctKeys<V>(o: Obj<V>) {
    forall i, j :: 0 <= i < j < |o| ==> o[i].key != o[j].key
  }

  lemma PutDistinct<V>(o: Obj<V>, k: string, v: V)
    requires DistinctKeys(o)
    ensures DistinctKeys(Put(o, k, v))
  {
    PutKeys(o, k, v);
    KeysDistinct(o);
    KeysDistinct(Put(o, k, v));
  }

  lemma KeysDistinct<V>(o: Obj<V>)
    ensures DistinctKeys(o) <==> forall i, j :: 0 <= i < j < |Keys(o)| ==> Keys(o)[i] != Keys(o)[j]
  {
    assert forall i :: 0 <= i < |o| ==> Keys(o)[i] == o[i].key;
  }

  lemma {:induction false} KeysWithoutDistinct(ks: seq<string>, k: string)
    requires forall i, j :: 0 <= i < j < |ks| ==> ks[i] != ks[j]
    ensures var r := KeysWithout(ks, k);
            && (forall x :: x in r <==> x in ks && x != k)
            && forall i, j :: 0 <= i < j < |r| ==> r[i] != r[j]
  {
    if ks != [] {
      KeysWithoutDistinct(ks[1..], k);
      assert ks == [ks[0]] + ks[1..];
      assert ks[0] !in ks[1..];
    }
  }

  lemma DeleteDistinct<V>(o: Obj<V>, k: string)
    requires DistinctKeys(o)
    ensures DistinctKeys(Delete(o, k)) && k !in Keys(Delete(o, k))
    ensures forall x :: x in Keys(Delete(o, k)) ==> x in Keys(o)
  {
    DeleteKeys(o, k);
    KeysWithoutDistinct(Keys(o), k);
    var d := Delete(o, k);
    assert forall i :: 0 <= i < |d| ==> Keys(d)[i] == d[i].key;
  }
}
