/** A Python `dict` with string keys, as the bot uses for a guild's events:
    an association list in insertion order, each key at most once.
    Assigning to an existing key keeps its position; a new key goes last. */
module EventTable {
  import opened Wrappers

  type Table<V> = seq<(string, V)>

  predicate UniqueKeys<V>(t: Table<V>)
  {
    forall i, j :: 0 <= i < j < |t| ==> t[i].0 != t[j].0
  }

  /** `list(d.keys())` */
  function Keys<V>(t: Table<V>): (ks: seq<string>)
    ensures |ks| == |t| && forall i :: 0 <= i < |t| ==> ks[i] == t[i].0
  {
    if |t| == 0 then [] else [t[0].0] + Keys(t[1..])
  }

  /** `list(d.values())`, the order in which a loop over the dict visits them. */
  function Values<V>(t: Table<V>): (vs: seq<V>)
    ensures |vs| == |t| && forall i :: 0 <= i < |t| ==> vs[i] == t[i].1
  {
    seq(|t|, i requires 0 <= i < |t| => t[i].1)
  }

  /** `d.get(k)` */
  function Get<V(==)>(t: Table<V>, k: string): (r: Option<V>)
    requires UniqueKeys(t)
    ensures r.None? <==> k !in Keys(t)
    ensures r.Some? ==> exists i :: 0 <= i < |t| && t[i] == (k, r.value)
  {
    if |t| == 0 then None
    else if t[0].0 == k then Some(t[0].1)
    else
      var r := Get(t[1..], k);
      assert Keys(t) == [t[0].0] + Keys(t[1..]);
      if r.Some? then
        var i :| 0 <= i < |t[1..]| && t[1..][i] == (k, r.value);
        assert t[i + 1] == (k, r.value);
        r
      else r
  }

  /** Walking the values visits, key by key, exactly what a lookup of that
      key finds. */
  lemma {:induction false} ValuesGet<V>(t: Table<V>)
    requires UniqueKeys(t)
    ensures |Values(t)| == |Keys(t)|
    ensures forall i :: 0 <= i < |t| ==> Get(t, Keys(t)[i]) == Some(Values(t)[i])
  {
    if |t| > 0 {
      ValuesGet(t[1..]);
      forall i | 0 < i < |t|
        ensures Get(t, Keys(t)[i]) == Some(Values(t)[i])
      {
        assert Keys(t)[i] == t[i].0 == t[1..][i - 1].0 == Keys(t[1..])[i - 1];
        assert t[0].0 != t[i].0;
        assert Values(t)[i] == Values(t[1..])[i - 1];
      }
    }
  }

  /** `d[k] = v` */
  function Put<V>(t: Table<V>, k: string, v: V): (r: Table<V>)
  {
    if |t| == 0 then [(k, v)]
    else if t[0].0 == k then [(k, v)] + t[1..]
    else [t[0]] + Put(t[1..], k, v)
  }

  /** `del d[k]` for a present key; nothing for an absent one (the callers
      test `k in d` first). */
  function Delete<V>(t: Table<V>, k: string): (r: Table<V>)
  {
    if |t| == 0 then []
    else if t[0].0 == k then t[1..]
    else [t[0]] + Delete(t[1..], k)
  }

  /** Assignment keeps the key order: an existing key stays where it was, a
      new key is appended. */
  lemma {:induction false} PutKeys<V>(t: Table<V>, k: string, v: V)
    ensures k in Keys(t) ==> Keys(Put(t, k, v)) == Keys(t)
    ensures k !in Keys(t) ==> Keys(Put(t, k, v)) == Keys(t) + [k]
  {
    var r := Put(t, k, v);
    if |t| > 0 {
      assert Keys(t) == [t[0].0] + Keys(t[1..]);
      if t[0].0 == k {
        assert Keys(r) == [k] + Keys(t[1..]);
      } else {
        PutKeys(t[1..], k, v);
        assert Keys(r) == [t[0].0] + Keys(Put(t[1..], k, v));
      }
    }
  }

  lemma PutUnique<V>(t: Table<V>, k: string, v: V)
    requires UniqueKeys(t)
    ensures UniqueKeys(Put(t, k, v))
  {
    PutKeys(t, k, v);
    var r := Put(t, k, v);
    forall i, j | 0 <= i < j < |r|
      ensures r[i].0 != r[j].0
    {
      assert Keys(r)[i] == r[i].0 && Keys(r)[j] == r[j].0;
      if k !in Keys(t) && j == |t| {
        assert Keys(r)[i] == Keys(t)[i];
      }
    }
  }

  /** `d[k] = v` puts `v` under `k` and leaves every other key's value alone;
      re-assigning a key replaces its old value. */
  lemma {:induction false} PutGet<V>(t: Table<V>, k: string, v: V)
    requires UniqueKeys(t)
    ensures UniqueKeys(Put(t, k, v))
    ensures Get(Put(t, k, v), k) == Some(v)
    ensures forall k' :: k' != k ==> Get(Put(t, k, v), k') == Get(t, k')
  {
    PutUnique(t, k, v);
    var r := Put(t, k, v);
    if |t| > 0 {
      if t[0].0 == k {
        assert r[1..] == t[1..];
        forall k' | k' != k
          ensures Get(r, k') == Get(t, k')
        {
        }
      } else {
        PutGet(t[1..], k, v);
        assert r[1..] == Put(t[1..], k, v);
      }
    }
  }

  /** Deletion keeps the keys unique. */
  lemma {:induction false} DeleteUnique<V>(t: Table<V>, k: string)
    requires UniqueKeys(t)
    ensures UniqueKeys(Delete(t, k))
  {
    if |t| > 0 && t[0].0 != k {
      var r := Delete(t, k);
      DeleteUnique(t[1..], k);
      assert r[1..] == Delete(t[1..], k);
      DeleteKeys(t[1..], k);
      forall i | 0 < i < |r|
        ensures r[0].0 != r[i].0
      {
        assert r[i] in Delete(t[1..], k);
      }
    }
  }

  /** Deletion keeps the keys unique, removes `k`, leaves every other key's
      value alone, and a present key costs exactly one entry. */
  lemma {:induction false} DeleteSpec<V>(t: Table<V>, k: string)
    requires UniqueKeys(t)
    ensures UniqueKeys(Delete(t, k))
    ensures Get(Delete(t, k), k) == None
    ensures forall k' :: k' != k ==> Get(Delete(t, k), k') == Get(t, k')
    ensures k in Keys(t) ==> |Delete(t, k)| == |t| - 1
  {
    DeleteUnique(t, k);
    var r := Delete(t, k);
    if |t| > 0 {
      assert Keys(t) == [t[0].0] + Keys(t[1..]);
      if t[0].0 == k {
        assert k !in Keys(t[1..]);
        forall k' | k' != k
          ensures Get(r, k') == Get(t, k')
        {
        }
      } else {
        DeleteSpec(t[1..], k);
        assert r[1..] == Delete(t[1..], k);
        assert r == [t[0]] + Delete(t[1..], k);
      }
    }
  }

  /** Deletion only ever drops entries. */
  lemma {:induction false} DeleteKeys<V>(t: Table<V>, k: string)
    ensures forall e :: e in Delete(t, k) ==> e in t
  {
    if |t| > 0 && t[0].0 != k {
      DeleteKeys(t[1..], k);
    }
  }

  /** Deleting an absent key changes nothing. */
  lemma {:induction false} DeleteMissing<V>(t: Table<V>, k: string)
    requires k !in Keys(t)
    ensures Delete(t, k) == t
  {
    if |t| > 0 {
      assert Keys(t) == [t[0].0] + Keys(t[1..]);
      DeleteMissing(t[1..], k);
    }
  }
}
