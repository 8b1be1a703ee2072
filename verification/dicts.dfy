/** Python dictionaries with string keys, kept in insertion order as Python
    keeps them: a sequence of key/value pairs. */
module Dicts {
  import opened Results

  type Dict<V> = seq<(string, V)>

  /** The keys in insertion order: what iterating over the dict yields. */
  function Keys<V>(d: Dict<V>): seq<string> {
    seq(|d|, i requires 0 <= i < |d| => d[i].0)
  }

  /** Python's `k in d`. */
  predicate HasKey<V>(d: Dict<V>, k: string) {
    exists i | 0 <= i < |d| :: d[i].0 == k
  }

  /** No key occurs twice: the invariant every Python dict keeps. */
  predicate DistinctKeys<V>(d: Dict<V>) {
    forall i, j | 0 <= i < j < |d| :: d[i].0 != d[j].0
  }

  /** The position of `k` in `d`, searching from `from`: the first index at
      or after `from` that holds the key. */
  function IndexFrom<V>(d: Dict<V>, k: string, from: nat): (r: Option<nat>)
    decreases |d| - from
    ensures r.Some? ==> from <= r.value < |d| && d[r.value].0 == k
    ensures r.Some? ==> forall j | from <= j < r.value :: d[j].0 != k
    ensures r.None? ==> forall j | from <= j < |d| :: d[j].0 != k
  {
    if from >= |d| then None
    else if d[from].0 == k then Some(from)
    else IndexFrom(d, k, from + 1)
  }

  /** The position of `k` in `d`. */
  function IndexOf<V>(d: Dict<V>, k: string): (r: Option<nat>)
    ensures r.Some? ==> r.value < |d| && d[r.value].0 == k
    ensures r.Some? ==> forall j | 0 <= j < r.value :: d[j].0 != k
    ensures r.None? <==> !HasKey(d, k)
  {
    IndexFrom(d, k, 0)
  }

  /** Python's `d.get(k)`: present exactly when the key is, and then a value
      stored under that key. */
  function Get<V>(d: Dict<V>, k: string): (r: Option<V>)
    ensures r.Some? <==> HasKey(d, k)
    ensures r.Some? ==> (k, r.value) in d
  {
    match IndexOf(d, k)
    case Some(i) => Some(d[i].1)
    case None => None
  }

  /** In a dict without repeated keys, every stored pair is what `get` finds. */
  lemma GetStored<V>(d: Dict<V>, k: string, v: V)
    requires DistinctKeys(d) && (k, v) in d
    ensures Get(d, k) == Some(v)
  {
    var j :| 0 <= j < |d| && d[j] == (k, v);
    assert HasKey(d, k);
  }

  /** Python's `d[k] = v`: the value is replaced in place when the key is
      present and the pair is appended otherwise; no other key changes. */
  function Put<V>(d: Dict<V>, k: string, v: V): (r: Dict<V>)
    ensures Get(r, k) == Some(v)
    ensures forall k' | k' != k :: Get(r, k') == Get(d, k')
    ensures HasKey(d, k) ==> Keys(r) == Keys(d)
    ensures !HasKey(d, k) ==> Keys(r) == Keys(d) + [k]
    ensures DistinctKeys(d) ==> DistinctKeys(r)
  {
    match IndexOf(d, k)
    case Some(i) =>
      var r := d[i := (k, v)];
      assert forall j | 0 <= j < |d| :: r[j].0 == d[j].0;
      assert HasKey(r, k);
      r
    case None =>
      var r := d + [(k, v)];
      assert r[|d|].0 == k;
      assert forall j | 0 <= j < |d| :: r[j] == d[j];
      r
  }

  /** A dict seen as its first pair followed by the rest. */
  lemma Uncons<V>(d: Dict<V>)
    requires |d| > 0
    ensures forall k | HasKey(d, k) :: d[0].0 == k || HasKey(d[1..], k)
    ensures forall k | HasKey(d[1..], k) :: HasKey(d, k)
    ensures DistinctKeys(d) ==> DistinctKeys(d[1..]) && !HasKey(d[1..], d[0].0)
  {
    forall k | HasKey(d, k)
      ensures d[0].0 == k || HasKey(d[1..], k)
    {
      var i :| 0 <= i < |d| && d[i].0 == k;
      if i > 0 {
        assert d[1..][i - 1].0 == k;
      }
    }
    forall k | HasKey(d[1..], k)
      ensures HasKey(d, k)
    {
      var i :| 0 <= i < |d[1..]| && d[1..][i].0 == k;
      assert d[i + 1].0 == k;
    }
    if DistinctKeys(d) {
      forall i | 0 <= i < |d[1..]|
        ensures d[1..][i].0 != d[0].0
      {
        assert d[1..][i] == d[i + 1];
      }
    }
  }

  /** `for key, value in pairs: d[key] = value`. */
  function PutAll<V>(d: Dict<V>, pairs: Dict<V>): Dict<V>
    decreases |pairs|
  {
    if |pairs| == 0 then d else PutAll(Put(d, pairs[0].0, pairs[0].1), pairs[1..])
  }

  /** Keys the pairs do not mention keep their values. */
  lemma {:induction false} PutAllOther<V>(d: Dict<V>, pairs: Dict<V>, k: string)
    requires !HasKey(pairs, k)
    decreases |pairs|
    ensures Get(PutAll(d, pairs), k) == Get(d, k)
  {
    if |pairs| > 0 {
      Uncons(pairs);
      PutAllOther(Put(d, pairs[0].0, pairs[0].1), pairs[1..], k);
    }
  }

  /** With no key repeated among the pairs, each pair's value is what the
      updated dict holds under its key. */
  lemma {:induction false} PutAllStores<V>(d: Dict<V>, pairs: Dict<V>, i: nat)
    requires DistinctKeys(pairs) && i < |pairs|
    decreases |pairs|
    ensures Get(PutAll(d, pairs), pairs[i].0) == Some(pairs[i].1)
  {
    Uncons(pairs);
    var d' := Put(d, pairs[0].0, pairs[0].1);
    if i == 0 {
      PutAllOther(d', pairs[1..], pairs[0].0);
    } else {
      assert pairs[1..][i - 1] == pairs[i];
      PutAllStores(d', pairs[1..], i - 1);
    }
  }

  /** With no key repeated among the pairs, a lookup after the updates finds
      the pair's value when the pairs mention the key and the old value
      otherwise. */
  lemma PutAllGet<V>(d: Dict<V>, pairs: Dict<V>, k: string)
    requires DistinctKeys(pairs)
    ensures Get(PutAll(d, pairs), k) == if HasKey(pairs, k) then Get(pairs, k) else Get(d, k)
  {
    if HasKey(pairs, k) {
      var j :| 0 <= j < |pairs| && pairs[j] == (k, Get(pairs, k).value);
      PutAllStores(d, pairs, j);
    } else {
      PutAllOther(d, pairs, k);
    }
  }

  /** Existing keys keep their places, only the pairs' keys are added, and no
      key is repeated afterwards if none was before. */
  lemma {:induction false} PutAllKeys<V>(d: Dict<V>, pairs: Dict<V>)
    decreases |pairs|
    ensures forall k | HasKey(PutAll(d, pairs), k) :: HasKey(d, k) || HasKey(pairs, k)
    ensures Keys(d) <= Keys(PutAll(d, pairs))
    ensures DistinctKeys(d) ==> DistinctKeys(PutAll(d, pairs))
  {
    if |pairs| > 0 {
      Uncons(pairs);
      var d' := Put(d, pairs[0].0, pairs[0].1);
      PutAllKeys(d', pairs[1..]);
      forall k | HasKey(d', k)
        ensures HasKey(d, k) || k == pairs[0].0
      {
        assert Get(d', k).Some?;
      }
    }
  }

  /** Dicts with no key in common concatenate into a dict whose keys are the
      first dict's followed by the second's. */
  lemma DistinctConcat<V>(a: Dict<V>, b: Dict<V>)
    requires DistinctKeys(a) && DistinctKeys(b)
    requires forall k | HasKey(b, k) :: !HasKey(a, k)
    ensures Keys(a + b) == Keys(a) + Keys(b)
    ensures DistinctKeys(a + b)
  {
    forall i, j | 0 <= i < j < |a + b|
      ensures (a + b)[i].0 != (a + b)[j].0
    {
      if i < |a| && j >= |a| {
        assert b[j - |a|].0 == (a + b)[j].0;
        assert HasKey(b, (a + b)[j].0);
      }
    }
  }

  /** A key the first dict lacks is looked up in the second. */
  lemma GetConcat<V>(a: Dict<V>, b: Dict<V>, k: string)
    requires !HasKey(a, k)
    ensures Get(a + b, k) == Get(b, k)
  {
    match IndexOf(b, k)
    case None =>
    case Some(j) =>
      assert (a + b)[|a| + j] == b[j];
      var m := IndexOf(a + b, k).value;
      assert m >= |a| ==> (a + b)[m] == b[m - |a|];
  }

  /** `get` finds the first pair that holds the key. */
  lemma GetAt<V>(d: Dict<V>, i: nat, k: string)
    requires i < |d| && d[i].0 == k
    requires forall j | 0 <= j < i :: d[j].0 != k
    ensures Get(d, k) == Some(d[i].1)
  {
    assert HasKey(d, k);
  }

  /** The entries that hold a value, in order, unwrapped. */
  function Present<V>(entries: Dict<Option<V>>): (r: Dict<V>)
    decreases |entries|
    ensures forall k | HasKey(r, k) :: HasKey(entries, k)
    ensures forall i | 0 <= i < |entries| && entries[i].1.Some? :: (entries[i].0, entries[i].1.value) in r
    ensures forall i | 0 <= i < |r| :: (r[i].0, Some(r[i].1)) in entries
    ensures DistinctKeys(entries) ==> DistinctKeys(r)
  {
    if |entries| == 0 then []
    else
      var rest := Present(entries[1..]);
      Uncons(entries);
      assert forall i | 1 <= i < |entries| :: entries[i] == entries[1..][i - 1];
      match entries[0].1
      case Some(v) =>
        var r := [(entries[0].0, v)] + rest;
        Uncons(r);
        assert r[1..] == rest;
        assert DistinctKeys(entries) ==> DistinctKeys(r) by {
          if DistinctKeys(entries) {
            DistinctConcat([(entries[0].0, v)], rest);
          }
        }
        r
      case None => rest
  }

  /** One entry as `Present` keeps it: unwrapped when it holds a value,
      dropped otherwise. */
  function Kept<V>(e: (string, Option<V>)): Dict<V> {
    if e.1.Some? then [(e.0, e.1.value)] else []
  }

  /** `Present` looks at the first entry, then at the rest. */
  lemma PresentUncons<V>(entries: Dict<Option<V>>)
    requires |entries| > 0
    ensures Present(entries) == Kept(entries[0]) + Present(entries[1..])
  {
    if entries[0].1.None? {
      assert Kept(entries[0]) + Present(entries[1..]) == Present(entries[1..]);
    }
  }

  /** A single entry is kept exactly when it holds a value. */
  lemma PresentSingle<V>(e: (string, Option<V>))
    ensures Present([e]) == Kept(e)
  {
    PresentUncons([e]);
    assert [e][1..] == [];
    assert Kept(e) + [] == Kept(e);
  }

  /** `Present` works entry by entry: it keeps the entries' order. */
  lemma {:induction false} PresentAppend<V>(a: Dict<Option<V>>, b: Dict<Option<V>>)
    decreases |a|
    ensures Present(a + b) == Present(a) + Present(b)
  {
    if |a| == 0 {
      assert a + b == b;
    } else {
      ConsAppend(a, b);
      PresentUncons(a + b);
      PresentUncons(a);
      PresentAppend(a[1..], b);
      AppendAssoc(Kept(a[0]), Present(a[1..]), Present(b));
    }
  }

  /** The head and tail of `a + b` for a non-empty `a`. */
  lemma ConsAppend<T>(a: seq<T>, b: seq<T>)
    requires |a| > 0
    ensures (a + b)[0] == a[0] && (a + b)[1..] == a[1..] + b
  {
  }

  /** Concatenation regroups freely. */
  lemma AppendAssoc<T>(x: seq<T>, y: seq<T>, z: seq<T>)
    ensures x + (y + z) == (x + y) + z
  {
  }

  /** In a dict without repeated keys, `get` on the present entries finds
      each entry's value, or nothing when it holds none. */
  lemma PresentGet<V>(entries: Dict<Option<V>>, i: nat)
    requires DistinctKeys(entries) && i < |entries|
    ensures Get(Present(entries), entries[i].0) == entries[i].1
  {
    var r := Present(entries);
    var k := entries[i].0;
    if entries[i].1.Some? {
      GetStored(r, k, entries[i].1.value);
    }
  }
}
