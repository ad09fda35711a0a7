/**
 * A JavaScript plain object as an insertion-ordered list of entries.
 * `Object.keys`, `Object.entries` and spread all follow insertion order,
 * and `{ ...o, [k]: v }` overwrites an existing key in place.
 */
module Records {
  import opened Wrappers

  /** `Object.keys(o)`, in insertion order. */
  function Keys<V>(o: seq<(string, V)>): (ks: seq<string>)
    ensures |ks| == |o|
    ensures forall i :: 0 <= i < |o| ==> ks[i] == o[i].0
  {
    seq(|o|, i requires 0 <= i < |o| => o[i].0)
  }

  predicate HasKey<V>(o: seq<(string, V)>, k: string) {
    exists i :: 0 <= i < |o| && o[i].0 == k
  }

  /** A well-formed object: no key appears twice. */
  predicate DistinctKeys<V>(o: seq<(string, V)>) {
    forall i, j :: 0 <= i < j < |o| ==> o[i].0 != o[j].0
  }

  /** `o[k]`: the value of the first entry with key `k`, `None` for `undefined`. */
  function Lookup<V>(o: seq<(string, V)>, k: string): (r: Option<V>)
    ensures r.Some? <==> HasKey(o, k)
    ensures r.Some? ==> exists i :: 0 <= i < |o| && o[i] == (k, r.value)
    decreases |o|
  {
    if |o| == 0 then None
    else if o[0].0 == k then Some(o[0].1)
    else
      var r := Lookup(o[1..], k);
      assert HasKey(o, k) ==> HasKey(o[1..], k) by {
        if HasKey(o, k) {
          var i :| 0 <= i < |o| && o[i].0 == k;
          assert o[1..][i - 1].0 == k;
        }
      }
      assert r.Some? ==> exists i :: 0 <= i < |o| && o[i] == (k, r.value) by {
        if r.Some? {
          var i :| 0 <= i < |o[1..]| && o[1..][i] == (k, r.value);
          assert o[i + 1] == (k, r.value);
        }
      }
      r
  }

  /** `{ ...o, [k]: v }`: overwrite `k` in place, or append it when absent. */
  function Put<V>(o: seq<(string, V)>, k: string, v: V): (r: seq<(string, V)>)
    ensures Lookup(r, k) == Some(v)
    ensures forall k' :: k' != k ==> Lookup(r, k') == Lookup(o, k')
    decreases |o|
  {
    if |o| == 0 then [(k, v)]
    else if o[0].0 == k then [(k, v)] + o[1..]
    else [o[0]] + Put(o[1..], k, v)
  }

  /** Overwriting an existing key keeps every key in its place. */
  lemma {:induction false} PutExisting<V>(o: seq<(string, V)>, k: string, v: V)
    requires HasKey(o, k)
    ensures |Put(o, k, v)| == |o|
    ensures forall i :: 0 <= i < |o| ==> Put(o, k, v)[i].0 == o[i].0
    decreases |o|
  {
    if o[0].0 != k {
      var i :| 0 <= i < |o| && o[i].0 == k;
      assert o[1..][i - 1].0 == k;
      PutExisting(o[1..], k, v);
      var r := Put(o, k, v);
      assert r == [o[0]] + Put(o[1..], k, v);
      forall j | 0 <= j < |o| ensures r[j].0 == o[j].0 {
        if j > 0 {
          assert r[j] == Put(o[1..], k, v)[j - 1];
        }
      }
    }
  }

  /** A new key goes to the end. */
  lemma {:induction false} PutFresh<V>(o: seq<(string, V)>, k: string, v: V)
    requires !HasKey(o, k)
    ensures Put(o, k, v) == o + [(k, v)]
    decreases |o|
  {
    if |o| > 0 {
      assert o[0].0 != k;
      PutFresh(o[1..], k, v);
      assert [o[0]] + (o[1..] + [(k, v)]) == o + [(k, v)];
    }
  }

  /** `{ ...a, ...b }`: the entries of `b` written onto `a`, one after the other. */
  function Assign<V>(a: seq<(string, V)>, b: seq<(string, V)>): seq<(string, V)>
    decreases |b|
  {
    if |b| == 0 then a else Assign(Put(a, b[0].0, b[0].1), b[1..])
  }

  /** After a spread, a key takes its value from `b` when `b` has it, and from `a` otherwise. */
  lemma {:induction false} AssignLookup<V>(a: seq<(string, V)>, b: seq<(string, V)>, k: string)
    requires DistinctKeys(b)
    ensures Lookup(Assign(a, b), k) == if HasKey(b, k) then Lookup(b, k) else Lookup(a, k)
    decreases |b|
  {
    if |b| > 0 {
      assert DistinctKeys(b[1..]) by {
        forall i, j | 0 <= i < j < |b[1..]| ensures b[1..][i].0 != b[1..][j].0 {
          assert b[1..][i] == b[i + 1] && b[1..][j] == b[j + 1];
        }
      }
      AssignLookup(Put(a, b[0].0, b[0].1), b[1..], k);
      if b[0].0 == k {
        assert !HasKey(b[1..], k) by {
          forall j | 0 <= j < |b[1..]| ensures b[1..][j].0 != k {
            assert b[1..][j] == b[j + 1];
          }
        }
      } else {
        assert HasKey(b, k) <==> HasKey(b[1..], k) by {
          if HasKey(b, k) {
            var i :| 0 <= i < |b| && b[i].0 == k;
            assert b[1..][i - 1].0 == k;
          }
          if HasKey(b[1..], k) {
            var i :| 0 <= i < |b[1..]| && b[1..][i].0 == k;
            assert b[i + 1].0 == k;
          }
        }
      }
    }
  }

  /** Writing a key never creates a duplicate key. */
  lemma PutKeepsDistinct<V>(o: seq<(string, V)>, k: string, v: V)
    requires DistinctKeys(o)
    ensures DistinctKeys(Put(o, k, v))
  {
    if HasKey(o, k) {
      PutExisting(o, k, v);
    } else {
      PutFresh(o, k, v);
    }
  }

  /** Key `k` occurs at most once. */
  predicate AtMostOnce<V>(o: seq<(string, V)>, k: string) {
    forall i, j :: 0 <= i < j < |o| && o[i].0 == k ==> o[j].0 != k
  }

  /** Looking up the key of an entry that no earlier entry shares finds that entry's value. */
  lemma {:induction false} LookupFirst<V>(o: seq<(string, V)>, i: nat)
    requires i < |o| && forall j :: 0 <= j < i ==> o[j].0 != o[i].0
    ensures Lookup(o, o[i].0) == Some(o[i].1)
    decreases i
  {
    if i > 0 {
      assert o[0].0 != o[i].0;
      forall j | 0 <= j < i - 1 ensures o[1..][j].0 != o[1..][i - 1].0 {
        assert o[1..][j] == o[j + 1];
      }
      LookupFirst(o[1..], i - 1);
    }
  }

  /** In a well-formed object, looking up the key of an entry finds that entry's value. */
  lemma LookupAt<V>(o: seq<(string, V)>, i: nat)
    requires DistinctKeys(o) && i < |o|
    ensures Lookup(o, o[i].0) == Some(o[i].1)
  {
    LookupFirst(o, i);
  }
}
