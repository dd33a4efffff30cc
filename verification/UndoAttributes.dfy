/**
  Growing pools, and the attribute change that takes back another: the undo strings of Inverse in
  lib/changeset/changeset.go.
 */
module UndoAttributes {
  import opened Basics
  import opened Pools
  import opened Attributes
  import opened Rebasing

  /** Pool `q` knows all that pool `p` knows, under the same numbers. */
  ghost predicate Extends(p: Pool, q: Pool) {
    && (forall n :: n in p.numToAttrib ==> n in q.numToAttrib && q.numToAttrib[n] == p.numToAttrib[n])
    && (forall a :: a in p.attribToNum ==> a in q.attribToNum && q.attribToNum[a] == p.attribToNum[a])
  }

  lemma {:induction false} ExtendsTransitive(p: Pool, q: Pool, r: Pool)
    requires Extends(p, q) && Extends(q, r)
    ensures Extends(p, r)
  {}

  lemma {:induction false} ExtendsItself(p: Pool)
    ensures Extends(p, p)
  {}

  lemma {:induction false} LookupExtends(nums: seq<nat>, p: Pool, q: Pool)
    requires Extends(p, q) && Lookup(nums, p).Some?
    ensures Lookup(nums, q) == Lookup(nums, p)
  {
    if nums != [] { LookupExtends(nums[1..], p, q); }
  }

  /** An attribute string that a pool resolves keeps its meaning in every larger pool. */
  lemma {:induction false} MeaningExtends(a: string, p: Pool, q: Pool)
    requires Extends(p, q) && Resolved(a, p)
    ensures Resolved(a, q) && AttribsFromString(a, q) == AttribsFromString(a, p)
    ensures FromString(a, q) == FromString(a, p)
  {
    LookupExtends(Scan(a).0, p, q);
  }

  lemma {:induction false} PutExtends(p: Pool, a: Attribute)
    requires Good(p) && Trim(a.key) == a.key && Trim(a.value) == a.value
    ensures Good(p.Put(a).0) && Extends(p, p.Put(a).0) && a in p.Put(a).0.attribToNum
  {}

  /** The pool once the entries of `m` with keys `ks` are put into it. */
  function PutKeys(ks: seq<string>, m: AttribMap, pool: Pool): Pool {
    if ks == [] then pool
    else PutKeys(ks[1..], m, if ks[0] in m then pool.Put(Attribute(ks[0], m[ks[0]])).0 else pool)
  }

  lemma {:induction false} PutKeysPool(ks: seq<string>, m: AttribMap, pool: Pool)
    requires Good(pool) && forall k :: k in m ==> Trim(k) == k && Trim(m[k]) == m[k]
    ensures Good(PutKeys(ks, m, pool)) && Extends(pool, PutKeys(ks, m, pool))
    ensures forall k :: k in ks && k in m ==> Attribute(k, m[k]) in PutKeys(ks, m, pool).attribToNum
  {
    hide Good, Trim;
    if ks != [] {
      var p := if ks[0] in m then pool.Put(Attribute(ks[0], m[ks[0]])).0 else pool;
      if ks[0] in m { PutExtends(pool, Attribute(ks[0], m[ks[0]])); }
      PutKeysPool(ks[1..], m, p);
      assert forall k :: k in ks <==> k == ks[0] || k in ks[1..];
    }
  }

  /** Only pairs of `m` are put into the pool. */
  lemma {:induction false} PutKeysOnly(ks: seq<string>, m: AttribMap, pool: Pool, a: Attribute)
    requires a in PutKeys(ks, m, pool).attribToNum
    ensures a in pool.attribToNum || (a.key in m && m[a.key] == a.value)
    decreases |ks|
  {
    if ks != [] {
      PutKeysOnly(ks[1..], m, if ks[0] in m then pool.Put(Attribute(ks[0], m[ks[0]])).0 else pool, a);
    }
  }

  // ----- taking back a change -----

  /** The value of a key; an absent key has the empty value. */
  function OldValue(m: AttribMap, k: string): string { if k in m then m[k] else "" }

  /** For each key that `change` sets to another value, its old value. */
  function BackMap(change: AttribMap, was: AttribMap): AttribMap {
    map k | k in change && OldValue(was, k) != change[k] :: OldValue(was, k)
  }

  /** The attribute string that takes `change` back on a run with attribute string `was`, and the pool afterwards. */
  function Back(change: AttribMap, was: string, pool: Pool, order: Order, n: nat): (string, Pool) {
    var p := UpdatePool(AttribsFromString(was, pool), false, pool);
    var m := BackMap(change, FromString(was, pool));
    var q := PutKeys(order(n, change), m, p);
    (AttribString(m, q), q)
  }

  lemma {:induction false} NumbersResolved(m: AttribMap, pool: Pool)
    requires pool.Consistent() && Covers(pool, m)
    ensures Resolved(AttribString(m, pool), pool)
  {
    hide SortedKeys, Numbers, Encode, Scan;
    var ks := SortedKeys(m, pool, 0);
    forall k | k in ks ensures k in m { SortedKeysComplete(m, pool, 0, k); }
    LookupNumbers(m, ks, pool);
    ScanEncode(Numbers(m, ks, pool));
  }

  /** A string that the pool resolves reads as a map that the pool covers, and reading it does not change the pool. */
  lemma {:induction false} ResolvedCovers(a: string, pool: Pool)
    requires Good(pool)
    ensures Covers(pool, FromString(a, pool)) && UpdatePool(AttribsFromString(a, pool), false, pool) == pool
  {
    UpdateCovered(map[], AttribsFromString(a, pool), false, pool);
  }

  lemma {:induction false} BackFacts(change: AttribMap, was: string, pool: Pool, order: Order, n: nat)
    requires Good(pool) && Covers(pool, change) && Enumerates(order)
    ensures var (s, p) := Back(change, was, pool, order, n);
            && Good(p) && Extends(pool, p) && Resolved(s, p) && Covers(p, change)
            && FromString(s, p) == BackMap(change, FromString(was, pool))
  {
    hide AttribString, Update, UpdatePool, AttribsFromString, Trim, PutKeys, Resolved;
    ResolvedCovers(was, pool);
    var before := FromString(was, pool);
    var m := BackMap(change, before);
    assert Trim("") == "" by { TrimNothing(); }
    PutKeysPool(order(n, change), m, pool);
    var q := PutKeys(order(n, change), m, pool);
    assert forall k :: k in m ==> k in order(n, change);
    ReadBackString(m, q);
    NumbersResolved(m, q);
  }

  /** What is new in the pool has the empty value. */
  ghost predicate AddsEmpty(p: Pool, q: Pool) {
    forall a :: a in q.attribToNum ==> a in p.attribToNum || a.value == ""
  }

  lemma {:induction false} PutKeysNew(ks: seq<string>, m: AttribMap, pool: Pool, p: Pool)
    requires AddsEmpty(p, pool)
    requires forall k :: k in ks && k in m ==> Attribute(k, m[k]) in p.attribToNum || m[k] == ""
    ensures AddsEmpty(p, PutKeys(ks, m, pool))
    decreases |ks|
  {
    if ks != [] {
      assert ks[0] in ks;
      PutKeysNew(ks[1..], m, if ks[0] in m then pool.Put(Attribute(ks[0], m[ks[0]])).0 else pool, p);
    }
  }

  /**
    The string that takes a change back names exactly the keys whose values the change replaces by others, with their
    old values, empty where there were none; each key once and by ascending numbers. Only empty values are new in the
    pool.
   */
  lemma {:induction false} BackExact(change: AttribMap, was: string, pool: Pool, order: Order, n: nat)
    requires Good(pool) && Covers(pool, change) && Enumerates(order)
    ensures var (s, p) := Back(change, was, pool, order, n); Known(s, p) && Sorted(s) && AddsEmpty(pool, p)
    ensures var (s, p) := Back(change, was, pool, order, n);
            var before, back := FromString(was, pool), FromString(s, p);
            forall k ::
              && (k in back <==> k in change && change[k] != if k in before then before[k] else "")
              && (k in back ==> back[k] == if k in before then before[k] else "")
  {
    hide AttribString, Update, UpdatePool, AttribsFromString, Trim, PutKeys, Resolved, FromString, Known, Sorted;
    BackFacts(change, was, pool, order, n);
    ResolvedCovers(was, pool);
    var before := FromString(was, pool);
    var m := BackMap(change, before);
    assert Trim("") == "" by { TrimNothing(); }
    PutKeysPool(order(n, change), m, pool);
    var q := PutKeys(order(n, change), m, pool);
    assert forall k :: k in m ==> k in order(n, change);
    StringSorted(m, q);
    PutKeysNew(order(n, change), m, pool, pool);
  }

  lemma {:induction false} TrimNothing()
    ensures Trim("") == ""
  {}

  /** Changing a map and then taking the change back restores it exactly when no changed key held the empty value. */
  lemma {:induction false} BackRestores(m: AttribMap, change: AttribMap)
    ensures Overlay(Overlay(m, change), BackMap(change, m)) == m <==> forall k :: k in change && k in m ==> m[k] != ""
  {
    var r := Overlay(Overlay(m, change), BackMap(change, m));
    if k :| k in change && k in m && m[k] == "" {
      assert k !in r;
    } else {
      forall k ensures (k in r <==> k in m) && (k in m ==> r[k] == m[k]) {
        if k in change { assert k in BackMap(change, m) <==> OldValue(m, k) != change[k]; }
      }
    }
  }
}
