/**
  Attribute strings such as "*0*1f" and the attribute maps they stand for:
  lib/changeset/attributes.go, lib/changeset/AttributeMap.go and the attribute
  functions of lib/changeset/changeset.go.
 */
module Attributes {
  import opened Basics
  import opened Numerals
  import opened Pools

  type AttribMap = map<string, string>

  // ----- attribute strings and attribute numbers -----

  /** The numbers referred to by "*n" in `s`, and whether nothing else is in it (newlines aside). */
  function Scan(s: string): (r: (seq<nat>, bool))
    decreases |s|
  {
    if s == [] then ([], true)
    else
      var k := DigitRun(s[1..]);
      if s[0] == '*' && k > 0 then
        var (nums, clean) := Scan(s[1 + k..]);
        ([ParseNum(s[1..][..k])] + nums, clean)
      else
        var (nums, clean) := Scan(s[1..]);
        (nums, clean && s[0] == '\n')
  }

  function Encode(nums: seq<nat>): string {
    if nums == [] then "" else "*" + NumToString(nums[0]) + Encode(nums[1..])
  }

  lemma {:induction false} ScanEncode(nums: seq<nat>)
    ensures Scan(Encode(nums)) == (nums, true)
  {
    if nums != [] {
      var a, b := NumToString(nums[0]), Encode(nums[1..]);
      var s := Encode(nums);
      assert s[1..] == a + b;
      RunOfNumeral(a, b);
      assert s[1 + |a|..] == b && s[1..][..|a|] == a;
      ParsePrinted(nums[0]);
      ScanEncode(nums[1..]);
      assert nums == [nums[0]] + nums[1..];
    }
  }

  function Lookup(nums: seq<nat>, pool: Pool): (r: Option<seq<Attribute>>)
    ensures r.Some? ==> |r.value| == |nums| && forall i :: 0 <= i < |nums| ==>
            nums[i] in pool.numToAttrib && r.value[i] == pool.numToAttrib[nums[i]]
  {
    if nums == [] then Some([])
    else if nums[0] !in pool.numToAttrib then None
    else match Lookup(nums[1..], pool)
      case None => None
      case Some(rest) => Some([pool.numToAttrib[nums[0]]] + rest)
  }

  /** The attributes named by `s`; none at all if `s` is malformed or names an unknown number. */
  function AttribsFromString(s: string, pool: Pool): (r: seq<Attribute>)
    ensures forall e :: e in r ==> exists n :: n in pool.numToAttrib && pool.numToAttrib[n] == e
  {
    var (nums, clean) := Scan(s);
    var l := Lookup(nums, pool);
    if clean && l.Some? then l.value else []
  }

  // ----- attribute maps -----

  predicate IsSpace(c: char) {
    c in "\t\n\r \U{B}\U{C}\U{85}\U{A0}\U{1680}\U{2028}\U{2029}\U{202F}\U{205F}\U{3000}"
        || '\U{2000}' <= c <= '\U{200A}'
  }

  /** `s` without leading and trailing white space. */
  function Trim(s: string): string {
    if s == [] then s
    else if IsSpace(s[0]) then Trim(s[1..])
    else if IsSpace(s[|s| - 1]) then Trim(s[..|s| - 1])
    else s
  }

  function Put(m: AttribMap, e: Attribute, emptyIsDelete: bool): AttribMap {
    if Trim(e.value) == "" && emptyIsDelete then m - {Trim(e.key)} else m[Trim(e.key) := Trim(e.value)]
  }

  /** The entries are put into `m` one by one. */
  function Update(m: AttribMap, entries: seq<Attribute>, emptyIsDelete: bool): AttribMap
    decreases |entries|
  {
    if entries == [] then m else Update(Put(m, entries[0], emptyIsDelete), entries[1..], emptyIsDelete)
  }

  /** The pool after the same update: every value that is set is also put into the pool. */
  function UpdatePool(entries: seq<Attribute>, emptyIsDelete: bool, pool: Pool): Pool {
    if entries == [] then pool
    else
      var e := Attribute(Trim(entries[0].key), Trim(entries[0].value));
      UpdatePool(entries[1..], emptyIsDelete, if e.value == "" && emptyIsDelete then pool else pool.Put(e).0)
  }

  function UpdateFromString(m: AttribMap, s: string, emptyIsDelete: bool, pool: Pool): AttribMap {
    Update(m, AttribsFromString(s, pool), emptyIsDelete)
  }

  function FromString(s: string, pool: Pool): AttribMap { UpdateFromString(map[], s, false, pool) }

  /** What is trimmed off is white space on both sides, as much as there is. */
  lemma {:induction false} TrimMeans(s: string) returns (a: string, b: string)
    ensures s == a + Trim(s) + b && (forall c :: c in a ==> IsSpace(c)) && forall c :: c in b ==> IsSpace(c)
    ensures Trim(s) == "" || (!IsSpace(Trim(s)[0]) && !IsSpace(Trim(s)[|Trim(s)| - 1]))
    decreases |s|
  {
    hide IsSpace;
    a, b := "", "";
    if s != "" {
      if IsSpace(s[0]) {
        a, b := TrimMeans(s[1..]);
        assert s == [s[0]] + s[1..];
        assert forall c :: c in [s[0]] + a <==> c == s[0] || c in a;
        a := [s[0]] + a;
      } else if IsSpace(s[|s| - 1]) {
        a, b := TrimMeans(s[..|s| - 1]);
        assert s == s[..|s| - 1] + [s[|s| - 1]];
        assert forall c :: c in b + [s[|s| - 1]] <==> c in b || c == s[|s| - 1];
        b := b + [s[|s| - 1]];
      } else {
        assert "" + s + "" == s;
      }
    }
  }

  /** The trimmed value of the last entry for a key. */
  function LastValue(entries: seq<Attribute>, k: string): Option<string> {
    if entries == [] then None
    else
      var l := |entries| - 1;
      if Trim(entries[l].key) == k then Some(Trim(entries[l].value)) else LastValue(entries[..l], k)
  }

  lemma {:induction false} LastBehind(e: Attribute, entries: seq<Attribute>, k: string)
    ensures LastValue([e] + entries, k) ==
            if LastValue(entries, k).Some? then LastValue(entries, k)
            else if Trim(e.key) == k then Some(Trim(e.value)) else None
    decreases |entries|
  {
    hide Trim;
    var all, l := [e] + entries, |entries| - 1;
    if entries == [] {
      assert all[..0] == [] && all == [e];
    } else {
      assert all[..l + 1] == [e] + entries[..l];
      LastBehind(e, entries[..l], k);
    }
  }

  /** For each key the last entry decides: it sets the trimmed value, or removes the key if that is empty. */
  lemma {:induction false} UpdateMeans(m: AttribMap, entries: seq<Attribute>, del: bool, k: string)
    ensures var r := Update(m, entries, del);
            match LastValue(entries, k)
            case None => (k in r <==> k in m) && (k in r ==> r[k] == m[k])
            case Some(v) => if v == "" && del then k !in r else k in r && r[k] == v
    decreases |entries|
  {
    hide Trim, LastValue;
    if entries == [] {
      assert LastValue([], k) == None by { NoLast(k); }
    } else {
      assert entries == [entries[0]] + entries[1..];
      LastBehind(entries[0], entries[1..], k);
      UpdateMeans(Put(m, entries[0], del), entries[1..], del, k);
    }
  }

  /** The pool gets the trimmed entries that are set, and nothing else. */
  lemma {:induction false} UpdatePoolMeans(entries: seq<Attribute>, del: bool, pool: Pool, a: Attribute)
    ensures a in UpdatePool(entries, del, pool).attribToNum <==>
            a in pool.attribToNum
            || (!(a.value == "" && del)
                && exists e :: e in entries && a == Attribute(Trim(e.key), Trim(e.value)))
    decreases |entries|
  {
    hide Trim;
    if entries != [] {
      var e := Attribute(Trim(entries[0].key), Trim(entries[0].value));
      UpdatePoolMeans(entries[1..], del, if e.value == "" && del then pool else pool.Put(e).0, a);
      assert forall x :: x in entries <==> x == entries[0] || x in entries[1..];
    }
  }

  lemma {:induction false} NoLast(k: string)
    ensures LastValue([], k) == None
  {}

  /** The keys of `m` in the order of the pool numbers of their attributes, from number `i` on. */
  function SortedKeys(m: AttribMap, pool: Pool, i: nat): (ks: seq<string>)
    decreases pool.nextNum - i
  {
    if i >= pool.nextNum then []
    else
      var rest := SortedKeys(m, pool, i + 1);
      if i in pool.numToAttrib && pool.numToAttrib[i].key in m
          && m[pool.numToAttrib[i].key] == pool.numToAttrib[i].value
      then [pool.numToAttrib[i].key] + rest else rest
  }

  /** The pool numbers of the attributes of `m`, key by key in the order `ks`. */
  function Numbers(m: AttribMap, ks: seq<string>, pool: Pool): seq<nat> {
    if ks == [] then []
    else
      var rest := Numbers(m, ks[1..], pool);
      if ks[0] in m then
        var n := pool.Put(Attribute(ks[0], m[ks[0]])).1;
        if n >= 0 then [n] + rest else rest
      else rest
  }

  /** The attribute string of `m`, sorted by pool number. */
  function AttribString(m: AttribMap, pool: Pool): string {
    Encode(Numbers(m, SortedKeys(m, pool, 0), pool))
  }

  // ----- reading back what was written -----

  /** Every attribute of `m` is in the pool, and its key and value carry no outer white space. */
  ghost predicate Covers(pool: Pool, m: AttribMap) {
    forall k :: k in m ==> Attribute(k, m[k]) in pool.attribToNum && Trim(k) == k && Trim(m[k]) == m[k]
  }

  function Listing(m: AttribMap, ks: seq<string>): (r: seq<Attribute>)
    requires forall k :: k in ks ==> k in m
    ensures |r| == |ks|
  {
    if ks == [] then [] else [Attribute(ks[0], m[ks[0]])] + Listing(m, ks[1..])
  }

  lemma {:induction false} LookupNumbers(m: AttribMap, ks: seq<string>, pool: Pool)
    requires pool.Consistent() && Covers(pool, m)
    requires forall k :: k in ks ==> k in m
    ensures Lookup(Numbers(m, ks, pool), pool) == Some(Listing(m, ks))
  {
    if ks != [] {
      assert ks[0] in ks;
      var a := Attribute(ks[0], m[ks[0]]);
      LookupNumbers(m, ks[1..], pool);
      var n := pool.attribToNum[a];
      assert Numbers(m, ks, pool) == [n] + Numbers(m, ks[1..], pool);
    }
  }

  lemma {:induction false} UpdateListing(m: AttribMap, ks: seq<string>, acc: AttribMap)
    requires forall k :: k in ks ==> k in m
    requires forall k :: k in m ==> Trim(k) == k && Trim(m[k]) == m[k]
    requires forall k :: k in acc ==> k in m && acc[k] == m[k]
    requires forall k :: k in m ==> k in acc || k in ks
    ensures Update(acc, Listing(m, ks), false) == m
  {
    if ks == [] {
      assert acc == m;
    } else {
      assert ks[0] in ks;
      UpdateListing(m, ks[1..], acc[ks[0] := m[ks[0]]]);
    }
  }

  /** An attribute map written down in any order of its keys reads back as the same map. */
  lemma {:induction false} ReadBack(m: AttribMap, ks: seq<string>, pool: Pool)
    requires pool.Consistent() && Covers(pool, m)
    requires forall k :: k in ks <==> k in m
    ensures FromString(Encode(Numbers(m, ks, pool)), pool) == m
    ensures AttribsFromString(Encode(Numbers(m, ks, pool)), pool) == Listing(m, ks)
  {
    ScanEncode(Numbers(m, ks, pool));
    LookupNumbers(m, ks, pool);
    UpdateListing(m, ks, map[]);
  }

  lemma {:induction false} SortedKeysComplete(m: AttribMap, pool: Pool, i: nat, k: string)
    requires pool.Consistent()
    ensures k in SortedKeys(m, pool, i) <==>
            k in m && Attribute(k, m[k]) in pool.attribToNum && pool.attribToNum[Attribute(k, m[k])] >= i
    decreases pool.nextNum - i
  {
    if i < pool.nextNum {
      SortedKeysComplete(m, pool, i + 1, k);
    }
  }

  lemma {:induction false} ReadBackString(m: AttribMap, pool: Pool)
    requires pool.Consistent() && Covers(pool, m)
    ensures FromString(AttribString(m, pool), pool) == m
  {
    forall k ensures k in SortedKeys(m, pool, 0) <==> k in m {
      SortedKeysComplete(m, pool, 0, k);
    }
    ReadBack(m, SortedKeys(m, pool, 0), pool);
  }

  // ----- the strings that are written -----

  /** `a` is a list of "*n" whose numbers the pool knows, no key twice. */
  predicate Known(a: string, pool: Pool) {
    Scan(a).1 && Lookup(Scan(a).0, pool).Some? && DistinctKeys(AttribsFromString(a, pool))
  }

  predicate DistinctKeys(entries: seq<Attribute>) {
    forall i, j :: 0 <= i < j < |entries| ==> entries[i].key != entries[j].key
  }

  predicate Ascending(nums: seq<nat>) { forall i, j :: 0 <= i < j < |nums| ==> nums[i] < nums[j] }

  /** The numbers in the string ascend. */
  predicate Sorted(a: string) { Ascending(Scan(a).0) }

  lemma {:induction false} ListingKeys(m: AttribMap, ks: seq<string>)
    requires NoRepeats(ks) && forall k :: k in ks ==> k in m
    ensures DistinctKeys(Listing(m, ks)) && forall i :: 0 <= i < |ks| ==> Listing(m, ks)[i].key == ks[i]
  {
    if ks != [] { ListingKeys(m, ks[1..]); }
  }

  /** A map written down in any order of its keys, each named once, is a string that the pool knows. */
  lemma {:induction false} WrittenKnown(m: AttribMap, ks: seq<string>, pool: Pool)
    requires pool.Consistent() && Covers(pool, m)
    requires NoRepeats(ks) && forall k :: k in ks ==> k in m
    ensures Known(Encode(Numbers(m, ks, pool)), pool)
  {
    hide Scan, Lookup, Numbers, Encode;
    ScanEncode(Numbers(m, ks, pool));
    LookupNumbers(m, ks, pool);
    ListingKeys(m, ks);
  }

  lemma {:induction false} AscendingBefore(n: nat, ns: seq<nat>)
    requires Ascending(ns) && forall k :: k in ns ==> n < k
    ensures Ascending([n] + ns)
  {
    var s := [n] + ns;
    forall i, j | 0 <= i < j < |s| ensures s[i] < s[j] {
      assert s[j] == ns[j - 1] && ns[j - 1] in ns;
      if i > 0 { assert s[i] == ns[i - 1]; }
    }
  }

  lemma {:induction false} SortedNumbers(m: AttribMap, pool: Pool, i: nat)
    requires pool.Consistent()
    ensures var ns := Numbers(m, SortedKeys(m, pool, i), pool); Ascending(ns) && forall n :: n in ns ==> i <= n
    ensures NoRepeats(SortedKeys(m, pool, i))
    decreases pool.nextNum - i
  {
    if i < pool.nextNum {
      SortedNumbers(m, pool, i + 1);
      var rest, a := SortedKeys(m, pool, i + 1), pool.numToAttrib[i];
      if a.key in m && m[a.key] == a.value {
        var ks := [a.key] + rest;
        assert ks[1..] == rest && Attribute(a.key, m[a.key]) == a;
        SortedKeysComplete(m, pool, i + 1, a.key);
        assert a.key !in rest;
        var ns := Numbers(m, rest, pool);
        assert Numbers(m, ks, pool) == [i] + ns;
        AscendingBefore(i, ns);
      }
    }
  }

  /** The string of a map names each attribute once, by ascending numbers. */
  lemma {:induction false} StringSorted(m: AttribMap, pool: Pool)
    requires pool.Consistent()
    ensures Sorted(AttribString(m, pool))
    ensures Covers(pool, m) ==> Known(AttribString(m, pool), pool)
  {
    hide Scan, Lookup, Numbers, Encode, Known, SortedKeys;
    SortedNumbers(m, pool, 0);
    ScanEncode(Numbers(m, SortedKeys(m, pool, 0), pool));
    if Covers(pool, m) {
      forall k | k in SortedKeys(m, pool, 0) ensures k in m { SortedKeysComplete(m, pool, 0, k); }
      WrittenKnown(m, SortedKeys(m, pool, 0), pool);
    }
  }

  // ----- composition of attribute changes -----

  /** All attributes of the pool are trimmed, as attributes set through a map always are. */
  ghost predicate Trimmed(pool: Pool) {
    forall a :: a in pool.attribToNum ==> Trim(a.key) == a.key && Trim(a.value) == a.value
  }

  ghost predicate Good(pool: Pool) { pool.Consistent() && Trimmed(pool) }

  /** Two attribute strings as one, with the pool afterwards. */
  function ComposeAttributes(a1: string, a2: string, resultIsMutation: bool, pool: Pool): (r: (string, Pool)) {
    if a1 == "" && resultIsMutation then (a2, pool)
    else if a2 == "" then (a1, pool)
    else
      var e1 := AttribsFromString(a1, pool);
      var p1 := UpdatePool(e1, false, pool);
      var e2 := AttribsFromString(a2, p1);
      var p2 := UpdatePool(e2, !resultIsMutation, p1);
      (AttribString(Update(Update(map[], e1, false), e2, !resultIsMutation), p2), p2)
  }

  /** The change `c` made on `m`: an empty value removes its key. */
  function Overlay(m: AttribMap, c: AttribMap): AttribMap {
    map k | k in m.Keys + c.Keys && !(k in c && c[k] == "") :: if k in c then c[k] else m[k]
  }

  lemma {:induction false} PutIsOverlay(m: AttribMap, c: AttribMap, e: Attribute)
    ensures Put(Overlay(m, c), e, true) == Overlay(m, Put(c, e, false))
  {
    hide Trim;
  }

  lemma {:induction false} UpdateIsOverlay(m: AttribMap, c: AttribMap, entries: seq<Attribute>)
    ensures Update(Overlay(m, c), entries, true) == Overlay(m, Update(c, entries, false))
    decreases |entries|
  {
    if entries != [] {
      hide Put, Overlay;
      var e := entries[0];
      PutIsOverlay(m, c, e);
      UpdateIsOverlay(m, Put(c, e, false), entries[1..]);
    }
  }

  /** A change by string is the overlay of the map the string stands for. */
  lemma {:induction false} MutationIsOverlay(m: AttribMap, a: string, pool: Pool)
    ensures UpdateFromString(m, a, true, pool) == Overlay(m, FromString(a, pool))
  {
    assert Overlay(m, map[]) == m;
    UpdateIsOverlay(m, map[], AttribsFromString(a, pool));
  }

  lemma {:induction false} UpdateCovered(m: AttribMap, entries: seq<Attribute>, del: bool, pool: Pool)
    requires Good(pool) && Covers(pool, m)
    requires forall e :: e in entries ==> e in pool.attribToNum
    ensures Covers(pool, Update(m, entries, del)) && UpdatePool(entries, del, pool) == pool
    decreases |entries|
  {
    if entries != [] {
      assert entries[0] in entries;
      UpdateCovered(Put(m, entries[0], del), entries[1..], del, pool);
    }
  }

  /** What ComposeAttributes returns: the string of the updated map, and the pool unchanged. */
  lemma {:induction false} ComposeAttributesMap(a1: string, a2: string, mutation: bool, pool: Pool)
    requires Good(pool)
    ensures var (a, p) := ComposeAttributes(a1, a2, mutation, pool);
            p == pool && FromString(a, pool) == UpdateFromString(FromString(a1, pool), a2, !mutation, pool)
  {
    var e1, e2 := AttribsFromString(a1, pool), AttribsFromString(a2, pool);
    UpdateCovered(map[], e1, false, pool);
    UpdateCovered(FromString(a1, pool), e2, !mutation, pool);
    ReadBackString(UpdateFromString(FromString(a1, pool), a2, !mutation, pool), pool);
  }

  /** Two successive changes of an attributed character are the one composed change. */
  lemma {:induction false} ComposeMutations(m: AttribMap, a1: string, a2: string, pool: Pool)
    requires Good(pool)
    ensures UpdateFromString(UpdateFromString(m, a1, true, pool), a2, true, pool) ==
            UpdateFromString(m, ComposeAttributes(a1, a2, true, pool).0, true, pool)
  {
    ComposeAttributesMap(a1, a2, true, pool);
    MutationIsOverlay(m, a1, pool);
    UpdateIsOverlay(m, FromString(a1, pool), AttribsFromString(a2, pool));
    MutationIsOverlay(m, ComposeAttributes(a1, a2, true, pool).0, pool);
  }

  // ----- concurrent attribute changes -----

  /** Go's order of strings: by characters, a prefix first. */
  predicate LexLe(a: string, b: string) {
    a == [] || (b != [] && (a[0] < b[0] || (a[0] == b[0] && LexLe(a[1..], b[1..]))))
  }

  /** That is the order of strings: one comes first that is a beginning of the other, or smaller where they differ. */
  lemma {:induction false} LexLeMeans(a: string, b: string)
    ensures LexLe(a, b) <==> a <= b || exists i :: 0 <= i < |a| && i < |b| && a[..i] == b[..i] && a[i] < b[i]
  {
    if a != [] && b != [] && a[0] == b[0] {
      LexLeMeans(a[1..], b[1..]);
      assert a <= b <==> a[1..] <= b[1..];
      if i :| 0 <= i < |a[1..]| && i < |b[1..]| && a[1..][..i] == b[1..][..i] && a[1..][i] < b[1..][i] {
        assert a[..i + 1] == [a[0]] + a[1..][..i] && b[..i + 1] == [b[0]] + b[1..][..i] && a[i + 1] < b[i + 1];
      }
      if i :| 0 <= i < |a| && i < |b| && a[..i] == b[..i] && a[i] < b[i] {
        assert a[1..][..i - 1] == a[..i][1..] && b[1..][..i - 1] == b[..i][1..] && a[1..][i - 1] < b[1..][i - 1];
      }
    } else if a != [] && b != [] && a[0] < b[0] {
      assert a[..0] == b[..0];
    }
  }

  lemma {:induction false} LexLeTotal(a: string, b: string)
    ensures LexLe(a, b) || LexLe(b, a)
    ensures LexLe(a, b) && LexLe(b, a) ==> a == b
  {
    if a != [] && b != [] {
      LexLeTotal(a[1..], b[1..]);
      assert a == [a[0]] + a[1..] && b == [b[0]] + b[1..];
    }
  }

  /** The last value of each key. */
  function Collect(entries: seq<Attribute>, m: AttribMap): AttribMap {
    if entries == [] then m else Collect(entries[1..], m[entries[0].key := entries[0].value])
  }

  /** The keys of `entries` whose value is not the larger one lose their entry in `m`. */
  function Yield(entries: seq<Attribute>, m: AttribMap): AttribMap {
    if entries == [] then m
    else
      var e := entries[0];
      Yield(entries[1..], if e.key in m && LexLe(e.value, m[e.key]) then m - {e.key} else m)
  }

  /** The order in which one pass over a map, the n-th of a run, visits its keys. */
  type Order = (nat, AttribMap) -> seq<string>

  ghost predicate Enumerates(order: Order) {
    forall n, m :: NoRepeats(order(n, m)) && forall k :: k in order(n, m) <==> k in m
  }

  predicate NoRepeats(ks: seq<string>) { forall i, j :: 0 <= i < j < |ks| ==> ks[i] != ks[j] }

  ghost function SomeKeys(ks: set<string>): (r: seq<string>)
    ensures NoRepeats(r) && forall k :: k in r <==> k in ks
  {
    if ks == {} then []
    else
      var k :| k in ks;
      [k] + SomeKeys(ks - {k})
  }

  /** There are such orders. */
  lemma {:induction false} OrderExists() returns (order: Order)
    ensures Enumerates(order)
  {
    order := (n: nat, m: AttribMap) => SomeKeys(m.Keys);
    forall n, m: AttribMap ensures NoRepeats(order(n, m)) && forall k :: k in order(n, m) <==> k in m {
      assert forall k :: k in order(n, m) <==> k in m.Keys;
    }
  }

  /** The change that, made after `a1`, brings in the concurrent change `a2`; pass `n` of the run. */
  function FollowAttributes(a1: string, a2: string, pool: Pool, order: Order, n: nat): (r: Result<string>) {
    if a2 == "" then Ok("")
    else if a1 == "" then Ok(a2)
    else
      var e1, e2 := Lookup(Scan(a1).0, pool), Lookup(Scan(a2).0, pool);
      if e1.None? || e2.None? then Err("attrib not found")
      else
        var m := Yield(e1.value, Collect(e2.value, map[]));
        Ok(Encode(Numbers(m, order(n, m), pool)))
  }

  lemma {:induction false} CollectIsUpdate(entries: seq<Attribute>, m: AttribMap)
    requires forall e :: e in entries ==> Trim(e.key) == e.key && Trim(e.value) == e.value
    ensures Collect(entries, m) == Update(m, entries, false)
    decreases |entries|
  {
    if entries != [] {
      assert entries[0] in entries;
      CollectIsUpdate(entries[1..], m[entries[0].key := entries[0].value]);
    }
  }

  lemma {:induction false} CollectHas(entries: seq<Attribute>, m: AttribMap, k: string)
    requires DistinctKeys(entries)
    requires forall e :: e in entries ==> e.key !in m
    ensures k in Collect(entries, m) <==> k in m || exists e :: e in entries && e.key == k
    ensures k in m ==> Collect(entries, m)[k] == m[k]
    ensures forall e :: e in entries && e.key == k ==> Collect(entries, m)[k] == e.value
    decreases |entries|
  {
    if entries != [] {
      var e := entries[0];
      assert e in entries;
      assert forall x :: x in entries <==> x == e || x in entries[1..];
      CollectHas(entries[1..], m[e.key := e.value], k);
    }
  }

  lemma {:induction false} YieldHas(entries: seq<Attribute>, m: AttribMap, k: string)
    ensures k in Yield(entries, m) <==>
            k in m && forall e :: e in entries && e.key == k ==> !LexLe(e.value, m[k])
    ensures k in Yield(entries, m) ==> Yield(entries, m)[k] == m[k]
    decreases |entries|
  {
    if entries != [] {
      var e := entries[0];
      assert forall x :: x in entries <==> x == e || x in entries[1..];
      YieldHas(entries[1..], if e.key in m && LexLe(e.value, m[e.key]) then m - {e.key} else m, k);
    }
  }

  function LexMin(a: string, b: string): string { if LexLe(a, b) then a else b }

  /** Both changes; on a key of both the lexically smaller value. */
  function Merge(c1: AttribMap, c2: AttribMap): AttribMap {
    map k | k in c1.Keys + c2.Keys ::
      if k !in c2 then c1[k] else if k !in c1 then c2[k] else LexMin(c1[k], c2[k])
  }

  lemma {:induction false} MergeCommutes(c1: AttribMap, c2: AttribMap)
    ensures Merge(c1, c2) == Merge(c2, c1)
  {
    forall k | k in c1 && k in c2 ensures LexMin(c1[k], c2[k]) == LexMin(c2[k], c1[k]) {
      LexLeTotal(c1[k], c2[k]);
    }
  }

  /** What a known string stands for. */
  lemma {:induction false} KnownMap(a: string, pool: Pool)
    requires Good(pool) && Known(a, pool)
    ensures Lookup(Scan(a).0, pool).value == AttribsFromString(a, pool)
    ensures FromString(a, pool) == Collect(AttribsFromString(a, pool), map[])
    ensures Covers(pool, FromString(a, pool))
  {
    CollectIsUpdate(AttribsFromString(a, pool), map[]);
    UpdateCovered(map[], AttribsFromString(a, pool), false, pool);
  }

  lemma {:induction false} CollectCovered(entries: seq<Attribute>, m: AttribMap, pool: Pool)
    requires Good(pool) && Covers(pool, m) && forall e :: e in entries ==> e in pool.attribToNum
    ensures Covers(pool, Collect(entries, m))
    decreases |entries|
  {
    hide Trim;
    if entries != [] {
      assert entries[0] in entries;
      CollectCovered(entries[1..], m[entries[0].key := entries[0].value], pool);
    }
  }

  // ----- one string for each map -----

  lemma {:induction false} SomethingIn(t: seq<nat>)
    requires t != []
    ensures exists n :: n in t
  {
    assert t[0] in t;
  }

  lemma {:induction false} FirstIsLeast(s: seq<nat>)
    requires Ascending(s) && s != []
    ensures forall n :: n in s ==> s[0] <= n
    ensures forall n :: n in s[1..] <==> n in s && n != s[0]
  {
    forall n | n in s && n != s[0] ensures n in s[1..] && s[0] < n {
      var i :| 0 <= i < |s| && s[i] == n;
      assert s[1..][i - 1] == n;
    }
  }

  lemma {:induction false} AscendingUnique(s: seq<nat>, t: seq<nat>)
    requires Ascending(s) && Ascending(t) && forall n :: n in s <==> n in t
    ensures s == t
  {
    if s == [] {
      if t != [] { SomethingIn(t); }
    } else {
      assert s[0] in t;
      FirstIsLeast(s);
      FirstIsLeast(t);
      assert t[0] in s && s[0] == t[0];
      AscendingUnique(s[1..], t[1..]);
      assert s == [s[0]] + s[1..] && t == [t[0]] + t[1..];
    }
  }

  lemma {:induction false} NamedAre(a: string, pool: Pool, n: nat)
    requires Good(pool) && Known(a, pool)
    ensures n in Scan(a).0 <==>
            n in pool.numToAttrib && pool.numToAttrib[n].key in FromString(a, pool)
            && FromString(a, pool)[pool.numToAttrib[n].key] == pool.numToAttrib[n].value
  {
    hide Scan, Trim, FromString, Collect;
    KnownMap(a, pool);
    var nums, es := Scan(a).0, AttribsFromString(a, pool);
    if n in nums {
      var i :| 0 <= i < |nums| && nums[i] == n;
      CollectHas(es, map[], es[i].key);
      assert es[i] in es;
    }
    if n in pool.numToAttrib {
      CollectHas(es, map[], pool.numToAttrib[n].key);
      if pool.numToAttrib[n] in es {
        var i :| 0 <= i < |es| && es[i] == pool.numToAttrib[n];
        assert nums[i] == n;
      }
    }
  }

  /** A sorted string without repetitions is, up to how its numbers are written, the one string of its map. */
  lemma {:induction false} SortedUnique(a: string, b: string, pool: Pool)
    requires Good(pool) && Known(a, pool) && Known(b, pool) && Sorted(a) && Sorted(b)
    requires FromString(a, pool) == FromString(b, pool)
    ensures Scan(a).0 == Scan(b).0
  {
    hide Scan, FromString, Known, Good;
    forall n ensures n in Scan(a).0 <==> n in Scan(b).0 {
      NamedAre(a, pool, n);
      NamedAre(b, pool, n);
    }
    AscendingUnique(Scan(a).0, Scan(b).0);
  }

  /**
    Composing strings that name known attributes, no key twice, gives such a string; and if their numbers ascend, so do
    those of the result.
   */
  lemma {:induction false} ComposeAttributesSorted(a1: string, a2: string, mutation: bool, pool: Pool)
    requires Good(pool)
    ensures Known(a1, pool) && Known(a2, pool) ==> Known(ComposeAttributes(a1, a2, mutation, pool).0, pool)
    ensures Sorted(a1) && Sorted(a2) ==> Sorted(ComposeAttributes(a1, a2, mutation, pool).0)
  {
    hide Scan, Known, Sorted, AttribString, Trim;
    if !(a1 == "" && mutation) && a2 != "" {
      var e1, e2 := AttribsFromString(a1, pool), AttribsFromString(a2, pool);
      UpdateCovered(map[], e1, false, pool);
      UpdateCovered(Update(map[], e1, false), e2, !mutation, pool);
      StringSorted(Update(Update(map[], e1, false), e2, !mutation), pool);
    }
  }

  /**
    What the rebased change names: the keys of the second change, with its values, except those for which the first
    change has the same value or a smaller one.
   */
  lemma {:induction false} FollowAttributesExact(a1: string, a2: string, pool: Pool, order: Order, n: nat)
    requires Good(pool) && Known(a1, pool) && Known(a2, pool) && Enumerates(order)
    ensures FollowAttributes(a1, a2, pool, order, n).Ok?
    ensures Known(FollowAttributes(a1, a2, pool, order, n).value, pool)
    ensures var c1, c2 := FromString(a1, pool), FromString(a2, pool);
            var f := FromString(FollowAttributes(a1, a2, pool, order, n).value, pool);
            forall k :: (k in f <==> k in c2 && !(k in c1 && LexLe(c1[k], c2[k]))) && (k in f ==> f[k] == c2[k])
  {
    hide Scan, Lookup, Collect, Yield, Numbers, Encode, DistinctKeys, Trim, LexLe;
    EmptyString(pool);
    if a1 != "" && a2 != "" {
      KnownMap(a1, pool);
      KnownMap(a2, pool);
      var e1, c2 := AttribsFromString(a1, pool), FromString(a2, pool);
      var m := Yield(e1, c2);
      hide FromString;
      forall k
        ensures k in m <==> k in c2 && !(k in FromString(a1, pool) && LexLe(FromString(a1, pool)[k], c2[k]))
        ensures k in m ==> m[k] == c2[k]
      {
        YieldHas(e1, c2, k);
        CollectHas(e1, map[], k);
      }
      ReadBack(m, order(n, m), pool);
      WrittenKnown(m, order(n, m), pool);
    }
  }

  lemma {:induction false} EmptyString(pool: Pool)
    ensures Known("", pool) && FromString("", pool) == map[]
  {}

  /** The rebased change names attributes that the pool knows. */
  lemma {:induction false} FollowAttributesKnown(a1: string, a2: string, pool: Pool, order: Order, n: nat)
    requires Good(pool) && Enumerates(order) && FollowAttributes(a1, a2, pool, order, n).Ok?
    requires Lookup(Scan(a2).0, pool).Some?
    ensures Lookup(Scan(FollowAttributes(a1, a2, pool, order, n).value).0, pool).Some?
  {
    hide Trim, Scan, Encode, Numbers, Collect, Yield;
    if a1 != "" && a2 != "" {
      var e1, e2 := Lookup(Scan(a1).0, pool).value, Lookup(Scan(a2).0, pool).value;
      var m := Yield(e1, Collect(e2, map[]));
      CollectCovered(e2, map[], pool);
      assert Covers(pool, m) by {
        forall k ensures k in m ==> k in Collect(e2, map[]) && m[k] == Collect(e2, map[])[k] {
          YieldHas(e1, Collect(e2, map[]), k);
        }
      }
      LookupNumbers(m, order(n, m), pool);
      ScanEncode(Numbers(m, order(n, m), pool));
    } else {
      EmptyKnown(pool);
    }
  }

  lemma {:induction false} EmptyKnown(pool: Pool)
    ensures Lookup(Scan("").0, pool) == Some([])
  {}

  lemma {:induction false} YieldMerges(e1: seq<Attribute>, c2: AttribMap)
    requires DistinctKeys(e1)
    ensures forall k :: k in Yield(e1, c2) ==> k in c2 && Yield(e1, c2)[k] == c2[k]
    ensures Collect(e1, map[]) + Yield(e1, c2) == Merge(Collect(e1, map[]), c2)
  {
    hide LexLe;
    var c1, m := Collect(e1, map[]), Yield(e1, c2);
    forall k
      ensures k in m <==> k in c2 && !(k in c1 && LexLe(c1[k], c2[k]))
      ensures k in m ==> m[k] == c2[k]
    {
      YieldHas(e1, c2, k);
      CollectHas(e1, map[], k);
    }
  }

  /** Making `a1` and then its follow-up of `a2` brings in both changes, smaller values winning. */
  lemma {:induction false} FollowMerges(a1: string, a2: string, pool: Pool, order: Order, n: nat)
    requires Good(pool) && Known(a1, pool) && Known(a2, pool) && Enumerates(order)
    ensures var f := FollowAttributes(a1, a2, pool, order, n);
            f.Ok? && FromString(a1, pool) + FromString(f.value, pool) ==
                Merge(FromString(a1, pool), FromString(a2, pool))
  {
    var c1, c2 := FromString(a1, pool), FromString(a2, pool);
    if a2 == "" {
      assert c2 == map[] && c1 + c2 == Merge(c1, c2);
    } else if a1 == "" {
      assert c1 == map[] && c1 + c2 == Merge(c1, c2);
    } else {
      hide Scan, Lookup, Collect, Yield, Numbers, Encode, FromString, DistinctKeys, Merge;
      KnownMap(a1, pool);
      KnownMap(a2, pool);
      var e1 := AttribsFromString(a1, pool);
      YieldMerges(e1, c2);
      var m := Yield(e1, c2);
      ReadBack(m, order(n, m), pool);
    }
  }

  lemma {:induction false} OverlayTwice(m: AttribMap, c1: AttribMap, c2: AttribMap)
    ensures Overlay(Overlay(m, c1), c2) == Overlay(m, c1 + c2)
  {}

  /** Concurrent attribute changes of one character converge, whichever is made first. */
  lemma {:induction false} FollowAttributesConverge(m: AttribMap, a1: string, a2: string, pool: Pool, o1: Order,
          n1: nat, o2: Order, n2: nat)
    requires Good(pool) && Known(a1, pool) && Known(a2, pool) && Enumerates(o1) && Enumerates(o2)
    ensures var f1, f2 := FollowAttributes(a1, a2, pool, o1, n1), FollowAttributes(a2, a1, pool, o2, n2);
            && f1.Ok? && f2.Ok?
            && UpdateFromString(UpdateFromString(m, a1, true, pool), f1.value, true, pool) ==
               UpdateFromString(UpdateFromString(m, a2, true, pool), f2.value, true, pool)
  {
    FollowMerges(a1, a2, pool, o1, n1);
    FollowMerges(a2, a1, pool, o2, n2);
    var c1, c2 := FromString(a1, pool), FromString(a2, pool);
    var f1, f2 := FollowAttributes(a1, a2, pool, o1, n1).value, FollowAttributes(a2, a1, pool, o2, n2).value;
    MergeCommutes(c1, c2);
    MutationIsOverlay(m, a1, pool);
    MutationIsOverlay(m, a2, pool);
    MutationIsOverlay(Overlay(m, c1), f1, pool);
    MutationIsOverlay(Overlay(m, c2), f2, pool);
    OverlayTwice(m, c1, FromString(f1, pool));
    OverlayTwice(m, c2, FromString(f2, pool));
  }
}
