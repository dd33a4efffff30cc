/** The attribute pool object: lib/apool/APool.go. */
module PoolObjects {
  import opened Basics
  import opened Pools
  import UndoAttributes

  // ----- what Check tests -----

  /** A consistent pool without empty keys. */
  ghost predicate Sound(p: Pool) {
    p.Consistent() && forall n :: n in p.numToAttrib ==> p.numToAttrib[n].key != ""
  }

  /** The entry that Go reads from a map: 0 for an absent key. */
  function NumberOf(p: Pool, a: Attribute): int { if a in p.attribToNum then p.attribToNum[a] else 0 }

  /** The test that Check makes for one number. */
  predicate EntryOk(p: Pool, i: int) {
    i in p.numToAttrib && p.numToAttrib[i].key != "" && NumberOf(p, p.numToAttrib[i]) == i
  }

  predicate Passes(p: Pool) {
    && p.nextNum >= 0 && |p.numToAttrib| == p.nextNum && |p.attribToNum| == p.nextNum
    && forall i :: 0 <= i < p.nextNum ==> EntryOk(p, i)
  }

  /** Attribute 0 is in the reverse map. */
  predicate FirstKnown(p: Pool) { 0 in p.numToAttrib && p.numToAttrib[0] in p.attribToNum }

  /** The numbers below `n`. */
  function Upto(n: nat): (r: set<int>)
    ensures |r| == n && forall i :: i in r <==> 0 <= i < n
  {
    if n == 0 then {} else Upto(n - 1) + {n - 1}
  }

  /** A finite set is all of a set of the same size that it lies in. */
  lemma {:induction false} SameSize<T>(a: set<T>, b: set<T>)
    requires a <= b && |a| == |b|
    ensures a == b
  {
    if a != b {
      var x :| x in b && x !in a;
      SubsetSize(a, b - {x});
    }
  }

  lemma {:induction false} SubsetSize<T>(a: set<T>, b: set<T>)
    requires a <= b
    ensures |a| <= |b|
  {
    if a != {} {
      var x :| x in a;
      SubsetSize(a - {x}, b - {x});
    }
  }

  /** The attributes numbered below `n`. */
  function Named(p: Pool, n: nat): set<Attribute>
    requires forall i :: 0 <= i < n ==> i in p.numToAttrib
  {
    set i: int | 0 <= i < n :: p.numToAttrib[i]
  }

  lemma {:induction false} NamedSize(p: Pool, n: nat)
    requires forall i :: 0 <= i < n ==>
             i in p.numToAttrib && p.numToAttrib[i] in p.attribToNum && p.attribToNum[p.numToAttrib[i]] == i
    ensures |Named(p, n)| == n
  {
    if n > 0 {
      NamedSize(p, n - 1);
      var a, s := p.numToAttrib[n - 1], Named(p, n - 1);
      assert Named(p, n) == s + {a};
      assert a !in s;
      hide Named;
      assert |s + {a}| == |s| + 1;
    }
  }

  lemma {:induction false} SoundNums(p: Pool)
    requires p.Consistent()
    ensures |p.numToAttrib| == p.nextNum
  {
    assert p.numToAttrib.Keys == Upto(p.nextNum);
  }

  lemma {:induction false} SoundPasses(p: Pool)
    requires Sound(p)
    ensures Passes(p) && (p.nextNum > 0 ==> FirstKnown(p))
  {
    SoundNums(p);
    NamedSize(p, p.nextNum);
    SoundAttribs(p);
  }

  lemma {:induction false} SoundAttribs(p: Pool)
    requires p.Consistent()
    ensures p.attribToNum.Keys == Named(p, p.nextNum)
  {
    forall a | a in p.attribToNum ensures a in Named(p, p.nextNum) {
      var i := p.attribToNum[a];
      assert i in p.numToAttrib && p.numToAttrib[i] == a;
    }
    forall a | a in Named(p, p.nextNum) ensures a in p.attribToNum {
      var i :| 0 <= i < p.nextNum && p.numToAttrib[i] == a;
      assert i in p.numToAttrib;
    }
  }

  lemma {:induction false} PassesSound(p: Pool)
    requires Passes(p) && (p.nextNum > 0 ==> FirstKnown(p))
    ensures Sound(p)
  {
    hide EntryOk, Upto;
    PassingNumbers(p);
    assert p.numToAttrib.Keys == Upto(p.nextNum) by { SameSize(Upto(p.nextNum), p.numToAttrib.Keys); }
    NamedSize(p, p.nextNum);
    assert p.attribToNum.Keys == Named(p, p.nextNum) by { SameSize(Named(p, p.nextNum), p.attribToNum.Keys); }
    forall a | a in p.attribToNum ensures p.attribToNum[a] in p.numToAttrib && p.numToAttrib[p.attribToNum[a]] == a {
      assert a in p.attribToNum.Keys;
    }
    forall n ensures n in p.numToAttrib <==> 0 <= n < p.nextNum {
      assert n in p.numToAttrib <==> n in p.numToAttrib.Keys;
    }
  }

  lemma {:induction false} PassingNumbers(p: Pool)
    requires Passes(p) && (p.nextNum > 0 ==> FirstKnown(p))
    ensures forall i :: 0 <= i < p.nextNum ==>
              && i in p.numToAttrib && p.numToAttrib[i] in p.attribToNum && p.attribToNum[p.numToAttrib[i]] == i
              && p.numToAttrib[i].key != ""
  {
    forall i | 0 <= i < p.nextNum
      ensures && i in p.numToAttrib && p.numToAttrib[i] in p.attribToNum && p.attribToNum[p.numToAttrib[i]] == i
              && p.numToAttrib[i].key != ""
    {
      assert EntryOk(p, i);
    }
  }

  /**
    Check passes on every sound pool; and a pool that passes is sound just when its first attribute is in the reverse
    map, because an absent attribute reads as number 0.
   */
  lemma {:induction false} CheckMeans(p: Pool)
    ensures Sound(p) <==> Passes(p) && (p.nextNum > 0 ==> FirstKnown(p))
  {
    hide Sound, Passes, FirstKnown;
    if Sound(p) { SoundPasses(p); }
    if Passes(p) && (p.nextNum > 0 ==> FirstKnown(p)) { PassesSound(p); }
  }

  /** A pool that passes although attribute 0 is missing from the reverse map. */
  lemma {:induction false} CheckMisses()
    ensures var p := Pool(map[0 := Attribute("bold", "true")], map[Attribute("italic", "true") := 0], 1);
            Passes(p) && !Sound(p)
  {
    var p := Pool(map[0 := Attribute("bold", "true")], map[Attribute("italic", "true") := 0], 1);
    assert "bold"[0] != "italic"[0];
    assert 0 in p.numToAttrib && p.numToAttrib[0] !in p.attribToNum;
  }

  // ----- runs of PutAttrib -----

  function PutAll(p: Pool, attribs: seq<Attribute>): Pool
    decreases |attribs|
  {
    if attribs == [] then p else PutAll(p.Put(attribs[0]).0, attribs[1..])
  }

  /** Over every run of PutAttrib with non-empty keys the pool stays sound, and no number issued changes its meaning. */
  lemma {:induction false} PutAllSound(p: Pool, attribs: seq<Attribute>)
    requires Sound(p) && forall a :: a in attribs ==> a.key != ""
    ensures Sound(PutAll(p, attribs)) && UndoAttributes.Extends(p, PutAll(p, attribs))
    ensures forall a :: a in attribs ==> a in PutAll(p, attribs).attribToNum
    decreases |attribs|
  {
    if attribs != [] {
      assert attribs[0] in attribs;
      var q := p.Put(attribs[0]).0;
      PutAllSound(q, attribs[1..]);
      UndoAttributes.ExtendsTransitive(p, q, PutAll(p, attribs));
      assert forall a :: a in attribs <==> a == attribs[0] || a in attribs[1..];
    }
  }

  // ----- the form written to JSON -----

  datatype Jsonable = Jsonable(raw: map<int, seq<string>>, nextNum: int)

  function JsonOf(p: Pool): Jsonable {
    Jsonable(map n | n in p.numToAttrib :: [p.numToAttrib[n].key, p.numToAttrib[n].value], p.nextNum)
  }

  function EntryOf(raw: seq<string>): Attribute
  {
    if |raw| >= 2 then Attribute(raw[0], raw[1]) else Attribute("", "")
  }

  /** What reading `obj` makes of a pool whose numbers were `before`. */
  ghost predicate Rebuilt(obj: Jsonable, before: map<int, Attribute>, p: Pool) {
    && p.nextNum == obj.nextNum
    && (forall item :: item in obj.raw.Items ==> item.0 in p.numToAttrib && p.numToAttrib[item.0] == EntryOf(item.1))
    && (forall item :: item in p.numToAttrib.Items ==> item in before.Items || item.0 in obj.raw)
    && (forall item :: item in before.Items ==> item.0 in obj.raw || item in p.numToAttrib.Items)
    && (forall item :: item in obj.raw.Items ==> EntryOf(item.1) in p.attribToNum)
    && (forall a :: a in p.attribToNum ==> p.attribToNum[a] in obj.raw && EntryOf(obj.raw[p.attribToNum[a]]) == a)
  }

  /**
    Writing a consistent pool and reading it back restores it exactly when the reading pool had no other numbers
    before.
   */
  lemma {:induction false} JsonRoundTrip(p: Pool, before: map<int, Attribute>, q: Pool)
    requires p.Consistent() && Rebuilt(JsonOf(p), before, q)
    ensures q == p <==> before.Keys <= p.numToAttrib.Keys
  {
    var obj := JsonOf(p);
    JsonKeeps(p, before, q);
    if before.Keys <= p.numToAttrib.Keys {
      assert q.numToAttrib.Items == p.numToAttrib.Items by {
        forall item | item in q.numToAttrib.Items ensures item in p.numToAttrib.Items {
          assert item in before.Items ==> item.0 in before.Keys;
          assert (item.0, p.numToAttrib[item.0]) in p.numToAttrib.Items;
        }
      }
      assert q.attribToNum == p.attribToNum;
      SameItems(q.numToAttrib, p.numToAttrib);
    }
    if q == p { KeysWithin(before, p.numToAttrib); }
  }

  lemma {:induction false} KeysWithin<K, V>(a: map<K, V>, b: map<K, V>)
    requires forall item :: item in a.Items ==> item.0 in b
    ensures a.Keys <= b.Keys
  {
    forall k | k in a.Keys ensures k in b.Keys { assert (k, a[k]) in a.Items; }
  }

  lemma {:induction false} SameItems<K, V>(a: map<K, V>, b: map<K, V>)
    requires a.Items == b.Items
    ensures a == b
  {
    forall k ensures (k in a <==> k in b) && (k in a ==> a[k] == b[k]) {
      if k in a { assert (k, a[k]) in a.Items; }
      if k in b { assert (k, b[k]) in b.Items; }
    }
  }

  /** All that was written is read back. */
  lemma {:induction false} JsonKeeps(p: Pool, before: map<int, Attribute>, q: Pool)
    requires p.Consistent() && Rebuilt(JsonOf(p), before, q)
    ensures forall item :: item in p.numToAttrib.Items ==> item in q.numToAttrib.Items
    ensures forall a :: a in p.attribToNum ==> a in q.attribToNum
    ensures forall a :: a in q.attribToNum ==> a in p.attribToNum && p.attribToNum[a] == q.attribToNum[a]
  {
    var obj := JsonOf(p);
    forall item | item in p.numToAttrib.Items ensures item in q.numToAttrib.Items {
      var raw := obj.raw[item.0];
      assert (item.0, raw) in obj.raw.Items && EntryOf(raw) == item.1;
      assert item.0 in q.numToAttrib && q.numToAttrib[item.0] == item.1;
    }
    forall a | a in p.attribToNum ensures a in q.attribToNum {
      var n := p.attribToNum[a];
      assert (n, obj.raw[n]) in obj.raw.Items && EntryOf(obj.raw[n]) == a;
    }
    forall a | a in q.attribToNum ensures a in p.attribToNum && p.attribToNum[a] == q.attribToNum[a] {
      var n := q.attribToNum[a];
      assert n in p.numToAttrib && EntryOf(obj.raw[n]) == p.numToAttrib[n];
    }
  }

  // ----- the object -----

  class APool {
    var numToAttrib: map<int, Attribute>
    var attribToNum: map<Attribute, int>
    var nextNum: int

    function State(): Pool
      reads this
    {
      Pool(numToAttrib, attribToNum, nextNum)
    }

    constructor ()
      ensures State() == EMPTY_POOL
    {
      numToAttrib, attribToNum, nextNum := map[], map[], 0;
    }

    /** The number of `attrib`, which is added unless `dontAddIfAbsent`; -1 if it stays absent. */
    method PutAttrib(attrib: Attribute, dontAddIfAbsent: bool) returns (num: int)
      modifies this
      ensures dontAddIfAbsent ==> State() == old(State())
      ensures !dontAddIfAbsent ==> (State(), num) == old(State()).Put(attrib)
      ensures attrib in old(attribToNum) ==> num == old(attribToNum)[attrib]
      ensures attrib !in old(attribToNum) && dontAddIfAbsent ==> num == -1
      ensures old(Sound(State())) && attrib.key != "" ==>
              Sound(State()) && UndoAttributes.Extends(old(State()), State())
    {
      if attrib in attribToNum {
        return attribToNum[attrib];
      }
      if dontAddIfAbsent {
        return -1;
      }
      num := nextNum;
      nextNum := nextNum + 1;
      attribToNum := attribToNum[attrib := num];
      numToAttrib := numToAttrib[num := attrib];
    }

    method GetAttrib(num: int) returns (r: Result<Attribute>)
      ensures r == if num in numToAttrib then Ok(numToAttrib[num]) else Err("attrib not found")
    {
      if num !in numToAttrib {
        return Err("attrib not found");
      }
      r := Ok(numToAttrib[num]);
    }

    /** Tests the pool; what passing means is lemma CheckMeans. */
    method Check() returns (r: Result<()>)
      ensures r.Ok? <==> Passes(State())
    {
      if nextNum < 0 {
        return Err("nextNum is negative");
      }
      if |numToAttrib| != nextNum {
        return Err("numToAttrib length does not match nextNum");
      }
      if |attribToNum| != nextNum {
        return Err("attribToNum length does not match nextNum");
      }
      for i := 0 to nextNum
        invariant forall j :: 0 <= j < i ==> EntryOk(State(), j)
      {
        if i !in numToAttrib {
          assert !EntryOk(State(), i);
          return Err("numToAttrib missing entry for index");
        }
        var attr := numToAttrib[i];
        if attr.key == "" {
          assert !EntryOk(State(), i);
          return Err("attribute key is empty for index");
        }
        if (if attr in attribToNum then attribToNum[attr] else 0) != i {
          assert !EntryOk(State(), i);
          return Err("attribToNum mapping incorrect for attribute");
        }
      }
      r := Ok(());
    }

    /** A copy that shares nothing with the pool. */
    method Clone() returns (clone: APool)
      ensures fresh(clone) && clone.State() == State()
    {
      clone := new APool();
      clone.nextNum := nextNum;
      var items := numToAttrib.Items;
      while items != {}
        invariant items <= numToAttrib.Items && clone.attribToNum == map[] && clone.nextNum == nextNum
        invariant clone.numToAttrib == map n | n in numToAttrib && (n, numToAttrib[n]) !in items :: numToAttrib[n]
        decreases |items|
      {
        var item :| item in items;
        clone.numToAttrib := clone.numToAttrib[item.0 := item.1];
        items := items - {item};
      }
      var attribs := attribToNum.Keys;
      while attribs != {}
        invariant attribs <= attribToNum.Keys && clone.attribToNum == map a | a in attribToNum
                  && a !in attribs :: attribToNum[a]
        invariant clone.numToAttrib == numToAttrib && clone.nextNum == nextNum
        decreases |attribs|
      {
        var a :| a in attribs;
        clone.attribToNum := clone.attribToNum[a := attribToNum[a]];
        attribs := attribs - {a};
      }
    }

    /** The form that is written to JSON: each attribute as its key and its value. */
    method ToJsonable() returns (obj: Jsonable)
      ensures obj == JsonOf(State())
    {
      var raw: map<int, seq<string>> := map[];
      var items := numToAttrib.Items;
      while items != {}
        invariant items <= numToAttrib.Items
        invariant raw == map n | n in numToAttrib
                  && (n, numToAttrib[n]) !in items :: [numToAttrib[n].key, numToAttrib[n].value]
        decreases |items|
      {
        var item :| item in items;
        raw := raw[item.0 := [item.1.key, item.1.value]];
        items := items - {item};
      }
      obj := Jsonable(raw, nextNum);
    }

    /** Reads that form: the reverse map is built anew, while numbers that the pool had before stay in the other map. */
    method FromJsonable(obj: Jsonable)
      requires forall item :: item in obj.raw.Items ==> |item.1| >= 2
      modifies this
      ensures Rebuilt(obj, old(numToAttrib), State())
    {
      attribToNum := map[];
      nextNum := obj.nextNum;
      var items := obj.raw.Items;
      while items != {}
        invariant items <= obj.raw.Items && nextNum == obj.nextNum
        invariant forall item :: item in obj.raw.Items - items ==>
                  item.0 in numToAttrib && numToAttrib[item.0] == EntryOf(item.1)
        invariant forall item :: item in numToAttrib.Items ==> item in old(numToAttrib).Items || item.0 in obj.raw
        invariant forall item :: item in old(numToAttrib).Items ==> item.0 in obj.raw || item in numToAttrib.Items
        invariant forall item :: item in obj.raw.Items - items ==> EntryOf(item.1) in attribToNum
        invariant forall a :: a in attribToNum ==> attribToNum[a] in obj.raw && EntryOf(obj.raw[attribToNum[a]]) == a
        decreases |items|
      {
        var item :| item in items;
        var entry := EntryOf(item.1);
        numToAttrib := numToAttrib[item.0 := entry];
        attribToNum := attribToNum[entry := item.0];
        items := items - {item};
      }
    }
  }
}
