/**
  The attribute strings of composed and rebased changesets: what they keep of those that the changesets had before.
 */
module KeptAttributes {
  import opened Basics
  import opened Pools
  import opened Attributes
  import opened Ops
  import opened Syntax
  import opened Assemblers
  import Zip = Composition
  import opened Rebasing
  import opened Changesets
  import opened Algebra
  import opened AttributedText
  import opened HistoryDocuments
  import opened Lines
  import opened UndoAttributes
  import opened Inversion
  import opened InverseLaws
  import opened LineReaders

  /** The numbers in every attribute string ascend. */
  predicate AttribsSorted(cs: string) { forall i :: 0 <= i < |OpsOf(cs)| ==> Sorted(OpsOf(cs)[i].attribs) }

  /** Nothing that is deleted has attributes. */
  predicate PlainDeletes(cs: string) {
    forall i :: 0 <= i < |OpsOf(cs)| && OpsOf(cs)[i].code == Delete ==> OpsOf(cs)[i].attribs == ""
  }

  predicate Has(p: (OpCode, string) -> bool, op: Op) { p(op.code, op.attribs) }

  lemma {:induction false} BehindHas(p: (OpCode, string) -> bool, op: Op, ops: seq<Op>)
    requires Has(p, op) && AllAttribs(p, ops)
    ensures AllAttribs(p, Zip.Behind(op, ops)) && AllAttribs(p, Zip.Emit(op) + ops)
  {}

  lemma {:induction false} FirstHas(p: (OpCode, string) -> bool, ops: seq<Op>)
    requires p(Nop, "") && AllAttribs(p, ops)
    ensures Has(p, Zip.First(ops))
  {}

  // ----- composing -----

  /** Slicing two operations that have the property leaves only such. */
  ghost predicate SlicesKeep(p: (OpCode, string) -> bool, pool: Pool) {
    forall op1, op2 :: Has(p, op1) && Has(p, op2) && Zip.Slicer(op1, op2, pool).Ok? ==>
      var s := Zip.Slicer(op1, op2, pool).value; s.pool == pool && Has(p, s.out) && Has(p, s.att) && Has(p, s.cs)
  }

  lemma {:induction false} ComposeZipKeeps(p: (OpCode, string) -> bool, ops1: seq<Op>, ops2: seq<Op>, bank1: string,
          bank2: string, pool: Pool)
    requires p(Nop, "") && SlicesKeep(p, pool) && AllAttribs(p, ops1) && AllAttribs(p, ops2)
    requires Zip.ComposeZip(ops1, ops2, bank1, bank2, pool).Ok?
    ensures AllAttribs(p, Zip.ComposeZip(ops1, ops2, bank1, bank2, pool).value.ops)
    decreases |ops1| + |ops2|
  {
    hide Zip.Slicer, Zip.Draw, AllAttribs, Has;
    if ops1 == [] && ops2 == [] {
      AllOfNothing(p);
    } else {
      var op1, op2 := Zip.First(ops1), Zip.First(ops2);
      var s := Zip.Slicer(op1, op2, pool).value;
      FirstHas(p, ops1);
      FirstHas(p, ops2);
      assert s.pool == pool && Has(p, s.out) && Has(p, s.att) && Has(p, s.cs);
      hide SlicesKeep;
      BehindHas(p, s.att, ops1);
      BehindHas(p, s.cs, ops2);
      var skip := if op1.code == Insert && op2.code == Delete then Min(op1.chars, op2.chars) else 0;
      var d := Zip.Draw(s.out, op2, bank1[skip..], bank2).value;
      ComposeZipKeeps(p, Zip.Behind(s.att, ops1), Zip.Behind(s.cs, ops2), d.bank1, d.bank2, pool);
      var z := Zip.ComposeZip(Zip.Behind(s.att, ops1), Zip.Behind(s.cs, ops2), d.bank1, d.bank2, pool).value;
      BehindHas(p, s.out, z.ops);
    }
  }

  predicate AllStrings(q: string -> bool, ops: seq<Op>) { forall i :: 0 <= i < |ops| ==> q(ops[i].attribs) }

  /** A property of strings that composing keeps. */
  ghost predicate Closed(q: string -> bool, pool: Pool) {
    forall a1, a2, mutation :: q(a1) && q(a2) ==> q(ComposeAttributes(a1, a2, mutation, pool).0)
  }

  lemma {:induction false} StringSlices(p: (OpCode, string) -> bool, q: string -> bool, pool: Pool)
    requires Good(pool) && Closed(q, pool) && forall c, a :: p(c, a) <==> q(a)
    ensures SlicesKeep(p, pool)
  {
    hide ComposeAttributes, Good;
    forall op1, op2 | Has(p, op1) && Has(p, op2) && Zip.Slicer(op1, op2, pool).Ok?
      ensures var s := Zip.Slicer(op1, op2, pool).value;
              s.pool == pool && Has(p, s.out) && Has(p, s.att) && Has(p, s.cs)
    {
      ComposeAttributesMap(op1.attribs, op2.attribs, op1.code == Keep, pool);
      assert q(op1.attribs) && q(op2.attribs);
      assert q(ComposeAttributes(op1.attribs, op2.attribs, op1.code == Keep, pool).0);
    }
  }

  lemma {:induction false} DeleteSlices(p: (OpCode, string) -> bool, pool: Pool)
    requires Good(pool) && forall c, a :: p(c, a) <==> (c == Delete ==> a == "")
    ensures SlicesKeep(p, pool)
  {
    hide ComposeAttributes, Good;
    forall op1, op2 | Has(p, op1) && Has(p, op2) && Zip.Slicer(op1, op2, pool).Ok?
      ensures var s := Zip.Slicer(op1, op2, pool).value;
              s.pool == pool && Has(p, s.out) && Has(p, s.att) && Has(p, s.cs)
    {
      ComposeAttributesMap(op1.attribs, op2.attribs, op1.code == Keep, pool);
    }
  }

  lemma {:induction false} ComposedHas(p: (OpCode, string) -> bool, cs1: string, cs2: string, pool: Pool, text: string)
    requires WellFormed(cs1, text) && WellFormed(cs2, After(cs1, text)) && Good(pool)
    requires p(Nop, "") && SlicesKeep(p, pool) && AllAttribs(p, OpsOf(cs1)) && AllAttribs(p, OpsOf(cs2))
    ensures Compose(cs1, cs2, pool).Ok? && AllAttribs(p, OpsOf(Compose(cs1, cs2, pool).value.0))
  {
    hide AllAttribs, SlicesKeep, Zip.ComposeZip, OpsOf, Unpack, Assemble, Good, Compose, WellFormed, After;
    var z := ComposedOps(cs1, cs2, pool, text);
    ComposeZipKeeps(p, OpsOf(cs1), OpsOf(cs2), Unpack(cs1).bank, Unpack(cs2).bank, pool);
    AssembleAttribs(p, z.ops);
  }

  /**
    A composition names no attribute that its pool does not know and no key twice, if its changesets do not; its
    numbers ascend, if theirs do; and nothing it deletes has attributes, if nothing they delete has.
   */
  lemma {:induction false} ComposeKeepsAttributes(cs1: string, cs2: string, pool: Pool, text: string)
    requires WellFormed(cs1, text) && WellFormed(cs2, After(cs1, text)) && Good(pool)
    ensures Compose(cs1, cs2, pool).Ok?
    ensures var cs := Compose(cs1, cs2, pool).value.0;
            && (AttribsKnown(cs1, pool) && AttribsKnown(cs2, pool) ==> AttribsKnown(cs, pool))
            && (AttribsSorted(cs1) && AttribsSorted(cs2) ==> AttribsSorted(cs))
            && (PlainDeletes(cs1) && PlainDeletes(cs2) ==> PlainDeletes(cs))
  {
    hide OpsOf, Good, Compose, WellFormed, After, AttribsKnown, AttribsSorted, PlainDeletes;
    ComposeWellFormed(cs1, cs2, pool, text);
    if AttribsKnown(cs1, pool) && AttribsKnown(cs2, pool) { ComposeKnown(cs1, cs2, pool, text); }
    if AttribsSorted(cs1) && AttribsSorted(cs2) { ComposeSorted(cs1, cs2, pool, text); }
    if PlainDeletes(cs1) && PlainDeletes(cs2) { ComposePlain(cs1, cs2, pool, text); }
  }

  lemma {:induction false} ComposeKnown(cs1: string, cs2: string, pool: Pool, text: string)
    requires WellFormed(cs1, text) && WellFormed(cs2, After(cs1, text)) && Good(pool)
    requires AttribsKnown(cs1, pool) && AttribsKnown(cs2, pool)
    ensures Compose(cs1, cs2, pool).Ok? && AttribsKnown(Compose(cs1, cs2, pool).value.0, pool)
  {
    hide OpsOf, Good, Compose, WellFormed, After, SlicesKeep, Known, ComposeAttributes;
    var q := a => Known(a, pool);
    forall a1, a2, mutation | q(a1) && q(a2) ensures q(ComposeAttributes(a1, a2, mutation, pool).0) {
      ComposeAttributesSorted(a1, a2, mutation, pool);
    }
    assert Closed(q, pool);
    EmptyString(pool);
    ComposedStrings(q, cs1, cs2, pool, text);
    var ops := OpsOf(Compose(cs1, cs2, pool).value.0);
    forall i | 0 <= i < |ops| ensures Known(ops[i].attribs, pool) { assert q(ops[i].attribs); }
  }

  lemma {:induction false} ComposeSorted(cs1: string, cs2: string, pool: Pool, text: string)
    requires WellFormed(cs1, text) && WellFormed(cs2, After(cs1, text)) && Good(pool)
    requires AttribsSorted(cs1) && AttribsSorted(cs2)
    ensures Compose(cs1, cs2, pool).Ok? && AttribsSorted(Compose(cs1, cs2, pool).value.0)
  {
    hide OpsOf, Good, Compose, WellFormed, After, SlicesKeep, Sorted, ComposeAttributes;
    var q := a => Sorted(a);
    forall a1, a2, mutation | q(a1) && q(a2) ensures q(ComposeAttributes(a1, a2, mutation, pool).0) {
      ComposeAttributesSorted(a1, a2, mutation, pool);
    }
    assert Closed(q, pool);
    EmptySorted();
    ComposedStrings(q, cs1, cs2, pool, text);
    var ops := OpsOf(Compose(cs1, cs2, pool).value.0);
    forall i | 0 <= i < |ops| ensures Sorted(ops[i].attribs) { assert q(ops[i].attribs); }
  }

  lemma {:induction false} ComposePlain(cs1: string, cs2: string, pool: Pool, text: string)
    requires WellFormed(cs1, text) && WellFormed(cs2, After(cs1, text)) && Good(pool)
    requires PlainDeletes(cs1) && PlainDeletes(cs2)
    ensures Compose(cs1, cs2, pool).Ok? && PlainDeletes(Compose(cs1, cs2, pool).value.0)
  {
    hide OpsOf, Good, Compose, WellFormed, After, SlicesKeep;
    var p := (c: OpCode, a: string) => c == Delete ==> a == "";
    DeleteSlices(p, pool);
    ComposedHas(p, cs1, cs2, pool, text);
    var ops := OpsOf(Compose(cs1, cs2, pool).value.0);
    forall i | 0 <= i < |ops| && ops[i].code == Delete ensures ops[i].attribs == "" {
      assert p(ops[i].code, ops[i].attribs);
    }
  }

  lemma {:induction false} ComposedStrings(q: string -> bool, cs1: string, cs2: string, pool: Pool, text: string)
    requires WellFormed(cs1, text) && WellFormed(cs2, After(cs1, text)) && Good(pool)
    requires Closed(q, pool) && q("") && AllStrings(q, OpsOf(cs1)) && AllStrings(q, OpsOf(cs2))
    ensures Compose(cs1, cs2, pool).Ok? && AllStrings(q, OpsOf(Compose(cs1, cs2, pool).value.0))
  {
    hide OpsOf, Good, Compose, WellFormed, After, SlicesKeep, Closed;
    var p := (_: OpCode, a: string) => q(a);
    StringSlices(p, q, pool);
    ComposedHas(p, cs1, cs2, pool, text);
    var ops := OpsOf(Compose(cs1, cs2, pool).value.0);
    forall i | 0 <= i < |ops| ensures q(ops[i].attribs) { assert p(ops[i].code, ops[i].attribs); }
  }

  lemma {:induction false} EmptySorted()
    ensures Sorted("")
  {}

  // ----- applying -----

  /**
    The attribution that a changeset makes of one names no attribute that the pool does not know and no key twice, if
    the two do not; and its numbers ascend, if theirs do.
   */
  lemma {:induction false} ApplyKeepsAttributes(pool: Pool, cs: string, at: AText, d: Doc)
    requires Good(pool) && Denotes(pool, at, d) && ApplyToText(cs, at.text).Ok?
    ensures ApplyToAText(cs, at, pool).Ok? && Deserialize(ApplyToAText(cs, at, pool).value.0.attribs).Ok?
    ensures var ops, ops' := Deserialize(at.attribs).value,
            Deserialize(ApplyToAText(cs, at, pool).value.0.attribs).value;
            && (AllStrings(a => Known(a, pool), ops) && AttribsKnown(cs, pool) ==>
               AllStrings(a => Known(a, pool), ops'))
            && (AllStrings(a => Sorted(a), ops) && AttribsSorted(cs) ==> AllStrings(a => Sorted(a), ops'))
  {
    hide OpsOf, Unpack, Deserialize, Serialize, ApplyToText, ApplyToAText, Zip.ComposeZip, Assemble, Known, Sorted,
         ComposeAttributes, Good, After, Produces;
    var z := AppliedOps(pool, cs, at, d);
    var ops := Deserialize(at.attribs).value;
    var known, sorted := a => Known(a, pool), a => Sorted(a);
    forall a1, a2, mutation
      ensures known(a1) && known(a2) ==> known(ComposeAttributes(a1, a2, mutation, pool).0)
      ensures sorted(a1) && sorted(a2) ==> sorted(ComposeAttributes(a1, a2, mutation, pool).0)
    {
      ComposeAttributesSorted(a1, a2, mutation, pool);
    }
    EmptyString(pool);
    EmptySorted();
    if AllStrings(known, ops) && AttribsKnown(cs, pool) {
      ZippedStrings(known, ops, OpsOf(cs), at.text, Unpack(cs).bank, pool);
    }
    if AllStrings(sorted, ops) && AttribsSorted(cs) {
      ZippedStrings(sorted, ops, OpsOf(cs), at.text, Unpack(cs).bank, pool);
    }
  }

  lemma {:induction false} ZippedStrings(q: string -> bool, ops1: seq<Op>, ops2: seq<Op>, bank1: string, bank2: string,
          pool: Pool)
    requires Good(pool) && Closed(q, pool) && q("") && AllStrings(q, ops1) && AllStrings(q, ops2)
    requires Zip.ComposeZip(ops1, ops2, bank1, bank2, pool).Ok?
    ensures AllStrings(q, Assemble(Zip.ComposeZip(ops1, ops2, bank1, bank2, pool).value.ops))
  {
    hide Good, Closed, Zip.ComposeZip, Assemble, SlicesKeep;
    var p := (_: OpCode, a: string) => q(a);
    StringSlices(p, q, pool);
    ComposeZipKeeps(p, ops1, ops2, bank1, bank2, pool);
    var ops := Zip.ComposeZip(ops1, ops2, bank1, bank2, pool).value.ops;
    AssembleAttribs(p, ops);
    forall i | 0 <= i < |Assemble(ops)| ensures q(Assemble(ops)[i].attribs) {
      assert p(Assemble(ops)[i].code, Assemble(ops)[i].attribs);
    }
  }

  // ----- rebasing -----

  /** A step on operations with the properties `p1` and `p2` leaves only such, and writes one with `p2`. */
  ghost predicate StepsKeep(p1: (OpCode, string) -> bool, p2: (OpCode, string) -> bool, c: Setting) {
    forall op1, op2, bank1, bank2, n :: Has(p1, op1) && Has(p2, op2) && Step(op1, op2, bank1, bank2, c, n).Ok? ==>
      var s := Step(op1, op2, bank1, bank2, c, n).value; Has(p2, s.out) && Has(p1, s.op1) && Has(p2, s.op2)
  }

  lemma {:induction false} FollowZipKeeps(p1: (OpCode, string) -> bool, p2: (OpCode, string) -> bool, ops1: seq<Op>,
          ops2: seq<Op>, bank1: string, bank2: string, c: Setting, n: nat)
    requires p1(Nop, "") && p2(Nop, "") && StepsKeep(p1, p2, c) && AllAttribs(p1, ops1) && AllAttribs(p2, ops2)
    requires FollowZip(ops1, ops2, bank1, bank2, c, n).Ok?
    ensures AllAttribs(p2, FollowZip(ops1, ops2, bank1, bank2, c, n).value)
    decreases |ops1| + |ops2|
  {
    hide Step, AllAttribs, Has;
    if ops1 == [] && ops2 == [] {
      AllOfNothing(p2);
    } else {
      var op1, op2 := Zip.First(ops1), Zip.First(ops2);
      var s := Step(op1, op2, bank1, bank2, c, n).value;
      FirstHas(p1, ops1);
      FirstHas(p2, ops2);
      assert Has(p2, s.out) && Has(p1, s.op1) && Has(p2, s.op2);
      hide StepsKeep;
      BehindHas(p1, s.op1, ops1);
      BehindHas(p2, s.op2, ops2);
      FollowZipKeeps(p1, p2, Zip.Behind(s.op1, ops1), Zip.Behind(s.op2, ops2), bank1[s.skip1..], bank2[s.skip2..], c,
          n + 1);
      BehindHas(p2, s.out, FollowZip(Zip.Behind(s.op1, ops1), Zip.Behind(s.op2, ops2), bank1[s.skip1..],
          bank2[s.skip2..], c, n + 1).value);
    }
  }

  lemma {:induction false} KnownSteps(p: (OpCode, string) -> bool, c: Setting)
    requires Good(c.pool) && Enumerates(c.order) && forall k, a :: p(k, a) <==> Known(a, c.pool)
    ensures StepsKeep(p, p, c)
  {
    hide FollowAttributes, Good, Enumerates, Known, FirstGoes;
    EmptyString(c.pool);
    forall op1, op2, bank1, bank2, n | Has(p, op1) && Has(p, op2) && Step(op1, op2, bank1, bank2, c, n).Ok?
      ensures var s := Step(op1, op2, bank1, bank2, c, n).value; Has(p, s.out) && Has(p, s.op1) && Has(p, s.op2)
    {
      FollowAttributesExact(op1.attribs, op2.attribs, c.pool, c.order, n);
    }
  }

  lemma {:induction false} DeleteSteps(p1: (OpCode, string) -> bool, p2: (OpCode, string) -> bool, c: Setting)
    requires forall k, a :: p1(k, a) && (p2(k, a) <==> (k == Delete ==> a == ""))
    ensures StepsKeep(p1, p2, c)
  {
    hide FollowAttributes, FirstGoes;
    forall op1, op2, bank1, bank2, n | Has(p1, op1) && Has(p2, op2) && Step(op1, op2, bank1, bank2, c, n).Ok?
      ensures var s := Step(op1, op2, bank1, bank2, c, n).value; Has(p2, s.out) && Has(p1, s.op1) && Has(p2, s.op2)
    {
      assert p2(op2.code, op2.attribs);
    }
  }

  /**
    A rebased changeset names no attribute that its pool does not know and no key twice, if neither changeset does;
    and nothing it deletes has attributes, if nothing it deleted before has.
   */
  lemma {:induction false} FollowKeepsAttributes(cs1: string, cs2: string, c: Setting, text: string)
    requires WellFormed(cs1, text) && WellFormed(cs2, text) && Good(c.pool) && Enumerates(c.order)
    requires AttribsResolved(cs1, c.pool) && AttribsResolved(cs2, c.pool)
    ensures Follow(cs1, cs2, c).Ok?
    ensures var f := Follow(cs1, cs2, c).value;
            && (AttribsKnown(cs1, c.pool) && AttribsKnown(cs2, c.pool) ==> AttribsKnown(f, c.pool))
            && (PlainDeletes(cs2) ==> PlainDeletes(f))
  {
    hide Follow, WellFormed, AttribsResolved, Rebased, AttribsKnown, PlainDeletes, Good, Enumerates, After;
    FollowSound(cs1, cs2, c, c.(reverse := !c.reverse), text);
    RebasedKeeps(Follow(cs1, cs2, c).value, cs1, cs2, c);
  }

  lemma {:induction false} RebasedKeeps(f: string, cs1: string, cs2: string, c: Setting)
    requires Rebased(f, cs1, cs2, c) && Good(c.pool) && Enumerates(c.order)
    ensures AttribsKnown(cs1, c.pool) && AttribsKnown(cs2, c.pool) ==> AttribsKnown(f, c.pool)
    ensures PlainDeletes(cs2) ==> PlainDeletes(f)
  {
    hide OpsOf, Unpack, FollowZip, Assemble, Good, Enumerates, Known, StepsKeep;
    var ops := FollowZip(OpsOf(cs1), OpsOf(cs2), Unpack(cs1).bank, Unpack(cs2).bank, c, 0).value;
    if AttribsKnown(cs1, c.pool) && AttribsKnown(cs2, c.pool) {
      var p := (_: OpCode, a: string) => Known(a, c.pool);
      EmptyString(c.pool);
      KnownSteps(p, c);
      FollowZipKeeps(p, p, OpsOf(cs1), OpsOf(cs2), Unpack(cs1).bank, Unpack(cs2).bank, c, 0);
      AssembleAttribs(p, ops);
      forall i | 0 <= i < |OpsOf(f)| ensures Known(OpsOf(f)[i].attribs, c.pool) {
        assert p(OpsOf(f)[i].code, OpsOf(f)[i].attribs);
      }
    }
    if PlainDeletes(cs2) { FollowPlainDeletes(f, cs1, cs2, c); }
  }

  lemma {:induction false} FollowPlainDeletes(f: string, cs1: string, cs2: string, c: Setting)
    requires Rebased(f, cs1, cs2, c) && PlainDeletes(cs2)
    ensures PlainDeletes(f)
  {
    hide OpsOf, Unpack, FollowZip, Assemble, StepsKeep;
    var ops := FollowZip(OpsOf(cs1), OpsOf(cs2), Unpack(cs1).bank, Unpack(cs2).bank, c, 0).value;
    var any, p := (_: OpCode, _: string) => true, (k: OpCode, a: string) => k == Delete ==> a == "";
    DeleteSteps(any, p, c);
    FollowZipKeeps(any, p, OpsOf(cs1), OpsOf(cs2), Unpack(cs1).bank, Unpack(cs2).bank, c, 0);
    AssembleAttribs(p, ops);
    forall i | 0 <= i < |OpsOf(f)| && OpsOf(f)[i].code == Delete ensures OpsOf(f)[i].attribs == "" {
      assert p(OpsOf(f)[i].code, OpsOf(f)[i].attribs);
    }
  }

  // ----- undoing -----

  /** Nothing that is deleted has attributes and, if `s`, numbers ascend. */
  predicate Tidy(s: bool, ops: seq<Op>) {
    forall i :: 0 <= i < |ops| ==> (ops[i].code == Delete ==> ops[i].attribs == "") && (s ==> Sorted(ops[i].attribs))
  }

  predicate TidyRuns(s: bool, att: seq<Op>) { forall i :: 0 <= i < |att| ==> s ==> Sorted(att[i].attribs) }

  predicate TidyStretches(s: bool, ss: seq<Stretch>) { forall i :: 0 <= i < |ss| ==> s ==> Sorted(ss[i].attribs) }

  lemma {:induction false} TakenTidy(s: bool, att: seq<Op>, n: nat)
    requires TidyRuns(s, att)
    ensures TidyStretches(s, TakeRuns(att, n).taken) && TidyRuns(s, TakeRuns(att, n).rest)
    decreases |att|
  {
    hide Sorted;
    if n > 0 && att != [] && n >= att[0].chars { TakenTidy(s, att[1..], n - att[0].chars); }
  }

  lemma {:induction false} UndoDeleteTidy(s: bool, ss: seq<Stretch>, text: string)
    requires TidyStretches(s, ss)
    ensures Tidy(s, UndoDelete(ss, text))
    decreases |ss|
  {
    hide Sorted;
    if ss != [] {
      var k := Min(ss[0].chars, |text|);
      UndoDeleteTidy(s, ss[1..], text[k..]);
    }
  }

  lemma {:induction false} UndoKeepTidy(ss: seq<Stretch>, change: AttribMap, pool: Pool, order: Order, n: nat)
    requires Good(pool) && Covers(pool, change) && Enumerates(order)
    ensures Tidy(true, UndoKeep(ss, change, pool, order, n).0)
    decreases |ss|
  {
    hide Good, Back, Covers, Extends, Enumerates, Sorted, FromString, Known;
    if ss != [] {
      BackFacts(change, ss[0].attribs, pool, order, n);
      BackExact(change, ss[0].attribs, pool, order, n);
      UndoKeepTidy(ss[1..], change, Back(change, ss[0].attribs, pool, order, n).1, order, n + 1);
    }
  }

  lemma {:induction false} TidyConcat(s: bool, a: seq<Op>, b: seq<Op>)
    requires Tidy(s, a) && Tidy(s, b)
    ensures Tidy(s, a + b)
  {
    hide Sorted;
  }

  lemma {:induction false} StepTidy(s: bool, op: Op, att: seq<Op>, text: string, pool: Pool, order: Order, n: nat)
    requires Good(pool) && Enumerates(order) && TidyRuns(s, att)
    ensures var u := UndoOp(op, att, text, pool, order, n); Good(u.pool) && Tidy(s, u.ops) && TidyRuns(s, u.att)
  {
    hide Good, Covers, Extends, UpdatePool, FromString, AttribsFromString, UndoDelete, UndoKeep, TakeRuns, Enumerates,
         Sorted;
    var k, r := Min(op.chars, |text|), TakeRuns(att, op.chars);
    TakenTidy(s, att, op.chars);
    EmptySorted();
    if op.code == Delete {
      UndoDeleteTidy(s, r.taken, text[..k]);
    } else if op.code == Keep && op.attribs != "" {
      ResolvedCovers(op.attribs, pool);
      UndoKeepPool(r.taken, FromString(op.attribs, pool), pool, order, n);
      UndoKeepTidy(r.taken, FromString(op.attribs, pool), pool, order, n);
    }
  }

  lemma {:induction false} UndoTidy(s: bool, ops: seq<Op>, att: seq<Op>, text: string, pool: Pool, order: Order, n: nat)
    requires Good(pool) && Enumerates(order) && TidyRuns(s, att)
    ensures Tidy(s, Undo(ops, att, text, pool, order, n).ops)
    decreases |ops|
  {
    hide Good, UndoOp, Undo, Enumerates, Tidy, TidyRuns;
    if ops == [] {
      UndoNothing(att, text, pool, order, n);
      assert Tidy(s, []) by { NothingTidy(s); }
    } else {
      UndoUnfold(ops, att, text, pool, order, n);
      StepTidy(s, ops[0], att, text, pool, order, n);
      var u := UndoOp(ops[0], att, text, pool, order, n);
      UndoTidy(s, ops[1..], u.att, u.text, u.pool, order, u.n);
      TidyConcat(s, u.ops, Undo(ops[1..], u.att, u.text, u.pool, order, u.n).ops);
    }
  }

  lemma {:induction false} NothingTidy(s: bool)
    ensures Tidy(s, [])
  {}

  /**
    Nothing that the inverse deletes has attributes; and its numbers ascend, if those of the attribution lines do.
   */
  lemma {:induction false} InverseKeepsAttributes(cs: string, lines: seq<string>, alines: seq<string>, pool: Pool,
          order: Order)
    requires WellFormed(cs, Join(lines)) && CoveredBy(alines, lines) && Enumerates(order) && Good(pool)
    ensures Inversion.Inverse(cs, lines, alines, pool, order).Ok?
    ensures var inv := Inversion.Inverse(cs, lines, alines, pool, order).value.0;
            && PlainDeletes(inv)
            && ((forall i :: 0 <= i < |Flatten(alines)| ==> Sorted(Flatten(alines)[i].attribs)) ==> AttribsSorted(inv))
  {
    hide WellFormed, OpsOf, Flatten, Join, Inversion.Inverse, Undo, Good, Enumerates, Assemble, Unpack, CoveredBy,
         After, ApplyToText, CheckRep, Sorted;
    InverseRestores(cs, lines, alines, pool, order);
    UndoTidy(false, OpsOf(cs), Flatten(alines), Join(lines), pool, order, 0);
    InverseHas(false, cs, lines, alines, pool, order);
    if forall i :: 0 <= i < |Flatten(alines)| ==> Sorted(Flatten(alines)[i].attribs) {
      UndoTidy(true, OpsOf(cs), Flatten(alines), Join(lines), pool, order, 0);
      InverseHas(true, cs, lines, alines, pool, order);
    }
  }

  lemma {:induction false} InverseHas(s: bool, cs: string, lines: seq<string>, alines: seq<string>, pool: Pool,
          order: Order)
    requires WellFormed(cs, Join(lines)) && CoveredBy(alines, lines) && Enumerates(order)
    requires Tidy(s, Undo(OpsOf(cs), Flatten(alines), Join(lines), pool, order, 0).ops)
    ensures Inversion.Inverse(cs, lines, alines, pool, order).Ok?
    ensures Tidy(s, OpsOf(Inversion.Inverse(cs, lines, alines, pool, order).value.0))
  {
    hide WellFormed, OpsOf, Flatten, Join, Inversion.Inverse, Undo, Assemble, Unpack, CoveredBy, After, ApplyToText,
         CheckRep, Sorted, Enumerates;
    InverseRestores(cs, lines, alines, pool, order);
    var u := Undo(OpsOf(cs), Flatten(alines), Join(lines), pool, order, 0);
    var p := (c: OpCode, a: string) => (c == Delete ==> a == "") && (s ==> Sorted(a));
    EmptySorted();
    assert AllAttribs(p, u.ops);
    AssembleAttribs(p, u.ops);
    assert forall i :: 0 <= i < |Assemble(u.ops)| ==> p(Assemble(u.ops)[i].code, Assemble(u.ops)[i].attribs);
  }
}
