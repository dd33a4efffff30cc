/** Compose, Follow and ApplyToAttribution on whole changesets, and the laws of the changeset algebra. */
module Algebra {
  import opened Basics
  import opened Pools
  import opened Attributes
  import opened Ops
  import opened Syntax
  import opened Assemblers
  import Zip = Composition
  import Numerals
  import opened Rebasing
  import opened Changesets

  // ----- the operations -----

  /** The changeset that does `cs1` and then `cs2`, with the pool afterwards. */
  function Compose(cs1: string, cs2: string, pool: Pool): Result<(string, Pool)> {
    var u1, u2 := Unpack(cs1), Unpack(cs2);
    if u1.newLen != u2.oldLen then Err("mismatched lengths in compose")
    else match (Deserialize(u1.ops), Deserialize(u2.ops))
      case (Err(e), _) => Err(e)
      case (_, Err(e)) => Err(e)
      case (Ok(ops1), Ok(ops2)) =>
        match Zip.ComposeZip(ops1, ops2, u1.bank, u2.bank, pool)
        case Err(e) => Err(e)
        case Ok(z) => Ok((Pack(u1.oldLen, u2.newLen, Serialize(Assemble(z.ops)), z.bank), z.pool))
  }

  /** `cs2` rebased so that it can be done after `cs1`. */
  function Follow(cs1: string, cs2: string, c: Setting): Result<string> {
    var u1, u2 := Unpack(cs1), Unpack(cs2);
    if u1.oldLen != u2.oldLen then Err("mismatched lengths in Follow")
    else match (Deserialize(u1.ops), Deserialize(u2.ops))
      case (Err(e), _) => Err(e)
      case (_, Err(e)) => Err(e)
      case (Ok(ops1), Ok(ops2)) =>
        match FollowZip(ops1, ops2, u1.bank, u2.bank, c, 0)
        case Err(e) => Err(e)
        case Ok(ops) => Ok(Pack(u1.newLen, u1.newLen + LengthChange(ops), Serialize(Assemble(ops)), u2.bank))
  }

  // ----- attribute strings of what the zips write -----

  lemma {:induction false} EncodeAttribText(nums: seq<nat>)
    ensures AttribText(Encode(nums))
  {
    hide Numerals.NumToString;
    if nums != [] {
      EncodeAttribText(nums[1..]);
      AttribTextCons(Numerals.NumToString(nums[0]), Encode(nums[1..]));
    }
  }

  lemma {:induction false} AttribTextCons(a: string, b: string)
    requires a != [] && Numerals.AllDigits(a) && AttribText(b)
    ensures AttribText("*" + a + b)
  {
    hide Numerals.DigitRun;
    var s := "*" + a + b;
    assert s[1..] == a + b;
    assert b != [] ==> b[0] == '*';
    Numerals.RunOfNumeral(a, b);
    assert s[1 + |a|..] == b;
  }

  lemma {:induction false} ZipAttribText(ops1: seq<Op>, ops2: seq<Op>, bank1: string, bank2: string, pool: Pool)
    requires AllAttribText(ops1) && AllAttribText(ops2)
    requires Zip.ComposeZip(ops1, ops2, bank1, bank2, pool).Ok?
    ensures AllAttribText(Zip.ComposeZip(ops1, ops2, bank1, bank2, pool).value.ops)
    decreases |ops1| + |ops2|
  {
    hide AttribText, Zip.Slicer;
    if !(ops1 == [] && ops2 == []) {
      EmptyAttribText();
      var op1, op2 := Zip.First(ops1), Zip.First(ops2);
      var s := Zip.Slicer(op1, op2, pool).value;
      SlicerAttribText(op1, op2, pool);
      var skip := if op1.code == Insert && op2.code == Delete then Min(op1.chars, op2.chars) else 0;
      var d := Zip.Draw(s.out, op2, bank1[skip..], bank2).value;
      ZipAttribText(Zip.Behind(s.att, ops1), Zip.Behind(s.cs, ops2), d.bank1, d.bank2, s.pool);
    }
  }

  lemma {:induction false} SlicerAttribText(op1: Op, op2: Op, pool: Pool)
    requires AttribText(op1.attribs) && AttribText(op2.attribs) && Zip.Slicer(op1, op2, pool).Ok?
    ensures var s := Zip.Slicer(op1, op2, pool).value;
            AttribText(s.out.attribs) && AttribText(s.att.attribs) && AttribText(s.cs.attribs)
  {
    hide AttribText, Encode, Update, UpdatePool, AttribsFromString, Numbers;
    var e1 := AttribsFromString(op1.attribs, pool);
    var p1 := UpdatePool(e1, false, pool);
    var e2 := AttribsFromString(op2.attribs, p1);
    var del := op1.code != Keep;
    var p2 := UpdatePool(e2, del, p1);
    var m := Update(Update(map[], e1, false), e2, del);
    EncodeAttribText(Numbers(m, SortedKeys(m, p2, 0), p2));
  }

  lemma {:induction false} FollowAttribText(ops1: seq<Op>, ops2: seq<Op>, bank1: string, bank2: string, c: Setting,
          n: nat)
    requires AllAttribText(ops1) && AllAttribText(ops2) && FollowZip(ops1, ops2, bank1, bank2, c, n).Ok?
    ensures AllAttribText(FollowZip(ops1, ops2, bank1, bank2, c, n).value)
    decreases |ops1| + |ops2|
  {
    hide AttribText, Step;
    if !(ops1 == [] && ops2 == []) {
      EmptyAttribText();
      var op1, op2 := Zip.First(ops1), Zip.First(ops2);
      var s := Step(op1, op2, bank1, bank2, c, n).value;
      StepAttribText(op1, op2, bank1, bank2, c, n);
      FollowAttribText(Zip.Behind(s.op1, ops1), Zip.Behind(s.op2, ops2), bank1[s.skip1..], bank2[s.skip2..], c, n + 1);
    }
  }

  lemma {:induction false} StepAttribText(op1: Op, op2: Op, bank1: string, bank2: string, c: Setting, n: nat)
    requires AttribText(op1.attribs) && AttribText(op2.attribs) && Step(op1, op2, bank1, bank2, c, n).Ok?
    ensures var s := Step(op1, op2, bank1, bank2, c, n).value;
            AttribText(s.out.attribs) && AttribText(s.op1.attribs) && AttribText(s.op2.attribs)
  {
    hide AttribText, FirstGoes, Encode, Scan, Lookup, Numbers;
    EmptyAttribText();
    var e1, e2 := Lookup(Scan(op1.attribs).0, c.pool), Lookup(Scan(op2.attribs).0, c.pool);
    if e1.Some? && e2.Some? {
      var m := Yield(e1.value, Collect(e2.value, map[]));
      EncodeAttribText(Numbers(m, c.order(n, m), c.pool));
    }
  }

  // ----- composition -----

  /** The operations of a composed changeset are normal and do what the two changesets do in turn. */
  lemma {:induction false} ComposedProduces(sem: AttrSem, cs1: string, cs2: string, pool: Pool, doc: Doc, m: Doc,
          r: Doc)
    returns (z: Zip.Composed)
    requires Deserialize(Unpack(cs1).ops).Ok? && Deserialize(Unpack(cs2).ops).Ok?
             && Unpack(cs1).newLen == Unpack(cs2).oldLen
    requires Apply(sem, OpsOf(cs1), Unpack(cs1).bank, doc) == Some(m)
    requires Apply(sem, OpsOf(cs2), Unpack(cs2).bank, m) == Some(r)
    requires Zip.Lawful(sem, pool)
    ensures Zip.ComposeZip(OpsOf(cs1), OpsOf(cs2), Unpack(cs1).bank, Unpack(cs2).bank, pool) == Ok(z)
    ensures Produces(sem, Assemble(z.ops), z.bank, doc, r)
    ensures Normal(Assemble(z.ops)) && AllAttribText(Assemble(z.ops))
    ensures Good(pool) ==> z.pool == pool
    ensures Compose(cs1, cs2, pool) ==
            Ok((Pack(Unpack(cs1).oldLen, Unpack(cs2).newLen, Serialize(Assemble(z.ops)), z.bank), z.pool))
  {
    hide Unpack, Deserialize, Run, Assemble, Normal, AttribText, Pack, Serialize, Zip.ComposeZip;
    var ops1, ops2, b1, b2 := OpsOf(cs1), OpsOf(cs2), Unpack(cs1).bank, Unpack(cs2).bank;
    Zip.ComposeSound(sem, ops1, ops2, b1, b2, pool, doc, m, r);
    z := Zip.ComposeZip(ops1, ops2, b1, b2, pool).value;
    StripProduces(sem, z.ops, z.bank, doc, r);
    AssembleProduces(sem, z.ops, z.bank, doc, r);
    RunLinesOk(sem, z.ops, z.bank, doc);
    AssembleNormal(z.ops);
    ParsedPrintable(Unpack(cs1).ops);
    ParsedPrintable(Unpack(cs2).ops);
    PrintableParts(ops1);
    PrintableParts(ops2);
    ZipAttribText(ops1, ops2, b1, b2, pool);
    AssembleAttribText(z.ops);
  }

  lemma {:induction false} RunLinesOk(sem: AttrSem, ops: seq<Op>, bank: string, doc: Doc)
    requires Run(sem, ops, bank, doc).Some?
    ensures LinesOk(ops)
  {
    hide Newlines, Text, Fresh, Restyle, Clean;
    if ops != [] {
      var e := RunOp(sem, ops[0], bank, doc).value;
      RunLinesOk(sem, ops[1..], e.bank, e.doc);
    }
  }

  /**
    If two changesets apply one after the other, Compose succeeds just when the first one's new length
    is the length of its result, and then its result applies with the same outcome.
   */
  lemma {:induction false} ComposeApplies(cs1: string, cs2: string, pool: Pool, text: string)
    requires ApplyToText(cs1, text).Ok? && ApplyToText(cs2, After(cs1, text)).Ok?
    ensures Compose(cs1, cs2, pool).Ok? <==> Unpack(cs1).newLen == |After(cs1, text)|
    ensures Compose(cs1, cs2, pool).Ok? ==>
              ApplyToText(Compose(cs1, cs2, pool).value.0, text) == ApplyToText(cs2, After(cs1, text))
  {
    if Unpack(cs1).newLen == |After(cs1, text)| { ComposeSucceeds(cs1, cs2, pool, text); }
  }

  lemma {:induction false} ComposeSucceeds(cs1: string, cs2: string, pool: Pool, text: string)
    requires ApplyToText(cs1, text).Ok? && Unpack(cs1).newLen == |After(cs1, text)|
    requires ApplyToText(cs2, After(cs1, text)).Ok?
    ensures Compose(cs1, cs2, pool).Ok?
    ensures ApplyToText(Compose(cs1, cs2, pool).value.0, text) == ApplyToText(cs2, After(cs1, text))
  {
    hide Unpack, Deserialize, Run, Plain, Assemble, Canonical, AttribText, Pack, Serialize, Zip.ComposeZip, ApplyOps,
         Compose;
    var m := After(cs1, text);
    var r := After(cs2, m);
    ApplyOpsRun(OpsOf(cs1), Unpack(cs1).bank, text);
    ApplyOpsRun(OpsOf(cs2), Unpack(cs2).bank, m);
    var z := ComposedProduces(Ignore(false), cs1, cs2, pool, Plain(text), Plain(m), Plain(r));
    var ops := Assemble(z.ops);
    NormalPrintable(ops);
    PrintParse(|text|, Unpack(cs2).newLen, ops, z.bank);
    ApplyOpsRun(ops, z.bank, text);
    PlainText(r);
    if ApplyOps(ops, z.bank, text).Ok? { PlainText(ApplyOps(ops, z.bank, text).value); }
  }

  /** Composing well-formed changesets gives a well-formed changeset, which CheckRep accepts, with the same result. */
  lemma {:induction false} ComposeWellFormed(cs1: string, cs2: string, pool: Pool, text: string)
    requires WellFormed(cs1, text) && WellFormed(cs2, After(cs1, text))
    ensures Compose(cs1, cs2, pool).Ok?
    ensures var cs := Compose(cs1, cs2, pool).value.0;
            WellFormed(cs, text) && ApplyToText(cs, text) == ApplyToText(cs2, After(cs1, text))
    ensures var z := Zip.ComposeZip(OpsOf(cs1), OpsOf(cs2), Unpack(cs1).bank, Unpack(cs2).bank, pool);
            z.Ok? && OpsOf(Compose(cs1, cs2, pool).value.0) == Assemble(z.value.ops)
  {
    hide Unpack, Deserialize, Run, Plain, Assemble, Canonical, AttribText, Pack, Serialize, Zip.ComposeZip, ApplyToText,
         CheckRep, Compose;
    var m := After(cs1, text);
    var r := After(cs2, m);
    WellFormedProduces(cs1, text);
    WellFormedProduces(cs2, m);
    CheckRepRegular(cs1);
    CheckRepRegular(cs2);
    var z := ComposedProduces(Ignore(true), cs1, cs2, pool, Plain(text), Plain(m), Plain(r));
    ProducedWellFormed(Assemble(z.ops), z.bank, text, r);
  }

  // ----- rebasing -----

  lemma {:induction false} StripLength(ops: seq<Op>)
    ensures LengthChange(Strip(ops)) == LengthChange(ops)
  {
    if ops != [] { StripLength(ops[1..]); }
  }

  lemma {:induction false} CanonicalPositive(ops: seq<Op>)
    requires Canonical(ops)
    ensures Positive(ops)
  {}

  lemma {:induction false} ProducesLines(sem: AttrSem, ops: seq<Op>, bank: string, doc: Doc, r: Doc)
    requires Produces(sem, ops, bank, doc, r)
    ensures LinesOk(ops) && |r| == |doc| + LengthChange(ops)
  {
    hide Run;
    RunLinesOk(sem, ops, bank, doc);
    RunLength(sem, ops, bank, doc);
  }

  /** What is written for a rebase makes a well-formed changeset. */
  lemma {:induction false} RebasedWellFormed(ops: seq<Op>, bank: string, text: string, r: string)
    requires Produces(Ignore(true), Strip(ops), bank, Plain(text), Plain(r))
    requires AllAttribText(ops)
    ensures var cs := Pack(|text|, |text| + LengthChange(ops), Serialize(Assemble(ops)), bank);
            && WellFormed(cs, text) && ApplyToText(cs, text) == Ok(r)
            && OpsOf(cs) == Assemble(ops) && Unpack(cs).bank == bank
  {
    hide *;
    AssembleProduces(Ignore(true), ops, bank, Plain(text), Plain(r));
    AssembleStrip(ops);
    ProducesLines(Ignore(true), Strip(ops), bank, Plain(text), Plain(r));
    AssembleNormal(Strip(ops));
    AssembleAttribText(ops);
    PlainText(text);
    PlainText(r);
    StripLength(ops);
    ProducedWellFormed(Assemble(ops), bank, text, r);
  }

  /** What the run of attribute-blind operations makes of a text is a text. */
  lemma {:induction false} ProducedPlain(strict: bool, ops: seq<Op>, bank: string, text: string, r: Doc)
    requires Produces(Ignore(strict), ops, bank, Plain(text), r)
    ensures r == Plain(Text(r))
  {
    hide Run, Plain, ApplyOps;
    if strict { StrictIsPlain(ops, bank, Plain(text)); }
    ApplyOpsRun(ops, bank, text);
    PlainText(ApplyOps(ops, bank, text).value);
  }

  /** Every attribute number that `cs` uses is in the pool. */
  predicate AttribsResolved(cs: string, pool: Pool) {
    forall i :: 0 <= i < |OpsOf(cs)| ==> Resolved(OpsOf(cs)[i].attribs, pool)
  }

  lemma {:induction false} StepResolved(op1: Op, op2: Op, bank1: string, bank2: string, c: Setting, n: nat)
    requires Good(c.pool) && Enumerates(c.order) && Step(op1, op2, bank1, bank2, c, n).Ok?
    requires Resolved(op1.attribs, c.pool) && Resolved(op2.attribs, c.pool)
    ensures var s := Step(op1, op2, bank1, bank2, c, n).value;
            Resolved(s.out.attribs, c.pool) && Resolved(s.op1.attribs, c.pool) && Resolved(s.op2.attribs, c.pool)
  {
    hide FirstGoes, FollowAttributes, Scan, Good, Enumerates;
    assert Resolved("", c.pool) by { EmptyResolved(c.pool); }
    if FollowAttributes(op1.attribs, op2.attribs, c.pool, c.order, n).Ok? {
      FollowAttributesKnown(op1.attribs, op2.attribs, c.pool, c.order, n);
    }
  }

  lemma {:induction false} EmptyResolved(pool: Pool)
    ensures Resolved("", pool)
  {}

  lemma {:induction false} ZipResolved(ops1: seq<Op>, ops2: seq<Op>, bank1: string, bank2: string, c: Setting, n: nat)
    requires Good(c.pool) && Enumerates(c.order) && FollowZip(ops1, ops2, bank1, bank2, c, n).Ok?
    requires AllAttribs((_, a) => Resolved(a, c.pool), ops1) && AllAttribs((_, a) => Resolved(a, c.pool), ops2)
    ensures AllAttribs((_, a) => Resolved(a, c.pool), FollowZip(ops1, ops2, bank1, bank2, c, n).value)
    decreases |ops1| + |ops2|
  {
    hide Step, Resolved, Good, Enumerates;
    if !(ops1 == [] && ops2 == []) {
      EmptyResolved(c.pool);
      var op1, op2 := Zip.First(ops1), Zip.First(ops2);
      var s := Step(op1, op2, bank1, bank2, c, n).value;
      StepResolved(op1, op2, bank1, bank2, c, n);
      ZipResolved(Zip.Behind(s.op1, ops1), Zip.Behind(s.op2, ops2), bank1[s.skip1..], bank2[s.skip2..], c, n + 1);
    }
  }

  /** What Follow returns uses only attributes that the pool knows, if its arguments do. */
  lemma {:induction false} FollowResolved(f: string, cs1: string, cs2: string, c: Setting)
    requires Good(c.pool) && Enumerates(c.order) && Rebased(f, cs1, cs2, c)
    requires AttribsResolved(cs1, c.pool) && AttribsResolved(cs2, c.pool)
    ensures AttribsResolved(f, c.pool)
  {
    hide FollowZip, Resolved, Good, Enumerates, Assemble, OpsOf;
    var ops := FollowZip(OpsOf(cs1), OpsOf(cs2), Unpack(cs1).bank, Unpack(cs2).bank, c, 0).value;
    EmptyResolved(c.pool);
    ZipResolved(OpsOf(cs1), OpsOf(cs2), Unpack(cs1).bank, Unpack(cs2).bank, c, 0);
    AssembleAttribs((_, a) => Resolved(a, c.pool), ops);
  }

  /** The operations and the bank of a rebased changeset. */
  ghost predicate Rebased(f: string, cs1: string, cs2: string, c: Setting) {
    var ops := FollowZip(OpsOf(cs1), OpsOf(cs2), Unpack(cs1).bank, Unpack(cs2).bank, c, 0);
    ops.Ok? && OpsOf(f) == Assemble(ops.value) && Unpack(f).bank == Unpack(cs2).bank
  }

  lemma {:induction false} FollowSound(cs1: string, cs2: string, c1: Setting, c2: Setting, text: string)
    requires WellFormed(cs1, text) && WellFormed(cs2, text)
    requires c1.pool == c2.pool && c1.reverse != c2.reverse
    requires AttribsResolved(cs1, c1.pool) && AttribsResolved(cs2, c1.pool)
    ensures Follow(cs1, cs2, c1).Ok? && Follow(cs2, cs1, c2).Ok?
    ensures var (f1, f2) := (Follow(cs1, cs2, c1).value, Follow(cs2, cs1, c2).value);
            && WellFormed(f1, After(cs1, text)) && WellFormed(f2, After(cs2, text))
            && ApplyToText(f1, After(cs1, text)).Ok?
            && ApplyToText(f1, After(cs1, text)) == ApplyToText(f2, After(cs2, text))
            && Rebased(f1, cs1, cs2, c1) && Rebased(f2, cs2, cs1, c2)
  {
    hide Unpack, Deserialize, Run, Plain, Assemble, Canonical, AttribText, Pack, Serialize, FollowZip, ApplyToText,
         CheckRep, Strip, Resolved;
    var ops1, ops2, b1, b2 := OpsOf(cs1), OpsOf(cs2), Unpack(cs1).bank, Unpack(cs2).bank;
    WellFormedProduces(cs1, text);
    WellFormedProduces(cs2, text);
    CheckRepRegular(cs1);
    CheckRepRegular(cs2);
    CanonicalPositive(ops1);
    CanonicalPositive(ops2);
    var m1, m2 := After(cs1, text), After(cs2, text);
    var r := FollowConverges(Ignore(true), ops1, ops2, b1, b2, c1, c2, 0, Plain(text), Plain(m1), Plain(m2));
    var f1, f2 := FollowZip(ops1, ops2, b1, b2, c1, 0).value, FollowZip(ops2, ops1, b2, b1, c2, 0).value;
    PrintableParts(ops1);
    PrintableParts(ops2);
    FollowAttribText(ops1, ops2, b1, b2, c1, 0);
    FollowAttribText(ops2, ops1, b2, b1, c2, 0);
    ProducedPlain(true, Strip(f1), b2, m1, r);
    RebasedWellFormed(f1, b2, m1, Text(r));
    RebasedWellFormed(f2, b1, m2, Text(r));
  }

  /**
    Convergence: of two well-formed changesets on one text, each can be rebased over the other, with opposite
    tie-breaks; the rebased changesets are well-formed, and either order of doing them leads to the same text.
   */
  lemma {:induction false} FollowConvergence(cs1: string, cs2: string, c1: Setting, c2: Setting, text: string)
    requires WellFormed(cs1, text) && WellFormed(cs2, text)
    requires c1.pool == c2.pool && c1.reverse != c2.reverse
    requires AttribsResolved(cs1, c1.pool) && AttribsResolved(cs2, c1.pool)
    ensures Follow(cs1, cs2, c1).Ok? && Follow(cs2, cs1, c2).Ok?
    ensures var (f1, f2) := (Follow(cs1, cs2, c1).value, Follow(cs2, cs1, c2).value);
            && WellFormed(f1, After(cs1, text)) && WellFormed(f2, After(cs2, text))
            && ApplyToText(f1, After(cs1, text)).Ok?
            && ApplyToText(f1, After(cs1, text)) == ApplyToText(f2, After(cs2, text))
  {
    FollowSound(cs1, cs2, c1, c2, text);
  }
}
