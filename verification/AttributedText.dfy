/** Attributed texts and changesets on them: ApplyToAttribution and ApplyToAText of lib/changeset/changeset.go. */
module AttributedText {
  import opened Basics
  import opened Pools
  import opened Attributes
  import opened Ops
  import opened Syntax
  import opened Assemblers
  import Zip = Composition
  import opened Rebasing
  import opened Changesets
  import opened Algebra

  /** A text with its attribution, a printed list of insertions that covers the text. */
  datatype AText = AText(text: string, attribs: string)

  // ----- the operations -----

  /** The zip of ApplyToAttribution: that of Compose, without the banks. */
  function AttribZip(ops1: seq<Op>, ops2: seq<Op>, pool: Pool): Result<(seq<Op>, Pool)>
    decreases |ops1| + |ops2|
  {
    if ops1 == [] && ops2 == [] then Ok(([], pool))
    else match Zip.Slicer(Zip.First(ops1), Zip.First(ops2), pool)
      case Err(e) => Err(e)
      case Ok(s) =>
        match AttribZip(Zip.Behind(s.att, ops1), Zip.Behind(s.cs, ops2), s.pool)
        case Err(e) => Err(e)
        case Ok((ops, p)) => Ok((Zip.Emit(s.out) + ops, p))
  }

  function ApplyToAttribution(cs: string, attribs: string, pool: Pool): Result<(string, Pool)> {
    match (Deserialize(attribs), Deserialize(Unpack(cs).ops))
    case (Err(e), _) => Err(e)
    case (_, Err(e)) => Err(e)
    case (Ok(ops1), Ok(ops2)) =>
      match AttribZip(ops1, ops2, pool)
      case Err(e) => Err(e)
      case Ok((ops, p)) => Ok((Serialize(Assemble(ops)), p))
  }

  function ApplyToAText(cs: string, at: AText, pool: Pool): Result<(AText, Pool)> {
    match ApplyToText(cs, at.text)
    case Err(e) => Err(e)
    case Ok(text) =>
      match ApplyToAttribution(cs, at.attribs, pool)
      case Err(e) => Err(e)
      case Ok((attribs, p)) => Ok((AText(text, attribs), p))
  }

  // ----- what an attributed text stands for -----

  /** `at` stands for the document `d`: its attribution inserts the text with these attributes. */
  ghost predicate Denotes(pool: Pool, at: AText, d: Doc) {
    Deserialize(at.attribs).Ok? && Produces(In(false, pool), Deserialize(at.attribs).value, at.text, [], d)
  }

  lemma {:induction false} InsertedOne(sem: AttrSem, op: Op, bank: string)
    requires RunOp(sem, op, bank, []).Some?
    ensures var e := RunOp(sem, op, bank, []).value; Text(e.out) + e.bank == bank && e.doc == []
  {
    hide Newlines, Clean, Fresh, Text, Fits, Restyle;
    EmptyText();
    if op.code == Insert {
      assert bank[..op.chars] + bank[op.chars..] == bank;
    } else {
      assert "" + bank == bank;
    }
  }

  lemma {:induction false} InsertedText(sem: AttrSem, ops: seq<Op>, bank: string)
    requires Run(sem, ops, bank, []).Some?
    ensures var e := Run(sem, ops, bank, []).value; Text(e.out) + e.bank == bank && e.doc == []
  {
    hide RunOp, Text;
    EmptyText();
    if ops == [] {
      assert "" + bank == bank;
    } else {
      InsertedOne(sem, ops[0], bank);
      var e := RunOp(sem, ops[0], bank, []).value;
      InsertedText(sem, ops[1..], e.bank);
      var f := Run(sem, ops[1..], e.bank, []).value;
      TextConcat(e.out, f.out);
      assert Text(e.out) + Text(f.out) + f.bank == Text(e.out) + (Text(f.out) + f.bank);
    }
  }

  lemma {:induction false} EmptyText()
    ensures Text([]) == ""
  {}

  lemma {:induction false} DenotedText(pool: Pool, at: AText, d: Doc)
    requires Denotes(pool, at, d)
    ensures Text(d) == at.text
  {
    hide RunOp;
    var ops := Deserialize(at.attribs).value;
    InsertedText(In(false, pool), ops, at.text);
    var e := Run(In(false, pool), ops, at.text, []).value;
    assert e.out + e.doc == e.out && Text(e.out) + "" == Text(e.out);
  }

  /** Without the banks the zip writes the same operations. */
  lemma {:induction false} AttribZipWrites(ops1: seq<Op>, ops2: seq<Op>, bank1: string, bank2: string, pool: Pool)
    requires Zip.ComposeZip(ops1, ops2, bank1, bank2, pool).Ok?
    ensures var z := Zip.ComposeZip(ops1, ops2, bank1, bank2, pool).value;
            AttribZip(ops1, ops2, pool) == Ok((z.ops, z.pool))
    decreases |ops1| + |ops2|
  {
    hide Zip.Slicer;
    if !(ops1 == [] && ops2 == []) {
      var op1, op2 := Zip.First(ops1), Zip.First(ops2);
      var skip := if op1.code == Insert && op2.code == Delete then Min(op1.chars, op2.chars) else 0;
      var s := Zip.Slicer(op1, op2, pool).value;
      var d := Zip.Draw(s.out, op2, bank1[skip..], bank2).value;
      AttribZipWrites(Zip.Behind(s.att, ops1), Zip.Behind(s.cs, ops2), d.bank1, d.bank2, s.pool);
    }
  }

  /** The document that `cs` makes of `d`. */
  function AfterDoc(pool: Pool, cs: string, d: Doc): Option<Doc> {
    Apply(In(false, pool), OpsOf(cs), Unpack(cs).bank, d)
  }

  /** A changeset that applies to the text applies to the document of every attributed text with that text. */
  lemma {:induction false} AfterDocText(pool: Pool, cs: string, d: Doc)
    requires ApplyToText(cs, Text(d)).Ok?
    ensures AfterDoc(pool, cs, d).Some? && Text(AfterDoc(pool, cs, d).value) == After(cs, Text(d))
  {
    hide Run, Unpack, Deserialize, Plain, ApplyOps;
    var ops, bank, sem := OpsOf(cs), Unpack(cs).bank, In(false, pool);
    ApplyOpsRun(ops, bank, Text(d));
    PlainText(Text(d));
    SameText(Ignore(false), sem, ops, bank, Plain(Text(d)), d);
    var e1, e2 := Run(Ignore(false), ops, bank, Plain(Text(d))).value, Run(sem, ops, bank, d).value;
    TextConcat(e1.out, e1.doc);
    TextConcat(e2.out, e2.doc);
    PlainText(After(cs, Text(d)));
  }

  /** The operations of the attribution that a changeset makes of one. */
  lemma {:induction false} AppliedOps(pool: Pool, cs: string, at: AText, d: Doc) returns (z: Zip.Composed)
    requires Good(pool) && Denotes(pool, at, d) && ApplyToText(cs, at.text).Ok?
    ensures AfterDoc(pool, cs, d).Some? && Deserialize(Unpack(cs).ops).Ok?
    ensures Zip.ComposeZip(Deserialize(at.attribs).value, OpsOf(cs), at.text, Unpack(cs).bank, pool) == Ok(z)
    ensures ApplyToAText(cs, at, pool) == Ok((AText(After(cs, at.text), Serialize(Assemble(z.ops))), pool))
    ensures Deserialize(Serialize(Assemble(z.ops))) == Ok(Assemble(z.ops))
            && Produces(In(false, pool), Assemble(z.ops), After(cs, at.text), [], AfterDoc(pool, cs, d).value)
  {
    hide Run, Unpack, Deserialize, ApplyToText, Zip.ComposeZip, AttribZip, Assemble, Serialize, Normal, AttribText;
    var sem, ops1, ops2, bank := In(false, pool), Deserialize(at.attribs).value, OpsOf(cs), Unpack(cs).bank;
    DenotedText(pool, at, d);
    AfterDocText(pool, cs, d);
    assert Deserialize(Unpack(cs).ops).Ok? by { AppliedDeserializes(cs, at.text); }
    var d' := AfterDoc(pool, cs, d).value;
    Zip.ComposeSound(sem, ops1, ops2, at.text, bank, pool, [], d, d');
    z := Zip.ComposeZip(ops1, ops2, at.text, bank, pool).value;
    AttribZipWrites(ops1, ops2, at.text, bank, pool);
    ParsedPrintable(at.attribs);
    ParsedPrintable(Unpack(cs).ops);
    PrintableParts(ops1);
    PrintableParts(ops2);
    ZipAttribText(ops1, ops2, at.text, bank, pool);
    AttributionPrinted(sem, z.ops, z.bank, d');
  }

  /**
    Applying to an attributed text changes what it stands for as running the changeset does; the pool stays as it
    is.
   */
  lemma {:induction false} ApplyToATextSound(pool: Pool, cs: string, at: AText, d: Doc)
    requires Good(pool) && Denotes(pool, at, d) && ApplyToText(cs, at.text).Ok?
    ensures AfterDoc(pool, cs, d).Some? && ApplyToAText(cs, at, pool).Ok?
    ensures var (at', p) := ApplyToAText(cs, at, pool).value;
            p == pool && at'.text == After(cs, at.text) && Denotes(pool, at', AfterDoc(pool, cs, d).value)
  {
    hide Run, Unpack, Deserialize, ApplyToText, Zip.ComposeZip, Assemble, Serialize;
    var z := AppliedOps(pool, cs, at, d);
  }

  lemma {:induction false} AppliedDeserializes(cs: string, text: string)
    requires ApplyToText(cs, text).Ok?
    ensures Deserialize(Unpack(cs).ops).Ok?
  {}

  /** The assembled attribution reads back as the same document, whose text is the bank. */
  lemma {:induction false} AttributionPrinted(sem: AttrSem, ops: seq<Op>, bank: string, d: Doc)
    requires Produces(sem, ops, bank, [], d) && AllAttribText(ops)
    ensures Text(d) == bank
    ensures Deserialize(Serialize(Assemble(ops))) == Ok(Assemble(ops)) && Produces(sem, Assemble(ops), bank, [], d)
  {
    hide Run, Deserialize, Assemble, Serialize, Normal, AttribText, AllPrintable, LinesOk, AllAttribText, Text;
    StripProduces(sem, ops, bank, [], d);
    AssembleProduces(sem, ops, bank, [], d);
    RunLinesOk(sem, ops, bank, []);
    AssemblePrintable(ops);
    DeserializeSerialize(Assemble(ops));
    InsertedText(sem, ops, bank);
    var e := Run(sem, ops, bank, []).value;
    assert e.out + e.doc == e.out && Text(e.out) + "" == Text(e.out);
  }

  // ----- the laws on attributed texts -----

  /** Attributed composition: the composed changeset and the two in turn lead to the same attributed document. */
  lemma {:induction false} ComposeAttributed(pool: Pool, cs1: string, cs2: string, at: AText, d: Doc) returns (r: Doc)
    requires Good(pool) && Denotes(pool, at, d)
    requires ApplyToText(cs1, at.text).Ok? && Unpack(cs1).newLen == |After(cs1, at.text)|
    requires ApplyToText(cs2, After(cs1, at.text)).Ok?
    ensures ApplyToAText(cs1, at, pool).Ok? && Compose(cs1, cs2, pool).Ok? && Compose(cs1, cs2, pool).value.1 == pool
    ensures var (at1, _) := ApplyToAText(cs1, at, pool).value;
            ApplyToAText(cs2, at1, pool).Ok? && Denotes(pool, ApplyToAText(cs2, at1, pool).value.0, r)
    ensures var cs := Compose(cs1, cs2, pool).value.0;
            ApplyToAText(cs, at, pool).Ok? && Denotes(pool, ApplyToAText(cs, at, pool).value.0, r)
  {
    hide Run, Unpack, Deserialize, ApplyToText, Compose, Zip.ComposeZip, ApplyToAText, Denotes, Pack, Assemble,
         Serialize, Canonical, AttribText;
    ApplyToATextSound(pool, cs1, at, d);
    var at1, d1 := ApplyToAText(cs1, at, pool).value.0, AfterDoc(pool, cs1, d).value;
    ApplyToATextSound(pool, cs2, at1, d1);
    r := AfterDoc(pool, cs2, d1).value;
    AppliedDeserializes(cs1, at.text);
    AppliedDeserializes(cs2, at1.text);
    assert Unpack(cs2).oldLen == |at1.text| by { AppliedLengths(cs2, at1.text); }
    var z := ComposedProduces(In(false, pool), cs1, cs2, pool, d, d1, r);
    ComposeApplies(cs1, cs2, pool, at.text);
    var cs := Compose(cs1, cs2, pool).value.0;
    NormalPrintable(Assemble(z.ops));
    PrintParse(Unpack(cs1).oldLen, Unpack(cs2).newLen, Assemble(z.ops), z.bank);
    ApplyToATextSound(pool, cs, at, d);
    assert AfterDoc(pool, cs, d) == Some(r);
  }

  lemma {:induction false} AppliedLengths(cs: string, text: string)
    requires ApplyToText(cs, text).Ok?
    ensures Unpack(cs).oldLen == |text|
  {}

  /** The attribute strings of `cs` are known to the pool, with distinct keys. */
  predicate AttribsKnown(cs: string, pool: Pool) {
    forall i :: 0 <= i < |OpsOf(cs)| ==> Known(OpsOf(cs)[i].attribs, pool)
  }

  /**
    Attributed convergence: after either changeset and the rebase of the other one, whatever order the attribute
    maps were visited in, the attributed texts stand for the same document.
   */
  lemma {:induction false} RebaseAttributed(pool: Pool, cs1: string, cs2: string, o1: Order, o2: Order, at: AText,
          d: Doc)
    returns (r: Doc)
    requires Good(pool) && Denotes(pool, at, d) && Enumerates(o1) && Enumerates(o2)
    requires WellFormed(cs1, at.text) && WellFormed(cs2, at.text)
    requires AttribsKnown(cs1, pool) && AttribsKnown(cs2, pool)
    ensures Follow(cs1, cs2, Setting(false, pool, o1)).Ok? && Follow(cs2, cs1, Setting(true, pool, o2)).Ok?
    ensures ApplyToAText(cs1, at, pool).Ok? && ApplyToAText(cs2, at, pool).Ok?
    ensures var f1, at1 := Follow(cs1, cs2, Setting(false, pool, o1)).value, ApplyToAText(cs1, at, pool).value.0;
            ApplyToAText(f1, at1, pool).Ok? && Denotes(pool, ApplyToAText(f1, at1, pool).value.0, r)
    ensures var f2, at2 := Follow(cs2, cs1, Setting(true, pool, o2)).value, ApplyToAText(cs2, at, pool).value.0;
            ApplyToAText(f2, at2, pool).Ok? && Denotes(pool, ApplyToAText(f2, at2, pool).value.0, r)
  {
    hide Run, Unpack, Deserialize, ApplyToText, ApplyToAText, Denotes, Canonical, AttribText, CheckRep, FollowZip,
         Strip, Follow, Known, Resolved;
    var c1, c2, sem := Setting(false, pool, o1), Setting(true, pool, o2), In(false, pool);
    KnownResolved(cs1, pool);
    KnownResolved(cs2, pool);
    FollowSound(cs1, cs2, c1, c2, at.text);
    WellFormedOnDoc(pool, cs1, at, d);
    WellFormedOnDoc(pool, cs2, at, d);
    var m1, m2 := AfterDoc(pool, cs1, d).value, AfterDoc(pool, cs2, d).value;
    var ops1, ops2, b1, b2 := OpsOf(cs1), OpsOf(cs2), Unpack(cs1).bank, Unpack(cs2).bank;
    r := FollowConverges(sem, ops1, ops2, b1, b2, c1, c2, 0, d, m1, m2);
    var f1, f2 := Follow(cs1, cs2, c1).value, Follow(cs2, cs1, c2).value;
    AssembleProduces(sem, FollowZip(ops1, ops2, b1, b2, c1, 0).value, b2, m1, r);
    AssembleProduces(sem, FollowZip(ops2, ops1, b2, b1, c2, 0).value, b1, m2, r);
    ApplyToATextSound(pool, f1, ApplyToAText(cs1, at, pool).value.0, m1);
    ApplyToATextSound(pool, f2, ApplyToAText(cs2, at, pool).value.0, m2);
  }

  lemma {:induction false} KnownResolved(cs: string, pool: Pool)
    requires AttribsKnown(cs, pool)
    ensures AttribsResolved(cs, pool) && AttribsOk(In(false, pool), OpsOf(cs), pool)
  {
    hide Scan, Lookup, DistinctKeys;
    forall i | 0 <= i < |OpsOf(cs)| ensures Resolved(OpsOf(cs)[i].attribs, pool) {
      assert Known(OpsOf(cs)[i].attribs, pool);
    }
  }

  /** What a well-formed changeset makes of an attributed text. */
  lemma {:induction false} WellFormedOnDoc(pool: Pool, cs: string, at: AText, d: Doc)
    requires Good(pool) && Denotes(pool, at, d) && WellFormed(cs, at.text)
    ensures ApplyToAText(cs, at, pool).Ok? && AfterDoc(pool, cs, d).Some?
    ensures ApplyToAText(cs, at, pool).value.0.text == After(cs, at.text)
    ensures Denotes(pool, ApplyToAText(cs, at, pool).value.0, AfterDoc(pool, cs, d).value)
    ensures Produces(In(false, pool), OpsOf(cs), Unpack(cs).bank, d, AfterDoc(pool, cs, d).value)
    ensures Positive(OpsOf(cs))
  {
    hide RunOp, Unpack, Deserialize, ApplyToText, ApplyToAText, Denotes, Canonical, CheckRep;
    WellFormedProduces(cs, at.text);
    CheckRepRegular(cs);
    CanonicalPositive(OpsOf(cs));
    ApplyToATextSound(pool, cs, at, d);
    RunUsesBank(In(false, pool), OpsOf(cs), Unpack(cs).bank, d);
  }
}
