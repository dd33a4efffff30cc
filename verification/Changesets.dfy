/** Whole changesets as strings: lib/changeset/changeset.go. */
module Changesets {
  import opened Basics
  import opened Pools
  import opened Attributes
  import opened Ops
  import opened Syntax
  import opened Assemblers
  import opened Composition
  import opened Rebasing

  // ----- applying to text -----

  /** The text after `ops`, or the error of the first operation that does not fit. */
  function ApplyOps(ops: seq<Op>, bank: string, text: string): Result<string> {
    if ops == [] then Ok(text)
    else
      var n := ops[0].chars;
      match ops[0].code
      case Insert =>
        if n > |bank| then Err("not enough characters remaining")
        else if ops[0].lines != Newlines(bank[..n]) then Err("newline count is wrong in op +; cs:${cs} and text:${str}")
        else (match ApplyOps(ops[1..], bank[n..], text)
              case Err(e) => Err(e)
              case Ok(s) => Ok(bank[..n] + s))
      case Nop => Err("invalid op type")
      case _ =>
        if n > |text| then Err("not enough characters remaining")
        else if ops[0].lines != Newlines(text[..n]) then Err("newline count is wrong in op -; cs:${cs} and text:${str}")
        else (match ApplyOps(ops[1..], bank, text[n..])
              case Err(e) => Err(e)
              case Ok(s) => Ok(if ops[0].code == Keep then text[..n] + s else s))
  }

  function ApplyToText(cs: string, text: string): Result<string> {
    var u := Unpack(cs);
    if |text| != u.oldLen then Err("mismatched text length")
    else match Deserialize(u.ops)
      case Err(e) => Err(e)
      case Ok(ops) => ApplyOps(ops, u.bank, text)
  }

  /** A text as a document without attributes. */
  function Plain(s: string): Doc { Fresh(Ignore(false), "", s) }

  lemma {:induction false} FreshIsPlain(strict: bool, a: string, s: string)
    ensures Fresh(Ignore(strict), a, s) == Plain(s)
  {
    if s != [] { FreshIsPlain(strict, a, s[1..]); }
  }

  lemma {:induction false} RestyleIgnored(strict: bool, a: string, d: Doc)
    ensures Restyle(Ignore(strict), a, d) == d
  {
    if d != [] { RestyleIgnored(strict, a, d[1..]); }
  }

  lemma {:induction false} PlainSplit(s: string, k: nat)
    requires k <= |s|
    ensures Plain(s)[..k] == Plain(s[..k]) && Plain(s)[k..] == Plain(s[k..])
  {
    FreshSplit(Ignore(false), "", s, k);
  }

  /** Applying to a text is running on its document, attributes ignored. */
  lemma {:induction false} ApplyOpsRun(ops: seq<Op>, bank: string, text: string)
    ensures var r := Apply(Ignore(false), ops, bank, Plain(text));
            match ApplyOps(ops, bank, text)
            case Err(_) => r.None?
            case Ok(s) => r == Some(Plain(s))
  {
    hide Newlines, Fresh, Restyle, Clean, Plain;
    if ops == [] {
      assert [] + Plain(text) == Plain(text);
    } else {
      ApplyStep(Ignore(false), ops, bank, Plain(text));
      var n := ops[0].chars;
      PlainText(text);
      if ops[0].code == Insert {
        if n <= |bank| {
          ApplyOpsRun(ops[1..], bank[n..], text);
          FreshIsPlain(false, ops[0].attribs, bank[..n]);
          if ApplyOps(ops, bank, text).Ok? { PlainConcat(bank[..n], ApplyOps(ops[1..], bank[n..], text).value); }
        }
      } else if ops[0].code != Nop && n <= |text| {
        PlainSplit(text, n);
        PlainText(text[..n]);
        ApplyOpsRun(ops[1..], bank, text[n..]);
        RestyleIgnored(false, ops[0].attribs, Plain(text)[..n]);
        if ApplyOps(ops, bank, text).Ok? {
          var s := ApplyOps(ops[1..], bank, text[n..]).value;
          PlainConcat(text[..n], s);
          assert [] + Plain(s) == Plain(s);
        }
      }
    }
  }

  lemma {:induction false} PlainText(s: string)
    ensures Text(Plain(s)) == s && |Plain(s)| == |s|
  {}

  lemma {:induction false} PlainConcat(a: string, b: string)
    ensures Plain(a + b) == Plain(a) + Plain(b)
  {
    FreshSplit(Ignore(false), "", a + b, |a|);
    assert (a + b)[..|a|] == a && (a + b)[|a|..] == b;
  }

  lemma {:induction false} ApplyStep(sem: AttrSem, ops: seq<Op>, bank: string, doc: Doc)
    requires ops != []
    ensures Apply(sem, ops, bank, doc) ==
            match RunOp(sem, ops[0], bank, doc)
            case None => None
            case Some(e) =>
              match Apply(sem, ops[1..], e.bank, e.doc)
              case None => None
              case Some(d) => Some(e.out + d)
  {
    hide RunOp;
    match RunOp(sem, ops[0], bank, doc)
    case None =>
    case Some(e) =>
      match Run(sem, ops[1..], e.bank, e.doc)
      case None =>
      case Some(f) => assert e.out + f.out + f.doc == e.out + (f.out + f.doc);
  }

  // ----- checking -----

  // what CheckRep complains about
  function OldPosTooLarge(): string { "oldPos > oldLen in changeset" }
  function BankTooShort(): string { "invalid changeset: not enough chars in charBank" }
  function WrongNewlines(): string { "invalid changeset: number of newlines in insert op does not match the charBank" }
  function UnfinishedLine(): string { "invalid changeset: multiline insert op does not end with a new line" }
  function NewLenTooLarge(): string { "CalcNewLen > NewLen in cs" }
  function UnknownOpcode(): string { "invalid changeset: Unknown opcode" }
  function WrongNewLen(): string { "invalid changeset claimed length does not match actual length" }
  function BankLeft(): string { "Invalid changeset excess characters in the charbank" }
  function NotCanonical(): string { "invalid changeset: not in canonical form" }

  /** Positions in the old and the new text, and the rest of the bank, once all operations are checked. */
  datatype Checked = Checked(oldPos: int, newPos: int, bank: string)

  function CheckOps(ops: seq<Op>, s: Checked, oldLen: int, newLen: int): Result<Checked> {
    if ops == [] then Ok(s)
    else
      var o := ops[0];
      match o.code
      case Keep => CheckOps(ops[1..], Checked(s.oldPos + o.chars, s.newPos + o.chars, s.bank), oldLen, newLen)
      case Delete =>
        if s.oldPos + o.chars > oldLen then Err(OldPosTooLarge())
        else CheckOps(ops[1..], Checked(s.oldPos + o.chars, s.newPos, s.bank), oldLen, newLen)
      case Insert =>
        if |s.bank| < o.chars then Err(BankTooShort())
        else if Newlines(s.bank[..o.chars]) != o.lines then Err(WrongNewlines())
        else if !(o.lines == 0 || EndsInNewline(s.bank[..o.chars])) then Err(UnfinishedLine())
        else if s.newPos + o.chars > newLen then Err(NewLenTooLarge())
        else CheckOps(ops[1..], Checked(s.oldPos, s.newPos + o.chars, s.bank[o.chars..]), oldLen, newLen)
      case Nop => Err(UnknownOpcode())
  }

  function CheckRep(cs: string): Result<string> {
    var u := Unpack(cs);
    match Deserialize(u.ops)
    case Err(e) => Err(e)
    case Ok(ops) =>
      match CheckOps(ops, Checked(0, 0, u.bank), u.oldLen, u.newLen)
      case Err(e) => Err(e)
      case Ok(s) =>
        var calcNewLen := s.newPos + u.oldLen - s.oldPos;
        if calcNewLen != u.newLen then Err(WrongNewLen())
        else if s.bank != "" then Err(BankLeft())
        else if Pack(u.oldLen, calcNewLen, Serialize(Assemble(ops)), u.bank) != cs then Err(NotCanonical())
        else Ok(cs)
  }

  /** Insertions fit the bank, end with a newline where they hold one, and use the bank up. */
  predicate InsertsFit(ops: seq<Op>, bank: string) {
    if ops == [] then bank == ""
    else if ops[0].code == Insert then
      && ops[0].chars <= |bank| && ops[0].lines == Newlines(bank[..ops[0].chars]) && Clean(bank[..ops[0].chars])
      && InsertsFit(ops[1..], bank[ops[0].chars..])
    else InsertsFit(ops[1..], bank)
  }

  lemma {:induction false} CheckedOps(ops: seq<Op>, s: Checked, oldLen: int, newLen: int)
    requires CheckOps(ops, s, oldLen, newLen).Ok?
    ensures var c := CheckOps(ops, s, oldLen, newLen).value;
            c.newPos - c.oldPos == s.newPos - s.oldPos + LengthChange(ops) && (c.bank == "" ==> InsertsFit(ops, s.bank))
  {
    hide OldPosTooLarge, BankTooShort, WrongNewlines, UnfinishedLine, NewLenTooLarge, UnknownOpcode, WrongNewLen,
         BankLeft, NotCanonical;
    hide Newlines;
    if ops != [] {
      CheckedOps(ops[1..], PastOp(ops[0], s), oldLen, newLen);
    }
  }

  // ----- attribute strings stay well formed -----

  /** `p` holds of the codes and attribute strings of the operations. */
  predicate AllAttribs(p: (OpCode, string) -> bool, ops: seq<Op>) {
    forall i :: 0 <= i < |ops| ==> p(ops[i].code, ops[i].attribs)
  }

  predicate AllAttribText(ops: seq<Op>) { forall i :: 0 <= i < |ops| ==> AttribText(ops[i].attribs) }

  ghost predicate SmartAttribs(p: (OpCode, string) -> bool, s: Smart) {
    && AllAttribs(p, s.done)
    && AllAttribs(p, s.minus.done) && AllAttribs(p, s.plus.done) && AllAttribs(p, s.keep.done)
    && p(s.minus.buf.code, s.minus.buf.attribs) && p(s.plus.buf.code, s.plus.buf.attribs)
    && p(s.keep.buf.code, s.keep.buf.attribs)
  }

  lemma {:induction false} AppendAllAttribs(p: (OpCode, string) -> bool, ops: seq<Op>)
    requires p(Nop, "") && AllAttribs(p, ops)
    ensures SmartAttribs(p, AppendAll(NEW_SMART, ops))
  {
    hide SmartAppend;
    if ops != [] {
      AppendAllAttribs(p, ops[..|ops| - 1]);
      SmartAppendAttribs(p, AppendAll(NEW_SMART, ops[..|ops| - 1]), ops[|ops| - 1]);
    }
  }

  lemma {:induction false} SmartAppendAttribs(p: (OpCode, string) -> bool, s: Smart, op: Op)
    requires p(Nop, "") && SmartAttribs(p, s) && p(op.code, op.attribs)
    ensures SmartAttribs(p, SmartAppend(s, op))
  {
    hide MergeAppend, Merged, AllAttribs;
    MergedAttribs(p, s.minus);
    MergedAttribs(p, s.plus);
    MergedAttribs(p, s.keep);
    AllConcat(p, s.done, Merged(s.minus));
    AllConcat(p, s.done + Merged(s.minus), Merged(s.plus));
    AllConcat(p, s.done, Merged(s.keep));
    MergeAppendAttribs(p, s.minus, op);
    MergeAppendAttribs(p, s.plus, op);
    MergeAppendAttribs(p, s.keep, op);
    AllOfNothing(p);
  }

  lemma {:induction false} AllOfNothing(p: (OpCode, string) -> bool)
    ensures AllAttribs(p, [])
  {}

  lemma {:induction false} MergedAttribs(p: (OpCode, string) -> bool, m: Merger)
    requires AllAttribs(p, m.done) && p(m.buf.code, m.buf.attribs) && p(Nop, "")
    ensures AllAttribs(p, Merged(m))
  {}

  lemma {:induction false} AllConcat(p: (OpCode, string) -> bool, a: seq<Op>, b: seq<Op>)
    requires AllAttribs(p, a) && AllAttribs(p, b)
    ensures AllAttribs(p, a + b)
  {}

  lemma {:induction false} MergeAppendAttribs(p: (OpCode, string) -> bool, m: Merger, op: Op)
    requires AllAttribs(p, m.done) && p(m.buf.code, m.buf.attribs) && p(Nop, "") && p(op.code, op.attribs)
    ensures AllAttribs(p, MergeAppend(m, op).done) && p(MergeAppend(m, op).buf.code, MergeAppend(m, op).buf.attribs)
  {
    hide Merged;
    MergedAttribs(p, m);
  }

  /** Assembling brings no attribute strings of its own, and moves none to an operation of another kind. */
  lemma {:induction false} AssembleAttribs(p: (OpCode, string) -> bool, ops: seq<Op>)
    requires p(Nop, "") && AllAttribs(p, ops)
    ensures AllAttribs(p, Assemble(ops))
  {
    hide SmartAppend;
    AppendAllAttribs(p, ops);
  }

  lemma {:induction false} EmptyAttribText()
    ensures AttribText("")
  {}

  lemma {:induction false} AssembleAttribText(ops: seq<Op>)
    requires AllAttribText(ops)
    ensures AllAttribText(Assemble(ops))
  {
    hide Assemble, AttribText;
    EmptyAttribText();
    AssembleAttribs((_, a) => AttribText(a), ops);
  }

  /** What is assembled can be printed. */
  lemma {:induction false} AssemblePrintable(ops: seq<Op>)
    requires AllAttribText(ops) && LinesOk(ops)
    ensures AllPrintable(Assemble(ops))
  {
    hide AttribText, SmartAppend, Assemble;
    AssembleAttribText(ops);
    assert Normal(Assemble(ops)) by { AssembleNormal(ops); }
  }

  // ----- what CheckRep establishes -----

  /** The operations of a changeset string. */
  function OpsOf(cs: string): seq<Op> {
    match Deserialize(Unpack(cs).ops)
    case Ok(ops) => ops
    case Err(_) => []
  }

  /** A changeset built from normal operations whose insertions fit its bank, with the right lengths. */
  ghost predicate Regular(oldLen: nat, newLen: int, ops: seq<Op>, bank: string) {
    Normal(ops) && AllPrintable(ops) && InsertsFit(ops, bank) && newLen == oldLen + LengthChange(ops)
  }

  /** CheckRep accepts only packed regular changesets. */
  lemma {:induction false} CheckRepRegular(cs: string)
    requires CheckRep(cs).Ok?
    ensures var u := Unpack(cs);
            && Deserialize(u.ops) == Ok(OpsOf(cs))
            && Regular(u.oldLen, u.newLen, OpsOf(cs), u.bank)
            && cs == Pack(u.oldLen, u.newLen, Serialize(OpsOf(cs)), u.bank)
  {
    hide OldPosTooLarge, BankTooShort, WrongNewlines, UnfinishedLine, NewLenTooLarge, UnknownOpcode, WrongNewLen,
         BankLeft, NotCanonical;
    hide Pack, Unpack, Assemble, CheckOps, Normal, Printable, AllPrintable, Serialize, Deserialize, InsertsFit,
         LengthChange;
    hide AllAttribText, LinesOk;
    var u, ops := Unpack(cs), OpsOf(cs);
    CheckedOps(ops, Checked(0, 0, u.bank), u.oldLen, u.newLen);
    ParsedPrintable(u.ops);
    PrintableParts(ops);
    AssemblePrintable(ops);
    PrintParse(u.oldLen, u.newLen, Assemble(ops), u.bank);
    AssembleNormal(ops);
  }

  lemma {:induction false} PrintableParts(ops: seq<Op>)
    requires AllPrintable(ops)
    ensures AllAttribText(ops) && LinesOk(ops)
  {
    forall i | 0 <= i < |ops| ensures AttribText(ops[i].attribs) && ops[i].lines >= 0 { assert Printable(ops[i]); }
  }

  /** If CheckRep accepts and the changeset applies, the result has the new length and the bank is used up. */
  lemma {:induction false} AppliedLength(cs: string, text: string)
    requires CheckRep(cs).Ok? && ApplyToText(cs, text).Ok?
    ensures |ApplyToText(cs, text).value| == Unpack(cs).newLen
    ensures Produces(Ignore(false), OpsOf(cs), Unpack(cs).bank, Plain(text), Plain(ApplyToText(cs, text).value))
  {
    hide Unpack, CheckRep, Normal;
    CheckRepRegular(cs);
    var ops, bank := OpsOf(cs), Unpack(cs).bank;
    ApplyOpsRun(ops, bank, text);
    RunLength(Ignore(false), ops, bank, Plain(text));
    RunUsesBank(Ignore(false), ops, bank, Plain(text));
  }

  lemma {:induction false} RunUsesBank(sem: AttrSem, ops: seq<Op>, bank: string, doc: Doc)
    requires InsertsFit(ops, bank) && Run(sem, ops, bank, doc).Some?
    ensures Run(sem, ops, bank, doc).value.bank == ""
  {
    hide Newlines, Text, Fresh, Restyle, Clean;
    if ops != [] {
      var e := RunOp(sem, ops[0], bank, doc).value;
      RunUsesBank(sem, ops[1..], e.bank, e.doc);
    }
  }

  // ----- what CheckRep accepts -----

  lemma {:induction false} CheckOpsAccepts(sem: AttrSem, ops: seq<Op>, bank: string, doc: Doc, s: Checked, oldLen: int,
          newLen: int)
    requires InsertsFit(ops, bank) && Run(sem, ops, bank, doc).Some?
    requires s.bank == bank && s.oldPos + |doc| <= oldLen && s.newPos + |doc| + LengthChange(ops) <= newLen
    ensures CheckOps(ops, s, oldLen, newLen).Ok? && CheckOps(ops, s, oldLen, newLen).value.bank == ""
  {
    if ops != [] {
      CheckOneAccepts(sem, ops, bank, doc, s, oldLen, newLen);
      hide RunOp, Run, InsertsFit, CheckOps;
      var e := RunOp(sem, ops[0], bank, doc).value;
      CheckOpsAccepts(sem, ops[1..], e.bank, e.doc, PastOp(ops[0], s), oldLen, newLen);
    }
  }

  /** The counters of CheckOps behind one operation. */
  ghost function PastOp(o: Op, s: Checked): Checked
    requires o.code == Insert ==> o.chars <= |s.bank|
  {
    if o.code == Insert then Checked(s.oldPos, s.newPos + o.chars, s.bank[o.chars..])
    else Checked(s.oldPos + o.chars, if o.code == Keep then s.newPos + o.chars else s.newPos, s.bank)
  }

  lemma {:induction false} CheckOneAccepts(sem: AttrSem, ops: seq<Op>, bank: string, doc: Doc, s: Checked, oldLen: int,
          newLen: int)
    requires ops != [] && InsertsFit(ops, bank) && Run(sem, ops, bank, doc).Some?
    requires s.bank == bank && s.oldPos + |doc| <= oldLen && s.newPos + |doc| + LengthChange(ops) <= newLen
    ensures RunOp(sem, ops[0], bank, doc).Some? && (ops[0].code == Insert ==> ops[0].chars <= |bank|)
    ensures var e, t := RunOp(sem, ops[0], bank, doc).value, PastOp(ops[0], s);
            && CheckOps(ops, s, oldLen, newLen) == CheckOps(ops[1..], t, oldLen, newLen)
            && InsertsFit(ops[1..], e.bank) && Run(sem, ops[1..], e.bank, e.doc).Some?
            && t.bank == e.bank && t.oldPos + |e.doc| <= oldLen && t.newPos + |e.doc| + LengthChange(ops[1..]) <= newLen
  {
    hide OldPosTooLarge, BankTooShort, WrongNewlines, UnfinishedLine, NewLenTooLarge, UnknownOpcode;
    hide Newlines, Text, Fresh, Restyle;
    var e := RunOp(sem, ops[0], bank, doc).value;
    RunLength(sem, ops[1..], e.bank, e.doc);
  }

  /** CheckRep accepts a regular changeset that runs on a document of its old length. */
  lemma {:induction false} RegularAccepted(sem: AttrSem, ops: seq<Op>, bank: string, doc: Doc, newLen: int)
    requires Regular(|doc|, newLen, ops, bank) && Run(sem, ops, bank, doc).Some?
    ensures var cs := Pack(|doc|, newLen, Serialize(ops), bank);
            && CheckRep(cs).Ok?
            && Unpack(cs) == Changeset(|doc|, newLen, Serialize(ops), bank)
            && Deserialize(Serialize(ops)) == Ok(ops) && OpsOf(cs) == ops
  {
    hide OldPosTooLarge, BankTooShort, WrongNewlines, UnfinishedLine, NewLenTooLarge, UnknownOpcode, WrongNewLen,
         BankLeft, NotCanonical;
    hide Pack, Unpack, Assemble, CheckOps, Canonical, Serialize, Deserialize, InsertsFit, AllPrintable, LinesOk, Run,
         LengthChange;
    PrintParse(|doc|, newLen, ops, bank);
    CheckOpsAccepts(sem, ops, bank, doc, Checked(0, 0, bank), |doc|, newLen);
    CheckedOps(ops, Checked(0, 0, bank), |doc|, newLen);
    PrintableParts(ops);
    AssembleFixed(ops);
  }

  // ----- well-formed changesets -----

  /** CheckRep accepts `cs`, it applies to `text`, and its operations over several lines end with a newline. */
  ghost predicate WellFormed(cs: string, text: string) {
    && CheckRep(cs).Ok? && Unpack(cs).oldLen == |text|
    && Run(Ignore(true), OpsOf(cs), Unpack(cs).bank, Plain(text)).Some?
  }

  /** The text that `cs` makes of `text`. */
  function After(cs: string, text: string): string {
    match ApplyToText(cs, text) case Ok(s) => s case Err(_) => ""
  }

  lemma {:induction false} SameTextOne(s1: AttrSem, s2: AttrSem, op: Op, bank: string, d1: Doc, d2: Doc)
    requires Text(d1) == Text(d2) && (s2.strict ==> s1.strict)
    requires RunOp(s1, op, bank, d1).Some?
    ensures RunOp(s2, op, bank, d2).Some?
    ensures var (e1, e2) := (RunOp(s1, op, bank, d1).value, RunOp(s2, op, bank, d2).value);
            Text(e1.out) == Text(e2.out) && e1.bank == e2.bank && Text(e1.doc) == Text(e2.doc)
  {
    hide Newlines, Fresh, Restyle, Text, Clean;
    if op.code != Insert {
      TextSplit(d1, op.chars);
      TextSplit(d2, op.chars);
    }
  }

  /** Success and text of a run depend on the text alone, and a strict run is a run. */
  lemma {:induction false} SameText(s1: AttrSem, s2: AttrSem, ops: seq<Op>, bank: string, d1: Doc, d2: Doc)
    requires Text(d1) == Text(d2) && (s2.strict ==> s1.strict)
    requires Run(s1, ops, bank, d1).Some?
    ensures Run(s2, ops, bank, d2).Some?
    ensures var (e1, e2) := (Run(s1, ops, bank, d1).value, Run(s2, ops, bank, d2).value);
            Text(e1.out) == Text(e2.out) && e1.bank == e2.bank && Text(e1.doc) == Text(e2.doc)
    decreases |ops|
  {
    hide RunOp, Text;
    if ops != [] {
      RunFirst(s1, ops, bank, d1);
      RunFirst(s2, ops, bank, d2);
      SameTextOne(s1, s2, ops[0], bank, d1, d2);
      var f1, f2 := RunOp(s1, ops[0], bank, d1).value, RunOp(s2, ops[0], bank, d2).value;
      SameText(s1, s2, ops[1..], f1.bank, f1.doc, f2.doc);
      hide Run;
      TextConcat(f1.out, Run(s1, ops[1..], f1.bank, f1.doc).value.out);
      TextConcat(f2.out, Run(s2, ops[1..], f2.bank, f2.doc).value.out);
    }
  }

  lemma {:induction false} TextConcat(a: Doc, b: Doc)
    ensures Text(a + b) == Text(a) + Text(b)
  {
    TextSplit(a + b, |a|);
    assert (a + b)[..|a|] == a && (a + b)[|a|..] == b;
  }

  /** A well-formed changeset produces its result, read strictly or not. */
  lemma {:induction false} WellFormedProduces(cs: string, text: string)
    requires WellFormed(cs, text)
    ensures ApplyToText(cs, text).Ok? && |After(cs, text)| == Unpack(cs).newLen
    ensures Produces(Ignore(false), OpsOf(cs), Unpack(cs).bank, Plain(text), Plain(After(cs, text)))
    ensures Produces(Ignore(true), OpsOf(cs), Unpack(cs).bank, Plain(text), Plain(After(cs, text)))
  {
    hide CheckRep, Unpack, Run, Plain;
    CheckRepRegular(cs);
    var ops, bank := OpsOf(cs), Unpack(cs).bank;
    SameText(Ignore(true), Ignore(false), ops, bank, Plain(text), Plain(text));
    ApplyOpsRun(ops, bank, text);
    AppliedLength(cs, text);
    RunUsesBank(Ignore(true), ops, bank, Plain(text));
    StrictIsPlain(ops, bank, Plain(text));
  }

  /** Without attributes the strict reading differs only in what it rejects. */
  lemma {:induction false} StrictIsPlain(ops: seq<Op>, bank: string, doc: Doc)
    requires Run(Ignore(true), ops, bank, doc).Some?
    ensures Run(Ignore(false), ops, bank, doc) == Run(Ignore(true), ops, bank, doc)
  {
    hide Newlines, Text, Clean, Fresh, Restyle;
    if ops != [] {
      var e := RunOp(Ignore(true), ops[0], bank, doc).value;
      if ops[0].code == Insert {
        FreshIsPlain(true, ops[0].attribs, bank[..ops[0].chars]);
        FreshIsPlain(false, ops[0].attribs, bank[..ops[0].chars]);
      } else {
        RestyleIgnored(true, ops[0].attribs, doc[..ops[0].chars]);
        RestyleIgnored(false, ops[0].attribs, doc[..ops[0].chars]);
      }
      StrictIsPlain(ops[1..], e.bank, e.doc);
    }
  }

  /** Operations in normal form that strictly produce `r` from `text` make a well-formed changeset. */
  lemma {:induction false} ProducedWellFormed(ops: seq<Op>, bank: string, text: string, r: string)
    requires Produces(Ignore(true), ops, bank, Plain(text), Plain(r))
    requires Normal(ops) && AllAttribText(ops)
    ensures var cs := Pack(|text|, |r|, Serialize(ops), bank);
            && WellFormed(cs, text) && ApplyToText(cs, text) == Ok(r)
            && OpsOf(cs) == ops && Unpack(cs) == Changeset(|text|, |r|, Serialize(ops), bank)
  {
    hide Pack, Unpack, CheckRep, Canonical, ApplyOps, Plain;
    PlainText(text);
    PlainText(r);
    RunLength(Ignore(true), ops, bank, Plain(text));
    StrictInserts(ops, bank, Plain(text));
    NormalPrintable(ops);
    RegularAccepted(Ignore(true), ops, bank, Plain(text), |r|);
    StrictIsPlain(ops, bank, Plain(text));
    ApplyOpsRun(ops, bank, text);
    if ApplyOps(ops, bank, text).Ok? { PlainText(ApplyOps(ops, bank, text).value); }
  }

  lemma {:induction false} NormalPrintable(ops: seq<Op>)
    requires Normal(ops) && AllAttribText(ops)
    ensures AllPrintable(ops)
  {}

  lemma {:induction false} StrictInserts(ops: seq<Op>, bank: string, doc: Doc)
    requires Run(Ignore(true), ops, bank, doc).Some? && Run(Ignore(true), ops, bank, doc).value.bank == ""
    ensures InsertsFit(ops, bank)
  {
    hide Newlines, Text, Fresh, Restyle, Clean;
    if ops != [] {
      var e := RunOp(Ignore(true), ops[0], bank, doc).value;
      StrictInserts(ops[1..], e.bank, e.doc);
    }
  }
}
