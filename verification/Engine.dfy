/** The engine's procedures over changesets: the loops of lib/changeset/changeset.go. */
module Engine {
  import opened Basics
  import opened Pools
  import opened Attributes
  import opened Ops
  import opened Syntax
  import opened Assemblers
  import opened AssemblerObjects
  import opened StringIterators
  import opened Rebasing
  import opened Changesets
  import opened Composition
  import Algebra
  import AttributedText
  import Splices

  // ----- applying to text -----

  function Prefixed(s: string, r: Result<string>): Result<string> {
    match r case Err(e) => Err(e) case Ok(t) => Ok(s + t)
  }

  /** One operation of ApplyToText: what it adds to the result, or its error. */
  function ApplyOp(op: Op, bank: string, text: string): Result<string> {
    var s := if op.code == Insert then bank else text;
    if op.code == Nop then Err("invalid op type")
    else if op.chars > |s| then Err("not enough characters remaining")
    else if op.lines != Newlines(s[..op.chars]) then
      Err(if op.code == Insert then "newline count is wrong in op +; cs:${cs} and text:${str}"
          else "newline count is wrong in op -; cs:${cs} and text:${str}")
    else Ok(if op.code == Delete then "" else s[..op.chars])
  }

  lemma {:induction false} ApplyUnfold(ops: seq<Op>, bank: string, text: string, done: string)
    requires ops != []
    ensures var op := ops[0];
            var r := Prefixed(done, ApplyOps(ops, bank, text));
            match ApplyOp(op, bank, text)
            case Err(e) => r == Err(e)
            case Ok(s) =>
              if op.code == Insert then op.chars <= |bank|
                  && r == Prefixed(done + s, ApplyOps(ops[1..], bank[op.chars..], text))
              else op.chars <= |text| && r == Prefixed(done + s, ApplyOps(ops[1..], bank, text[op.chars..]))
  {
    hide Newlines;
    var op := ops[0];
    match ApplyOp(op, bank, text)
    case Err(_) =>
    case Ok(s) =>
      var rest := if op.code == Insert then ApplyOps(ops[1..], bank[op.chars..], text)
          else ApplyOps(ops[1..], bank, text[op.chars..]);
      if rest.Ok? {
        assert done + (s + rest.value) == done + s + rest.value;
        assert op.code == Delete ==> s + rest.value == rest.value;
      }
  }

  /** The text after one more operation. */
  method ApplyOne(op: Op, bankIter: StringIterator, strIter: StringIterator) returns (r: Result<string>)
    requires bankIter.Valid() && strIter.Valid() && bankIter != strIter
    modifies bankIter, strIter
    ensures bankIter.Valid() && strIter.Valid()
    ensures r == ApplyOp(op, old(bankIter.Rest()), old(strIter.Rest()))
    ensures r.Ok? ==>
              bankIter.Rest() ==
              (if op.code == Insert then old(bankIter.Rest())[op.chars..] else old(bankIter.Rest()))
    ensures r.Ok? ==>
              strIter.Rest() ==
              (if op.code == Insert then old(strIter.Rest()) else old(strIter.Rest())[op.chars..])
  {
    hide Newlines;
    match op.code {
      case Insert =>
        var peekedChars := bankIter.Peek(op.chars);
        if peekedChars.Err? {
          return peekedChars;
        }
        if op.lines != Newlines(peekedChars.value) {
          return Err("newline count is wrong in op +; cs:${cs} and text:${str}");
        }
        r := bankIter.Take(op.chars);
      case Delete =>
        var peekedStr := strIter.Peek(op.chars);
        if peekedStr.Err? {
          return peekedStr;
        }
        if op.lines != Newlines(peekedStr.value) {
          return Err("newline count is wrong in op -; cs:${cs} and text:${str}");
        }
        var _ := strIter.Skip(op.chars);
        r := Ok("");
      case Keep =>
        var peekedStr := strIter.Peek(op.chars);
        if peekedStr.Err? {
          return peekedStr;
        }
        if op.lines != Newlines(peekedStr.value) {
          return Err("newline count is wrong in op -; cs:${cs} and text:${str}");
        }
        r := strIter.Take(op.chars);
      case Nop =>
        r := Err("invalid op type");
    }
  }

  /** All operations in order, and the rest of the text. */
  method ApplyAll(ops: seq<Op>, bankIter: StringIterator, strIter: StringIterator) returns (r: Result<string>)
    requires bankIter.Valid() && strIter.Valid() && bankIter != strIter
    modifies bankIter, strIter
    ensures r == ApplyOps(ops, old(bankIter.Rest()), old(strIter.Rest()))
  {
    hide ApplyOps, ApplyOp, Newlines;
    var assem := "";
    ghost var all := ApplyOps(ops, bankIter.Rest(), strIter.Rest());
    PrefixedNothing(all);
    assert ops[0..] == ops;
    for i := 0 to |ops|
      invariant bankIter.Valid() && strIter.Valid()
      invariant Prefixed(assem, ApplyOps(ops[i..], bankIter.Rest(), strIter.Rest())) == all
    {
      ApplyUnfold(ops[i..], bankIter.Rest(), strIter.Rest(), assem);
      assert ops[i..][1..] == ops[i + 1..];
      var s := ApplyOne(ops[i], bankIter, strIter);
      if s.Err? {
        return s;
      }
      assem := assem + s.value;
    }
    assert ops[|ops|..] == [];
    AppliedNothing(bankIter.Rest(), strIter.Rest());
    var n := strIter.Remaining();
    var rest := strIter.Take(n);
    r := Prefixed(assem, rest);
  }

  lemma {:induction false} PrefixedNothing(r: Result<string>)
    ensures Prefixed("", r) == r
  {
    if r.Ok? { assert "" + r.value == r.value; }
  }

  /** Applies a changeset to a text. */
  method ApplyToText(cs: string, text: string) returns (r: Result<string>)
    ensures r == Changesets.ApplyToText(cs, text)
  {
    hide Unpack, Deserialize, ApplyOps, Newlines;
    var unpacked := Unpack(cs);
    if |text| != unpacked.oldLen {
      return Err("mismatched text length");
    }
    var bankIter := new StringIterator(unpacked.bank);
    var strIter := new StringIterator(text);
    var ops := Deserialize(unpacked.ops);
    if ops.Err? {
      return Err(ops.error);
    }
    r := ApplyAll(ops.value, bankIter, strIter);
  }

  lemma {:induction false} AppliedNothing(bank: string, text: string)
    ensures ApplyOps([], bank, text) == Ok(text) && text[..|text|] == text
  {}

  // ----- checking -----

  lemma {:induction false} CheckUnfold(ops: seq<Op>, s: Checked, oldLen: int, newLen: int)
    requires ops != []
    ensures var (o, r) := (ops[0], CheckOps(ops, s, oldLen, newLen));
            match o.code
            case Keep => r == CheckOps(ops[1..], Checked(s.oldPos + o.chars, s.newPos + o.chars, s.bank), oldLen,
                 newLen)
            case Delete =>
              if s.oldPos + o.chars > oldLen then r == Err(OldPosTooLarge())
              else r == CheckOps(ops[1..], Checked(s.oldPos + o.chars, s.newPos, s.bank), oldLen, newLen)
            case Insert =>
              if |s.bank| < o.chars then r == Err(BankTooShort())
              else if Newlines(s.bank[..o.chars]) != o.lines then r == Err(WrongNewlines())
              else if !(o.lines == 0 || EndsInNewline(s.bank[..o.chars])) then r == Err(UnfinishedLine())
              else if s.newPos + o.chars > newLen then r == Err(NewLenTooLarge())
              else r == CheckOps(ops[1..], Checked(s.oldPos, s.newPos + o.chars, s.bank[o.chars..]), oldLen, newLen)
            case Nop => r == Err(UnknownOpcode())
  {
    hide Newlines, OldPosTooLarge, BankTooShort, WrongNewlines, UnfinishedLine, NewLenTooLarge, UnknownOpcode,
         WrongNewLen, BankLeft, NotCanonical;
  }

  lemma {:induction false} CheckedNothing(s: Checked, oldLen: int, newLen: int)
    ensures CheckOps([], s, oldLen, newLen) == Ok(s)
  {}

  /** One operation is checked: the positions and the bank behind it. */
  method CheckOne(o: Op, s: Checked, oldLen: int, newLen: int, ghost rest: seq<Op>) returns (r: Result<Checked>)
    ensures CheckOps([o] + rest, s, oldLen, newLen) == if r.Err? then Err(r.error)
            else CheckOps(rest, r.value, oldLen, newLen)
  {
    hide *;
    CheckUnfold([o] + rest, s, oldLen, newLen);
    assert ([o] + rest)[1..] == rest;
    var oldPos, calcNewLen, charBank := s.oldPos, s.newPos, s.bank;
    match o.code {
      case Keep =>
        oldPos := oldPos + o.chars;
        calcNewLen := calcNewLen + o.chars;
      case Delete =>
        oldPos := oldPos + o.chars;
        if !(oldPos <= oldLen) {
          return Err(OldPosTooLarge());
        }
      case Insert =>
        if |charBank| < o.chars {
          return Err(BankTooShort());
        }
        var chars := charBank[..o.chars];
        if Newlines(chars) != o.lines {
          return Err(WrongNewlines());
        }
        if !(o.lines == 0 || EndsInNewline(chars)) {
          return Err(UnfinishedLine());
        }
        charBank := charBank[o.chars..];
        calcNewLen := calcNewLen + o.chars;
        if calcNewLen > newLen {
          return Err(NewLenTooLarge());
        }
      case Nop =>
        return Err(UnknownOpcode());
    }
    r := Ok(Checked(oldPos, calcNewLen, charBank));
  }

  /** All operations are checked and handed to the assembler. */
  method CheckAll(ops: seq<Op>, bank: string, oldLen: int, newLen: int, assem: SmartOpAssembler)
    returns (r: Result<Checked>)
    requires assem.Valid() && assem.State() == NEW_SMART
    modifies assem.Repr()
    ensures r == CheckOps(ops, Checked(0, 0, bank), oldLen, newLen)
    ensures assem.Valid() && (r.Ok? ==> assem.State() == AppendAll(NEW_SMART, ops))
  {
    hide Newlines, CheckOps, AppendAll, SmartAppend;
    var s := Checked(0, 0, bank);
    ghost var all := CheckOps(ops, s, oldLen, newLen);
    assert ops[0..] == ops && ops[..0] == [];
    AppendNothing();
    for i := 0 to |ops|
      invariant assem.Valid() && assem.State() == AppendAll(NEW_SMART, ops[..i])
      invariant CheckOps(ops[i..], s, oldLen, newLen) == all
    {
      assert ops[i..] == [ops[i]] + ops[i + 1..];
      var t := CheckOne(ops[i], s, oldLen, newLen, ops[i + 1..]);
      if t.Err? {
        return Err(t.error);
      }
      s := t.value;
      AppendNext(ops, i);
      assem.Append(ops[i]);
    }
    assert ops[|ops|..] == [] && ops[..|ops|] == ops;
    CheckedNothing(s, oldLen, newLen);
    r := Ok(s);
  }

  /** Checks that a changeset is well made and in canonical form. */
  method CheckRep(cs: string) returns (r: Result<string>)
    ensures r == Changesets.CheckRep(cs)
  {
    hide Unpack, Deserialize, CheckOps, Newlines, Pack, Serialize, AppendAll, Assembled, Assemblers.EndDocument;
    hide WrongNewLen, BankLeft, NotCanonical;
    var unpacked := Unpack(cs);
    var oldLen, newLen := unpacked.oldLen, unpacked.newLen;
    var assem := new SmartOpAssembler();
    var ops := Deserialize(unpacked.ops);
    if ops.Err? {
      return Err(ops.error);
    }
    var s := CheckAll(ops.value, unpacked.bank, oldLen, newLen, assem);
    if s.Err? {
      return Err(s.error);
    }
    var calcNewLen := s.value.newPos + oldLen - s.value.oldPos;
    if calcNewLen != newLen {
      return Err(WrongNewLen());
    }
    if s.value.bank != "" {
      return Err(BankLeft());
    }
    assem.EndDocument();
    var opStr := assem.String();
    if Pack(oldLen, calcNewLen, opStr, unpacked.bank) != cs {
      return Err(NotCanonical());
    }
    r := Ok(cs);
  }

  lemma {:induction false} AppendNext(ops: seq<Op>, i: nat)
    requires i < |ops|
    ensures AppendAll(NEW_SMART, ops[..i + 1]) == SmartAppend(AppendAll(NEW_SMART, ops[..i]), ops[i])
  {
    hide SmartAppend;
    assert ops[..i + 1][..i] == ops[..i];
  }

  // ----- splicing -----

  /** Replaces a stretch of a text by a changeset of keep, delete and insert. */
  method MakeSplice(orig: string, start: int, ndel: int, ins: string, attribs: string) returns (r: Result<string>)
    ensures r == Splices.MakeSplice(orig, start, ndel, ins, attribs)
    ensures r.Err? <==> start < 0 || ndel < 0
    ensures 0 <= start && 0 <= ndel && AttribText(attribs) ==>
              Splices.SplicesIn(r, orig, start, ndel, ins, attribs)
  {
    hide Unpack, Pack, Serialize, AppendAll, Assembled, Assemblers.EndDocument, Splices.SpliceOps, Splices.SplicesIn,
         WellFormed, SmartAppend, AttribText;
    if start < 0 {
      return Err("start is negative");
    }
    if ndel < 0 {
      return Err("ndel is negative");
    }
    var (s, n) := Splices.Clamped(orig, start, ndel);
    var ops := Splices.SpliceOps(orig, s, n, ins, attribs);
    var assem := new SmartOpAssembler();
    AppendNothing();
    assert ops[..0] == [];
    for i := 0 to |ops|
      invariant assem.Valid() && fresh(assem.Repr()) && assem.State() == AppendAll(NEW_SMART, ops[..i])
    {
      AppendNext(ops, i);
      assem.Append(ops[i]);
    }
    assert ops[..|ops|] == ops;
    assem.EndDocument();
    var opStr := assem.String();
    r := Ok(Pack(|orig|, |orig| + |ins| - n, opStr, ins));
    if AttribText(attribs) { Splices.SpliceFully(orig, start, ndel, ins, attribs); }
  }
}
