/**
  The two assemblers that bring operations into canonical form:
  lib/changeset/MergingOpAssembler.go and lib/changeset/SmartOpAssembler.go.
  This module holds their states as values; module AssemblerObjects holds the objects.
 */
module Assemblers {
  import opened Basics
  import opened Ops

  // ----- merging runs -----

  /** Operations written, the operation being built, and the characters it has after its last newline. */
  datatype Merger = Merger(done: seq<Op>, buf: Op, extra: nat)

  const NEW_MERGER := Merger([], NO_OP, 0)

  function Pending(m: Merger): seq<Op> {
    if m.buf.code == Nop then []
    else if m.extra == 0 then [m.buf]
    else [m.buf, m.buf.(chars := m.extra, lines := 0)]
  }

  /** Writes the operation being built; at the end of a document a plain keep is left implicit. */
  function Flush(m: Merger, endDocument: bool): Merger {
    if m.buf.code == Nop then m
    else if endDocument && PlainKeep(m.buf) then m.(buf := m.buf.(code := Nop))
    else
      var last := if m.extra == 0 then m.buf else m.buf.(chars := m.extra, lines := 0);
      Merger(m.done + Pending(m), last.(code := Nop), 0)
  }

  function MergeAppend(m: Merger, op: Op): Merger {
    if op.chars == 0 then m
    else if m.buf.code == op.code && m.buf.attribs == op.attribs then
      if op.lines > 0 then
        m.(buf := m.buf.(chars := m.buf.chars + m.extra + op.chars, lines := m.buf.lines + op.lines), extra := 0)
      else if m.buf.lines == 0 then m.(buf := m.buf.(chars := m.buf.chars + op.chars))
      else m.(extra := m.extra + op.chars)
    else Flush(m, false).(buf := op)
  }

  function Merged(m: Merger): seq<Op> { m.done + Pending(m) }

  // ----- ordering deletions before insertions -----

  datatype Smart = Smart(done: seq<Op>, minus: Merger, plus: Merger, keep: Merger, last: OpCode, change: int)

  const NEW_SMART := Smart([], NEW_MERGER, NEW_MERGER, NEW_MERGER, Nop, 0)

  function FlushKeeps(s: Smart): Smart { s.(done := s.done + Merged(s.keep), keep := NEW_MERGER) }

  function FlushPlusMinus(s: Smart): Smart {
    s.(done := s.done + Merged(s.minus) + Merged(s.plus), minus := NEW_MERGER, plus := NEW_MERGER)
  }

  function SmartAppend(s: Smart, op: Op): Smart {
    if op.code == Nop || op.chars == 0 then s
    else
      match op.code
      case Keep =>
        var t := if s.last != Keep then FlushPlusMinus(s) else s;
        t.(keep := MergeAppend(t.keep, op), last := Keep)
      case Delete =>
        var t := if s.last == Keep then FlushKeeps(s) else s;
        t.(minus := MergeAppend(t.minus, op), change := t.change - op.chars, last := Delete)
      case Insert =>
        var t := if s.last == Keep then FlushKeeps(s) else s;
        t.(plus := MergeAppend(t.plus, op), change := t.change + op.chars, last := Insert)
  }

  function EndDocument(s: Smart): Smart { s.(keep := Flush(s.keep, true)) }

  /** All operations of the assembler in order. */
  function Assembled(s: Smart): seq<Op> { s.done + Merged(s.minus) + Merged(s.plus) + Merged(s.keep) }

  function AppendAll(s: Smart, ops: seq<Op>): Smart {
    if ops == [] then s else SmartAppend(AppendAll(s, ops[..|ops| - 1]), ops[|ops| - 1])
  }

  /** A list of operations put through a fresh assembler, as the operations of one changeset. */
  function Assemble(ops: seq<Op>): seq<Op> { Assembled(EndDocument(AppendAll(NEW_SMART, ops))) }

  // ----- the shape of the states -----

  /** All operations written and being built have code `c`, some characters, and the extra ones follow a newline. */
  ghost predicate MergerOk(m: Merger, c: OpCode) {
    && (forall i :: 0 <= i < |m.done| ==> m.done[i].code == c)
    && (m.buf.code == c || (m.buf.code == Nop && m.done == []))
    && (m.extra > 0 ==> m.buf.code == c && m.buf.lines != 0)
    && (m.buf.code == c ==> m.buf.chars > 0)
  }

  ghost predicate SmartOk(s: Smart) {
    && MergerOk(s.minus, Delete) && MergerOk(s.plus, Insert) && MergerOk(s.keep, Keep)
    && (s.last == Keep ==> s.minus == NEW_MERGER && s.plus == NEW_MERGER && s.keep.buf.code == Keep)
    && (s.last != Keep ==> s.keep == NEW_MERGER)
  }

  lemma {:induction false} AppendAllOk(ops: seq<Op>)
    ensures SmartOk(AppendAll(NEW_SMART, ops))
  {
    hide SmartAppend, SmartOk;
    if ops == [] {
      NewSmartOk();
    } else {
      AppendAllOk(ops[..|ops| - 1]);
      SmartAppendOk(AppendAll(NEW_SMART, ops[..|ops| - 1]), ops[|ops| - 1]);
    }
  }

  lemma {:induction false} NewSmartOk()
    ensures SmartOk(NEW_SMART) && forall c :: c != Nop ==> MergerOk(NEW_MERGER, c)
  {}

  lemma {:induction false} SmartAppendOk(s: Smart, op: Op)
    requires SmartOk(s)
    ensures SmartOk(SmartAppend(s, op))
  {
    hide MergeAppend, MergerOk, Merged;
    NewSmartOk();
    if op.code != Nop {
      MergeAppendOk(if op.code == Delete then s.minus else if op.code == Insert then s.plus else s.keep, op);
    }
  }

  lemma {:induction false} MergeAppendOk(m: Merger, op: Op)
    requires MergerOk(m, op.code) && op.code != Nop
    ensures MergerOk(MergeAppend(m, op), op.code) && (op.chars > 0 ==> MergeAppend(m, op).buf.code == op.code)
  {}

  // ----- meaning -----

  /** Wherever `a` succeeds, `b` has the same effect. */
  ghost predicate Simulates(sem: AttrSem, a: seq<Op>, b: seq<Op>) {
    forall bank, doc :: Run(sem, a, bank, doc).Some? ==> Run(sem, b, bank, doc) == Run(sem, a, bank, doc)
  }

  lemma {:induction false} SimulatesInContext(sem: AttrSem, pre: seq<Op>, a: seq<Op>, b: seq<Op>, post: seq<Op>)
    requires Simulates(sem, a, b)
    ensures Simulates(sem, pre + a + post, pre + b + post)
  {
    hide Run;
    forall bank, doc | Run(sem, pre + a + post, bank, doc).Some?
      ensures Run(sem, pre + b + post, bank, doc) == Run(sem, pre + a + post, bank, doc)
    {
      RunConcat(sem, pre + a, post, bank, doc);
      RunConcat(sem, pre, a, bank, doc);
      RunConcat(sem, pre, b, bank, doc);
      RunConcat(sem, pre + b, post, bank, doc);
    }
  }

  lemma {:induction false} JoinTexts(sem: AttrSem, t: string, k: nat, l: int, m: int)
    requires k <= |t| && (l == 0 || m > 0)
    requires Fits(sem, l, t[..k]) && Fits(sem, m, t[k..])
    ensures Fits(sem, l + m, t)
  {
    hide Newlines, Clean;
    NewlinesSplit(t, k);
    CutAndJoin(t, k);
    if sem.strict { CleanConcat(t[..k], t[k..]); }
  }

  /** Two neighbours of one kind can be made one, unless that puts text after the last newline. */
  lemma {:induction false} JoinOps(sem: AttrSem, a: Op, b: Op, bank: string, doc: Doc)
    requires a.code == b.code && a.attribs == b.attribs && (a.lines == 0 || b.lines > 0)
    requires RunOp(sem, a, bank, doc).Some?
    requires var e := RunOp(sem, a, bank, doc).value; RunOp(sem, b, e.bank, e.doc).Some?
    ensures var e := RunOp(sem, a, bank, doc).value;
            var f := RunOp(sem, b, e.bank, e.doc).value;
            RunOp(sem, a.(chars := a.chars + b.chars, lines := a.lines + b.lines), bank, doc) ==
            Some(Effect(e.out + f.out, f.bank, f.doc))
  {
    hide Fits, Fresh, Restyle, Text;
    var k, n := a.chars, a.chars + b.chars;
    assert Effect([] + [], bank, doc).out == [];
    if a.code == Insert {
      SliceSlice(bank, n, k);
      JoinTexts(sem, bank[..n], k, a.lines, b.lines);
      FreshSplit(sem, a.attribs, bank[..n], k);
    } else {
      SliceSlice(doc, n, k);
      TextSplit(doc[..n], k);
      JoinTexts(sem, Text(doc[..n]), k, a.lines, b.lines);
      RestyleSplit(sem, a.attribs, doc[..n], k);
    }
  }

  lemma {:induction false} RunTwo(sem: AttrSem, a: Op, b: Op, bank: string, doc: Doc)
    ensures Run(sem, [a, b], bank, doc) ==
            match RunOp(sem, a, bank, doc)
            case None => None
            case Some(e) =>
              match RunOp(sem, b, e.bank, e.doc)
              case None => None
              case Some(f) => Some(Effect(e.out + f.out, f.bank, f.doc))
  {
    hide RunOp;
    assert [a, b] == [a] + [b];
    RunCons(sem, a, [b], bank, doc);
    match RunOp(sem, a, bank, doc)
    case None =>
    case Some(e) => RunOne(sem, b, e.bank, e.doc);
  }

  lemma {:induction false} RunOne(sem: AttrSem, a: Op, bank: string, doc: Doc)
    ensures Run(sem, [a], bank, doc) == RunOp(sem, a, bank, doc)
  {
    hide RunOp;
    match RunOp(sem, a, bank, doc)
    case None =>
    case Some(e) => assert e.out + [] == e.out;
  }

  lemma {:induction false} MergeTwo(sem: AttrSem, a: Op, b: Op)
    requires a.code == b.code && a.attribs == b.attribs && (a.lines == 0 || b.lines > 0)
    ensures Simulates(sem, [a, b], [a.(chars := a.chars + b.chars, lines := a.lines + b.lines)])
  {
    hide RunOp, Run;
    forall bank, doc | Run(sem, [a, b], bank, doc).Some?
      ensures Run(sem, [a.(chars := a.chars + b.chars, lines := a.lines + b.lines)], bank, doc) ==
              Run(sem, [a, b], bank, doc)
    {
      RunTwo(sem, a, b, bank, doc);
      JoinOps(sem, a, b, bank, doc);
      RunOne(sem, a.(chars := a.chars + b.chars, lines := a.lines + b.lines), bank, doc);
    }
  }

  /** A negative newline count never fits, so a count that is not positive is taken as 0. */
  lemma {:induction false} LinesNotNegative(sem: AttrSem, op: Op)
    requires op.lines <= 0
    ensures Simulates(sem, [op], [op.(lines := 0)])
  {
    forall bank, doc | Run(sem, [op], bank, doc).Some?
      ensures Run(sem, [op.(lines := 0)], bank, doc) == Run(sem, [op], bank, doc)
    {
      RunOne(sem, op, bank, doc);
      RunOne(sem, op.(lines := 0), bank, doc);
      assert op.lines == 0;
      assert op.(lines := 0) == op;
    }
  }

  lemma {:induction false} MergePending(sem: AttrSem, m: Merger, op: Op)
    requires m.buf.code != Nop && m.buf.code == op.code && m.buf.attribs == op.attribs && op.chars > 0
    requires m.extra > 0 ==> m.buf.lines != 0
    ensures Simulates(sem, Pending(m) + [op], Pending(MergeAppend(m, op)))
  {
    hide Run;
    var ex := m.buf.(chars := m.extra, lines := 0);
    if op.lines > 0 {
      if m.extra == 0 {
        assert Pending(m) + [op] == [m.buf, op];
        MergeTwo(sem, m.buf, op);
      } else {
        var b := op.(chars := m.extra + op.chars);
        assert Pending(m) + [op] == [m.buf] + [ex, op] + [];
        MergeTwo(sem, ex, op);
        SimulatesInContext(sem, [m.buf], [ex, op], [b], []);
        assert [m.buf] + [b] + [] == [m.buf, b];
        MergeTwo(sem, m.buf, b);
      }
    } else {
      var op0 := op.(lines := 0);
      LinesNotNegative(sem, op);
      SimulatesInContext(sem, Pending(m), [op], [op0], []);
      assert Pending(m) + [op] + [] == Pending(m) + [op];
      if m.extra == 0 {
        assert Pending(m) + [op0] + [] == [m.buf, op0];
        if m.buf.lines == 0 { MergeTwo(sem, m.buf, op0); }
      } else {
        assert Pending(m) + [op0] + [] == [m.buf] + [ex, op0] + [];
        MergeTwo(sem, ex, op0);
        assert ex.(chars := m.extra + op.chars) == ex.(chars := ex.chars + op0.chars, lines := ex.lines + op0.lines);
        assert [m.buf] + [ex.(chars := m.extra + op.chars)] + [] == Pending(MergeAppend(m, op));
        SimulatesInContext(sem, [m.buf], [ex, op0], [ex.(chars := m.extra + op.chars)], []);
      }
    }
  }

  lemma {:induction false} MergeAppendEffect(sem: AttrSem, m: Merger, op: Op, c: OpCode)
    requires MergerOk(m, c) && op.code == c && c != Nop && op.chars > 0
    ensures Simulates(sem, Merged(m) + [op], Merged(MergeAppend(m, op)))
  {
    hide Run;
    if m.buf.code == op.code && m.buf.attribs == op.attribs {
      MergePending(sem, m, op);
      SimulatesInContext(sem, m.done, Pending(m) + [op], Pending(MergeAppend(m, op)), []);
      assert m.done + (Pending(m) + [op]) + [] == Merged(m) + [op];
      assert m.done + Pending(MergeAppend(m, op)) + [] == Merged(MergeAppend(m, op));
    } else {
      assert Merged(MergeAppend(m, op)) == Merged(m) + [op];
    }
  }

  /** A deletion can be done before the insertions it follows. */
  lemma {:induction false} DeleteFirst(sem: AttrSem, plus: seq<Op>, op: Op)
    requires forall i :: 0 <= i < |plus| ==> plus[i].code == Insert
    requires op.code == Delete
    ensures Simulates(sem, plus + [op], [op] + plus)
  {
    hide Run;
    if plus == [] {
      assert plus + [op] == [op] + plus;
    } else {
      var pre, ins := plus[..|plus| - 1], plus[|plus| - 1];
      SwapTwo(sem, ins, op);
      SimulatesInContext(sem, pre, [ins, op], [op, ins], []);
      DeleteFirst(sem, pre, op);
      SimulatesInContext(sem, [], pre + [op], [op] + pre, [ins]);
      assert pre + [ins, op] + [] == plus + [op];
      assert pre + [op, ins] + [] == [] + (pre + [op]) + [ins];
      assert [] + ([op] + pre) + [ins] == [op] + plus;
    }
  }

  lemma {:induction false} SwapTwo(sem: AttrSem, ins: Op, del: Op)
    requires ins.code == Insert && del.code == Delete
    ensures Simulates(sem, [ins, del], [del, ins])
  {
    hide Run, Newlines, Text, Fresh;
    forall bank, doc | Run(sem, [ins, del], bank, doc).Some?
      ensures Run(sem, [del, ins], bank, doc) == Run(sem, [ins, del], bank, doc)
    {
      RunTwo(sem, ins, del, bank, doc);
      RunTwo(sem, del, ins, bank, doc);
      var x := Run(sem, [ins, del], bank, doc).value.out;
      assert x == Fresh(sem, ins.attribs, bank[..ins.chars]) + [];
      assert x == [] + Fresh(sem, ins.attribs, bank[..ins.chars]);
    }
  }

  lemma {:induction false} MergedCodes(m: Merger, c: OpCode)
    requires MergerOk(m, c) && c != Nop
    ensures forall i :: 0 <= i < |Merged(m)| ==> Merged(m)[i].code == c
  {}

  lemma {:induction false} EmptyMerger()
    ensures Merged(NEW_MERGER) == []
  {}

  /** The three sub-assemblers take an operation without changing the effect of the whole. */
  lemma {:induction false} AppendKeepEffect(sem: AttrSem, t: Smart, op: Op)
    requires MergerOk(t.keep, Keep) && op.code == Keep && op.chars > 0
    ensures Simulates(sem, Assembled(t) + [op], Assembled(t.(keep := MergeAppend(t.keep, op))))
  {
    hide Run, MergeAppend, Merged;
    var x, ke := t.done + Merged(t.minus) + Merged(t.plus), Merged(t.keep);
    MergeAppendEffect(sem, t.keep, op, Keep);
    SimulatesInContext(sem, x, ke + [op], Merged(MergeAppend(t.keep, op)), []);
    assert x + (ke + [op]) + [] == Assembled(t) + [op];
    assert x + Merged(MergeAppend(t.keep, op)) + [] == x + Merged(MergeAppend(t.keep, op));
  }

  lemma {:induction false} AppendInsertEffect(sem: AttrSem, t: Smart, op: Op)
    requires MergerOk(t.plus, Insert) && t.keep == NEW_MERGER && op.code == Insert && op.chars > 0
    ensures Simulates(sem, Assembled(t) + [op], Assembled(t.(plus := MergeAppend(t.plus, op))))
  {
    hide Run, MergeAppend, Merged;
    EmptyMerger();
    var x, pl := t.done + Merged(t.minus), Merged(t.plus);
    MergeAppendEffect(sem, t.plus, op, Insert);
    SimulatesInContext(sem, x, pl + [op], Merged(MergeAppend(t.plus, op)), []);
    assert x + (pl + [op]) + [] == Assembled(t) + [op];
  }

  lemma {:induction false} AppendDeleteEffect(sem: AttrSem, t: Smart, op: Op)
    requires MergerOk(t.plus, Insert) && MergerOk(t.minus, Delete) && t.keep == NEW_MERGER
    requires op.code == Delete && op.chars > 0
    ensures Simulates(sem, Assembled(t) + [op], Assembled(t.(minus := MergeAppend(t.minus, op))))
  {
    hide Run, MergeAppend, Merged;
    EmptyMerger();
    var d, mi, pl := t.done, Merged(t.minus), Merged(t.plus);
    MergedCodes(t.plus, Insert);
    DeleteFirst(sem, pl, op);
    SimulatesInContext(sem, d + mi, pl + [op], [op] + pl, []);
    assert d + mi + (pl + [op]) + [] == Assembled(t) + [op];
    MergeAppendEffect(sem, t.minus, op, Delete);
    SimulatesInContext(sem, d, mi + [op], Merged(MergeAppend(t.minus, op)), pl);
    assert d + mi + ([op] + pl) + [] == d + (mi + [op]) + pl;
    assert d + Merged(MergeAppend(t.minus, op)) + pl == Assembled(t.(minus := MergeAppend(t.minus, op)));
  }

  lemma {:induction false} FlushKeepsSame(s: Smart)
    requires s.minus == NEW_MERGER && s.plus == NEW_MERGER
    ensures Assembled(FlushKeeps(s)) == Assembled(s)
  {
    hide Merged;
    EmptyMerger();
  }

  lemma {:induction false} FlushPlusMinusSame(s: Smart)
    requires s.keep == NEW_MERGER
    ensures Assembled(FlushPlusMinus(s)) == Assembled(s)
  {
    hide Merged;
    EmptyMerger();
  }

  lemma {:induction false} SmartAppendEffect(sem: AttrSem, s: Smart, op: Op)
    requires SmartOk(s)
    ensures Simulates(sem, Assembled(s) + [op], Assembled(SmartAppend(s, op)))
  {
    hide Run, MergeAppend, Merged;
    if op.code == Nop || op.chars == 0 {
      NothingToDo(sem, op);
      SimulatesInContext(sem, Assembled(s), [op], [], []);
      assert Assembled(s) + [op] + [] == Assembled(s) + [op] && Assembled(s) + [] + [] == Assembled(s);
    } else if op.code == Keep {
      if s.last != Keep { FlushPlusMinusSame(s); }
      AppendKeepEffect(sem, if s.last != Keep then FlushPlusMinus(s) else s, op);
    } else {
      if s.last == Keep { FlushKeepsSame(s); }
      var t := if s.last == Keep then FlushKeeps(s) else s;
      if op.code == Insert { AppendInsertEffect(sem, t, op); } else { AppendDeleteEffect(sem, t, op); }
    }
  }

  lemma {:induction false} NothingToDo(sem: AttrSem, op: Op)
    requires op.code == Nop || op.chars == 0
    ensures Simulates(sem, [op], [])
  {
    forall bank, doc | Run(sem, [op], bank, doc).Some?
      ensures Run(sem, [], bank, doc) == Run(sem, [op], bank, doc)
    {
      RunOne(sem, op, bank, doc);
    }
  }

  /** The operations in the assembler do what the appended operations do. */
  lemma {:induction false} AppendAllEffect(sem: AttrSem, ops: seq<Op>)
    ensures Simulates(sem, ops, Assembled(AppendAll(NEW_SMART, ops)))
  {
    hide Run, SmartAppend, Assembled;
    if ops == [] {
      assert Assembled(NEW_SMART) == [] by { EmptySmart(); }
    } else {
      var pre, op := ops[..|ops| - 1], ops[|ops| - 1];
      AppendAllEffect(sem, pre);
      AppendAllOk(pre);
      var s := AppendAll(NEW_SMART, pre);
      SimulatesInContext(sem, [], pre, Assembled(s), [op]);
      assert [] + pre + [op] == ops && [] + Assembled(s) + [op] == Assembled(s) + [op];
      SmartAppendEffect(sem, s, op);
    }
  }

  lemma {:induction false} AppendNothing()
    ensures AppendAll(NEW_SMART, []) == NEW_SMART
  {}

  lemma {:induction false} EmptySmart()
    ensures Assembled(NEW_SMART) == []
  {}

  // ----- the end of a document -----

  /** Appending a plain keep makes no difference once the document is ended. */
  lemma {:induction false} EndAppendPlain(s: Smart, op: Op)
    requires SmartOk(s) && PlainKeep(op)
    ensures Assembled(EndDocument(SmartAppend(s, op))) == Assembled(EndDocument(s))
  {
  }

  lemma {:induction false} StripSnoc(ops: seq<Op>, op: Op)
    ensures PlainKeep(op) ==> Strip(ops + [op]) == Strip(ops)
    ensures !PlainKeep(op) ==> Strip(ops + [op]) == ops + [op]
  {
    if ops != [] {
      assert (ops + [op])[1..] == ops[1..] + [op];
      StripSnoc(ops[1..], op);
    }
  }

  /** The plain keeps at the end of a list do not show in what is assembled from it. */
  lemma {:induction false} AssembleStrip(ops: seq<Op>)
    ensures Assemble(ops) == Assemble(Strip(ops))
  {
    hide SmartAppend, EndDocument, Assembled;
    if ops != [] {
      var pre, op := ops[..|ops| - 1], ops[|ops| - 1];
      assert pre + [op] == ops;
      StripSnoc(pre, op);
      if PlainKeep(op) {
        AppendAllOk(pre);
        EndAppendPlain(AppendAll(NEW_SMART, pre), op);
        AssembleStrip(pre);
      }
    }
  }

  lemma {:induction false} DropPlain(sem: AttrSem, ops: seq<Op>, op: Op, bank: string, doc: Doc, r: Doc)
    requires PlainKeep(op) && Produces(sem, ops + [op], bank, doc, r)
    ensures Produces(sem, ops, bank, doc, r)
  {
    hide RunOp, Run;
    RunConcat(sem, ops, [op], bank, doc);
    var e := Run(sem, ops, bank, doc).value;
    var f := Run(sem, [op], e.bank, e.doc).value;
    PlainKeepIsNothing(sem, op, e.bank, e.doc, f.out + f.doc);
    assert e.out + f.out + f.doc == e.out + (f.out + f.doc);
  }

  lemma {:induction false} EndEffect(sem: AttrSem, s: Smart, bank: string, doc: Doc, r: Doc)
    requires Produces(sem, Assembled(s), bank, doc, r)
    ensures Produces(sem, Assembled(EndDocument(s)), bank, doc, r)
  {
    hide Produces;
    var x := s.done + Merged(s.minus) + Merged(s.plus) + s.keep.done;
    if s.keep.buf.code == Nop {
    } else if PlainKeep(s.keep.buf) {
      var ex := s.keep.buf.(chars := s.keep.extra, lines := 0);
      assert Assembled(EndDocument(s)) == x;
      if s.keep.extra == 0 {
        assert Assembled(s) == x + [s.keep.buf];
      } else {
        assert Assembled(s) == x + [s.keep.buf] + [ex];
        DropPlain(sem, x + [s.keep.buf], ex, bank, doc, r);
      }
      DropPlain(sem, x, s.keep.buf, bank, doc, r);
    } else {
      assert Merged(Flush(s.keep, true)) == Merged(s.keep);
    }
  }

  /** Assembling keeps the meaning, even where the plain keeps at the end do not fit the document. */
  lemma {:induction false} AssembleProduces(sem: AttrSem, ops: seq<Op>, bank: string, doc: Doc, r: Doc)
    requires Produces(sem, Strip(ops), bank, doc, r)
    ensures Produces(sem, Assemble(ops), bank, doc, r)
  {
    hide Assembled, EndDocument, SmartAppend;
    AssembleStrip(ops);
    AppendAllEffect(sem, Strip(ops));
    EndEffect(sem, AppendAll(NEW_SMART, Strip(ops)), bank, doc, r);
  }

  // ----- canonical form -----

  /** `b` may stand right after `a`: not mergeable with it, and not a deletion after an insertion. */
  predicate MayFollow(a: Op, b: Op) {
    if a.code == b.code then a.attribs == b.attribs ==> a.lines > 0 && b.lines == 0
    else !(a.code == Insert && b.code == Delete)
  }

  predicate Canonical(ops: seq<Op>) {
    && (forall i :: 0 <= i < |ops| ==> ops[i].code != Nop && ops[i].chars > 0 && ops[i].lines >= 0)
    && (forall i :: 0 < i < |ops| ==> MayFollow(ops[i - 1], ops[i]))
  }

  /** Canonical, and without a plain keep at the end: the form in which changesets are written. */
  predicate Normal(ops: seq<Op>) {
    Canonical(ops) && (ops != [] ==> !PlainKeep(ops[|ops| - 1]))
  }

  predicate LinesOk(ops: seq<Op>) { forall i :: 0 <= i < |ops| ==> ops[i].lines >= 0 }

  function Last(ops: seq<Op>): Op
    requires ops != []
  {
    ops[|ops| - 1]
  }

  lemma {:induction false} CanonicalConcat(a: seq<Op>, b: seq<Op>)
    requires Canonical(a) && Canonical(b)
    requires a != [] && b != [] ==> MayFollow(Last(a), b[0])
    ensures Canonical(a + b)
  {
    hide MayFollow;
    forall i | 0 < i < |a + b| ensures MayFollow((a + b)[i - 1], (a + b)[i]) {
      if i > |a| { assert (a + b)[i - 1] == b[i - |a| - 1] && (a + b)[i] == b[i - |a|]; }
    }
  }

  /** The operations written and the one being built cannot be merged. */
  ghost predicate MergerCanonical(m: Merger) {
    && Canonical(m.done)
    && (m.done != [] ==> Last(m.done).attribs != m.buf.attribs)
    && (m.buf.code != Nop ==> m.buf.lines >= 0)
  }

  lemma {:induction false} MergedCanonical(m: Merger, c: OpCode)
    requires MergerOk(m, c) && MergerCanonical(m) && c != Nop
    ensures Canonical(Merged(m))
  {
    if m.buf.code != Nop { CanonicalConcat(m.done, Pending(m)); }
  }

  lemma {:induction false} MergeAppendCanonical(m: Merger, op: Op, c: OpCode)
    requires MergerOk(m, c) && MergerCanonical(m) && c != Nop
    requires op.code == c && op.chars > 0 && op.lines >= 0
    ensures MergerOk(MergeAppend(m, op), c) && MergerCanonical(MergeAppend(m, op)) && MergeAppend(m, op).buf.code == c
  {
    if !(m.buf.code == op.code && m.buf.attribs == op.attribs) {
      MergedCanonical(m, c);
    }
  }

  /** Each part is canonical, and keeps alternate with deletions and insertions. */
  ghost predicate SmartCanonical(s: Smart) {
    && SmartOk(s)
    && Canonical(s.done)
    && MergerCanonical(s.minus) && MergerCanonical(s.plus) && MergerCanonical(s.keep)
    && (s.done != [] ==> (Last(s.done).code == Keep <==> s.last != Keep))
    && (s.last in {Insert, Delete} ==> s.minus.buf.code == Delete || s.plus.buf.code == Insert)
    && (s.last == Nop ==> s == NEW_SMART)
  }

  lemma {:induction false} BuiltMerger(m: Merger)
    ensures m.buf.code != Nop && MergerCanonical(m) ==> Merged(m) != []
  {}

  lemma {:induction false} PlusMinusCanonical(s: Smart)
    requires SmartCanonical(s) && s.last != Keep
    ensures Canonical(s.done + Merged(s.minus) + Merged(s.plus))
    ensures s.last != Nop ==> var x := s.done + Merged(s.minus) + Merged(s.plus);
            x != [] && Last(x).code in {Insert, Delete}
  {
    hide MergeAppend, Canonical, Merged;
    MergedCanonical(s.minus, Delete);
    MergedCanonical(s.plus, Insert);
    MergedCodes(s.minus, Delete);
    MergedCodes(s.plus, Insert);
    BuiltMerger(s.minus);
    BuiltMerger(s.plus);
    EmptyMerger();
    var x := s.done + Merged(s.minus);
    CanonicalConcat(s.done, Merged(s.minus));
    assert x != [] ==> Last(x).code == if Merged(s.minus) == [] then Keep else Delete;
    CanonicalConcat(x, Merged(s.plus));
  }

  lemma {:induction false} KeepsCanonical(s: Smart)
    requires SmartCanonical(s) && s.last == Keep
    ensures Canonical(s.done + Merged(s.keep)) && Merged(s.keep) != []
    ensures Last(s.done + Merged(s.keep)).code == Keep
  {
    hide MergeAppend, Canonical;
    MergedCanonical(s.keep, Keep);
    MergedCodes(s.keep, Keep);
    CanonicalConcat(s.done, Merged(s.keep));
  }

  lemma {:induction false} SmartAppendCanonical(s: Smart, op: Op)
    requires SmartCanonical(s) && op.lines >= 0
    ensures SmartCanonical(SmartAppend(s, op))
  {
    hide MergeAppend, Canonical, Merged, MergerCanonical, MergerOk, Last, FlushKeeps, FlushPlusMinus;
    if op.code != Nop && op.chars > 0 {
      if op.code == Keep {
        var t := s;
        if s.last != Keep { t := FlushedPlusMinus(s); }
        MergeAppendCanonical(t.keep, op, Keep);
      } else {
        var t := s;
        if s.last == Keep { t := FlushedKeeps(s); }
        MergeAppendCanonical(if op.code == Insert then t.plus else t.minus, op, op.code);
      }
    }
  }

  lemma {:induction false} FlushedPlusMinus(s: Smart) returns (t: Smart)
    requires SmartCanonical(s) && s.last != Keep
    ensures t == FlushPlusMinus(s)
    ensures t.minus == NEW_MERGER && t.plus == NEW_MERGER && t.keep == NEW_MERGER && t.last == s.last
            && t.change == s.change
    ensures Canonical(t.done) && (t.done != [] ==> Last(t.done).code != Keep)
    ensures MergerOk(t.keep, Keep) && MergerCanonical(t.keep) && MergerOk(t.minus, Delete) && MergerOk(t.plus, Insert)
  {
    PlusMinusCanonical(s);
    t := FlushPlusMinus(s);
  }

  lemma {:induction false} FlushedKeeps(s: Smart) returns (t: Smart)
    requires SmartCanonical(s) && s.last == Keep
    ensures t == FlushKeeps(s)
    ensures t.minus == NEW_MERGER && t.plus == NEW_MERGER && t.keep == NEW_MERGER && t.change == s.change
    ensures Canonical(t.done) && (t.done != [] ==> Last(t.done).code == Keep)
    ensures MergerCanonical(t.minus) && MergerOk(t.minus, Delete) && MergerOk(t.plus, Insert) && MergerOk(t.keep, Keep)
  {
    KeepsCanonical(s);
    t := FlushKeeps(s);
  }

  lemma {:induction false} NewMergerCanonical()
    ensures MergerCanonical(NEW_MERGER) && MergerOk(NEW_MERGER, Keep) && Merged(NEW_MERGER) == []
  {}

  lemma {:induction false} AppendAllCanonical(ops: seq<Op>)
    requires LinesOk(ops)
    ensures SmartCanonical(AppendAll(NEW_SMART, ops))
  {
    hide SmartAppend;
    if ops != [] {
      AppendAllCanonical(ops[..|ops| - 1]);
      SmartAppendCanonical(AppendAll(NEW_SMART, ops[..|ops| - 1]), ops[|ops| - 1]);
    }
  }

  /** Ending the document leaves a normal form. */
  lemma {:induction false} EndNormal(s: Smart)
    requires SmartCanonical(s)
    ensures Normal(Assembled(EndDocument(s)))
  {
    hide MergerCanonical, MayFollow, Merged, MergerOk;
    if s.last == Keep {
      EndNormalKeep(s);
    } else {
      PlusMinusCanonical(s);
      EmptyMerger();
      assert Assembled(EndDocument(s)) == s.done + Merged(s.minus) + Merged(s.plus);
    }
  }

  lemma {:induction false} EndNormalKeep(s: Smart)
    requires SmartCanonical(s) && s.last == Keep
    ensures Normal(Assembled(EndDocument(s)))
  {
    hide Canonical, MayFollow, MergerCanonical, Merged, Pending;
    assert MergerCanonical(s.keep);
    KeepsCanonical(s);
    EmptyMerger();
    EndedKeep(s.keep);
    var x, k := Assembled(EndDocument(s)), Merged(Flush(s.keep, true));
    assert x == s.done + k by { assert s.done + [] + [] + k == s.done + k; }
    if PlainKeep(s.keep.buf) {
      assert s.done + Merged(s.keep) == s.done + s.keep.done + Pending(s.keep);
      PrefixCanonical(s.done, s.keep.done, Pending(s.keep));
    }
  }

  /** The last keep is dropped if it is plain. */
  lemma {:induction false} EndedKeep(m: Merger)
    requires m.buf.code == Keep && MergerCanonical(m)
    ensures Merged(m) == m.done + Pending(m) && Pending(m) != [] && Last(Pending(m)).attribs == m.buf.attribs
    ensures PlainKeep(m.buf) && m.done != [] ==> !PlainKeep(Last(m.done))
    ensures Merged(Flush(m, true)) != [] ==> !PlainKeep(Last(Merged(Flush(m, true))))
    ensures Merged(Flush(m, true)) == if PlainKeep(m.buf) then m.done else Merged(m)
  {
    var f := Flush(m, true);
    assert Pending(f) == [];
    assert f.done + [] == f.done;
  }

  /** What is assembled is in normal form. */
  lemma {:induction false} AssembleNormal(ops: seq<Op>)
    requires LinesOk(ops)
    ensures Normal(Assemble(ops))
  {
    hide SmartAppend, Normal, Assembled, EndDocument, SmartCanonical;
    AppendAllCanonical(ops);
    EndNormal(AppendAll(NEW_SMART, ops));
  }

  lemma {:induction false} PrefixCanonical(a: seq<Op>, b: seq<Op>, c: seq<Op>)
    requires Canonical(a + b + c)
    ensures Canonical(a + b)
  {
    hide MayFollow;
    var x, y := a + b, a + b + c;
    forall i | 0 <= i < |x| ensures x[i] == y[i] {}
  }

  // ----- assembling what is canonical already -----

  /** An operation that may follow what a merger holds is written after it as it is. */
  lemma {:induction false} MergeAppendAsIs(m: Merger, op: Op, c: OpCode)
    requires MergerOk(m, c) && c != Nop && op.code == c && op.chars > 0 && op.lines >= 0
    requires Merged(m) != [] ==> MayFollow(Last(Merged(m)), op)
    ensures Merged(MergeAppend(m, op)) == Merged(m) + [op]
  {}

  lemma {:induction false} SmartAppendAsIs(s: Smart, op: Op)
    requires SmartCanonical(s) && op.code != Nop && op.chars > 0 && op.lines >= 0
    requires Assembled(s) != [] ==> MayFollow(Last(Assembled(s)), op)
    ensures Assembled(SmartAppend(s, op)) == Assembled(s) + [op]
  {
    if op.code == Keep { KeepAppendAsIs(s, op); } else { ChangeAppendAsIs(s, op); }
  }

  lemma {:induction false} KeepAppendAsIs(s: Smart, op: Op)
    requires SmartCanonical(s) && op.code == Keep && op.chars > 0 && op.lines >= 0
    requires Assembled(s) != [] ==> MayFollow(Last(Assembled(s)), op)
    ensures Assembled(SmartAppend(s, op)) == Assembled(s) + [op]
  {
    hide MergeAppend, Canonical, MergerCanonical, MergerOk, Merged, FlushKeeps, FlushPlusMinus;
    NewMergerCanonical();
    var t := s;
    if s.last != Keep { t := FlushedPlusMinus(s); FlushPlusMinusSame(s); }
    MergeAppendAsIs(t.keep, op, Keep);
  }

  lemma {:induction false} ChangeAppendAsIs(s: Smart, op: Op)
    requires SmartCanonical(s) && op.code in {Insert, Delete} && op.chars > 0 && op.lines >= 0
    requires Assembled(s) != [] ==> MayFollow(Last(Assembled(s)), op)
    ensures Assembled(SmartAppend(s, op)) == Assembled(s) + [op]
  {
    hide MergeAppend, Canonical, MergerCanonical, MergerOk, Merged, FlushKeeps, FlushPlusMinus;
    NewMergerCanonical();
    var t := s;
    if s.last == Keep { t := FlushedKeeps(s); FlushKeepsSame(s); }
    if op.code == Insert {
      MergeAppendAsIs(t.plus, op, Insert);
    } else {
      MergedCodes(t.plus, Insert);
      MergeAppendAsIs(t.minus, op, Delete);
    }
  }

  lemma {:induction false} AppendAllAsIs(ops: seq<Op>)
    requires Canonical(ops)
    ensures SmartCanonical(AppendAll(NEW_SMART, ops)) && Assembled(AppendAll(NEW_SMART, ops)) == ops
  {
    hide SmartAppend, Assembled, SmartCanonical;
    if ops == [] {
      EmptySmart();
      AppendAllCanonical([]);
    } else {
      var pre, op := ops[..|ops| - 1], ops[|ops| - 1];
      AppendAllAsIs(pre);
      SmartAppendCanonical(AppendAll(NEW_SMART, pre), op);
      SmartAppendAsIs(AppendAll(NEW_SMART, pre), op);
      assert pre + [op] == ops;
    }
  }

  lemma {:induction false} EndAsIs(s: Smart)
    requires SmartCanonical(s) && (Assembled(s) != [] ==> !PlainKeep(Last(Assembled(s))))
    ensures Assembled(EndDocument(s)) == Assembled(s)
  {
    hide Canonical, MergerCanonical;
    assert s.keep.buf.code != Nop ==> Last(Assembled(s)) == Last(Pending(s.keep));
  }

  /** The normal forms are exactly the lists that assembling leaves alone. */
  lemma {:induction false} AssembleFixed(ops: seq<Op>)
    requires LinesOk(ops)
    ensures Assemble(ops) == ops <==> Normal(ops)
  {
    hide SmartAppend, Assembled, SmartCanonical, EndDocument;
    if Normal(ops) {
      AppendAllAsIs(ops);
      EndAsIs(AppendAll(NEW_SMART, ops));
    }
    AssembleNormal(ops);
  }

  /** Assembling again changes nothing. */
  lemma {:induction false} AssembleIdempotent(ops: seq<Op>)
    requires LinesOk(ops)
    ensures Assemble(Assemble(ops)) == Assemble(ops)
  {
    hide Assemble;
    AssembleNormal(ops);
    AssembleFixed(Assemble(ops));
  }

  // ----- the length change -----

  function OpChange(op: Op): int {
    if op.code == Insert then op.chars else if op.code == Delete then 0 - op.chars else 0
  }

  /** Inserted minus deleted characters. */
  function LengthChange(ops: seq<Op>): int {
    if ops == [] then 0 else OpChange(ops[0]) + LengthChange(ops[1..])
  }

  lemma {:induction false} LengthChangeConcat(a: seq<Op>, b: seq<Op>)
    ensures LengthChange(a + b) == LengthChange(a) + LengthChange(b)
  {
    if a == [] {
      assert a + b == b;
    } else {
      assert (a + b)[1..] == a[1..] + b;
      LengthChangeConcat(a[1..], b);
    }
  }

  /** The assembler counts inserted minus deleted characters. */
  lemma {:induction false} SmartChange(ops: seq<Op>)
    ensures AppendAll(NEW_SMART, ops).change == LengthChange(ops)
  {
    if ops != [] {
      var pre, op := ops[..|ops| - 1], ops[|ops| - 1];
      hide MergeAppend, Merged;
      SmartChange(pre);
      assert pre + [op] == ops;
      LengthChangeConcat(pre, [op]);
    }
  }

  /** Operations change the length of a document by inserted minus deleted characters. */
  lemma {:induction false} RunLength(sem: AttrSem, ops: seq<Op>, bank: string, doc: Doc)
    requires Run(sem, ops, bank, doc).Some?
    ensures var e := Run(sem, ops, bank, doc).value; |e.out| + |e.doc| == |doc| + LengthChange(ops)
  {
    hide Newlines, Text, Fresh, Restyle;
    if ops != [] {
      var e := RunOp(sem, ops[0], bank, doc).value;
      RunLength(sem, ops[1..], e.bank, e.doc);
    }
  }
}
