/** MutateAttributionLines of lib/changeset/changeset.go: the procedure, over the line editor. */
module AttributionMutators {
  import opened Basics
  import opened Numerals
  import opened Pools
  import opened Attributes
  import opened Ops
  import opened Syntax
  import opened Assemblers
  import opened AssemblerObjects
  import opened LineEditor
  import Zip = Composition
  import opened Changesets
  import opened AttributedText
  import opened Lines
  import opened Inversion
  import opened InverseLaws
  import opened Attributions
  import opened AttributionEdits
  import Algebra
  import Rebasing
  import ZipLoops
  import CanonicalForm

  lemma {:induction false} OneLine(s: string)
    requires s != "" && '\n' !in s
    ensures SplitTextLines(s) == [s]
  {
    NewlinesBound(s);
    assert s[..|s|] == s && s[|s|..] == "";
    assert SplitTextLines("") == [];
  }

  /** Printed insertions hold no newline character. */
  lemma {:induction false} PrintedChars(ops: seq<Op>)
    requires AllPrintable(ops) && ops != []
    ensures Serialize(ops) != "" && '\n' !in Serialize(ops)
  {
    if ops != [] {
      hide NumToString, AttribRun;
      var op := ops[0];
      assert Printable(op);
      AttribChars(op.attribs);
      DigitChars(NumToString(op.chars));
      DigitChars(NumToString(op.lines));
      if |ops| > 1 {
        forall i | 0 <= i < |ops[1..]| ensures Printable(ops[1..][i]) { assert Printable(ops[i + 1]); }
        PrintedChars(ops[1..]);
      }
    }
  }

  lemma {:induction false} DigitChars(s: string)
    requires AllDigits(s)
    ensures '\n' !in s
  {
    forall i | 0 <= i < |s| ensures s[i] != '\n' { assert IsDigit(s[i]); }
  }

  lemma {:induction false} AttribChars(a: string)
    requires AttribText(a)
    ensures '\n' !in a
    decreases |a|
  {
    if a != [] {
      var d := DigitRun(a[1..]);
      AttribChars(a[1 + d..]);
      DigitChars(a[1..][..d]);
      assert a == [a[0]] + a[1..][..d] + a[1 + d..];
    }
  }

  /** Putting a line in at the start of a line. */
  lemma {:induction false} InsertAt(c: Cursor, s: string)
    requires Inside(c) && c.col == 0
    ensures InsertLines(c, [s]) == Cursor(c.lines[..c.line] + [s] + c.lines[c.line..], c.line + 1, 0)
  {
    if c.line < |c.lines| {
      var l := c.lines[c.line];
      assert l[..0] + s == s && l[0..] == l && [s][1..] == [];
      assert c.lines[c.line..] == [l] + c.lines[c.line + 1..];
    } else {
      assert c.lines[..c.line] == c.lines && c.lines[c.line..] == [];
    }
  }

  class AttributionMutator {
    const mut: TextLinesMutator
    var lineOps: seq<Op>
    var lineOpsIdx: nat
    var attOp: Op
    var lineAssem: MergingOpAssembler?

    ghost predicate Valid()
      reads this, mut, lineAssem
    {
      && mut.Valid() && mut.Exact() && mut.curCol == 0
      && lineOpsIdx <= |lineOps|
      && (lineAssem != null ==> lineAssem.Valid() && lineAssem.bufOp.code != Nop)
    }

    ghost function Repr(): set<object>
      reads this
    {
      {this, mut} + (if lineAssem != null then {lineAssem} else {})
    }

    ghost function State(): View
      requires Valid()
      reads this, mut, lineAssem
    {
      var c := mut.State();
      View(c.lines[..c.line], if lineAssem != null then lineAssem.State() else NEW_MERGER,
           (if attOp.code == Nop then [] else [attOp]) + lineOps[lineOpsIdx..], c.lines[c.line..])
    }

    constructor (lines: seq<string>)
      ensures Valid() && fresh(Repr()) && State() == View([], NEW_MERGER, [], lines)
    {
      hide TextLinesMutator.Valid, TextLinesMutator.Exact;
      mut := new TextLinesMutator(lines);
      lineOps, lineOpsIdx, attOp, lineAssem := [], 0, NO_OP, null;
      new;
      assert lines[..0] == [] && lines[0..] == lines && [] + lineOps[0..] == [];
    }

    lemma {:induction false} PendingIs()
      requires Valid()
      ensures State().pending == [] <==> attOp.code == Nop && lineOpsIdx == |lineOps|
      ensures lineOps[lineOpsIdx..] == [] <==> lineOpsIdx == |lineOps|
    {
      hide Spliced;
    }

    /** Closes the editor and returns all lines. */
    method Finish() returns (r: seq<string>)
      requires Valid()
      modifies mut
      ensures r == old(State().done + State().rest)
    {
      hide Spliced;
      ghost var c := mut.State();
      assert c.lines == c.lines[..c.line] + c.lines[c.line..];
      mut.Close();
      r := mut.lines;
    }

    method LineOpsHasNext() returns (r: bool)
      requires Valid()
      ensures r == (lineOps[lineOpsIdx..] != [])
    {
      r := lineOpsIdx < |lineOps|;
    }

    method IsNextMutOp() returns (r: bool)
      requires Valid()
      ensures r == (lineOps[lineOpsIdx..] != [] || State().rest != [])
    {
      r := lineOpsIdx < |lineOps|;
      if !r {
        r := mut.HasMore();
      }
    }

    /** Reads the runs of the next line. */
    method ReadLine()
      requires Valid() && attOp.code == Nop && lineOpsIdx == |lineOps| && State().rest != []
      modifies this`lineOps, this`lineOpsIdx, mut
      ensures Valid() && State() == Fetched(old(State())) && lineOpsIdx == 0
    {
      hide Deserialize, Spliced, RemoveLines, RemovedLines;
      ghost var c := mut.State();
      assert c.line < |c.lines|;
      RemovedOne(c);
      var line := mut.RemoveLines(1);
      lineOps := LineOps(line);
      lineOpsIdx := 0;
      assert lineOps[0..] == lineOps && [] + lineOps == lineOps;
    }

    /** Makes the next run of the line the current one. */
    method TakeOp()
      requires Valid() && attOp.code == Nop && lineOpsIdx < |lineOps| && lineOps[lineOpsIdx].code != Nop
      modifies this`attOp, this`lineOpsIdx
      ensures Valid() && State() == old(State()) && attOp == State().pending[0] && attOp.code != Nop
    {
      hide Spliced;
      assert lineOps[lineOpsIdx..] == [lineOps[lineOpsIdx]] + lineOps[lineOpsIdx + 1..];
      attOp := lineOps[lineOpsIdx];
      lineOpsIdx := lineOpsIdx + 1;
      assert [] + ([attOp] + lineOps[lineOpsIdx..]) == [attOp] + lineOps[lineOpsIdx..];
    }

    /** The line being written takes a run; a run that ends it ships it to the editor. */
    method OutputMutOp(op: Op)
      requires Valid() && op.lines <= 1 && op.chars > 0 && op.code != Nop
      requires op.lines > 0 ==> AllPrintable(Merged(MergeAppend(State().m, op)))
      modifies this`lineAssem, mut, lineAssem
      ensures Valid() && State() == Output(old(State()), op)
      ensures lineAssem == null || lineAssem == old(lineAssem) || fresh(lineAssem)
    {
      hide Spliced, MergeAppend, Merged, Serialize, SplitTextLines, InsertLines;
      if lineAssem == null {
        lineAssem := new MergingOpAssembler();
      }
      AppendedBuf(lineAssem.State(), op);
      lineAssem.Append(op);
      if op.lines <= 0 {
        return;
      }
      ghost var c, ops := mut.State(), Merged(lineAssem.State());
      var s := lineAssem.String();
      PrintedChars(ops);
      OneLine(s);
      InsertAt(c, s);
      var _ := mut.Insert(s, 1);
      InsertedView(c, s);
      lineAssem := null;
    }

    /** Passes over `l` whole lines. */
    method SkipWhole(l: nat)
      requires Valid() && attOp.code == Nop && lineOpsIdx == |lineOps| && l <= |State().rest|
      modifies mut
      ensures Valid() && State() == Skipped(old(State()), l)
    {
      hide Spliced;
      ghost var c := mut.State();
      assert c.line + l <= |c.lines|;
      mut.SkipLines(l, false);
      SkippedView(c, l);
      assert l == 0 ==> c.lines[c.line..][..0] == [] && c.lines[..c.line] + [] == c.lines[..c.line];
    }

    /** A plain keep of whole lines: they are passed over without being read. */
    method SkipRound(ghost pool: Pool, ghost g: Progress, ghost ops: seq<Op>, ghost bank: string, ghost result: Doc,
            l: nat)
      returns (ghost h: Progress)
      requires ops != [] && PlainKeep(ops[0]) && ops[0].lines == l > 0
      requires Valid() && attOp.code == Nop && lineOpsIdx == |lineOps| && lineAssem == null
      requires InStep(pool, State(), g, ops, bank, result)
      modifies mut
      ensures Valid() && InStep(pool, State(), h, ops[1..], bank, result)
      ensures l <= |old(State()).rest| && State() == Skipped(old(State()), l)
    {
      hide InStep, Skipped;
      h := SkipStep(pool, State(), g, ops, bank, result);
      SkipWhole(l);
    }

    /** The first line of an insertion. */
    method InsertRound(ghost pool: Pool, ghost g: Progress, ghost ops: seq<Op>, op: Op, bank: string, ghost result: Doc)
      returns (out: Op, left: Op, ghost h: Progress)
      requires Valid() && InStep(pool, State(), g, ops, bank, result) && ops != [] && ops[0] == op && op.code == Insert
      modifies this`lineAssem, mut, lineAssem
      ensures Valid() && (lineAssem == null || lineAssem == old(lineAssem) || fresh(lineAssem))
      ensures out.chars <= |bank| && out == FirstInsertion(op, bank) && left == InsertionLeft(op, bank)
      ensures InStep(pool, State(), h, Zip.Behind(left, ops), bank[out.chars..], result)
              && State() == Output(old(State()), out)
      ensures |bank[out.chars..]| < |bank|
    {
      hide InStep, Output, RuneIndex;
      h := InsertStep(pool, State(), g, ops, bank, result);
      out := op;
      if op.lines > 1 {
        var firstLineLen := RuneIndex(bank, '\n') + 1;
        left := op.(chars := if op.chars >= firstLineLen then op.chars - firstLineLen else 0, lines := op.lines - 1);
        out := op.(chars := firstLineLen, lines := 1);
      } else {
        left := op.(code := Nop);
      }
      OutputPrintable(pool, State(), g, ops, out, bank, result);
      OutputMutOp(out);
    }

    /** The next line is read when the runs of the last one are used up. */
    method FetchRound(ghost pool: Pool, ghost g: Progress, ghost ops: seq<Op>, ghost bank: string, ghost result: Doc)
      returns (ghost h: Progress)
      requires Valid() && InStep(pool, State(), g, ops, bank, result) && (State().pending != [] || State().rest != [])
      modifies this`lineOps, this`lineOpsIdx, this`attOp, mut
      ensures Valid() && InStep(pool, State(), h, ops, bank, result) && attOp.code != Nop
      ensures State().pending != [] && attOp == State().pending[0]
      ensures State() == if old(State()).pending == [] then Fetched(old(State())) else old(State())
    {
      hide InStep, Fetched;
      h := g;
      if attOp.code == Nop {
        if lineOpsIdx == |lineOps| {
          assert State().pending == [];
          h := FetchStep(pool, State(), g, ops, bank, result);
          ReadLine();
        }
        PendingCodes(pool, State(), h, ops, bank, result);
        assert [] + lineOps[lineOpsIdx..] == lineOps[lineOpsIdx..];
        assert State().pending[0] == lineOps[lineOpsIdx];
        TakeOp();
      }
    }

    /** The current run is written as it is: no operation is left. */
    method RestRound(ghost pool: Pool, ghost g: Progress, ghost bank: string, ghost result: Doc)
      returns (ghost h: Progress)
      requires Valid() && InStep(pool, State(), g, [], bank, result) && attOp.code != Nop
      modifies this`lineAssem, this`attOp, mut, lineAssem
      ensures Valid() && InStep(pool, State(), h, [], bank, result)
      ensures lineAssem == null || lineAssem == old(lineAssem) || fresh(lineAssem)
      ensures State().rest == old(State()).rest && State().pending == old(State()).pending[1..]
    {
      hide InStep, MergeAppend, Merged, Serialize;
      ghost var v := State();
      h := RestStep(pool, v, g, bank, result);
      assert v.pending[0] == attOp && v.pending[1..] == lineOps[lineOpsIdx..];
      RestPrintable(pool, v, g, bank, result);
      var op := attOp;
      attOp := op.(code := Nop);
      assert State() == v.(pending := v.pending[1..]) by { assert [] + lineOps[lineOpsIdx..] == lineOps[lineOpsIdx..]; }
      OutputMutOp(op);
    }

    /** The current run against a keep or a deletion. */
    method KeepRound(pool: Pool, ghost g: Progress, ghost ops: seq<Op>, op: Op, ghost bank: string, ghost result: Doc)
      returns (left: Op, ghost h: Progress)
      requires Good(pool)
      requires Valid() && InStep(pool, State(), g, ops, bank, result) && attOp.code != Nop
      requires ops != [] && ops[0] == op && (op.code == Keep || op.code == Delete)
      modifies this`lineAssem, this`attOp, mut, lineAssem
      ensures Valid() && InStep(pool, State(), h, Zip.Behind(left, ops), bank, result)
      ensures lineAssem == null || lineAssem == old(lineAssem) || fresh(lineAssem)
      ensures State().rest == old(State()).rest
              && |State().pending| + |Zip.Behind(left, ops)| < |old(State()).pending| + |ops|
    {
      hide InStep, MergeAppend, Merged, Serialize, Zip.Slicer;
      ghost var v := State();
      h := KeepStep(pool, v, g, ops, bank, result);
      assert v.pending[0] == attOp && v.pending[1..] == lineOps[lineOpsIdx..];
      var slice := ZipLoops.SlicerZipperFunc(attOp, op, pool);
      var s := slice.value;
      KeepPrintable(pool, v, g, ops, bank, result, s);
      attOp := s.att;
      left := s.cs;
      assert State() == TakenOff(v, s.att);
      if s.out.code != Nop {
        OutputMutOp(s.out);
      }
    }
  }

  lemma {:induction false} SkippedView(c: Cursor, l: nat)
    requires Inside(c) && c.line + l <= |c.lines|
    ensures var d := Lines.SkipLines(c, l);
            d.lines[..d.line] == c.lines[..c.line] + c.lines[c.line..][..l]
                && d.lines[d.line..] == c.lines[c.line..][l..]
  {}

  lemma {:induction false} PendingCodes(pool: Pool, v: View, g: Progress, ops: seq<Op>, bank: string, result: Doc)
    requires InStep(pool, v, g, ops, bank, result) && v.pending != []
    ensures v.pending[0].code == Insert
  {
    hide Produces, LineAttributes, MergerFine, MergerText, AllAttribText;
  }

  /** A line that a run ends can be printed. */
  lemma {:induction false} OutputPrintable(pool: Pool, v: View, g: Progress, ops: seq<Op>, out: Op, bank: string,
          result: Doc)
    requires InStep(pool, v, g, ops, bank, result) && out.code == Insert && out.chars > 0 && out.lines >= 0
             && AttribText(out.attribs)
    ensures AllPrintable(Merged(MergeAppend(v.m, out)))
  {
    hide Produces, LineAttributes, MergerText, AllAttribText, AttribText, Merged, MergeAppend, MergerOk,
         MergerCanonical, Canonical, AllPrintable;
    MergeText(v.m, out);
    MergeAppendCanonical(v.m, out, Insert);
    MergedFine(MergeAppend(v.m, out));
    RunsPrintable(Merged(MergeAppend(v.m, out)));
  }

  lemma {:induction false} RestPrintable(pool: Pool, v: View, g: Progress, bank: string, result: Doc)
    requires InStep(pool, v, g, [], bank, result) && v.pending != []
    ensures v.pending[0].code == Insert && v.pending[0].chars > 0 && 0 <= v.pending[0].lines <= 1
    ensures AllPrintable(Merged(MergeAppend(v.m, v.pending[0])))
  {
    hide Produces, LineAttributes, MergerText, AttribText, Merged, MergeAppend, MergerOk, MergerCanonical, Canonical,
         AllPrintable;
    OutputPrintable(pool, v, g, [], v.pending[0], bank, result);
  }

  lemma {:induction false} KeepPrintable(pool: Pool, v: View, g: Progress, ops: seq<Op>, bank: string, result: Doc,
          s: Zip.Slice)
    requires Good(pool) && InStep(pool, v, g, ops, bank, result) && v.pending != [] && ops != []
             && (ops[0].code == Keep || ops[0].code == Delete)
    requires Zip.Slicer(v.pending[0], ops[0], pool) == Ok(s)
    ensures s.out.code == Nop || s.out.code == Insert
    ensures s.out.lines >= 0 && AttribText(s.out.attribs)
    ensures s.out.code == Insert && s.out.chars > 0 ==> AllPrintable(Merged(MergeAppend(v.m, s.out)))
  {
    hide Produces, AttribText, Merged, MergeAppend, AllPrintable, Zip.Slicer, Fine;
    PendingParts(pool, v, g);
    assert AttribText(ops[0].attribs);
    Algebra.SlicerAttribText(v.pending[0], ops[0], pool);
    StepCodes(pool, v, g, ops, bank, result);
    var r :| Produces(Verbatim(true, pool), ops, bank, AheadDoc(g), r) && WrittenDoc(g) + r == result;
    SliceStep2(pool, v, g, ops, bank, r, s);
    NewlinesPositive(g.u[..s.out.chars]);
    SlicedCode(v.pending[0], ops[0], pool, s);
    if s.out.code == Insert && s.out.chars > 0 { OutputPrintable(pool, v, g, ops, s.out, bank, result); }
  }

  lemma {:induction false} SlicedCode(a: Op, c: Op, pool: Pool, s: Zip.Slice)
    requires a.code == Insert && (c.code == Keep || c.code == Delete) && Zip.Slicer(a, c, pool) == Ok(s)
    ensures s.out.code == Nop || s.out.code == Insert
  {}

  lemma {:induction false} AppendedBuf(m: Merger, op: Op)
    requires op.code != Nop && op.chars > 0
    ensures MergeAppend(m, op).buf.code != Nop && Merged(MergeAppend(m, op)) != []
  {}

  lemma {:induction false} InsertedView(c: Cursor, s: string)
    requires Inside(c)
    ensures var d := Cursor(c.lines[..c.line] + [s] + c.lines[c.line..], c.line + 1, 0);
            d.lines[..d.line] == c.lines[..c.line] + [s] && d.lines[d.line..] == c.lines[c.line..]
  {}

  lemma {:induction false} RemovedOne(c: Cursor)
    requires Inside(c) && c.col == 0 && c.line < |c.lines|
    ensures Lines.RemoveLines(c, 1) == Cursor(c.lines[..c.line] + c.lines[c.line + 1..], c.line, 0)
    ensures RemovedLines(c, 1) == c.lines[c.line]
    ensures var d := Lines.RemoveLines(c, 1);
            d.lines[..d.line] == c.lines[..c.line] && d.lines[d.line..] == c.lines[c.line..][1..]
  {
    assert c.lines[c.line][0..] + "" == c.lines[c.line];
  }

  // ----- the loop -----

  /** What bounds the rounds still to come. */
  ghost function Work(v: View, ops: seq<Op>, bank: string): nat {
    |bank| + |ops| + |v.pending| + |Flatten(v.rest)|
  }

  lemma {:induction false} FlattenDrop(rest: seq<string>, l: nat)
    requires l <= |rest|
    ensures |Flatten(rest[l..])| <= |Flatten(rest)|
  {
    hide Deserialize;
    if l > 0 {
      assert rest[1..][l - 1..] == rest[l..];
      FlattenDrop(rest[1..], l - 1);
    }
  }

  lemma {:induction false} FetchedWork(v: View, ops: seq<Op>, bank: string)
    requires v.pending == [] && v.rest != []
    ensures Work(Fetched(v), ops, bank) == Work(v, ops, bank)
  {
    hide Deserialize;
  }

  lemma {:induction false} SkippedWork(v: View, l: nat, ops: seq<Op>, bank: string)
    requires l <= |v.rest| && ops != []
    ensures Work(Skipped(v, l), ops[1..], bank) < Work(v, ops, bank)
  {
    hide Flatten;
    FlattenDrop(v.rest, l);
  }

  lemma {:induction false} InsertedWork(v: View, w: View, ops: seq<Op>, left: Op, bank: string, rest: string)
    requires ops != [] && |rest| < |bank| && w.pending == v.pending && w.rest == v.rest
    ensures Work(w, Zip.Behind(left, ops), rest) < Work(v, ops, bank)
  {}

  /** One round: it takes a step of the changeset, of the attribution, or of both. */
  method Round(m: AttributionMutator, pool: Pool, ghost g: Progress, ghost ops: seq<Op>, op: Op, bank: string,
          ghost result: Doc)
    returns (left: Op, used: nat, ghost h: Progress)
    requires Good(pool) && m.Valid() && InStep(pool, m.State(), g, ops, bank, result)
    requires op == Zip.First(ops) && !(ops == [] && m.State().pending == [] && m.lineAssem == null)
    requires ops != [] || m.State().pending != [] || m.State().rest != []
    modifies m.Repr()
    ensures m.Valid() && fresh(m.Repr() - old(m.Repr())) && used <= |bank|
    ensures InStep(pool, m.State(), h, Zip.Behind(left, ops), bank[used..], result) && (ops == [] ==> left.code == Nop)
    ensures Work(m.State(), Zip.Behind(left, ops), bank[used..]) < Work(old(m.State()), ops, bank)
  {
    hide InStep, Work, Fetched, Skipped, Flatten, RuneIndex, Zip.Slicer, Output;
    used := 0;
    assert bank[0..] == bank;
    ghost var v := m.State();
    if ops != [] { StepCodes(pool, v, g, ops, bank, result); }
    NothingBehindLeft(ops);
    var more := m.LineOpsHasNext();
    if op.code == Keep && op.lines > 0 && op.attribs == "" && m.attOp.code == Nop && m.lineAssem == null && !more {
      left := op.(code := Nop);
      h := m.SkipRound(pool, g, ops, bank, result, op.lines);
      SkippedWork(v, op.lines, ops, bank);
      return;
    }
    if op.code == Insert {
      var out;
      out, left, h := m.InsertRound(pool, g, ops, op, bank, result);
      used := out.chars;
      OutputView(v, out);
      InsertedWork(v, m.State(), ops, left, bank, bank[used..]);
      return;
    }
    if ops != [] { SomethingAhead(pool, v, g, ops, bank, result); }
    if v.pending == [] { FetchedWork(v, ops, bank); }
    h := m.FetchRound(pool, g, ops, bank, result);
    if op.code == Nop {
      left := op;
      h := m.RestRound(pool, h, bank, result);
    } else {
      left, h := m.KeepRound(pool, h, ops, op, bank, result);
    }
    RoundWork();
  }

  lemma {:induction false} RoundWork()
    ensures forall v: View, w: View, a: seq<Op>, b: seq<Op>, bank: string ::
              w.rest == v.rest && |w.pending| + |b| < |v.pending| + |a| ==> Work(w, b, bank) < Work(v, a, bank)
  {}

  lemma {:induction false} OutputView(v: View, out: Op)
    ensures Output(v, out).pending == v.pending && Output(v, out).rest == v.rest
  {
    hide MergeAppend, Merged, Serialize;
  }

  lemma {:induction false} NothingBehindLeft(ops: seq<Op>)
    ensures forall op: Op :: op.code == Nop && ops != [] ==> Zip.Behind(op, ops) == ops[1..]
    ensures forall op: Op :: op.code == Nop && ops == [] ==> Zip.Behind(op, ops) == []
    ensures ops == [] ==> Zip.First(ops).code == Nop
    ensures ops != [] ==> Zip.First(ops) == ops[0]
  {
    forall op: Op | op.code == Nop && ops != [] ensures Zip.Behind(op, ops) == ops[1..] {
      assert [] + ops[1..] == ops[1..];
    }
  }

  // ----- the whole run -----

  /** The document that a changeset makes of one whose cells carry their attribute strings. */
  function AfterVerbatim(pool: Pool, cs: string, d: Doc): Option<Doc> {
    Apply(Verbatim(true, pool), OpsOf(cs), Unpack(cs).bank, d)
  }

  lemma {:induction false} VerbatimResult(pool: Pool, cs: string, text: string, d: Doc) returns (result: Doc)
    requires WellFormed(cs, text) && Text(d) == text
    ensures AfterVerbatim(pool, cs, d) == Some(result) && Text(result) == After(cs, text)
    ensures Produces(Verbatim(true, pool), OpsOf(cs), Unpack(cs).bank, d, result)
    ensures Deserialize(Unpack(cs).ops) == Ok(OpsOf(cs)) && Rebasing.Positive(OpsOf(cs)) && AllAttribText(OpsOf(cs))
  {
    hide Unpack, CheckRep, Run, Plain, Deserialize, Text, OpsOf, Canonical, AttribText, AllAttribText, LinesOk;
    var sem, ops, bank := Verbatim(true, pool), OpsOf(cs), Unpack(cs).bank;
    CheckRepRegular(cs);
    Algebra.CanonicalPositive(ops);
    PrintableParts(ops);
    WellFormedProduces(cs, text);
    PlainText(text);
    PlainText(After(cs, text));
    SameText(Ignore(true), sem, ops, bank, Plain(text), d);
    var e, f := Run(sem, ops, bank, d).value, Run(Ignore(true), ops, bank, Plain(text)).value;
    result := e.out + e.doc;
    TextConcat(e.out, e.doc);
    TextConcat(f.out, f.doc);
  }

  /** The start of the run. */
  lemma {:induction false} StartStep(pool: Pool, cs: string, alines: seq<string>, lines: seq<string>, ls: seq<seq<Op>>,
          d: Doc, result: Doc)
    returns (g: Progress)
    requires LineAttributes(pool, alines, lines, ls, d) && AllFull(lines)
    requires Produces(Verbatim(true, pool), OpsOf(cs), Unpack(cs).bank, d, result) && Rebasing.Positive(OpsOf(cs))
             && AllAttribText(OpsOf(cs))
    ensures InStep(pool, View([], NEW_MERGER, [], alines), g, OpsOf(cs), Unpack(cs).bank, result)
  {
    hide Run, AttribText, Unpack, OpsOf, Deserialize;
    var sem := Verbatim(true, pool);
    NewMergerFine();
    NewMergerText();
    NothingProducedIn(sem, []);
    NewlinesBound("");
    g := Progress([], [], [], "", [], "", [], lines, ls, d);
    assert LineAttributes(pool, [], [], [], []);
    assert [] + d == d && [] + [] + result == result;
    assert Produces(sem, OpsOf(cs), Unpack(cs).bank, AheadDoc(g), result) && WrittenDoc(g) + result == result;
  }

  /** Whether a round is still to come, and which operation it takes. */
  predicate Done(csOp: Op, m: AttributionMutator)
    requires m.lineOpsIdx <= |m.lineOps|
    reads m
  {
    csOp.code == Nop && m.attOp.code == Nop && m.lineAssem == null && m.lineOps[m.lineOpsIdx..] == []
  }

  /** A round for the current operation, and what is left of it. */
  method Turn(m: AttributionMutator, csOp: Op, ghost rest: seq<Op>, csBank: string, csBankIndex: nat, pool: Pool,
          ghost g: Progress, ghost result: Doc)
    returns (left: Op, index: nat, more: bool, ghost h: Progress)
    requires csBankIndex <= |csBank| && (csOp.code == Nop ==> rest == [])
    requires Good(pool) && m.Valid()
             && InStep(pool, m.State(), g, ZipLoops.Left(csOp, rest), csBank[csBankIndex..], result)
    requires !Done(csOp, m) && (csOp.code != Nop || m.State().pending != [] || m.State().rest != [])
    modifies m.Repr()
    ensures m.Valid() && fresh(m.Repr() - old(m.Repr())) && index <= |csBank|
    ensures InStep(pool, m.State(), h, ZipLoops.Left(left, rest), csBank[index..], result)
    ensures Work(m.State(), ZipLoops.Left(left, rest), csBank[index..]) < Work(old(m.State()),
            ZipLoops.Left(csOp, rest), csBank[csBankIndex..])
    ensures more == (m.lineOps[m.lineOpsIdx..] != [] || m.State().rest != [])
  {
    hide InStep, Work, ZipLoops.Left, Zip.Behind, Zip.First, Flatten, LineOps, Spliced, Good, Deserialize;
    LoadedOp(csOp, rest);
    ghost var ops := ZipLoops.Left(csOp, rest);
    var used;
    left, used, h := Round(m, pool, g, ops, if csOp.code == Nop then NO_OP else csOp, csBank[csBankIndex..], result);
    BehindIsLeft(left, csOp, rest);
    index := csBankIndex + used;
    assert csBank[csBankIndex..][used..] == csBank[index..];
    more := m.IsNextMutOp();
  }

  /** All rounds; what is left unfinished is a line without newline. */
  method AllRounds(m: AttributionMutator, csOps: seq<Op>, csBank: string, pool: Pool, ghost g0: Progress,
          ghost result: Doc)
    returns (ghost g: Progress, ghost bank: string)
    requires Good(pool) && m.Valid() && InStep(pool, m.State(), g0, csOps, csBank, result) && ZipLoops.Coded(csOps)
    modifies m.Repr()
    ensures m.Valid() && fresh(m.Repr() - old(m.Repr()))
    ensures InStep(pool, m.State(), g, [], bank, result) && m.State().pending == []
    ensures m.lineAssem != null ==> m.State().rest == []
  {
    hide InStep, Work, ZipLoops.Coded, ZipLoops.Left, Zip.Behind, Zip.First, Flatten, LineOps, Spliced, Good,
         Deserialize;
    hide AttributionMutator.State;
    g := g0;
    var csOp: Op, csOpsIdx: nat, csBankIndex: nat := NO_OP, 0, 0;
    ZipLoops.LeftStart(csOps);
    assert csOps[0..] == csOps && csBank[0..] == csBank;
    var more := m.IsNextMutOp();
    while csOp.code != Nop || csOpsIdx < |csOps| || m.attOp.code != Nop || more
      invariant m.Valid() && fresh(m.Repr() - old(m.Repr())) && csOpsIdx <= |csOps| && csBankIndex <= |csBank|
      invariant ZipLoops.Coded(csOps[csOpsIdx..])
      invariant InStep(pool, m.State(), g, ZipLoops.Left(csOp, csOps[csOpsIdx..]), csBank[csBankIndex..], result)
      invariant more == (m.lineOps[m.lineOpsIdx..] != [] || m.State().rest != [])
      decreases Work(m.State(), ZipLoops.Left(csOp, csOps[csOpsIdx..]), csBank[csBankIndex..])
    {
      SomeLeft(csOp, csOps[csOpsIdx..]);
      m.PendingIs();
      csOp, csOpsIdx := NextCsOp(csOps, csOp, csOpsIdx);
      if csOp.code == Nop && m.attOp.code == Nop && m.lineAssem == null && m.lineOpsIdx == |m.lineOps| {
        break;
      }
      csOp, csBankIndex, more, g := Turn(m, csOp, csOps[csOpsIdx..], csBank, csBankIndex, pool, g, result);
    }
    LoadedOp(csOp, csOps[csOpsIdx..]);
    bank := csBank[csBankIndex..];
    m.PendingIs();
  }

  lemma {:induction false} SomeLeft(op: Op, rest: seq<Op>)
    ensures op.code != Nop || rest != [] ==> ZipLoops.Left(op, rest) != []
  {}

  /** Takes the next operation of the changeset when the last one is used up. */
  method NextCsOp(csOps: seq<Op>, op: Op, idx: nat) returns (csOp: Op, csOpsIdx: nat)
    requires idx <= |csOps| && ZipLoops.Coded(csOps[idx..])
    ensures csOpsIdx <= |csOps| && ZipLoops.Coded(csOps[csOpsIdx..]) && (csOp.code == Nop ==> csOpsIdx == |csOps|)
    ensures ZipLoops.Left(csOp, csOps[csOpsIdx..]) == ZipLoops.Left(op, csOps[idx..])
    ensures Zip.First(ZipLoops.Left(csOp, csOps[csOpsIdx..])) == if csOp.code == Nop then NO_OP else csOp
    ensures csOp.code == Nop <==> ZipLoops.Left(csOp, csOps[csOpsIdx..]) == []
  {
    hide ZipLoops.Coded, ZipLoops.Left, Zip.First;
    csOp, csOpsIdx := op, idx;
    if csOp.code == Nop && csOpsIdx < |csOps| {
      LoadOp(csOps[csOpsIdx..]);
      NopLeft(csOp, csOps[csOpsIdx..]);
      csOp := csOps[csOpsIdx];
      csOpsIdx := csOpsIdx + 1;
      assert csOps[csOpsIdx - 1..][1..] == csOps[csOpsIdx..];
    }
    LoadedOp(csOp, csOps[csOpsIdx..]);
  }

  lemma {:induction false} NopLeft(op: Op, rest: seq<Op>)
    requires op.code == Nop
    ensures ZipLoops.Left(op, rest) == rest
  {
    assert [] + rest == rest;
  }

  lemma {:induction false} LoadOp(ops: seq<Op>)
    requires ZipLoops.Coded(ops) && ops != []
    ensures ops[0].code != Nop && ZipLoops.Coded(ops[1..]) && ZipLoops.Left(ops[0], ops[1..]) == ops
  {}

  lemma {:induction false} LoadedOp(op: Op, rest: seq<Op>)
    ensures op.code != Nop ==> ZipLoops.Left(op, rest) != [] && Zip.First(ZipLoops.Left(op, rest)) == op
    ensures op.code == Nop && rest == [] ==>
            ZipLoops.Left(op, rest) == [] && Zip.First(ZipLoops.Left(op, rest)) == NO_OP
  {}

  lemma {:induction false} BehindIsLeft(left: Op, op: Op, rest: seq<Op>)
    requires op.code != Nop || (rest == [] && left.code == Nop)
    ensures Zip.Behind(left, ZipLoops.Left(op, rest)) == ZipLoops.Left(left, rest)
  {}

  lemma {:induction false} StartView(alines: seq<string>, lines: seq<string>, ls: seq<seq<Op>>, pool: Pool, d: Doc)
    requires LineAttributes(pool, alines, lines, ls, d)
    ensures Text(d) == Join(lines)
  {
    LinesText(pool, alines, lines, ls, d);
  }

  /** The new attribution lines, for the document `result` that the changeset makes. */
  method EditLines(cs: string, alines: seq<string>, pool: Pool, ghost lines: seq<string>, ghost ls: seq<seq<Op>>,
          ghost d: Doc, ghost result: Doc)
    returns (r: Result<seq<string>>, ghost ls': seq<seq<Op>>)
    requires Good(pool) && LineAttributes(pool, alines, lines, ls, d) && AllFull(lines)
    requires Produces(Verbatim(true, pool), OpsOf(cs), Unpack(cs).bank, d, result)
    requires Deserialize(Unpack(cs).ops) == Ok(OpsOf(cs)) && Rebasing.Positive(OpsOf(cs)) && AllAttribText(OpsOf(cs))
    ensures r.Ok? <==> (Text(result) == "" || EndsInNewline(Text(result)))
    ensures r.Ok? ==> LineAttributes(pool, r.value, SplitTextLines(Text(result)), ls', result)
  {
    hide Unpack, Deserialize, LineAttributes, AllFull, InStep, Text, Produces, OpsOf, SplitTextLines, Good, AttribText,
         AllAttribText, ZipLoops.Coded, EndsInNewline, Rebasing.Positive;
    var unpacked := Unpack(cs);
    var csOps := OpsOf(cs);
    ZipLoops.ParsedCoded(unpacked.ops);
    ghost var g := StartStep(pool, cs, alines, lines, ls, d, result);
    var m := new AttributionMutator(alines);
    ghost var bank;
    g, bank := AllRounds(m, csOps, unpacked.bank, pool, g, result);
    ls' := [];
    if m.lineAssem != null {
      FinishPart(pool, m.State(), g, bank, result);
      return Err("line assembler not finished"), ls';
    }
    ls' := FinishLines(pool, m.State(), g, bank, result);
    var newLines := m.Finish();
    r := Ok(newLines);
  }

  /**
    Changes attribution lines by a changeset. It succeeds just when the new text ends with a newline or is empty; then
    the new attribution lines give the lines of the new text their attribute strings, and joined they are what
    ApplyToAttribution makes of the joined old ones.
   */
  method MutateAttributionLines(cs: string, alines: seq<string>, pool: Pool, ghost lines: seq<string>,
          ghost ls: seq<seq<Op>>, ghost d: Doc)
    returns (r: Result<seq<string>>, ghost ls': seq<seq<Op>>)
    requires Good(pool) && WellFormed(cs, Join(lines)) && AllFull(lines) && LineAttributes(pool, alines, lines, ls, d)
    ensures r.Ok? <==> (After(cs, Join(lines)) == "" || EndsInNewline(After(cs, Join(lines))))
    ensures r.Ok? ==> AfterVerbatim(pool, cs, d).Some? &&
                      LineAttributes(pool, r.value, SplitTextLines(After(cs, Join(lines))), ls',
                          AfterVerbatim(pool, cs, d).value)
    ensures r.Ok? ==>
              AttributedText.ApplyToAttribution(cs, JoinAttributionLines(alines), pool) ==
              Ok((JoinAttributionLines(r.value), pool))
  {
    hide *;
    StartView(alines, lines, ls, pool, d);
    ghost var result := VerbatimResult(pool, cs, Join(lines), d);
    r, ls' := EditLines(cs, alines, pool, lines, ls, d, result);
    if r.Ok? { AgreesWithWhole(pool, cs, alines, lines, ls, d, r.value, ls', result); }
  }

  /** Line by line and as a whole: both give the canonical attribution of the new text. */
  lemma {:induction false} AgreesWithWhole(pool: Pool, cs: string, alines: seq<string>, lines: seq<string>,
          ls: seq<seq<Op>>, d: Doc, alines': seq<string>, ls': seq<seq<Op>>, result: Doc)
    requires Good(pool) && LineAttributes(pool, alines, lines, ls, d)
    requires Produces(Verbatim(true, pool), OpsOf(cs), Unpack(cs).bank, d, result)
    requires Deserialize(Unpack(cs).ops) == Ok(OpsOf(cs)) && Rebasing.Positive(OpsOf(cs))
    requires LineAttributes(pool, alines', SplitTextLines(Text(result)), ls', result)
    ensures AttributedText.ApplyToAttribution(cs, JoinAttributionLines(alines), pool) ==
            Ok((JoinAttributionLines(alines'), pool))
  {
    hide Unpack, Deserialize, Join, Text, Produces, OpsOf, SplitTextLines, Good, AttribZip, Assemble, MergeAll,
         Serialize, Inserts, Canonical, RunsOk;
    hide LinesCover, AttribText, AllAttribText, AllPrintable, Rebasing.Positive, Strip;
    var sem := Verbatim(true, pool);
    var att := MergeAll(Flatten(alines));
    FlattenLines(pool, alines, lines, ls, d);
    FlattenLines(pool, alines', SplitTextLines(Text(result)), ls', result);
    JoinSplit(Text(result));
    MergeAllProduces(sem, Flatten(alines), Join(lines), d);
    MergedReadsBack(alines, att);
    var zs := AttribZipVerbatim(pool, att, OpsOf(cs), Unpack(cs).bank, Join(lines), d, result);
    StripProduces(sem, zs, Text(result), [], result);
    AssembleProduces(sem, zs, Text(result), [], result);
    Algebra.ProducesLines(sem, zs, Text(result), [], result);
    AssembleNormal(zs);
    CanonicalInserts(sem, Assemble(zs), Text(result), result);
    MergeAllProduces(sem, Flatten(alines'), Text(result), result);
    AttributionUnique(pool, Assemble(zs), MergeAll(Flatten(alines')), Text(result), result);
  }

  /** The runs of attribution lines, as one attribution of the joined lines. */
  lemma {:induction false} FlattenLines(pool: Pool, alines: seq<string>, lines: seq<string>, ls: seq<seq<Op>>, d: Doc)
    requires LineAttributes(pool, alines, lines, ls, d)
    ensures Flatten(alines) == Concat(ls) && Inserts(Flatten(alines))
            && Produces(Verbatim(true, pool), Flatten(alines), Join(lines), [], d)
  {
    hide Deserialize, LinesCover, Produces, RunsOk, Inserts;
    CoverConcat(Verbatim(true, pool), ls, lines, d);
    FlattenParsed(alines, ls);
    RunsInserts(Concat(ls), Verbatim(true, pool), Join(lines), d);
  }

  lemma {:induction false} FlattenParsed(alines: seq<string>, ls: seq<seq<Op>>)
    requires |alines| == |ls| && forall i :: 0 <= i < |ls| ==> Deserialize(alines[i]) == Ok(ls[i])
    ensures Flatten(alines) == Concat(ls)
    decreases |ls|
  {
    hide Deserialize;
    if ls != [] { FlattenParsed(alines[1..], ls[1..]); }
  }

  /** Merged runs of parsed lines can be printed and read back. */
  lemma {:induction false} MergedReadsBack(alines: seq<string>, att: seq<Op>)
    requires att == MergeAll(Flatten(alines)) && Canonical(att)
    ensures Deserialize(Serialize(att)) == Ok(att)
  {
    hide Deserialize, Serialize, AttribText, Canonical;
    FlattenAttribText(alines);
    NewMergerText();
    NewMergerFine();
    MergeOpsText(NEW_MERGER, Flatten(alines));
    RunsPrintable(att);
    DeserializeSerialize(att);
  }

  /** A canonical list that builds a document from nothing holds insertions only. */
  lemma {:induction false} CanonicalInserts(sem: AttrSem, ops: seq<Op>, t: string, d: Doc)
    requires Canonical(ops) && Produces(sem, ops, t, [], d)
    ensures Inserts(ops)
    decreases |ops|
  {
    hide Newlines, Clean, Fresh, Restyle, Text, Run, MayFollow;
    if ops != [] {
      var e, d' := UnfoldProduces(sem, ops, t, [], d);
      CanonicalForm.CanonicalTail(ops);
      CanonicalInserts(sem, ops[1..], e.bank, d');
    }
  }
}
