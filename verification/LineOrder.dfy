/**
  When changing a list of lines leaves it in order: what an assembled list of operations does behind the last character
  that it keeps decides it.
 */
module LineOrder {
  import opened Basics
  import opened Pools
  import opened Ops
  import opened Assemblers
  import opened Changesets
  import opened TextMutation
  import opened Inversion
  import opened Attributions
  import opened FinalNewlines
  import AttributionLoops

  // ----- the end of a list of operations -----

  /** Some characters are kept. */
  predicate HasKeep(ops: seq<Op>) { exists i :: 0 <= i < |ops| && ops[i].code == Keep && ops[i].chars > 0 }

  /** The insertions behind the last character that is kept. */
  function EndInserts(ops: seq<Op>): seq<Op> {
    if ops == [] then []
    else
      (if ops[0].code == Insert && ops[0].chars > 0 && !HasKeep(ops[1..]) then [ops[0]] else [])
      + EndInserts(ops[1..])
  }

  /** How many characters are deleted behind the last one that is kept. */
  function DeletedEnd(ops: seq<Op>): nat {
    if ops == [] then 0
    else (if ops[0].code == Delete && !HasKeep(ops[1..]) then ops[0].chars else 0) + DeletedEnd(ops[1..])
  }

  /** How many characters are kept or deleted. */
  function Consumed(ops: seq<Op>): nat {
    if ops == [] then 0 else (if ops[0].code == Insert then 0 else ops[0].chars) + Consumed(ops[1..])
  }

  /** How many characters are inserted. */
  function Inserted(ops: seq<Op>): nat {
    if ops == [] then 0 else (if ops[0].code == Insert then ops[0].chars else 0) + Inserted(ops[1..])
  }

  lemma {:induction false} CountsConcat(a: seq<Op>, b: seq<Op>)
    ensures Consumed(a + b) == Consumed(a) + Consumed(b) && Inserted(a + b) == Inserted(a) + Inserted(b)
  {
    if a == [] {
      assert a + b == b;
    } else {
      assert (a + b)[1..] == a[1..] + b && (a + b)[0] == a[0];
      CountsConcat(a[1..], b);
    }
  }

  lemma {:induction false} InsertsConsumeNothing(ops: seq<Op>)
    requires Inserts(ops)
    ensures Consumed(ops) == 0
  {
    if ops != [] { InsertsConsumeNothing(ops[1..]); }
  }

  /** The code of the last operation that has characters. */
  function LastCode(ops: seq<Op>): OpCode {
    if ops == [] then Nop else if LastCode(ops[1..]) != Nop || ops[0].chars == 0 then LastCode(ops[1..])
        else ops[0].code
  }

  lemma {:induction false} HasKeepConcat(a: seq<Op>, b: seq<Op>)
    ensures HasKeep(a + b) <==> HasKeep(a) || HasKeep(b)
  {
    if HasKeep(a) {
      var i :| 0 <= i < |a| && a[i].code == Keep && a[i].chars > 0;
      assert (a + b)[i] == a[i];
    }
    if HasKeep(b) {
      var i :| 0 <= i < |b| && b[i].code == Keep && b[i].chars > 0;
      assert (a + b)[|a| + i] == b[i];
    }
  }

  lemma {:induction false} HasKeepFirst(ops: seq<Op>)
    requires ops != []
    ensures HasKeep(ops) <==> (ops[0].code == Keep && ops[0].chars > 0) || HasKeep(ops[1..])
  {
    HasKeepConcat([ops[0]], ops[1..]);
    assert [ops[0]] + ops[1..] == ops;
  }

  lemma {:induction false} EndInsertsConcat(a: seq<Op>, b: seq<Op>)
    ensures EndInserts(a + b) == (if HasKeep(b) then [] else EndInserts(a)) + EndInserts(b)
  {
    hide HasKeep;
    if a == [] {
      assert a + b == b;
      assert [] + EndInserts(b) == EndInserts(b);
    } else {
      var rest := a[1..];
      assert (a + b)[0] == a[0] && (a + b)[1..] == rest + b;
      EndInsertsConcat(rest, b);
      HasKeepConcat(rest, b);
      var x := if a[0].code == Insert && a[0].chars > 0 && !HasKeep(rest) then [a[0]] else [];
      assert x + (EndInserts(rest) + EndInserts(b)) == x + EndInserts(rest) + EndInserts(b);
      assert [] + ([] + EndInserts(b)) == [] + EndInserts(b);
    }
  }

  lemma {:induction false} EndInsertsOne(op: Op)
    ensures EndInserts([op]) == if op.code == Insert && op.chars > 0 then [op] else []
    ensures HasKeep([op]) <==> op.code == Keep && op.chars > 0
  {
    assert [op][1..] == [];
    assert [op] + [] == [op] && EndInserts([]) == [];
    if op.code == Keep && op.chars > 0 { assert [op][0] == op; }
  }

  lemma {:induction false} EndInsertsAre(ops: seq<Op>)
    requires LinesOk(ops)
    ensures Inserts(EndInserts(ops))
  {
    hide HasKeep;
    if ops != [] { EndInsertsAre(ops[1..]); }
  }

  lemma {:induction false} LastCodeSnoc(ops: seq<Op>, op: Op)
    ensures LastCode(ops + [op]) == if op.chars > 0 && op.code != Nop then op.code else LastCode(ops)
  {
    if ops == [] {
      assert ops + [op] == [op] && [op][1..] == [];
    } else {
      assert (ops + [op])[1..] == ops[1..] + [op] && (ops + [op])[0] == ops[0];
      LastCodeSnoc(ops[1..], op);
    }
  }

  // ----- what the assembler makes of it -----

  /** The insertions that wait in the assembler. */
  lemma {:induction false} Waiting(ops: seq<Op>)
    ensures AppendAll(NEW_SMART, ops).last == LastCode(ops)
    ensures AppendAll(NEW_SMART, ops).plus == MergeOps(NEW_MERGER, EndInserts(ops))
  {
    hide MergeAppend, HasKeep, Merged, SmartAppend, EndInserts, LastCode;
    if ops != [] {
      var pre, op := ops[..|ops| - 1], ops[|ops| - 1];
      Waiting(pre);
      AppendAllOk(pre);
      assert ops == pre + [op];
      LastCodeSnoc(pre, op);
      EndInsertsConcat(pre, [op]);
      EndInsertsOne(op);
      AttributionLoops.MergeOpsConcat(NEW_MERGER, EndInserts(pre), [op]);
      MergeOne(MergeOps(NEW_MERGER, EndInserts(pre)), op);
      WaitingStep(AppendAll(NEW_SMART, pre), op);
      assert EndInserts(pre) + [] == EndInserts(pre);
    } else {
      AppendNothing();
      NothingWaits();
    }
  }

  lemma {:induction false} NothingWaits()
    ensures EndInserts([]) == [] && LastCode([]) == Nop && MergeOps(NEW_MERGER, []) == NEW_MERGER
  {}

  lemma {:induction false} MergeOne(m: Merger, op: Op)
    ensures MergeOps(m, [op]) == MergeAppend(m, op)
  {
    assert [op][1..] == [];
  }

  lemma {:induction false} WaitingStep(s: Smart, op: Op)
    requires SmartOk(s)
    ensures var t := SmartAppend(s, op);
            if op.code == Nop || op.chars == 0 then t == s
            else && t.last == op.code
                 && t.plus == if op.code == Keep then NEW_MERGER
                              else if op.code == Insert then MergeAppend(s.plus, op) else s.plus
  {
    hide MergeAppend, Merged;
  }

  /** Where the last operation is no keep, the assembled insertions come last, and something else right before them. */
  lemma {:induction false} AssembledEnd(ops: seq<Op>) returns (a: seq<Op>)
    requires LinesOk(ops) && LastCode(ops) in {Insert, Delete}
    ensures Assemble(ops) == Assembled(AppendAll(NEW_SMART, ops)) == a + MergeAll(EndInserts(ops))
    ensures a != [] ==> Last(a).code in {Keep, Delete} && Last(a).chars > 0
    ensures Canonical(a + MergeAll(EndInserts(ops)))
  {
    hide MergeAppend, Canonical, MergerCanonical, MergerOk, Merged, AppendAll, EndInserts, LastCode;
    Waiting(ops);
    AppendAllCanonical(ops);
    var s := AppendAll(NEW_SMART, ops);
    PlusMinusCanonical(s);
    MergedCodes(s.minus, Delete);
    EmptyMerger();
    a := s.done + Merged(s.minus);
    assert a + Merged(s.plus) + [] == a + Merged(s.plus);
    LastPositive(a, Merged(s.plus));
  }

  lemma {:induction false} LastPositive(a: seq<Op>, b: seq<Op>)
    requires Canonical(a + b)
    ensures a != [] ==> Last(a).chars > 0
  {
    if a != [] { assert (a + b)[|a| - 1] == Last(a); }
  }

  // ----- where the text is used up -----

  /** The bank, the text and what is written, as some operations leave them. */
  datatype Place = Place(bank: string, text: string, written: string)

  function Passed(ops: seq<Op>, p: Place): Place {
    if ops == [] then p
    else
      var op := ops[0];
      Passed(ops[1..], Place(BankAfter(op, p.bank), TextAfter(op, p.text), p.written + Wrote(op, p.bank, p.text)))
  }

  /** The text is not used up before the last operation that reads it. */
  lemma {:induction false} StopsBehind(a: seq<Op>, b: seq<Op>, p: Place)
    requires FitsText(a + b, p.bank, p.text) && a != [] && Last(a).code in {Keep, Delete} && Last(a).chars > 0
    ensures var q := Passed(a, p);
            && FitsText(b, q.bank, q.text) && q.text == p.text[Min(Consumed(a), |p.text|)..]
            && Consumed(a) <= |p.text| && p.text != ""
            && Inserted(a) <= |p.bank| && q.bank == p.bank[Inserted(a)..]
            && (StopsMidline(a + b, p.bank, p.text, p.written) <==> StopsMidline(b, q.bank, q.text, q.written))
    decreases |a|
  {
    hide StopsMidline, FitsText, BankAfter, TextAfter, Wrote;
    var op := a[0];
    FirstOf(a, b);
    FirstFits(a + b, p.bank, p.text);
    var q := Place(BankAfter(op, p.bank), TextAfter(op, p.text), p.written + Wrote(op, p.bank, p.text));
    if |a| == 1 {
      assert a[1..] == [] && [] + b == b;
    } else {
      StopsBehind(a[1..], b, q);
    }
    StopsNext(a + b, p);
  }

  lemma {:induction false} FirstFits(ops: seq<Op>, bank: string, text: string)
    requires ops != [] && FitsText(ops, bank, text)
    ensures FitsText(ops[1..], BankAfter(ops[0], bank), TextAfter(ops[0], text))
    ensures if ops[0].code == Insert
            then ops[0].chars <= |bank| && BankAfter(ops[0], bank) == bank[ops[0].chars..]
                 && TextAfter(ops[0], text) == text
            else ops[0].chars <= |text| && TextAfter(ops[0], text) == text[ops[0].chars..]
                 && BankAfter(ops[0], bank) == bank
  {
    hide Newlines, Clean;
  }

  lemma {:induction false} FirstOf(a: seq<Op>, b: seq<Op>)
    requires a != []
    ensures (a + b)[1..] == a[1..] + b && (a + b)[0] == a[0]
  {}

  lemma {:induction false} StopsNext(ops: seq<Op>, p: Place)
    requires ops != [] && p.text != ""
    ensures var op := ops[0];
            StopsMidline(ops, p.bank, p.text, p.written) <==>
            StopsMidline(ops[1..], BankAfter(op, p.bank), TextAfter(op, p.text),
                p.written + Wrote(op, p.bank, p.text))
  {}

  /** Insertions at the end of the text stop in the middle of a line exactly where one has no newline. */
  lemma {:induction false} StopsInserting(ops: seq<Op>, bank: string, written: string)
    requires Inserts(ops) && FitsText(ops, bank, "")
    ensures StopsMidline(ops, bank, "", written) <==>
            Midline(written) || exists i :: 0 <= i < |ops| && ops[i].lines == 0
    decreases |ops|
  {
    hide Newlines;
    if ops != [] {
      var op := ops[0];
      var piece := bank[..op.chars];
      NewlinesBound(piece);
      if op.lines == 0 {
        assert piece[|piece| - 1] in piece;
      }
      assert (written + piece)[|written + piece| - 1] == piece[|piece| - 1];
      StopsInserting(ops[1..], bank[op.chars..], written + piece);
      if i :| 0 <= i < |ops| && ops[i].lines == 0 {
        assert i > 0 ==> ops[1..][i - 1].lines == 0;
      }
    }
  }

  // ----- the law for assembled lists -----

  lemma {:induction false} LeftBehind(sem: AttrSem, ops: seq<Op>, bank: string, doc: Doc)
    requires Run(sem, ops, bank, doc).Some?
    ensures var e := Run(sem, ops, bank, doc).value;
            |e.doc| == |doc| - Consumed(ops) && |e.bank| == |bank| - Inserted(ops)
  {
    hide Newlines, Text, Fresh, Restyle, Clean;
    if ops != [] {
      var e := RunOp(sem, ops[0], bank, doc).value;
      LeftBehind(sem, ops[1..], e.bank, e.doc);
    }
  }

  /** Operations that do not keep the end of a text use it up, and keep nothing after that. */
  lemma {:induction false} EndUsed(ops: seq<Op>, bank: string, text: string)
    requires FitsText(ops, bank, text) && !KeepsEnd(ops, text)
    ensures Consumed(ops) == |text| && LastCode(ops) in {Insert, Delete}
    decreases |ops|
  {
    hide Newlines, Clean;
    var op, t := ops[0], TextAfter(ops[0], text);
    if t == "" {
      OnlyInsertsLeft(ops[1..], BankAfter(op, bank));
    } else {
      EndUsed(ops[1..], BankAfter(op, bank), t);
    }
  }

  lemma {:induction false} OnlyInsertsLeft(ops: seq<Op>, bank: string)
    requires FitsText(ops, bank, "")
    ensures Consumed(ops) == 0 && LastCode(ops) in {Nop, Insert} && (LastCode(ops) == Nop ==> KeepsEnd(ops, ""))
    decreases |ops|
  {
    hide Newlines, Clean;
    if ops != [] { OnlyInsertsLeft(ops[1..], BankAfter(ops[0], bank)); }
  }

  /** Operations that keep the end of a text insert nothing behind it. */
  lemma {:induction false} EndNotUsed(ops: seq<Op>, bank: string, text: string)
    requires FitsText(ops, bank, text) && KeepsEnd(ops, text) && text != ""
    ensures EndInserts(ops) != [] ==> Consumed(ops) < |text|
    ensures !HasKeep(ops) ==> Consumed(ops) < |text|
    decreases |ops|
  {
    hide Newlines, Clean, HasKeep;
    if ops != [] {
      var op, t := ops[0], TextAfter(ops[0], text);
      HasKeepFirst(ops);
      if t != "" {
        EndNotUsed(ops[1..], BankAfter(op, bank), t);
      } else {
        NothingInserted(ops[1..], BankAfter(op, bank));
      }
    }
  }

  lemma {:induction false} NothingInserted(ops: seq<Op>, bank: string)
    requires FitsText(ops, bank, "") && KeepsEnd(ops, "")
    ensures EndInserts(ops) == [] && Consumed(ops) == 0
    decreases |ops|
  {
    hide Newlines, Clean, HasKeep;
    if ops != [] { NothingInserted(ops[1..], BankAfter(ops[0], bank)); }
  }

  /** The attributes change within a line. */
  predicate Breaks(d: Doc) { exists p :: 0 < p < |d| && d[p - 1].c != '\n' && d[p - 1].attrs != d[p].attrs }

  /** Merged runs of whole lines: one without newline is followed by one with other attributes. */
  lemma {:induction false} RunsBreak(pool: Pool, ops: seq<Op>, t: string, d: Doc)
    requires Inserts(ops) && Canonical(ops) && Produces(Verbatim(true, pool), ops, t, [], d)
    requires t == "" || EndsInNewline(t)
    ensures Breaks(d) <==> exists i :: 0 <= i < |ops| && ops[i].lines == 0
    decreases |ops|
  {
    hide Newlines, Run, Produces, Breaks;
    SameLength(Verbatim(true, pool), ops, t, d);
    if ops == [] {
      NoBreaks(d);
      NothingProduced(Verbatim(true, pool), t, d);
    } else {
      var n := ops[0].chars;
      var d' := FirstRun(pool, ops, t, d);
      CellsText(d);
      NewlinesBound(t[..n]);
      assert t[..n][n - 1] == t[n - 1] == d[n - 1].c;
      if ops[0].lines == 0 {
        assert t[n - 1] in t[..n] && t[n - 1] != '\n';
        if n == |t| { assert false; }
        if ops[1..] == [] { NothingProduced(Verbatim(true, pool), t[n..], d'); }
        assert MayFollow(ops[0], ops[1]);
        var _ := FirstRun(pool, ops[1..], t[n..], d');
        assert d'[0].attrs == map["" := ops[1].attribs] && d'[0] == d[n];
        assert d[n].attrs[""] != d[n - 1].attrs[""];
        BreaksAt(d, n);
      } else {
        InsertsTail(ops);
        assert t[n..] == "" || EndsInNewline(t[n..]);
        RunsBreak(pool, ops[1..], t[n..], d');
        BreaksLater(d, n);
        assert (exists i :: 0 <= i < |ops| && ops[i].lines == 0) <==>
               exists i :: 0 <= i < |ops[1..]| && ops[1..][i].lines == 0 by { LinesLater(ops); }
      }
    }
  }

  lemma {:induction false} NoBreaks(d: Doc)
    ensures |d| <= 1 ==> !Breaks(d)
  {}

  lemma {:induction false} BreaksAt(d: Doc, p: nat)
    requires 0 < p < |d| && d[p - 1].c != '\n' && d[p - 1].attrs != d[p].attrs
    ensures Breaks(d)
  {}

  /** Within one run of whole lines, the attributes do not change within a line. */
  lemma {:induction false} BreaksLater(d: Doc, n: nat)
    requires 0 < n <= |d| && d[n - 1].c == '\n' && forall i :: 0 <= i < n ==> d[i].attrs == d[0].attrs
    ensures Breaks(d) <==> Breaks(d[n..])
  {
    if Breaks(d) {
      var p :| 0 < p < |d| && d[p - 1].c != '\n' && d[p - 1].attrs != d[p].attrs;
      assert p > n;
      assert d[n..][p - n - 1] == d[p - 1] && d[n..][p - n] == d[p];
    }
    if Breaks(d[n..]) {
      var p :| 0 < p < |d[n..]| && d[n..][p - 1].c != '\n' && d[n..][p - 1].attrs != d[n..][p].attrs;
      assert d[n..][p - 1] == d[n + p - 1] && d[n..][p] == d[n + p];
    }
  }

  lemma {:induction false} LinesLater(ops: seq<Op>)
    requires ops != [] && ops[0].lines != 0
    ensures (exists i :: 0 <= i < |ops| && ops[i].lines == 0) <==>
            exists i :: 0 <= i < |ops[1..]| && ops[1..][i].lines == 0
  {
    if i :| 0 <= i < |ops| && ops[i].lines == 0 { assert ops[1..][i - 1] == ops[i]; }
  }

  lemma {:induction false} CellsText(d: Doc)
    ensures forall i :: 0 <= i < |d| ==> Text(d)[i] == d[i].c
  {
    if d != [] {
      CellsText(d[1..]);
      forall i | 0 <= i < |d| ensures Text(d)[i] == d[i].c {
        if i > 0 { assert d[1..][i - 1] == d[i] && Text(d)[i] == Text(d[1..])[i - 1]; }
      }
    }
  }

  /** What is written so far and what is still written make up the result. */
  lemma {:induction false} PassedText(a: seq<Op>, b: seq<Op>, p: Place, r: string)
    requires FitsText(a + b, p.bank, p.text) && ApplyOps(a + b, p.bank, p.text).Ok?
    requires p.written + ApplyOps(a + b, p.bank, p.text).value == r
    ensures var q := Passed(a, p);
            ApplyOps(b, q.bank, q.text).Ok? && q.written + ApplyOps(b, q.bank, q.text).value == r
    decreases |a|
  {
    hide FitsText, ApplyOps, BankAfter, TextAfter, Wrote;
    if a == [] {
      assert a + b == b;
    } else {
      var op := a[0];
      assert (a + b)[1..] == a[1..] + b && (a + b)[0] == op;
      FitsStep(a + b, p.bank, p.text, p.written, r);
      PassedText(a[1..], b,
          Place(BankAfter(op, p.bank), TextAfter(op, p.text), p.written + Wrote(op, p.bank, p.text)), r);
    }
  }

  lemma {:induction false} InsertsAll(ops: seq<Op>, bank: string)
    requires Inserts(ops) && FitsText(ops, bank, "") && Inserted(ops) == |bank|
    ensures ApplyOps(ops, bank, "") == Ok(bank)
    decreases |ops|
  {
    hide Newlines, Clean;
    if ops != [] {
      var n := ops[0].chars;
      InsertsAll(ops[1..], bank[n..]);
      assert bank[..n] + bank[n..] == bank;
    }
  }

  /** The last `n` characters of a text are torn: they begin in the middle of a line, or break up in one. */
  predicate Torn(text: string, n: nat, d: Doc) { 0 < n <= |text| && (Midline(text[..|text| - n]) || Breaks(d)) }

  /**
    An assembled list of operations stops in the middle of a line exactly when the text is used up and what is inserted
    at its end is torn.
   */
  lemma {:induction false} AssembledStops(ops: seq<Op>, bank: string, t: string, r: string, pool: Pool, x: string,
          d: Doc)
    requires LinesOk(ops) && Produces(Ignore(true), ops, bank, Plain(t), Plain(r))
    requires EndsInNewline(t) && EndsInNewline(r)
    requires Produces(Verbatim(true, pool), EndInserts(ops), x, [], d) && |x| <= |bank| && bank[|bank| - |x|..] == x
    ensures StopsMidline(Assemble(ops), bank, t, "") <==> Consumed(ops) == |t| && Torn(r, |x|, d)
  {
    hide Run, Plain, FitsText, Assemble, StopsMidline, KeepsEnd, EndInserts, MergeAll, Consumed, Midline, Breaks, Strip,
         LinesOk;
    assert FitsText(ops, bank, t) by { FitsTextRuns(ops, bank, t); }
    if KeepsEnd(ops, t) {
      EndNotUsed(ops, bank, t);
      if EndInserts(ops) == [] { NothingProduced(Verbatim(true, pool), x, d); }
      AssembleKeepsEnd(ops, bank, t, r);
      StripProduces(Ignore(true), ops, bank, Plain(t), Plain(r));
      AssembleProduces(Ignore(true), ops, bank, Plain(t), Plain(r));
      FitsTextRuns(Assemble(ops), bank, t);
      KeepsEndInOrder(Assemble(ops), bank, t, "");
    } else {
      EndUsed(ops, bank, t);
      UsedStops(ops, bank, t, r, pool, x, d);
    }
  }

  /** The place where the text is used up. */
  lemma {:induction false} UsedPlace(a: seq<Op>, i: seq<Op>, bank: string, t: string, r: string) returns (q: Place)
    requires FitsText(a + i, bank, t) && ApplyOps(a + i, bank, t) == Ok(r) && Inserts(i)
    requires a != [] && Last(a).code in {Keep, Delete} && Last(a).chars > 0
    requires Consumed(a) == |t| && Inserted(a) + Inserted(i) == |bank|
    ensures q.bank == bank[|bank| - Inserted(i)..] && q.text == "" && FitsText(i, q.bank, "")
    ensures q.written + q.bank == r && q.written == r[..|r| - |q.bank|]
    ensures StopsMidline(a + i, bank, t, "") <==> StopsMidline(i, q.bank, "", q.written)
  {
    hide FitsText, StopsMidline, Consumed, Inserted, Passed, ApplyOps, Inserts;
    var p := Place(bank, t, "");
    q := Passed(a, p);
    StopsBehind(a, i, p);
    PassedText(a, i, p, r) by { assert "" + r == r; }
    InsertsAll(i, q.bank);
  }

  /** The same where the text is used up. */
  lemma {:induction false} UsedStops(ops: seq<Op>, bank: string, t: string, r: string, pool: Pool, x: string, d: Doc)
    requires LinesOk(ops) && Produces(Ignore(true), ops, bank, Plain(t), Plain(r))
    requires EndsInNewline(t) && EndsInNewline(r) && Consumed(ops) == |t| && LastCode(ops) in {Insert, Delete}
    requires Produces(Verbatim(true, pool), EndInserts(ops), x, [], d) && |x| <= |bank| && bank[|bank| - |x|..] == x
    ensures StopsMidline(Assemble(ops), bank, t, "") <==> Torn(r, |x|, d)
  {
    hide Run, Plain, FitsText, Assemble, StopsMidline, EndInserts, MergeAll, Consumed, Inserted, Midline, Breaks,
         LinesOk, LastCode, Canonical, Assembled, AppendAll, Passed, ApplyOps, Inserts;
    var v, ins := Verbatim(true, pool), EndInserts(ops);
    EndInsertsAre(ops);
    MergeAllProduces(v, ins, x, d);
    var i := MergeAll(ins);
    var a := AssembledEnd(ops);
    UsedRun(ops, a, i, bank, t, r);
    var q := UsedPlace(a, i, bank, t, r);
    LeftBehind(v, i, x, []);
    StopsInserting(i, x, q.written);
    if x == "" {
      assert i == [] by { NoneInserted(i); }
      assert q.written == r;
      EndNotMidline(r);
    } else {
      assert EndsInNewline(x) by { assert x[|x| - 1] == r[|r| - 1]; }
      RunsBreak(pool, i, x, d);
    }
  }

  lemma {:induction false} EndNotMidline(r: string)
    requires EndsInNewline(r)
    ensures !Midline(r)
  {}

  lemma {:induction false} NoneInserted(ops: seq<Op>)
    requires Inserts(ops) && Inserted(ops) == 0
    ensures ops == []
  {}

  /** The assembled operations use the text and the bank up as the operations do. */
  lemma {:induction false} UsedRun(ops: seq<Op>, a: seq<Op>, i: seq<Op>, bank: string, t: string, r: string)
    requires Assembled(AppendAll(NEW_SMART, ops)) == a + i && Inserts(i)
    requires Produces(Ignore(true), ops, bank, Plain(t), Plain(r)) && Consumed(ops) == |t| && t != ""
    ensures FitsText(a + i, bank, t) && ApplyOps(a + i, bank, t) == Ok(r)
    ensures Consumed(a) == |t| && a != [] && Inserted(a) + Inserted(i) == |bank|
  {
    hide Run, Plain, FitsText, ApplyOps, Consumed, Inserted, Assembled, AppendAll;
    var sem, d := Ignore(true), Plain(t);
    PlainText(t);
    PlainText(r);
    AppendAllEffect(sem, ops);
    assert Run(sem, a + i, bank, d) == Run(sem, ops, bank, d);
    LeftBehind(sem, ops, bank, d);
    LeftBehind(sem, a + i, bank, d);
    CountsConcat(a, i);
    InsertsConsumeNothing(i);
    assert a != [] by { assert Consumed([]) == 0 by { NoneConsumed(); } }
    FitsTextRuns(a + i, bank, t);
    StrictIsPlain(a + i, bank, d);
    ApplyOpsRun(a + i, bank, t);
    PlainText(ApplyOps(a + i, bank, t).value);
  }

  lemma {:induction false} NoneConsumed()
    ensures Consumed([]) == 0
  {}
}
