/** The part of an attribution between two places: Subattribution of lib/changeset/changeset.go. */
module Subattributions {
  import opened Basics
  import opened Pools
  import opened Attributes
  import opened Ops
  import opened Syntax
  import opened Assemblers
  import opened AssemblerObjects
  import opened Changesets
  import opened Inversion
  import Attributions
  import AttributedText
  import Zip = Composition
  import ZipLoops
  import Algebra
  import opened LineReaders
  import InverseLaws

  // ----- the slicing of runs by one operation -----

  /** What the slicing writes, and what it leaves of the runs and of the operation. */
  datatype Sliced = Sliced(out: seq<Op>, att: seq<Op>, cs: Op)

  /** The operation counts the newline of a run that it takes whole. */
  function Counting(cs: Op, att: Op): Op {
    if cs.chars >= att.chars && att.lines > 0 && cs.lines <= 0 then cs.(lines := cs.lines + 1) else cs
  }

  function DoCsOp(att: seq<Op>, cs: Op): Result<Sliced>
    decreases |att|, if cs.code == Nop then 0 else 1
  {
    if cs.code == Nop || att == [] then Ok(Sliced([], att, cs))
    else match Zip.Slicer(att[0], Counting(cs, att[0]), EMPTY_POOL)
      case Err(e) => Err(e)
      case Ok(s) =>
        match DoCsOp(Zip.Behind(s.att, att), s.cs)
        case Err(e) => Err(e)
        case Ok(r) => Ok(Sliced(Zip.Emit(s.out) + r.out, r.att, r.cs))
  }

  /** An operation without characters does nothing. */
  function SliceBy(att: seq<Op>, cs: Op): Result<Sliced> {
    if cs.chars == 0 then Ok(Sliced([], att, cs)) else DoCsOp(att, cs)
  }

  /** The attribution from `start` on, up to `optEnd` if it is given. */
  function Subattribution(astr: string, start: nat, optEnd: Option<int>): Result<string> {
    match Deserialize(astr)
    case Err(e) => Err(e)
    case Ok(ops) =>
      match SliceBy(ops, Op(Delete, start, 0, ""))
      case Err(e) => Err(e)
      case Ok(a) =>
        match optEnd
        case None => Ok(Serialize(Assembled(AppendAll(NEW_SMART, a.out + a.att))))
        case Some(end) =>
          if end < start then Err("optEnd < start")
          else match SliceBy(a.att, Op(Keep, end - start, a.cs.lines, ""))
            case Err(e) => Err(e)
            case Ok(b) => Ok(Serialize(Assembled(AppendAll(NEW_SMART, a.out + b.out))))
  }

  // ----- what it takes from the runs of a line -----

  /** The runs of a line have a newline at most at their end. */
  predicate RunsOfLine(att: seq<Op>) { RunsOk(att) && forall i :: 0 <= i < |att| ==> att[i].lines >= 0 }

  /** The stretches as runs. */
  function AsRuns(ss: seq<Stretch>): seq<Op> {
    if ss == [] then [] else [Op(Insert, ss[0].chars, if ss[0].endsLine then 1 else 0, ss[0].attribs)] + AsRuns(ss[1..])
  }

  lemma {:induction false} SlicedOnce(att: seq<Op>, cs: Op, s: Zip.Slice)
    requires att != [] && cs.code != Nop && Zip.Slicer(att[0], Counting(cs, att[0]), EMPTY_POOL) == Ok(s)
    ensures DoCsOp(att, cs) ==
            match DoCsOp(Zip.Behind(s.att, att), s.cs)
            case Err(e) => Err(e)
            case Ok(r) => Ok(Sliced(Zip.Emit(s.out) + r.out, r.att, r.cs))
  {
    hide Zip.Slicer, Counting, Zip.Emit;
  }

  lemma {:induction false} SlicedOff(att: seq<Op>, cs: Op)
    requires cs.code == Nop
    ensures DoCsOp(att, cs) == Ok(Sliced([], att, cs))
  {}

  /** Taking a part of the first run, or all of it and more. */
  lemma {:induction false} TakeFirst(att: seq<Op>, n: nat)
    requires att != [] && n > 0
    ensures var a := att[0];
            if n < a.chars
            then TakeRuns(att, n) == Runs([Stretch(n, a.attribs, false)], [a.(chars := a.chars - n)] + att[1..])
                 && AsRuns(TakeRuns(att, n).taken) == [Op(Insert, n, 0, a.attribs)]
            else var t := TakeRuns(att[1..], n - a.chars);
                 TakeRuns(att, n).rest == t.rest
                 && AsRuns(TakeRuns(att, n).taken) ==
                    [Op(Insert, a.chars, if a.lines > 0 then 1 else 0, a.attribs)] + AsRuns(t.taken)
  {
    var a := att[0];
    if n < a.chars {
      assert [Stretch(n, a.attribs, false)][1..] == [];
    } else {
      var s, t := Stretch(a.chars, a.attribs, a.lines > 0), TakeRuns(att[1..], n - a.chars);
      assert TakeRuns(att, n).taken == [s] + t.taken && ([s] + t.taken)[1..] == t.taken;
    }
  }

  /** A keep takes the runs of its characters; a deletion passes over them. */
  lemma {:induction false} SlicedRuns(att: seq<Op>, cs: Op)
    requires RunsOfLine(att) && (cs.code == Keep || cs.code == Delete) && 0 < cs.chars <= Chars(att) && cs.lines == 0
             && cs.attribs == ""
    ensures DoCsOp(att, cs).Ok?
    ensures var r, t := DoCsOp(att, cs).value, TakeRuns(att, cs.chars);
            r.att == t.rest && r.out == (if cs.code == Keep then AsRuns(t.taken) else []) && r.cs.lines == 0
    decreases |att|
  {
    hide Zip.Slicer, Counting, Zip.Emit, DoCsOp, TakeRuns, AsRuns;
    var a := att[0];
    var s := FirstSliced(a, cs);
    SlicedOnce(att, cs, s);
    TakeFirst(att, cs.chars);
    var rest := Zip.Behind(s.att, att);
    if cs.chars <= a.chars {
      SlicedOff(rest, s.cs);
      TakeNone(att[1..]);
      assert Zip.Emit(s.out) + [] == Zip.Emit(s.out);
    } else {
      assert rest == att[1..];
      SlicedRuns(att[1..], s.cs);
    }
    assert cs.code == Delete ==> Zip.Emit(s.out) == [];
  }

  /** One step of the slicer on a run of a line. */
  lemma {:induction false} FirstSliced(a: Op, cs: Op) returns (s: Zip.Slice)
    requires a.code == Insert && a.chars > 0 && 0 <= a.lines <= 1
    requires (cs.code == Keep || cs.code == Delete) && cs.chars > 0 && cs.lines == 0 && cs.attribs == ""
    ensures Zip.Slicer(a, Counting(cs, a), EMPTY_POOL) == Ok(s)
    ensures var k, l := Min(cs.chars, a.chars), if cs.chars < a.chars then 0 else a.lines;
            && Zip.Emit(s.out) == (if cs.code == Keep then [Op(Insert, k, l, a.attribs)] else [])
            && (if k == a.chars then s.att.code == Nop else s.att == a.(chars := a.chars - k))
            && s.cs.lines == 0 && (if k == cs.chars then s.cs.code == Nop else s.cs == cs.(chars := cs.chars - k))
  {
    s := Zip.Slicer(a, Counting(cs, a), EMPTY_POOL).value;
  }

  /** The runs of the stretches give the text the same attribute strings. */
  lemma {:induction false} StretchesProduce(sem: AttrSem, ss: seq<Stretch>, t: string, d: Doc)
    requires Stretches(sem, ss, t, d)
    ensures Produces(sem, AsRuns(ss), t, [], d)
    decreases |ss|
  {
    hide Newlines, Fresh, Clean, Produces;
    if ss == [] {
      NothingProducedIn(sem, []);
    } else {
      var k, l := ss[0].chars, if ss[0].endsLine then 1 else 0;
      StretchesProduce(sem, ss[1..], t[k..], d[k..]);
      ProducesInsert(sem, Op(Insert, k, l, ss[0].attribs), t[..k], AsRuns(ss[1..]), t[k..], [], d[k..]);
      assert t[..k] + t[k..] == t && d[..k] + d[k..] == d;
    }
  }

  lemma {:induction false} TakenPositive(att: seq<Op>, n: nat)
    requires RunsOfLine(att)
    ensures Attributions.Inserts(AsRuns(TakeRuns(att, n).taken))
    decreases |att|
  {
    if n > 0 && att != [] {
      if n < att[0].chars {
        assert AsRuns([Stretch(n, att[0].attribs, false)]) == [Op(Insert, n, 0, att[0].attribs)] by {
          assert [Stretch(n, att[0].attribs, false)][1..] == [];
        }
      } else {
        TakenPositive(att[1..], n - att[0].chars);
        var s, ss := Stretch(att[0].chars, att[0].attribs, att[0].lines > 0),
            TakeRuns(att[1..], n - att[0].chars).taken;
        assert ([s] + ss)[1..] == ss;
      }
    }
  }

  // ----- the law -----

  /** Assembling insertions alone, the end of the document changes nothing. */
  lemma {:induction false} NoKeeps(ops: seq<Op>)
    requires forall i :: 0 <= i < |ops| ==> ops[i].code == Insert
    ensures var s := AppendAll(NEW_SMART, ops);
            s.keep == NEW_MERGER && s.last != Keep && s.done == [] && s.minus == NEW_MERGER
    ensures Assembled(AppendAll(NEW_SMART, ops)) == Assemble(ops)
  {
    hide MergeAppend;
    if ops != [] { NoKeeps(ops[..|ops| - 1]); }
  }

  lemma {:induction false} ProducedInserts(sem: AttrSem, ops: seq<Op>, t: string, d: Doc)
    requires Produces(sem, ops, t, [], d) && forall i :: 0 <= i < |ops| ==> ops[i].chars > 0
    ensures forall i :: 0 <= i < |ops| ==> ops[i].code == Insert
    decreases |ops|
  {
    hide Newlines, Clean, Fresh, Run;
    if ops != [] {
      var e, d' := UnfoldProduces(sem, ops, t, [], d);
      assert ops[0].code == Insert;
      ProducedInserts(sem, ops[1..], e.bank, d');
      forall i | 0 <= i < |ops| ensures ops[i].code == Insert { if i > 0 { assert ops[i] == ops[1..][i - 1]; } }
    }
  }

  /** The runs of a stretch: what the slicing by one operation takes, and what it leaves. */
  lemma {:induction false} SliceTakes(sem: AttrSem, att: seq<Op>, k: nat, code: OpCode, t: string, d: Doc)
    requires sem.strict && RunsOfLine(att) && AllAttribText(att) && Produces(sem, att, t, [], d) && k <= |t| == |d|
    requires code == Keep || code == Delete
    ensures SliceBy(att, Op(code, k, 0, "")).Ok?
    ensures var s := SliceBy(att, Op(code, k, 0, "")).value;
            && s.cs.lines == 0 && RunsOfLine(s.att) && AllAttribText(s.att) && Produces(sem, s.att, t[k..], [], d[k..])
            && (code == Delete ==> s.out == [])
            && (code == Keep ==>
                  && Produces(sem, s.out, t[..k], [], d[..k]) && Attributions.Inserts(s.out)
                  && AllAttribText(s.out))
  {
    hide Newlines, Clean, Fresh, Produces, DoCsOp, AttribText, TakeRuns, Chars;
    ProducedChars(sem, att, t, d);
    TakeRunsCovers(sem, att, k, t, d);
    InverseLaws.TakenAttribText(att, k);
    var r := TakeRuns(att, k);
    Algebra.ProducesLines(sem, r.rest, t[k..], [], d[k..]);
    StretchesProduce(sem, r.taken, t[..k], d[..k]);
    TakenPositive(att, k);
    RunsText(r.taken);
    if k > 0 {
      SlicedRuns(att, Op(code, k, 0, ""));
    } else {
      TakeNone(att);
    }
  }

  lemma {:induction false} TakeNone(att: seq<Op>)
    ensures TakeRuns(att, 0) == Runs([], att) && AsRuns([]) == []
  {}

  lemma {:induction false} RunsText(ss: seq<Stretch>)
    requires InverseLaws.AllStretchText(ss)
    ensures AllAttribText(AsRuns(ss))
  {
    hide AttribText;
    if ss != [] { RunsText(ss[1..]); }
  }

  /** What an attribution string gives a text, in runs with at most one newline each. */
  ghost predicate GivesLine(sem: AttrSem, astr: string, t: string, d: Doc) {
    && sem.strict && Deserialize(astr).Ok? && RunsOk(Deserialize(astr).value)
    && Produces(sem, Deserialize(astr).value, t, [], d)
  }

  /** What the result gives the part of the text: canonical runs of its own. */
  ghost predicate GivesPart(sem: AttrSem, r: Result<string>, t: string, d: Doc) {
    && r.Ok? && Deserialize(r.value).Ok?
    && Attributions.Inserts(Deserialize(r.value).value) && Canonical(Deserialize(r.value).value)
    && AllAttribText(Deserialize(r.value).value) && Produces(sem, Deserialize(r.value).value, t, [], d)
  }

  /** Printing and parsing what was sliced off. */
  lemma {:induction false} PartPrinted(sem: AttrSem, out: seq<Op>, t: string, d: Doc)
    requires Attributions.Inserts(out) && AllAttribText(out) && Produces(sem, out, t, [], d)
    ensures GivesPart(sem, Ok(Serialize(Assembled(AppendAll(NEW_SMART, out)))), t, d)
  {
    hide Produces, Deserialize, Serialize, Assemble, AttribText, AppendAll, Assembled;
    NoKeeps(out);
    AttributedText.AttributionPrinted(sem, out, t, d);
    AssembleNormal(out);
    AssembleAttribText(out);
    ProducedInserts(sem, Assemble(out), t, d);
  }

  /**
    Subattribution of an attribution line: for any stretch of its text it succeeds, and what it returns gives the
    characters of the stretch exactly the attribute strings that the line gives them.
   */
  lemma {:induction false} SubattributionGives(sem: AttrSem, astr: string, t: string, d: Doc, start: nat, end: nat)
    requires GivesLine(sem, astr, t, d) && start <= end <= |t| == |d|
    ensures GivesPart(sem, Subattribution(astr, start, Some(end)), t[start..end], d[start..end])
    ensures GivesPart(sem, Subattribution(astr, start, None), t[start..], d[start..])
  {
    hide Produces, Deserialize, Serialize, SliceBy, AttribText, AppendAll, Assembled, GivesPart;
    var ops := Deserialize(astr).value;
    ParsedPrintable(astr);
    PrintableParts(ops);
    Algebra.ProducesLines(sem, ops, t, [], d);
    SliceTakes(sem, ops, start, Delete, t, d);
    var a := SliceBy(ops, Op(Delete, start, 0, "")).value;
    var t', d' := t[start..], d[start..];
    SliceTakes(sem, a.att, end - start, Keep, t', d');
    var b := SliceBy(a.att, Op(Keep, end - start, 0, "")).value;
    assert t'[..end - start] == t[start..end] && d'[..end - start] == d[start..end];
    assert a.out + b.out == b.out && a.out + a.att == a.att;
    PartPrinted(sem, b.out, t[start..end], d[start..end]);
    PartPrinted(sem, a.att, t', d');
  }
}
