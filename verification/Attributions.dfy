/**
  Attributions, which are lists of insertions, and their lines: SplitAttributionLines and JoinAttributionLines of
  lib/changeset/changeset.go. Read verbatim, an attribution gives every character its attribute string.
 */
module Attributions {
  import opened Basics
  import opened Pools
  import opened Ops
  import opened Syntax
  import opened Assemblers
  import opened Changesets
  import opened Lines
  import opened Inversion
  import opened InverseLaws
  import CanonicalForm

  // ----- a canonical attribution is determined by the text and the attribute strings -----

  predicate Inserts(ops: seq<Op>) {
    forall i :: 0 <= i < |ops| ==> ops[i].code == Insert && ops[i].chars > 0 && ops[i].lines >= 0
  }

  /** The first run: its text, its newlines and the attribute string of its cells. */
  lemma {:induction false} FirstRun(pool: Pool, ops: seq<Op>, t: string, d: Doc) returns (d': Doc)
    requires ops != [] && Inserts(ops) && Produces(Verbatim(true, pool), ops, t, [], d)
    ensures var n := ops[0].chars;
            && n <= |t| && n <= |d| && d' == d[n..] && Produces(Verbatim(true, pool), ops[1..], t[n..], [], d')
            && ops[0].lines == Newlines(t[..n]) && Clean(t[..n])
            && forall i :: 0 <= i < n ==> d[i].attrs == map["" := ops[0].attribs]
  {
    hide Newlines, Clean, Fresh, Run;
    var n := ops[0].chars;
    var e, r := UnfoldProduces(Verbatim(true, pool), ops, t, [], d);
    d' := r;
    FreshStyle(pool, ops[0].attribs, t[..n]);
    assert d[n..] == r && d[..n] == e.out;
    forall i | 0 <= i < n ensures d[i].attrs == map["" := ops[0].attribs] { assert d[i] == e.out[i]; }
  }

  lemma {:induction false} FreshStyle(pool: Pool, a: string, s: string)
    ensures forall i :: 0 <= i < |s| ==> Fresh(Verbatim(true, pool), a, s)[i].attrs == map["" := a]
  {
    if s != "" { FreshStyle(pool, a, s[1..]); }
  }

  lemma {:induction false} InsertsTail(ops: seq<Op>)
    requires Inserts(ops) && Canonical(ops) && ops != []
    ensures Inserts(ops[1..]) && Canonical(ops[1..])
  {
    CanonicalForm.CanonicalTail(ops);
  }

  /** The first run of a canonical attribution is not shorter than that of another one. */
  lemma {:induction false} RunNotShorter(pool: Pool, a: seq<Op>, b: seq<Op>, t: string, d: Doc)
    requires Inserts(a) && Canonical(a) && Inserts(b) && a != [] && b != []
    requires Produces(Verbatim(true, pool), a, t, [], d) && Produces(Verbatim(true, pool), b, t, [], d)
    ensures a[0].attribs == b[0].attribs && a[0].chars >= b[0].chars
  {
    hide Newlines, Clean, Produces;
    var n, m := a[0].chars, b[0].chars;
    var da := FirstRun(pool, a, t, d);
    var db := FirstRun(pool, b, t, d);
    SameStyle(a[0].attribs, b[0].attribs, d[0]);
    if n < m {
      assert a[1..] != [] by { if a[1..] == [] { NothingProduced(Verbatim(true, pool), t[n..], da); } }
      InsertsTail(a);
      var dc := FirstRun(pool, a[1..], t[n..], da);
      var k := a[1].chars;
      assert da[0] == d[n];
      SameStyle(a[1].attribs, b[0].attribs, d[n]);
      assert MayFollow(a[0], a[1]);
      if m > n + k {
        assert a[1..][1..] != [] by { if a[1..][1..] == [] { NothingProduced(Verbatim(true, pool), t[n..][k..], dc); } }
        InsertsTail(a[1..]);
        assert MayFollow(a[1], a[2]);
        var de := FirstRun(pool, a[1..][1..], t[n..][k..], dc);
        assert dc[0] == d[n + k];
        SameStyle(a[2].attribs, b[0].attribs, d[n + k]);
      }
      CanonicalForm.RunEndsPlain(n, k, m, t);
    }
  }

  lemma {:induction false} SameStyle(a: string, b: string, c: Cell)
    requires c.attrs == map["" := a] && c.attrs == map["" := b]
    ensures a == b
  {
    assert map["" := a][""] == map["" := b][""];
  }

  /** Two canonical attributions that give a text the same attribute strings are the same. */
  lemma {:induction false} AttributionUnique(pool: Pool, a: seq<Op>, b: seq<Op>, t: string, d: Doc)
    requires Inserts(a) && Canonical(a) && Inserts(b) && Canonical(b)
    requires Produces(Verbatim(true, pool), a, t, [], d) && Produces(Verbatim(true, pool), b, t, [], d)
    ensures a == b
    decreases |a|
  {
    hide Newlines, Clean, Produces, Canonical;
    if a == [] {
      NothingProduced(Verbatim(true, pool), t, d);
      if b != [] { var _ := FirstRun(pool, b, t, d); }
    } else if b == [] {
      NothingProduced(Verbatim(true, pool), t, d);
      var _ := FirstRun(pool, a, t, d);
    } else {
      RunNotShorter(pool, a, b, t, d);
      RunNotShorter(pool, b, a, t, d);
      var da := FirstRun(pool, a, t, d);
      var db := FirstRun(pool, b, t, d);
      InsertsTail(a);
      InsertsTail(b);
      AttributionUnique(pool, a[1..], b[1..], t[a[0].chars..], da);
      assert a[0] == b[0] && a == [a[0]] + a[1..] && b == [b[0]] + b[1..];
    }
  }

  // ----- merging -----

  function MergeOps(m: Merger, ops: seq<Op>): Merger
    decreases |ops|
  {
    if ops == [] then m else MergeOps(MergeAppend(m, ops[0]), ops[1..])
  }

  ghost predicate MergerFine(m: Merger) { MergerOk(m, Insert) && MergerCanonical(m) }

  lemma {:induction false} NewMergerFine()
    ensures MergerFine(NEW_MERGER) && Merged(NEW_MERGER) == []
  {}

  /** Merging keeps the meaning, and what is merged is canonical. */
  lemma {:induction false} MergeOneProduces(sem: AttrSem, m: Merger, op: Op, rest: seq<Op>, t: string, d: Doc)
    requires MergerFine(m) && op.code == Insert && op.chars > 0 && op.lines >= 0
    requires Produces(sem, Merged(m) + ([op] + rest), t, [], d)
    ensures MergerFine(MergeAppend(m, op)) && Produces(sem, Merged(MergeAppend(m, op)) + rest, t, [], d)
  {
    hide Run, MergeAppend, Merged, MergerOk, MergerCanonical;
    MergeAppendCanonical(m, op, Insert);
    MergeAppendEffect(sem, m, op, Insert);
    SimulatesInContext(sem, [], Merged(m) + [op], Merged(MergeAppend(m, op)), rest);
    assert [] + (Merged(m) + [op]) + rest == Merged(m) + ([op] + rest);
    assert [] + Merged(MergeAppend(m, op)) + rest == Merged(MergeAppend(m, op)) + rest;
  }

  lemma {:induction false} MergeProduces(sem: AttrSem, m: Merger, ops: seq<Op>, t: string, d: Doc)
    requires MergerFine(m) && Inserts(ops) && Produces(sem, Merged(m) + ops, t, [], d)
    ensures MergerFine(MergeOps(m, ops)) && Produces(sem, Merged(MergeOps(m, ops)), t, [], d)
    ensures Inserts(Merged(MergeOps(m, ops))) && Canonical(Merged(MergeOps(m, ops)))
    decreases |ops|
  {
    hide Produces, MergerFine, MergeAppend, Merged, Canonical;
    if ops == [] {
      assert Merged(m) + ops == Merged(m);
      MergedFine(m);
    } else {
      assert ops == [ops[0]] + ops[1..];
      MergeOneProduces(sem, m, ops[0], ops[1..], t, d);
      MergeProduces(sem, MergeAppend(m, ops[0]), ops[1..], t, d);
    }
  }

  lemma {:induction false} MergedFine(m: Merger)
    requires MergerFine(m)
    ensures Inserts(Merged(m)) && Canonical(Merged(m))
  {
    MergedCanonical(m, Insert);
    MergedCodes(m, Insert);
  }

  /** All operations merged. */
  function MergeAll(ops: seq<Op>): seq<Op> { Merged(MergeOps(NEW_MERGER, ops)) }

  lemma {:induction false} MergeAllProduces(sem: AttrSem, ops: seq<Op>, t: string, d: Doc)
    requires Inserts(ops) && Produces(sem, ops, t, [], d)
    ensures Produces(sem, MergeAll(ops), t, [], d) && Inserts(MergeAll(ops)) && Canonical(MergeAll(ops))
  {
    hide Produces, Canonical, MergeOps;
    NewMergerFine();
    assert [] + ops == ops;
    MergeProduces(sem, NEW_MERGER, ops, t, d);
  }

  // ----- cutting at newlines -----

  /**
    An operation over several lines, one piece a line; the newline of each piece but the last is looked up in the
    text.
   */
  function Pieces(op: Op, text: string): Result<seq<Op>>
    decreases op.lines
  {
    if op.lines <= 1 then Ok([op])
    else
      var i := RuneIndex(text, '\n');
      if i < 0 then Err("newLineEnd <= 0 in splitAttributionLines")
      else
        var k := i + 1;
        match Pieces(Op(op.code, if op.chars >= k then op.chars - k else 0, op.lines - 1, op.attribs), text[k..])
        case Err(e) => Err(e)
        case Ok(ps) => Ok([Op(op.code, k, 1, op.attribs)] + ps)
  }

  /** All operations cut at newlines. */
  function AllPieces(ops: seq<Op>, text: string): Result<seq<Op>>
    decreases |ops|
  {
    if ops == [] then Ok([])
    else
      match (Pieces(ops[0], text), AllPieces(ops[1..], text[Min(ops[0].chars, |text|)..]))
      case (Err(e), _) => Err(e)
      case (_, Err(e)) => Err(e)
      case (Ok(a), Ok(b)) => Ok(a + b)
  }

  /**
    The lines of pieces: each is merged and ends with a piece that ends a line. What follows the last newline is
    dropped.
   */
  function LinesOf(m: Merger, ps: seq<Op>): seq<seq<Op>>
    decreases |ps|
  {
    if ps == [] then []
    else
      var n := MergeAppend(m, ps[0]);
      if ps[0].lines > 0 then [Merged(n)] + LinesOf(NEW_MERGER, ps[1..]) else LinesOf(n, ps[1..])
  }

  function SerializeAll(lines: seq<seq<Op>>): seq<string> {
    if lines == [] then [] else [Serialize(lines[0])] + SerializeAll(lines[1..])
  }

  function SplitAttributionLines(attrOps: string, text: string): Result<seq<string>> {
    match Deserialize(attrOps)
    case Err(e) => Err(e)
    case Ok(ops) =>
      match AllPieces(ops, text)
      case Err(e) => Err(e)
      case Ok(ps) => Ok(SerializeAll(LinesOf(NEW_MERGER, ps)))
  }

  function JoinAttributionLines(alines: seq<string>): string { Serialize(MergeAll(Flatten(alines))) }

  // ----- the pieces cover the same text -----

  lemma {:induction false} FirstNewline(t: string)
    requires Newlines(t) > 0
    ensures var i := RuneIndex(t, '\n'); i >= 0 && Newlines(t[..i + 1]) == 1 && EndsInNewline(t[..i + 1])
  {
    NewlinesBound(t);
    var i := RuneIndex(t, '\n');
    NewlinesBound(t[..i]);
    NewlinesConcat(t[..i], [t[i]]);
    assert t[..i + 1] == t[..i] + [t[i]];
  }

  lemma {:induction false} FirstNewlinePrefix(t: string, n: nat)
    requires n <= |t| && Newlines(t[..n]) > 0
    ensures RuneIndex(t, '\n') == RuneIndex(t[..n], '\n')
  {
    hide Newlines;
    NewlinesBound(t[..n]);
    var j := RuneIndex(t[..n], '\n');
    assert t[..n][..j] == t[..j] && t[..n][j] == t[j];
    assert t == t[..j] + ['\n'] + t[j + 1..];
    IndexAfter(t[..j], '\n', t[j + 1..]);
  }

  lemma {:induction false} EndsClean(t: string)
    requires EndsInNewline(t)
    ensures Clean(t)
  {}

  /** The first line of an operation over several lines, and what is left of it. */
  lemma {:induction false} FirstPiece(sem: AttrSem, op: Op, rest: seq<Op>, t: string, d: Doc) returns (k: nat, d1: Doc)
    requires sem.strict && op.code == Insert && op.lines > 1 && Produces(sem, [op] + rest, t, [], d)
    ensures k == RuneIndex(t, '\n') + 1 && 0 < k < op.chars <= |t|
    ensures Newlines(t[..k]) == 1 && EndsInNewline(t[..k]) && d == Fresh(sem, op.attribs, t[..k]) + d1
    ensures Produces(sem, [op.(chars := op.chars - k, lines := op.lines - 1)] + rest, t[k..], [], d1)
  {
    hide Newlines, Clean, Fresh, Run, RuneIndex;
    var e, d' := UnfoldProduces(sem, [op] + rest, t, [], d);
    var s := t[..op.chars];
    FirstNewline(s);
    FirstNewlinePrefix(t, op.chars);
    k := RuneIndex(t, '\n') + 1;
    assert s[..k] == t[..k];
    assert s[..|s|] == s;
    EndsClean(t[..k]);
    assert Ops.Cut(op, k, t, []) == t[..k];
    var l, e1, r := SplitProduces(sem, [op] + rest, k, t, [], d);
    d1 := r;
    assert Ops.Rest(op, k, 1) + ([op] + rest)[1..] == [op.(chars := op.chars - k, lines := op.lines - 1)] + rest;
  }

  /** The pieces of one operation, before operations for what follows. */
  lemma {:induction false} PiecesProduce(sem: AttrSem, op: Op, rest: seq<Op>, t: string, d: Doc)
    requires sem.strict && op.code == Insert && op.chars > 0 && op.lines >= 0 && Produces(sem, [op] + rest, t, [], d)
    ensures Pieces(op, t).Ok? && Produces(sem, Pieces(op, t).value + rest, t, [], d) && RunsOk(Pieces(op, t).value)
    decreases op.lines
  {
    hide Newlines, Clean, Fresh, Produces, RuneIndex;
    if op.lines > 1 {
      var k, d1 := FirstPiece(sem, op, rest, t, d);
      var tail := op.(chars := op.chars - k, lines := op.lines - 1);
      PiecesProduce(sem, tail, rest, t[k..], d1);
      var ps := Pieces(tail, t[k..]).value;
      var head := Op(Insert, k, 1, op.attribs);
      EndsClean(t[..k]);
      ProducesInsert(sem, head, t[..k], ps + rest, t[k..], [], d1);
      assert t[..k] + t[k..] == t && [head] + (ps + rest) == [head] + ps + rest;
    }
  }

  lemma {:induction false} AllPiecesProduce(sem: AttrSem, ops: seq<Op>, t: string, d: Doc)
    requires sem.strict && Inserts(ops) && Produces(sem, ops, t, [], d)
    ensures AllPieces(ops, t).Ok? && Produces(sem, AllPieces(ops, t).value, t, [], d) && RunsOk(AllPieces(ops, t).value)
    decreases |ops|
  {
    hide Newlines, Clean, Fresh, Pieces, Run;
    if ops != [] {
      var op := ops[0];
      var e, d' := UnfoldProduces(sem, ops, t, [], d);
      AllPiecesProduce(sem, ops[1..], t[op.chars..], d');
      var rest := AllPieces(ops[1..], t[op.chars..]).value;
      assert t[..op.chars] + t[op.chars..] == t;
      ProducesInsert(sem, op, t[..op.chars], rest, t[op.chars..], [], d');
      PiecesProduce(sem, op, rest, t, d);
      RunsOkConcat(Pieces(op, t).value, rest);
    }
  }

  // ----- the lines cover the lines of the text -----

  /** The operations give the line its attribute strings, and are canonical. */
  ghost predicate LineCover(sem: AttrSem, ops: seq<Op>, line: string, d: Doc) {
    Produces(sem, ops, line, [], d) && RunsOk(ops) && Canonical(ops)
  }

  /** Line by line, the operations give the document its attribute strings; each list is canonical. */
  ghost predicate LinesCover(sem: AttrSem, ls: seq<seq<Op>>, lines: seq<string>, d: Doc)
    decreases |ls|
  {
    if ls == [] then lines == [] && d == []
    else
      && lines != [] && |lines[0]| <= |d|
      && LineCover(sem, ls[0], lines[0], d[..|lines[0]|])
      && LinesCover(sem, ls[1..], lines[1..], d[|lines[0]|..])
  }

  /** Lines that hold at most one newline have no operation with more. */
  lemma {:induction false} FewNewlines(sem: AttrSem, ops: seq<Op>, t: string, d: Doc)
    requires Inserts(ops) && Produces(sem, ops, t, [], d) && Newlines(t) <= 1
    ensures RunsOk(ops)
    decreases |ops|
  {
    hide Newlines, Clean, Fresh, Run;
    if ops != [] {
      var e, d' := UnfoldProduces(sem, ops, t, [], d);
      var k := ops[0].chars;
      NewlinesSplit(t, k);
      FewNewlines(sem, ops[1..], t[k..], d');
    }
  }

  /** One more run merged: what is merged covers its text too. */
  lemma {:induction false} MergeCovers(sem: AttrSem, m: Merger, op: Op, p: string, t: string, dp: Doc, d: Doc)
    requires sem.strict && MergerFine(m) && op.code == Insert && op.chars == |t| > 0 && Fits(sem, op.lines, t)
    requires Produces(sem, Merged(m), p, [], dp)
    requires d == Fresh(sem, op.attribs, t)
    ensures MergerFine(MergeAppend(m, op)) && Produces(sem, Merged(MergeAppend(m, op)), p + t, [], dp + d)
  {
    hide Newlines, Clean, Fresh, Produces, MergerFine, Merged, MergeAppend;
    NothingProducedIn(sem, []);
    ProducesInsert(sem, op, t, [], "", [], []);
    assert [op] + [] == [op] && t + "" == t && d + [] == d;
    RunsConcat(sem, Merged(m), [op], p, t, dp, d);
    assert [op] + [] == [op] && Merged(m) + ([op] + []) == Merged(m) + [op];
    MergeOneProduces(sem, m, op, [], p + t, dp + d);
    assert Merged(MergeAppend(m, op)) + [] == Merged(MergeAppend(m, op));
  }

  /** A full line at the start of a text is its first line. */
  lemma {:induction false} FirstLine(l: string, t: string)
    requires Newlines(l) == 1 && EndsInNewline(l)
    ensures SplitTextLines(l + t) == [l] + SplitTextLines(t)
  {
    FullLineEnd(l, t);
  }

  /** The next run, merged. */
  lemma {:induction false} NextRun(sem: AttrSem, m: Merger, ps: seq<Op>, p: string, t: string, dp: Doc, d: Doc)
    returns (da: Doc, d': Doc)
    requires sem.strict && MergerFine(m) && RunsOk(ps) && ps != []
    requires Produces(sem, Merged(m), p, [], dp) && Produces(sem, ps, t, [], d)
    ensures var (n, k) := (MergeAppend(m, ps[0]), ps[0].chars);
            && 0 < k <= |t| && ps[0].lines <= 1 && RunsOk(ps[1..])
            && Newlines(t[..k]) == ps[0].lines && Newlines(p + t[..k]) == Newlines(p) + ps[0].lines
            && (ps[0].lines > 0 ==> EndsInNewline(p + t[..k]))
            && MergerFine(n) && Produces(sem, Merged(n), p + t[..k], [], dp + da)
            && Produces(sem, ps[1..], t[k..], [], d') && d == da + d'
            && |dp + da| == |p + t[..k]|
  {
    hide Newlines, Fresh, Run, MergerFine, Merged, MergeAppend, RunsOk;
    var op, k := ps[0], ps[0].chars;
    RunsOkTail(ps);
    var e, r := UnfoldProduces(sem, ps, t, [], d);
    da, d' := e.out, r;
    MergeCovers(sem, m, op, p, t[..k], dp, e.out);
    NewlinesConcat(p, t[..k]);
    SameLength(sem, Merged(MergeAppend(m, op)), p + t[..k], dp + e.out);
  }

  lemma {:induction false} OneMoreLine(sem: AttrSem, first: seq<Op>, ls: seq<seq<Op>>, l: string, lines: seq<string>,
          dl: Doc, d: Doc)
    requires |l| == |dl| && LineCover(sem, first, l, dl) && LinesCover(sem, ls, lines, d)
    ensures LinesCover(sem, [first] + ls, [l] + lines, dl + d)
  {
    hide LineCover;
    JoinAndCut(dl, d);
    assert ([first] + ls)[1..] == ls && ([l] + lines)[1..] == lines;
  }

  lemma {:induction false} LinesOfCover(sem: AttrSem, m: Merger, ps: seq<Op>, p: string, t: string, dp: Doc, d: Doc)
    requires sem.strict && MergerFine(m) && RunsOk(ps)
    requires Produces(sem, Merged(m), p, [], dp) && Produces(sem, ps, t, [], d)
    requires Newlines(p) == 0 && (t == "" ==> p == "") && (t != "" ==> EndsInNewline(t))
    ensures LinesCover(sem, LinesOf(m, ps), SplitTextLines(p + t), dp + d)
    decreases |ps|
  {
    hide Newlines, Clean, Fresh, Produces, MergerFine, Merged, MergeAppend, RunsOk, SplitTextLines, Canonical;
    if ps == [] {
      NothingProduced(sem, t, d);
      SameLength(sem, Merged(m), p, dp);
      assert SplitTextLines("") == [] by { SplitClean(""); NewlinesBound(""); }
      assert p + t == "" && dp + d == [];
    } else {
      var k, n := ps[0].chars, MergeAppend(m, ps[0]);
      var da, d' := NextRun(sem, m, ps, p, t, dp, d);
      var q := p + t[..k];
      assert p + t == q + t[k..] && dp + d == (dp + da) + d';
      if ps[0].lines > 0 {
        LineDone(sem, n, q, dp + da);
        NewMergerFine();
        NothingProducedIn(sem, []);
        NewlinesBound("");
        LinesOfCover(sem, NEW_MERGER, ps[1..], "", t[k..], [], d');
        assert "" + t[k..] == t[k..] && [] + d' == d';
        FirstLine(q, t[k..]);
        OneMoreLine(sem, Merged(n), LinesOf(NEW_MERGER, ps[1..]), q, SplitTextLines(t[k..]), dp + da, d');
      } else {
        if t[k..] == "" { NotLast(t, k); }
        LinesOfCover(sem, n, ps[1..], q, t[k..], dp + da, d');
      }
    }
  }

  lemma {:induction false} NotLast(t: string, k: nat)
    requires k <= |t| && EndsInNewline(t) && Newlines(t[..k]) == 0
    ensures t[k..] != ""
  {
    if k == |t| {
      assert t[..k] == t;
      NewlinesBound(t);
    }
  }

  lemma {:induction false} RunsOkTail(ps: seq<Op>)
    requires RunsOk(ps) && ps != []
    ensures ps[0].chars > 0 && ps[0].code == Insert && ps[0].lines <= 1 && RunsOk(ps[1..])
  {}

  lemma {:induction false} LineDone(sem: AttrSem, n: Merger, l: string, d: Doc)
    requires MergerFine(n) && Produces(sem, Merged(n), l, [], d) && Newlines(l) == 1 && sem.strict
    ensures RunsOk(Merged(n)) && Canonical(Merged(n))
  {
    hide Newlines, MergerFine, Canonical, Produces;
    MergedFine(n);
    FewNewlines(sem, Merged(n), l, d);
  }

  // ----- printing and joining -----

  function Concat(ls: seq<seq<Op>>): seq<Op> { if ls == [] then [] else ls[0] + Concat(ls[1..]) }

  lemma {:induction false} CoverConcat(sem: AttrSem, ls: seq<seq<Op>>, lines: seq<string>, d: Doc)
    requires LinesCover(sem, ls, lines, d)
    ensures Produces(sem, Concat(ls), Join(lines), [], d) && RunsOk(Concat(ls)) && |ls| == |lines|
    decreases |ls|
  {
    hide Produces, RunsOk, Canonical;
    if ls == [] {
      NothingProducedIn(sem, []);
      assert RunsOk([]) by { NoRuns(); }
    } else {
      var n := |lines[0]|;
      CoverConcat(sem, ls[1..], lines[1..], d[n..]);
      RunsConcat(sem, ls[0], Concat(ls[1..]), lines[0], Join(lines[1..]), d[..n], d[n..]);
      assert d[..n] + d[n..] == d;
      RunsOkConcat(ls[0], Concat(ls[1..]));
    }
  }

  predicate AllText(ls: seq<seq<Op>>) { forall i :: 0 <= i < |ls| ==> AllAttribText(ls[i]) }

  ghost predicate MergerText(m: Merger) { AllAttribText(m.done) && AttribText(m.buf.attribs) }

  lemma {:induction false} MergeText(m: Merger, op: Op)
    requires MergerText(m) && AttribText(op.attribs)
    ensures MergerText(MergeAppend(m, op)) && AllAttribText(Merged(MergeAppend(m, op)))
  {
    hide AttribText;
  }

  lemma {:induction false} NewMergerText()
    ensures MergerText(NEW_MERGER)
  {
    EmptyAttribText();
  }

  lemma {:induction false} MergeOpsText(m: Merger, ops: seq<Op>)
    requires MergerText(m) && AllAttribText(Merged(m)) && AllAttribText(ops)
    ensures AllAttribText(Merged(MergeOps(m, ops)))
    decreases |ops|
  {
    hide MergerText, AttribText, Merged, MergeAppend;
    if ops != [] {
      MergeText(m, ops[0]);
      MergeOpsText(MergeAppend(m, ops[0]), ops[1..]);
    }
  }

  lemma {:induction false} LinesOfText(m: Merger, ps: seq<Op>)
    requires MergerText(m) && AllAttribText(ps)
    ensures AllText(LinesOf(m, ps))
    decreases |ps|
  {
    hide MergerText, AttribText, Merged, MergeAppend;
    if ps != [] {
      MergeText(m, ps[0]);
      NewMergerText();
      LinesOfText(if ps[0].lines > 0 then NEW_MERGER else MergeAppend(m, ps[0]), ps[1..]);
    }
  }

  lemma {:induction false} PiecesText(op: Op, t: string)
    requires AttribText(op.attribs) && Pieces(op, t).Ok?
    ensures AllAttribText(Pieces(op, t).value)
    decreases op.lines
  {
    hide AttribText, RuneIndex;
    if op.lines > 1 {
      var k := RuneIndex(t, '\n') + 1;
      PiecesText(Op(op.code, if op.chars >= k then op.chars - k else 0, op.lines - 1, op.attribs), t[k..]);
    }
  }

  lemma {:induction false} AllPiecesText(ops: seq<Op>, t: string)
    requires AllAttribText(ops) && AllPieces(ops, t).Ok?
    ensures AllAttribText(AllPieces(ops, t).value)
    decreases |ops|
  {
    hide AttribText, Pieces;
    if ops != [] {
      PiecesText(ops[0], t);
      AllPiecesText(ops[1..], t[Min(ops[0].chars, |t|)..]);
    }
  }

  lemma {:induction false} RunsPrintable(ops: seq<Op>)
    requires Canonical(ops) && AllAttribText(ops)
    ensures AllPrintable(ops)
  {
    hide AttribText, MayFollow;
  }

  /** Printed lines read back. */
  lemma {:induction false} PrintedLines(sem: AttrSem, ls: seq<seq<Op>>, lines: seq<string>, d: Doc)
    requires LinesCover(sem, ls, lines, d) && AllText(ls)
    ensures Flatten(SerializeAll(ls)) == Concat(ls) && |SerializeAll(ls)| == |ls|
    ensures forall i :: 0 <= i < |ls| ==> Deserialize(SerializeAll(ls)[i]) == Ok(ls[i])
    decreases |ls|
  {
    hide Produces, RunsOk, Canonical, AttribText, Deserialize, Serialize, AllAttribText;
    if ls != [] {
      assert AllAttribText(ls[0]);
      RunsPrintable(ls[0]);
      DeserializeSerialize(ls[0]);
      assert AllText(ls[1..]) by { AllTextTail(ls); }
      PrintedLines(sem, ls[1..], lines[1..], d[|lines[0]|..]);
    }
  }

  lemma {:induction false} AllTextTail(ls: seq<seq<Op>>)
    requires AllText(ls) && ls != []
    ensures AllText(ls[1..])
  {
    hide AllAttribText;
    forall i | 0 <= i < |ls[1..]| ensures AllAttribText(ls[1..][i]) { assert AllAttribText(ls[i + 1]); }
  }

  /** An attribution that gives a text its attribute strings, canonical and printed. */
  ghost predicate GivesAttributes(pool: Pool, attribs: string, ops: seq<Op>, text: string, d: Doc) {
    Deserialize(attribs) == Ok(ops) && Inserts(ops) && Produces(Verbatim(true, pool), ops, text, [], d)
  }

  /** What an attribution line gives the line. */
  ghost predicate LineAttributes(pool: Pool, alines: seq<string>, lines: seq<string>, ls: seq<seq<Op>>, d: Doc) {
    && |alines| == |ls| == |lines| && LinesCover(Verbatim(true, pool), ls, lines, d)
    && forall i :: 0 <= i < |ls| ==> Deserialize(alines[i]) == Ok(ls[i])
  }

  /**
    Splitting the attribution of a text that ends with a newline gives one attribution line for each line of the text,
    which gives the line its attribute strings and holds one newline; joining them gives the attribution merged, and
    so the same string if it was merged before.
   */
  lemma {:induction false} SplitJoinAttribution(pool: Pool, attribs: string, ops: seq<Op>, text: string, d: Doc)
    returns (ls: seq<seq<Op>>)
    requires GivesAttributes(pool, attribs, ops, text, d) && (text != "" ==> EndsInNewline(text))
    ensures SplitAttributionLines(attribs, text).Ok?
    ensures var alines := SplitAttributionLines(attribs, text).value;
            && LineAttributes(pool, alines, SplitTextLines(text), ls, d) && AllFull(SplitTextLines(text))
            && JoinAttributionLines(alines) == Serialize(MergeAll(ops))
            && (Canonical(ops) && attribs == Serialize(ops) ==> JoinAttributionLines(alines) == attribs)
  {
    hide Produces, RunsOk, Canonical, AttribText, Deserialize, Serialize, AllAttribText, SplitTextLines, AllPieces,
         LinesOf, MergeAll, LinesCover, Inserts, AllText;
    var sem := Verbatim(true, pool);
    AllPiecesProduce(sem, ops, text, d);
    var ps := AllPieces(ops, text).value;
    NewMergerFine();
    NothingProducedIn(sem, []);
    NewlinesBound("");
    LinesOfCover(sem, NEW_MERGER, ps, "", text, [], d);
    assert "" + text == text && [] + d == d;
    ls := LinesOf(NEW_MERGER, ps);
    SplitClean(text);
    ParsedPrintable(attribs);
    PrintableParts(ops);
    AllPiecesText(ops, text);
    NewMergerText();
    LinesOfText(NEW_MERGER, ps);
    PrintedLines(sem, ls, SplitTextLines(text), d);
    CoverConcat(sem, ls, SplitTextLines(text), d);
    JoinSplit(text);
    MergedSame(pool, Concat(ls), ops, text, d);
  }

  lemma {:induction false} RunsInserts(ops: seq<Op>, sem: AttrSem, t: string, d: Doc)
    requires RunsOk(ops) && Produces(sem, ops, t, [], d)
    ensures Inserts(ops)
    decreases |ops|
  {
    hide Newlines, Clean, Fresh, Run;
    if ops != [] {
      var e, d' := UnfoldProduces(sem, ops, t, [], d);
      RunsInserts(ops[1..], sem, e.bank, d');
    }
  }

  /** Attributions of one document are the same once merged. */
  lemma {:induction false} MergedSame(pool: Pool, a: seq<Op>, b: seq<Op>, t: string, d: Doc)
    requires RunsOk(a) && Produces(Verbatim(true, pool), a, t, [], d)
    requires Inserts(b) && Produces(Verbatim(true, pool), b, t, [], d)
    ensures MergeAll(a) == MergeAll(b) && (Canonical(b) ==> MergeAll(b) == b)
  {
    hide Produces, RunsOk, Canonical, MergeAll, Inserts;
    var sem := Verbatim(true, pool);
    RunsInserts(a, sem, t, d);
    MergeAllProduces(sem, a, t, d);
    MergeAllProduces(sem, b, t, d);
    AttributionUnique(pool, MergeAll(a), MergeAll(b), t, d);
    if Canonical(b) { AttributionUnique(pool, MergeAll(b), b, t, d); }
  }

  // ----- the attribute strings of an attribution do not depend on the pool -----

  lemma {:induction false} FreshAnyPool(p: Pool, q: Pool, a: string, s: string)
    ensures Fresh(Verbatim(true, p), a, s) == Fresh(Verbatim(true, q), a, s)
  {
    if s != "" { FreshAnyPool(p, q, a, s[1..]); }
  }

  lemma {:induction false} RunAnyPool(p: Pool, q: Pool, ops: seq<Op>, bank: string)
    requires RunsOk(ops)
    ensures Run(Verbatim(true, p), ops, bank, []) == Run(Verbatim(true, q), ops, bank, [])
    decreases |ops|
  {
    hide Newlines, Clean, Fresh;
    if ops != [] {
      var n := ops[0].chars;
      if n <= |bank| {
        FreshAnyPool(p, q, ops[0].attribs, bank[..n]);
        RunAnyPool(p, q, ops[1..], bank[n..]);
      }
    }
  }

  lemma {:induction false} CoverAnyPool(p: Pool, q: Pool, ls: seq<seq<Op>>, lines: seq<string>, d: Doc)
    requires LinesCover(Verbatim(true, p), ls, lines, d)
    ensures LinesCover(Verbatim(true, q), ls, lines, d)
    decreases |ls|
  {
    hide Run, RunsOk, Canonical;
    if ls != [] {
      RunAnyPool(p, q, ls[0], lines[0]);
      CoverAnyPool(p, q, ls[1..], lines[1..], d[|lines[0]|..]);
    }
  }
}
