/**
  Splitting and joining attributions: the loops of SplitAttributionLines and JoinAttributionLines in
  lib/changeset/changeset.go.
 */
module AttributionLoops {
  import opened Basics
  import opened Pools
  import opened Ops
  import opened Syntax
  import opened Assemblers
  import opened AssemblerObjects
  import opened Inversion
  import opened InverseLaws
  import opened Attributions
  import Changesets

  lemma {:induction false} MergeOpsConcat(m: Merger, a: seq<Op>, b: seq<Op>)
    ensures MergeOps(m, a + b) == MergeOps(MergeOps(m, a), b)
    decreases |a|
  {
    hide MergeAppend;
    if a == [] {
      assert a + b == b;
    } else {
      assert (a + b)[1..] == a[1..] + b;
      MergeOpsConcat(MergeAppend(m, a[0]), a[1..], b);
    }
  }

  lemma {:induction false} MergeOpsNext(m: Merger, ops: seq<Op>, i: nat)
    requires i < |ops|
    ensures MergeOps(m, ops[..i + 1]) == MergeAppend(MergeOps(m, ops[..i]), ops[i])
  {
    hide MergeAppend;
    assert ops[..i + 1] == ops[..i] + [ops[i]];
    MergeOpsConcat(m, ops[..i], [ops[i]]);
    assert [ops[i]][1..] == [];
  }

  /** Appends operations one by one. */
  method AppendOps(assem: MergingOpAssembler, ops: seq<Op>)
    requires assem.Valid()
    modifies assem
    ensures assem.Valid() && assem.State() == MergeOps(old(assem.State()), ops)
  {
    hide MergeAppend, MergeOps, Serialize;
    ghost var m := assem.State();
    MergeNothing(m);
    assert ops[..0] == [];
    for i := 0 to |ops|
      invariant assem.Valid() && assem.State() == MergeOps(m, ops[..i])
    {
      MergeOpsNext(m, ops, i);
      assem.Append(ops[i]);
    }
    assert ops[..|ops|] == ops;
  }

  lemma {:induction false} MergeNothing(m: Merger)
    ensures MergeOps(m, []) == m
  {}

  lemma {:induction false} FlattenNext(alines: seq<string>, i: nat)
    requires i < |alines|
    ensures Flatten(alines[..i + 1]) == Flatten(alines[..i]) + LineOps(alines[i])
  {
    hide Deserialize;
    if i == 0 {
      assert alines[..1][1..] == [] && [] + LineOps(alines[0]) == LineOps(alines[0]) + [];
    } else {
      assert alines[..i + 1][1..] == alines[1..][..i] && alines[..i][1..] == alines[1..][..i - 1];
      FlattenNext(alines[1..], i - 1);
      assert LineOps(alines[0]) + (Flatten(alines[1..][..i - 1]) + LineOps(alines[i])) ==
             LineOps(alines[0]) + Flatten(alines[1..][..i - 1]) + LineOps(alines[i]);
    }
  }

  /** The attribution of a text from the attributions of its lines. */
  method JoinAttributionLines(theAlines: seq<string>) returns (s: string)
    requires forall i :: 0 <= i < |theAlines| ==> Deserialize(theAlines[i]).Ok?
    ensures s == Attributions.JoinAttributionLines(theAlines)
  {
    hide MergeAppend, MergeOps, Serialize, Deserialize, Flatten, Merged;
    var assem := new MergingOpAssembler();
    MergeNothing(NEW_MERGER);
    assert theAlines[..0] == [];
    assert Flatten([]) == [] by { FlattenNothing(); }
    for i := 0 to |theAlines|
      invariant assem.Valid() && fresh(assem) && assem.State() == MergeOps(NEW_MERGER, Flatten(theAlines[..i]))
    {
      FlattenNext(theAlines, i);
      MergeOpsConcat(NEW_MERGER, Flatten(theAlines[..i]), LineOps(theAlines[i]));
      AppendOps(assem, LineOps(theAlines[i]));
    }
    assert theAlines[..|theAlines|] == theAlines;
    s := assem.String();
  }

  lemma {:induction false} FlattenNothing()
    ensures Flatten([]) == []
  {}

  // ----- splitting -----

  lemma {:induction false} LinesOfConcat(m: Merger, a: seq<Op>, b: seq<Op>)
    ensures LinesOf(m, a + b) == LinesOf(m, a) + LinesOf(AfterPieces(m, a), b)
    decreases |a|
  {
    hide MergeAppend, Merged;
    if a == [] {
      assert a + b == b && [] + LinesOf(m, b) == LinesOf(m, b);
    } else {
      assert (a + b)[1..] == a[1..] + b;
      var x := MergeAppend(m, a[0]);
      var m' := if a[0].lines > 0 then NEW_MERGER else x;
      LinesOfConcat(m', a[1..], b);
      var n := AfterPieces(m, a);
      if a[0].lines > 0 {
        assert [Merged(x)] + (LinesOf(m', a[1..]) + LinesOf(n, b)) == [Merged(x)] + LinesOf(m', a[1..]) + LinesOf(n, b);
      }
    }
  }

  /** What is merged behind the last piece that ended a line. */
  function AfterPieces(m: Merger, ps: seq<Op>): Merger
    decreases |ps|
  {
    if ps == [] then m else AfterPieces(if ps[0].lines > 0 then NEW_MERGER else MergeAppend(m, ps[0]), ps[1..])
  }

  lemma {:induction false} SerializeAllConcat(a: seq<seq<Op>>, b: seq<seq<Op>>)
    ensures SerializeAll(a + b) == SerializeAll(a) + SerializeAll(b)
    decreases |a|
  {
    hide Serialize;
    if a == [] {
      assert a + b == b;
    } else {
      assert (a + b)[1..] == a[1..] + b;
      SerializeAllConcat(a[1..], b);
    }
  }

  /** The lines of one more piece. */
  method AppendPiece(assem: MergingOpAssembler, lines: seq<string>, op: Op) returns (r: seq<string>)
    requires assem.Valid()
    modifies assem
    ensures assem.Valid() && assem.State() == AfterPieces(old(assem.State()), [op])
    ensures r == lines + SerializeAll(LinesOf(old(assem.State()), [op]))
  {
    hide MergeAppend, Serialize, Merged;
    ghost var m := assem.State();
    assert [op][1..] == [];
    r := lines;
    assem.Append(op);
    if op.lines > 0 {
      var s := assem.String();
      assert [Merged(MergeAppend(m, op))] + [] == [Merged(MergeAppend(m, op))]
             && [Merged(MergeAppend(m, op))][1..] == [];
      r := r + [s];
      assem.Clear();
    } else {
      assert lines + [] == lines;
    }
  }

  /** One operation, cut at its newlines. */
  method AppendPieces(assem: MergingOpAssembler, lines: seq<string>, op: Op, text: string)
    returns (r: Result<seq<string>>)
    requires assem.Valid()
    modifies assem
    ensures assem.Valid()
    ensures var ps := Pieces(op, text);
            if ps.Err? then r == Err(ps.error)
            else r == Ok(lines + SerializeAll(LinesOf(old(assem.State()), ps.value)))
                 && assem.State() == AfterPieces(old(assem.State()), ps.value)
    decreases op.lines
  {
    hide MergeAppend, Serialize, Merged, RuneIndex, SerializeAll, LinesOf, AfterPieces;
    if op.lines <= 1 {
      var ls := AppendPiece(assem, lines, op);
      return Ok(ls);
    }
    var relIdx := RuneIndex(text, '\n');
    if !(relIdx >= 0) {
      return Err("newLineEnd <= 0 in splitAttributionLines");
    }
    var k := relIdx + 1;
    ghost var m := assem.State();
    var piece, rest := Op(op.code, k, 1, op.attribs),
        Op(op.code, if op.chars >= k then op.chars - k else 0, op.lines - 1, op.attribs);
    var ls := AppendPiece(assem, lines, piece);
    r := AppendPieces(assem, ls, rest, text[k..]);
    if r.Ok? {
      ghost var ps := Pieces(rest, text[k..]).value;
      PiecesConcat(m, [piece], ps, lines);
    }
  }

  lemma {:induction false} PiecesConcat(m: Merger, a: seq<Op>, b: seq<Op>, lines: seq<string>)
    ensures AfterPieces(m, a + b) == AfterPieces(AfterPieces(m, a), b)
    ensures lines + SerializeAll(LinesOf(m, a)) + SerializeAll(LinesOf(AfterPieces(m, a), b)) ==
            lines + SerializeAll(LinesOf(m, a + b))
  {
    hide MergeAppend, Serialize, Merged;
    LinesOfConcat(m, a, b);
    AfterConcat(m, a, b);
    SerializeAllConcat(LinesOf(m, a), LinesOf(AfterPieces(m, a), b));
  }

  lemma {:induction false} AfterConcat(m: Merger, a: seq<Op>, b: seq<Op>)
    ensures AfterPieces(m, a + b) == AfterPieces(AfterPieces(m, a), b)
    decreases |a|
  {
    hide MergeAppend;
    if a == [] {
      assert a + b == b;
    } else {
      assert (a + b)[1..] == a[1..] + b;
      AfterConcat(if a[0].lines > 0 then NEW_MERGER else MergeAppend(m, a[0]), a[1..], b);
    }
  }

  lemma {:induction false} SliceOn(text: string, pos: nat, n: nat)
    ensures var rest := RuneSlice(text, pos, |text|); RuneSlice(text, pos + n, |text|) == rest[Min(n, |rest|)..]
    ensures RuneSlice(text, 0, |text|) == text
  {
    var rest := RuneSlice(text, pos, |text|);
    var p, q := Min(pos, |text|), Min(pos + n, |text|);
    assert rest == text[p..] && RuneSlice(text, pos + n, |text|) == text[q..] by {
      SliceFrom(text, pos);
      SliceFrom(text, pos + n);
    }
    SliceFrom(text, 0);
    hide RuneSlice;
    var k := Min(n, |rest|);
    assert q == p + k;
    assert text[p..][k..] == text[p + k..];
    assert text[0..] == text;
  }

  lemma {:induction false} SliceFrom(text: string, pos: nat)
    ensures RuneSlice(text, pos, |text|) == text[Min(pos, |text|)..]
  {}

  /** The attribution of each line of a text; what follows the last newline is dropped. */
  method SplitAttributionLines(attrOps: string, text: string) returns (r: Result<seq<string>>)
    ensures r == Attributions.SplitAttributionLines(attrOps, text)
  {
    hide MergeAppend, Serialize, Merged, RuneIndex, SerializeAll, LinesOf, AfterPieces, Deserialize, Pieces, AllPieces,
         RuneSlice, Prepended, MergingOpAssembler.Valid, MergingOpAssembler.State;
    var ops := Deserialize(attrOps);
    if ops.Err? {
      return Err(ops.error);
    }
    var assem := new MergingOpAssembler();
    var lines: seq<string> := [];
    var pos := 0;
    ghost var done: seq<Op> := [];
    StartPieces(ops.value, text);
    for i := 0 to |ops.value|
      invariant assem.Valid() && fresh(assem) && 0 <= pos
      invariant assem.State() == AfterPieces(NEW_MERGER, done) && lines == SerializeAll(LinesOf(NEW_MERGER, done))
      invariant Prepended(done, AllPieces(ops.value[i..], RuneSlice(text, pos, |text|))) == AllPieces(ops.value, text)
    {
      var op, tail := ops.value[i], RuneSlice(text, pos, |text|);
      PiecesUnfold(ops.value, i, text, pos, done);
      var ls := AppendPieces(assem, lines, op, tail);
      if ls.Err? {
        return Err(ls.error);
      }
      ghost var ps := Pieces(op, tail).value;
      MorePieces(done, ps);
      done := done + ps;
      lines := ls.value;
      pos := pos + op.chars;
    }
    EndPieces(done, ops.value, RuneSlice(text, pos, |text|));
    r := Ok(lines);
  }

  lemma {:induction false} MorePieces(a: seq<Op>, b: seq<Op>)
    ensures AfterPieces(NEW_MERGER, a + b) == AfterPieces(AfterPieces(NEW_MERGER, a), b)
    ensures SerializeAll(LinesOf(NEW_MERGER, a)) + SerializeAll(LinesOf(AfterPieces(NEW_MERGER, a), b)) ==
            SerializeAll(LinesOf(NEW_MERGER, a + b))
  {
    hide MergeAppend, Serialize, Merged, SerializeAll, LinesOf, AfterPieces;
    PiecesConcat(NEW_MERGER, a, b, []);
    assert [] + SerializeAll(LinesOf(NEW_MERGER, a)) == SerializeAll(LinesOf(NEW_MERGER, a));
    assert [] + SerializeAll(LinesOf(NEW_MERGER, a + b)) == SerializeAll(LinesOf(NEW_MERGER, a + b));
  }

  function Prepended(done: seq<Op>, r: Result<seq<Op>>): Result<seq<Op>> {
    match r case Err(e) => Err(e) case Ok(ps) => Ok(done + ps)
  }

  lemma {:induction false} StartPieces(ops: seq<Op>, text: string)
    ensures AfterPieces(NEW_MERGER, []) == NEW_MERGER && SerializeAll(LinesOf(NEW_MERGER, [])) == []
    ensures Prepended([], AllPieces(ops[0..], RuneSlice(text, 0, |text|))) == AllPieces(ops, text)
  {
    hide AllPieces;
    assert ops[0..] == ops;
    SliceOn(text, 0, 0);
    var r := AllPieces(ops, text);
    if r.Ok? { assert [] + r.value == r.value; }
  }

  lemma {:induction false} EndPieces(done: seq<Op>, ops: seq<Op>, text: string)
    ensures Prepended(done, AllPieces(ops[|ops|..], text)) == Ok(done)
  {
    assert done + [] == done;
  }

  lemma {:induction false} PiecesUnfold(ops: seq<Op>, i: nat, text: string, pos: nat, done: seq<Op>)
    requires i < |ops|
    ensures var r := Prepended(done, AllPieces(ops[i..], RuneSlice(text, pos, |text|)));
            match Pieces(ops[i], RuneSlice(text, pos, |text|))
            case Err(e) => r == Err(e)
            case Ok(ps) => r == Prepended(done + ps,
                 AllPieces(ops[i + 1..], RuneSlice(text, pos + ops[i].chars, |text|)))
  {
    hide Pieces, RuneSlice;
    var tail := RuneSlice(text, pos, |text|);
    assert ops[i..][1..] == ops[i + 1..];
    SliceOn(text, pos, ops[i].chars);
    match Pieces(ops[i], tail)
    case Err(_) =>
    case Ok(ps) =>
      var rest := AllPieces(ops[i + 1..], RuneSlice(text, pos + ops[i].chars, |text|));
      if rest.Ok? { assert done + (ps + rest.value) == done + ps + rest.value; }
  }
}
