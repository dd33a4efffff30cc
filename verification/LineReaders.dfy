/**
  Inverse of lib/changeset/changeset.go as a procedure: the document is read line by line, each line's runs when
  they are needed.
 */
module LineReaders {
  import opened Basics
  import opened Numerals
  import opened Pools
  import opened Attributes
  import opened UndoAttributes
  import opened Ops
  import opened Syntax
  import opened Assemblers
  import opened Changesets
  import opened Builders
  import opened Lines
  import opened Inversion
  import opened InverseLaws
  import opened TextMutation
  import Rebasing
  import Algebra

  // ----- lengths of runs -----

  function Chars(ops: seq<Op>): nat { if ops == [] then 0 else ops[0].chars + Chars(ops[1..]) }

  lemma {:induction false} CharsConcat(a: seq<Op>, b: seq<Op>)
    ensures Chars(a + b) == Chars(a) + Chars(b)
  {
    if a == [] {
      assert a + b == b;
    } else {
      assert (a + b)[1..] == a[1..] + b;
      CharsConcat(a[1..], b);
    }
  }

  lemma {:induction false} SomeChars(a: seq<Op>)
    requires Chars(a) > 0
    ensures a != []
  {}

  lemma {:induction false} TakeConcat(a: seq<Op>, b: seq<Op>, n: nat)
    requires n <= Chars(a) && RunsOk(a)
    ensures TakeRuns(a + b, n) == Runs(TakeRuns(a, n).taken, TakeRuns(a, n).rest + b)
    ensures RunsOk(TakeRuns(a, n).rest) && Chars(TakeRuns(a, n).rest) == Chars(a) - n
    decreases |a|
  {
    if n > 0 {
      assert (a + b)[1..] == a[1..] + b;
      if n < a[0].chars {
        assert [a[0].(chars := a[0].chars - n)] + (a[1..] + b) == [a[0].(chars := a[0].chars - n)] + a[1..] + b;
        assert TakeRuns(a, n).rest[1..] == a[1..];
      } else {
        TakeConcat(a[1..], b, n - a[0].chars);
      }
    }
  }

  lemma {:induction false} TakeAll(a: seq<Op>)
    requires RunsOk(a)
    ensures TakeRuns(a, Chars(a)).rest == []
  {
    if a != [] { TakeAll(a[1..]); }
  }

  lemma {:induction false} TakeTwice(a: seq<Op>, m: nat, n: nat)
    requires RunsOk(a)
    ensures TakeRuns(TakeRuns(a, m).rest, n).rest == TakeRuns(a, m + n).rest
    decreases |a|
  {
    if a != [] && m > 0 {
      if m < a[0].chars {
        var c := a[0].(chars := a[0].chars - m);
        assert ([c] + a[1..])[1..] == a[1..];
      } else {
        TakeTwice(a[1..], m - a[0].chars, n);
      }
    }
  }

  /** Passing over the first run, or into it. */
  lemma {:induction false} FirstRun(ops: seq<Op>, m: nat)
    requires RunsOk(ops) && ops != [] && m < Chars(ops)
    ensures RunsOk(ops[1..])
    ensures if m <= ops[0].chars
            then TakeRuns(ops, m).rest ==
                 (if m == ops[0].chars then [] else [ops[0].(chars := ops[0].chars - m)]) + ops[1..]
            else TakeRuns(ops, m).rest == TakeRuns(ops[1..], m - ops[0].chars).rest
                 && m - ops[0].chars < Chars(ops[1..])
  {
    hide TakeRuns;
    assert ops == [ops[0]] + ops[1..] && [] + ops[1..] == ops[1..];
    FirstTaken(ops, m);
  }

  lemma {:induction false} FirstTaken(ops: seq<Op>, m: nat)
    requires ops != [] && 0 < ops[0].chars
    ensures if m <= ops[0].chars
            then TakeRuns(ops, m).rest ==
                 (if m == ops[0].chars then [] else [ops[0].(chars := ops[0].chars - m)]) + ops[1..]
            else TakeRuns(ops, m).rest == TakeRuns(ops[1..], m - ops[0].chars).rest
  {
    if m == 0 {
      assert ops[0].(chars := ops[0].chars - 0) == ops[0] && [ops[0]] + ops[1..] == ops;
    } else if m == ops[0].chars {
      assert TakeRuns(ops[1..], 0).rest == ops[1..] && [] + ops[1..] == ops[1..];
    }
  }

  lemma {:induction false} ProducedChars(sem: AttrSem, ops: seq<Op>, t: string, d: Doc)
    requires Produces(sem, ops, t, [], d) && RunsOk(ops)
    ensures Chars(ops) == |t|
    decreases |ops|
  {
    hide Newlines, Fresh, Restyle, Text, Clean;
    if ops != [] {
      var e, d' := UnfoldProduces(sem, ops, t, [], d);
      ProducedChars(sem, ops[1..], e.bank, d');
    }
  }

  lemma {:induction false} LineChars(alines: seq<string>, lines: seq<string>, i: nat)
    requires CoveredBy(alines, lines) && i < |lines|
    ensures Deserialize(alines[i]) == Ok(LineOps(alines[i])) && RunsOk(LineOps(alines[i]))
            && Chars(LineOps(alines[i])) == |lines[i]|
  {
    hide Deserialize, Produces, RunsOk, Plain;
    assert CoversLine(alines[i], lines[i]);
    ProducedChars(Ignore(true), LineOps(alines[i]), lines[i], Plain(lines[i]));
  }

  lemma {:induction false} FlattenChars(alines: seq<string>, lines: seq<string>, i: nat, j: nat)
    requires CoveredBy(alines, lines) && i <= j <= |lines|
    ensures RunsOk(Flatten(alines[i..j])) && Chars(Flatten(alines[i..j])) == |Join(lines[i..j])|
    decreases j - i
  {
    hide CoversLine, Deserialize;
    if i < j {
      LineChars(alines, lines, i);
      FlattenChars(alines, lines, i + 1, j);
      assert alines[i..j][1..] == alines[i + 1..j] && lines[i..j][1..] == lines[i + 1..j];
      CharsConcat(LineOps(alines[i]), Flatten(alines[i + 1..j]));
    }
  }

  lemma {:induction false} FlattenConcat(a: seq<string>, b: seq<string>)
    ensures Flatten(a + b) == Flatten(a) + Flatten(b)
  {
    if a == [] {
      assert a + b == b;
    } else {
      assert (a + b)[1..] == a[1..] + b;
      FlattenConcat(a[1..], b);
    }
  }

  // ----- positions in the document -----

  /** The runs of line `i` from column `col` on. */
  function LineRuns(alines: seq<string>, i: nat, col: nat): seq<Op>
    requires i < |alines|
  {
    TakeRuns(LineOps(alines[i]), col).rest
  }

  /** The runs from column `col` of line `i` to the end of the document. */
  function RunsFrom(alines: seq<string>, i: nat, col: nat): seq<Op> {
    if i < |alines| then LineRuns(alines, i, col) + Flatten(alines[i + 1..]) else []
  }

  lemma {:induction false} LineRunsLeft(alines: seq<string>, lines: seq<string>, i: nat, col: nat)
    requires CoveredBy(alines, lines) && i < |lines| && col <= |lines[i]|
    ensures RunsOk(LineRuns(alines, i, col)) && Chars(LineRuns(alines, i, col)) == |lines[i]| - col
    ensures LineRuns(alines, i, 0) == LineOps(alines[i])
  {
    hide Deserialize, LineOps, CoversLine;
    LineChars(alines, lines, i);
    TakeConcat(LineOps(alines[i]), [], col);
  }

  lemma {:induction false} LineStart(alines: seq<string>, i: nat)
    requires i <= |alines|
    ensures RunsFrom(alines, i, 0) == Flatten(alines[i..])
  {
    hide Deserialize;
    if i < |alines| { assert alines[i..][1..] == alines[i + 1..]; }
  }

  /** The end of a line, where no runs are left of it, is the start of the next line. */
  lemma {:induction false} EndOfLine(alines: seq<string>, lines: seq<string>, i: nat, col: nat)
    requires CoveredBy(alines, lines) && i < |lines| && col <= |lines[i]| && LineRuns(alines, i, col) == []
    ensures RunsFrom(alines, i, col) == RunsFrom(alines, i + 1, 0)
    ensures Inside(Cursor(lines, i, col)) && Inside(Cursor(lines, i + 1, 0))
    ensures Behind(Cursor(lines, i, col)) == Behind(Cursor(lines, i + 1, 0))
  {
    hide Deserialize, LineOps, CoversLine, TakeRuns, RunsOk;
    LineRunsLeft(alines, lines, i, col);
    LineStart(alines, i + 1);
    assert [] + Flatten(alines[i + 1..]) == Flatten(alines[i + 1..]);
    BehindStart(lines, i + 1);
    assert From(lines, i + 1) == lines[i + 1..];
    assert lines[i][col..] == "" && "" + Join(lines[i + 1..]) == Join(lines[i + 1..]);
  }

  /** The runs left of a run once `k` characters of it are read. */
  function LeftOfRun(op: Op, k: nat): seq<Op>
    requires k <= op.chars
  {
    if k == op.chars then [] else [op.(chars := op.chars - k)]
  }

  /** One step of taking runs. */
  lemma {:induction false} RunRead(op: Op, rest: seq<Op>, n: nat)
    requires 0 < n && 0 < op.chars
    ensures var k := Min(n, op.chars);
            var left := TakeRuns(LeftOfRun(op, k) + rest, n - k);
            && TakeRuns([op] + rest, n) ==
               Runs([Stretch(k, op.attribs, k == op.chars && op.lines > 0)] + left.taken, left.rest)
            && TakeRuns([op] + rest, k).rest == LeftOfRun(op, k) + rest
  {
    hide Chars;
    assert ([op] + rest)[1..] == rest && [] + rest == rest;
    var left := LeftOfRun(op, Min(n, op.chars)) + rest;
    if n < op.chars {
      assert TakeRuns(left, 0) == Runs([], left) && left == [op.(chars := op.chars - n)] + rest;
    } else {
      assert left == rest && op.(chars := op.chars).chars == op.chars;
    }
  }

  /** Reading a part of the line moves the text on. */
  lemma {:induction false} TextStep(lines: seq<string>, i: nat, col: nat, k: nat)
    requires i < |lines| && col + k <= |lines[i]|
    ensures Inside(Cursor(lines, i, col)) && Inside(Cursor(lines, i, col + k)) && k <= |Behind(Cursor(lines, i, col))|
    ensures Behind(Cursor(lines, i, col + k)) == Behind(Cursor(lines, i, col))[k..]
  {
    hide Join;
    assert lines[i][col..][k..] == lines[i][col + k..];
  }

  /** Reading the current run, or its first `n` characters, moves the position on. */
  lemma {:induction false} RunStep(alines: seq<string>, lines: seq<string>, i: nat, col: nat, op: Op, rest: seq<Op>,
          n: nat)
    requires CoveredBy(alines, lines) && i < |lines| && col <= |lines[i]| && LineRuns(alines, i, col) == [op] + rest
             && 0 < n
    ensures var k := Min(n, op.chars);
            && 0 < k && col + k <= |lines[i]|
            && LineRuns(alines, i, col + k) == LeftOfRun(op, k) + rest
            && var left := TakeRuns(RunsFrom(alines, i, col + k), n - k);
               TakeRuns(RunsFrom(alines, i, col), n) ==
               Runs([Stretch(k, op.attribs, k == op.chars && op.lines > 0)] + left.taken, left.rest)
  {
    hide Deserialize, LineOps, CoversLine, TakeRuns, Flatten, LeftOfRun;
    assert |alines| == |lines|;
    hide CoveredBy;
    var k, tail := Min(n, op.chars), Flatten(alines[i + 1..]);
    LineRunsLeft(alines, lines, i, col);
    assert ([op] + rest)[0] == op && ([op] + rest)[1..] == rest;
    RunRead(op, rest, n);
    RunRead(op, rest + tail, n);
    LineChars(alines, lines, i);
    TakeTwice(LineOps(alines[i]), col, k);
    assert [op] + (rest + tail) == [op] + rest + tail;
    assert LeftOfRun(op, k) + (rest + tail) == LeftOfRun(op, k) + rest + tail;
  }

  /** Where text follows, a line starts, and it is not empty. */
  lemma {:induction false} SomeLine(lines: seq<string>, i: nat)
    requires LineList(lines) && i <= |lines|
    ensures Inside(Cursor(lines, i, 0))
    ensures Behind(Cursor(lines, i, 0)) != "" ==> i < |lines| && lines[i] != "" && Proper(Cursor(lines, i, 0))
  {
    hide Newlines;
    BehindStart(lines, i);
    assert LineAt(lines, i)[..0] == "";
    assert Newlines("") == 0 by { NewlinesBound(""); }
    if i < |lines| && lines[i] == "" {
      assert !FullLine(lines[i]) && i == |lines| - 1;
      assert lines[i + 1..] == [];
    }
  }

  lemma {:induction false} WithinLine(lines: seq<string>, i: nat, col: nat)
    requires LineList(lines) && i < |lines| && col < |lines[i]|
    ensures Proper(Cursor(lines, i, col))
  {
    hide Newlines;
    var l := lines[i];
    assert IsLine(l);
    NewlinesSplit(l, col);
    NewlinesBound(l[col..]);
    if EndsInNewline(l) { assert l[col..][|l| - col - 1] == '\n'; }
  }

  lemma {:induction false} NotAtEnd(lines: seq<string>, i: nat, col: nat)
    requires Proper(Cursor(lines, i, col)) && Behind(Cursor(lines, i, col)) != ""
    ensures i < |lines| && col < |lines[i]|
  {
    hide Newlines;
    if i < |lines| && col == |lines[i]| {
      assert lines[i][col..] == "" && !FullLine("");
      RestOfLine(Cursor(lines, i, col));
    }
  }

  lemma {:induction false} SkipCharsRuns(alines: seq<string>, lines: seq<string>, i: nat, col: nat, n: nat)
    requires CoveredBy(alines, lines) && i < |lines| && col + n <= |lines[i]|
    ensures RunsFrom(alines, i, col + n) == TakeRuns(RunsFrom(alines, i, col), n).rest
  {
    hide Deserialize, LineOps, CoversLine, TakeRuns, Flatten;
    LineRunsLeft(alines, lines, i, col);
    LineChars(alines, lines, i);
    TakeTwice(LineOps(alines[i]), col, n);
    TakeConcat(LineRuns(alines, i, col), Flatten(alines[i + 1..]), n);
  }

  lemma {:induction false} SkipLinesRuns(alines: seq<string>, lines: seq<string>, i: nat, col: nat, l: nat, n: nat)
    requires CoveredBy(alines, lines) && l > 0 && i + l <= |lines| && col <= |lines[i]|
    requires n == |lines[i][col..]| + |Join(lines[i + 1..i + l])|
    ensures RunsFrom(alines, i + l, 0) == TakeRuns(RunsFrom(alines, i, col), n).rest
  {
    hide Deserialize, LineOps, CoversLine, TakeRuns, Flatten, Join;
    LineRunsLeft(alines, lines, i, col);
    FlattenChars(alines, lines, i + 1, i + l);
    var a, b, c := LineRuns(alines, i, col), Flatten(alines[i + 1..i + l]), Flatten(alines[i + l..]);
    assert alines[i + 1..] == alines[i + 1..i + l] + alines[i + l..];
    FlattenConcat(alines[i + 1..i + l], alines[i + l..]);
    CharsConcat(a, b);
    RunsOkConcat(a, b);
    assert a + (b + c) == (a + b) + c;
    TakeConcat(a + b, c, n);
    TakeAll(a + b);
    LineStart(alines, i + l);
    assert [] + c == c;
  }

  /** The runs ahead are those of the text ahead. */
  lemma {:induction false} RunsOfText(alines: seq<string>, lines: seq<string>, i: nat, col: nat)
    requires CoveredBy(alines, lines) && Inside(Cursor(lines, i, col))
    ensures Chars(RunsFrom(alines, i, col)) == |Behind(Cursor(lines, i, col))|
  {
    hide Deserialize, TakeRuns, LineOps, CoversLine, Join, RunsOk, Flatten, LineRuns;
    if i < |lines| {
      hide Chars;
      LineRunsLeft(alines, lines, i, col);
      FlattenChars(alines, lines, i + 1, |lines|);
      assert alines[i + 1..|lines|] == alines[i + 1..] && lines[i + 1..|lines|] == From(lines, i + 1);
      CharsConcat(LineRuns(alines, i, col), Flatten(alines[i + 1..]));
    } else {
      assert From(lines, i + 1) == [] && Join([]) == "" by {
        NothingLeft(lines, |lines|);
        assert lines[|lines|..] == [];
      }
    }
  }

  lemma {:induction false} NothingLeft(lines: seq<string>, i: nat)
    requires i <= |lines|
    ensures i == |lines| ==> Join(lines[i..]) == ""
  {}

  lemma {:induction false} NextLineText(lines: seq<string>, i: nat, r: string)
    requires i < |lines|
    ensures r + Join(lines[i..]) == r + lines[i] + Join(lines[i + 1..])
  {
    assert lines[i..][1..] == lines[i + 1..];
    assert r + (lines[i] + Join(lines[i + 1..])) == r + lines[i] + Join(lines[i + 1..]);
  }

  lemma {:induction false} TakeNothing(att: seq<Op>)
    ensures TakeRuns(att, 0) == Runs([], att)
  {}

  // ----- the reader -----

  /** The run at column `column`, without its characters before that column, and the index of the run behind it. */
  method Seek(ops: seq<Op>, column: nat) returns (op: Op, next: nat)
    requires RunsOk(ops) && column < Chars(ops)
    ensures next <= |ops|
    ensures (if op.chars == 0 then [] else [op]) + ops[next..] == TakeRuns(ops, column).rest
  {
    hide RunsOk, TakeRuns, Chars;
    next, op := 0, NO_OP;
    var indexIntoLine := 0;
    assert ops[0..] == ops;
    SomeChars(ops);
    while next < |ops|
      invariant next < |ops| && RunsOk(ops[next..])
      invariant indexIntoLine <= column && column - indexIntoLine < Chars(ops[next..])
      invariant TakeRuns(ops, column).rest == TakeRuns(ops[next..], column - indexIntoLine).rest
      decreases |ops| - next
    {
      FirstRun(ops[next..], column - indexIntoLine);
      assert ops[next..][1..] == ops[next + 1..];
      op := ops[next];
      next := next + 1;
      if indexIntoLine + op.chars >= column {
        op := op.(chars := op.chars - (column - indexIntoLine));
        break;
      }
      indexIntoLine := indexIntoLine + op.chars;
      SomeChars(ops[next..]);
    }
  }

  class LineReader {
    const lines: seq<string>
    const alines: seq<string>
    var curLine: nat
    var curChar: nat
    // the runs of a line, the number of that line, the next run of it, and the run being read
    var curLineOps: Option<seq<Op>>
    var curLineOpsLine: int
    var curLineOpsNext: nat
    var curLineNextOp: Op

    /** The current line's runs are being read. */
    ghost predicate Loaded()
      reads this
    {
      curLineOps.Some? && curLineOpsLine == curLine
    }

    ghost predicate Valid()
      reads this
    {
      && LineList(lines) && CoveredBy(alines, lines) && |alines| == |lines|
      && curLine <= |lines| && curChar <= |LineAt(lines, curLine)| && curLineOpsLine <= curLine
      && (Loaded() ==>
            && curLine < |lines| && curLineOpsNext <= |curLineOps.value|
            && LineRuns(alines, curLine, curChar) ==
               (if curLineNextOp.chars == 0 then [] else [curLineNextOp]) + curLineOps.value[curLineOpsNext..])
    }

    /** The runs that are still to be read. */
    ghost function Ahead(): seq<Op>
      reads this
    {
      RunsFrom(alines, curLine, curChar)
    }

    /** The text that is still to be read. */
    ghost function TextAhead(): string
      requires Valid()
      reads this
    {
      Behind(Cursor(lines, curLine, curChar))
    }

    constructor (lines: seq<string>, alines: seq<string>)
      requires LineList(lines) && CoveredBy(alines, lines)
      ensures Valid() && AtRest() && Ahead() == Flatten(alines) && TextAhead() == Join(lines)
      ensures this.lines == lines && this.alines == alines
    {
      this.lines, this.alines := lines, alines;
      curLine, curChar := 0, 0;
      curLineOps, curLineOpsLine, curLineOpsNext := None, -1, 0;
      curLineNextOp := Op(Insert, 0, 0, "");
      new;
      BehindStart(lines, 0);
      LineStart(alines, 0);
      assert lines[0..] == lines && alines[0..] == alines;
      if lines != [] { assert LineAt(lines, 0)[..0] == ""; }
    }

    /** Where text is ahead, the cursor is not behind the newline of its line. */
    ghost predicate AtRest()
      requires Valid()
      reads this
    {
      TextAhead() != "" ==> Proper(Cursor(lines, curLine, curChar))
    }

    /** Finds the run at the current column of the current line. */
    method Load()
      requires Valid() && curLine < |lines| && curChar < |lines[curLine]|
      modifies `curLineOps, `curLineOpsLine, `curLineOpsNext, `curLineNextOp
      ensures Valid() && Loaded()
    {
      hide CoveredBy, LineList, Deserialize, Chars, RunsOk, TakeRuns, LineOps, Flatten, Behind, LineAt;
      LineChars(alines, lines, curLine);
      var ops := LineOps(alines[curLine]);
      curLineOps := Some(ops);
      curLineOpsLine := curLine;
      curLineNextOp, curLineOpsNext := Seek(ops, curChar);
    }

    /** Goes on to the next line and reads its runs. */
    method NextLine()
      requires Valid() && Loaded() && curLineNextOp.chars == 0 && curLineOpsNext == |curLineOps.value|
               && TextAhead() != ""
      modifies this
      ensures Valid() && Loaded() && Ahead() == old(Ahead()) && TextAhead() == old(TextAhead())
      ensures curLineOpsNext < |curLineOps.value|
    {
      hide CoveredBy, LineList, Deserialize, RunsOk, LineOps, TakeRuns, Flatten, Behind, RunsFrom;
      EndOfLine(alines, lines, curLine, curChar);
      SomeLine(lines, curLine + 1);
      curLine := curLine + 1;
      curChar := 0;
      curLineOpsLine := curLine;
      curLineNextOp := NO_OP;
      curLineOps := Some(LineOps(alines[curLine]));
      curLineOpsNext := 0;
      LineRunsLeft(alines, lines, curLine, 0);
      assert curLineOps.value[0..] == curLineOps.value && [] + curLineOps.value == curLineOps.value;
    }

    /** Reads the current run, or the first `n` characters of it. */
    method ReadRun(n: nat) returns (s: Stretch)
      requires Valid() && Loaded() && 0 < n && (curLineNextOp.chars == 0 ==> curLineOpsNext < |curLineOps.value|)
      modifies this
      ensures Valid() && Loaded() && 0 < s.chars <= n && s.chars <= |old(TextAhead())|
      ensures var left := TakeRuns(Ahead(), n - s.chars); TakeRuns(old(Ahead()), n) == Runs([s] + left.taken, left.rest)
      ensures TextAhead() == old(TextAhead())[s.chars..]
    {
      hide CoveredBy, LineList, Deserialize, LineOps, Flatten, TakeRuns, Behind, RunsFrom, LineRuns;
      LineRunsLeft(alines, lines, curLine, curChar);
      ghost var runs := LineRuns(alines, curLine, curChar);
      if curLineNextOp.chars == 0 {
        curLineNextOp := curLineOps.value[curLineOpsNext];
        curLineOpsNext := curLineOpsNext + 1;
      }
      ghost var op, rest := curLineNextOp, curLineOps.value[curLineOpsNext..];
      assert runs == [op] + rest;
      assert runs[0].chars > 0;
      RunStep(alines, lines, curLine, curChar, op, rest, n);
      var charsToUse := Min(n, curLineNextOp.chars);
      TextStep(lines, curLine, curChar, charsToUse);
      s := Stretch(charsToUse, curLineNextOp.attribs, charsToUse == curLineNextOp.chars && curLineNextOp.lines > 0);
      curLineNextOp := curLineNextOp.(chars := curLineNextOp.chars - charsToUse);
      curChar := curChar + charsToUse;
    }

    /** Once all runs of a line are read, the next line is the current one. */
    method EndLine()
      requires Valid() && Loaded()
      modifies this
      ensures Valid() && AtRest() && Ahead() == old(Ahead()) && TextAhead() == old(TextAhead())
    {
      hide CoveredBy, Deserialize, LineOps, TakeRuns, Flatten, Behind, RunsFrom, LineRuns;
      LineRunsLeft(alines, lines, curLine, curChar);
      if curLineNextOp.chars == 0 && curLineOpsNext >= |curLineOps.value| {
        EndOfLine(alines, lines, curLine, curChar);
        curLine := curLine + 1;
        curChar := 0;
        SomeLine(lines, curLine);
      } else {
        WithinLine(lines, curLine, curChar);
      }
    }

    method ReadRuns(numChars: nat) returns (taken: seq<Stretch>)
      requires Valid() && Loaded() && numChars <= |TextAhead()|
      modifies this
      ensures Valid() && Loaded()
      ensures taken == TakeRuns(old(Ahead()), numChars).taken && Ahead() == TakeRuns(old(Ahead()), numChars).rest
      ensures TextAhead() == old(TextAhead())[numChars..]
    {
      hide CoveredBy, LineList, Deserialize, Chars, RunsOk, LineOps, Flatten, Behind, LineAt, RunsFrom, LineRuns,
           TakeRuns;
      ghost var all, text := TakeRuns(Ahead(), numChars), TextAhead();
      taken := [];
      var n: nat := numChars;
      assert [] + all.taken == all.taken && text[0..] == text;
      while n > 0
        invariant Valid() && Loaded() && n <= numChars && n <= |TextAhead()|
        invariant taken + TakeRuns(Ahead(), n).taken == all.taken && TakeRuns(Ahead(), n).rest == all.rest
        invariant TextAhead() == text[numChars - n..]
      {
        if curLineNextOp.chars == 0 && curLineOpsNext >= |curLineOps.value| {
          NextLine();
        }
        var s := ReadRun(n);
        assert taken + ([s] + TakeRuns(Ahead(), n - s.chars).taken) ==
               taken + [s] + TakeRuns(Ahead(), n - s.chars).taken;
        assert text[numChars - n..][s.chars..] == text[numChars - n + s.chars..];
        taken := taken + [s];
        n := n - s.chars;
      }
      TakeNothing(Ahead());
    }

    /** Reads the runs of the next `numChars` characters. */
    method ConsumeAttribRuns(numChars: nat) returns (taken: seq<Stretch>)
      requires Valid() && AtRest() && 0 < numChars <= |TextAhead()|
      modifies this
      ensures Valid() && AtRest()
      ensures taken == TakeRuns(old(Ahead()), numChars).taken && Ahead() == TakeRuns(old(Ahead()), numChars).rest
      ensures TextAhead() == old(TextAhead())[numChars..]
    {
      hide CoveredBy, LineList, Deserialize, Chars, RunsOk, LineOps, Flatten, Behind, RunsFrom, Proper, LineRuns,
           TakeRuns;
      if curLineOps.None? || curLineOpsLine != curLine {
        NotAtEnd(lines, curLine, curChar);
        Load();
      }
      taken := ReadRuns(numChars);
      EndLine();
    }

    /** Passes over `n` characters with `l` newlines, the last of them at the end. */
    method Skip(n: nat, l: int)
      requires Valid() && AtRest() && 0 < n <= |TextAhead()|
      requires l == Newlines(TextAhead()[..n]) && Clean(TextAhead()[..n])
      modifies this
      ensures Valid() && AtRest()
      ensures Ahead() == TakeRuns(old(Ahead()), n).rest && TextAhead() == old(TextAhead())[n..]
    {
      hide Newlines, CoveredBy, LineList, Deserialize, Chars, RunsOk, LineOps, Flatten, Behind, RunsFrom, Proper,
           LineRuns, TakeRuns, Join;
      ghost var c := Cursor(lines, curLine, curChar);
      NotAtEnd(lines, curLine, curChar);
      if l > 0 {
        SkipLinesText(c, n, l);
        LinesFit(c, n, l);
        SkipLinesRuns(alines, lines, curLine, curChar, l, n);
        SkippedInside(c, l);
        curLine := curLine + l;
        curChar := 0;
        curLineOps := None;
        curLineNextOp := NO_OP;
      } else if curLineOps.Some? && curLineOpsLine == curLine {
        var _ := ConsumeAttribRuns(n);
      } else {
        SkipCharsText(c, n);
        CharsFit(c, n);
        SkipCharsRuns(alines, lines, curLine, curChar, n);
        curChar := curChar + n;
      }
    }

    /** The next `numChars` characters of the text. */
    method NextText(numChars: nat) returns (r: string)
      requires Valid() && AtRest() && 0 < numChars <= |TextAhead()|
      ensures r == TextAhead()[..numChars]
    {
      hide Newlines, CoveredBy, Deserialize, RunsOk, LineOps, Flatten, RunsFrom, Proper, LineRuns, TakeRuns, LineList;
      NotAtEnd(lines, curLine, curChar);
      if |lines| == 0 {
        return "";
      }
      ghost var ahead := TextAhead();
      r := lines[curLine][curChar..];
      var lineNum := curLine + 1;
      assert r + Join(lines[lineNum..]) == ahead;
      hide LineReader.Valid, LineReader.AtRest, LineReader.TextAhead, Join;
      while |r| < numChars
        invariant curLine < lineNum <= |lines| && r + Join(lines[lineNum..]) == ahead
        decreases |lines| - lineNum
      {
        NothingLeft(lines, lineNum);
        assert |r + Join(lines[lineNum..])| == |ahead|;
        NextLineText(lines, lineNum, r);
        r := r + lines[lineNum];
        lineNum := lineNum + 1;
      }
      r := r[..numChars];
    }
  }

  lemma {:induction false} SkippedInside(c: Cursor, l: nat)
    requires Proper(SkipLines(c, l))
    ensures c.line + l <= |c.lines|
  {}

  // ----- the procedure -----

  /** The operations fit what is ahead. */
  ghost predicate Fitting(ops: seq<Op>, bank: string, text: string) {
    FitsText(ops, bank, text) && Rebasing.Positive(ops)
  }

  lemma {:induction false} FittingStep(ops: seq<Op>, bank: string, text: string)
    requires Fitting(ops, bank, text) && ops != []
    ensures ops[0].chars > 0 && ops[0].lines >= 0 && ops[0].code != Nop
    ensures ops[0].code == Insert ==> Fitting(ops[1..], BankAfter(ops[0], bank), text)
    ensures ops[0].code != Insert ==>
              && ops[0].chars <= |text| && Newlines(text[..ops[0].chars]) == ops[0].lines && Clean(text[..ops[0].chars])
              && Fitting(ops[1..], bank, text[ops[0].chars..])
  {
    hide Newlines, Clean;
  }

  /** The keeps that take one attribute change back. */
  method UndoAttribs(builder: Builder, runs: seq<Stretch>, change: AttribMap, pool: Pool, order: Order, n: nat)
    returns (p: Pool)
    requires builder.Valid()
    modifies builder.Repr()
    ensures builder.Valid() && builder.charBank == old(builder.charBank)
    ensures builder.ops == old(builder.ops) + UndoKeep(runs, change, pool, order, n).0
            && p == UndoKeep(runs, change, pool, order, n).1
  {
    hide Back, AppendAll, Newlines, UndoKeep, Builder.Valid;
    p := pool;
    ghost var all := UndoKeep(runs, change, pool, order, n);
    assert runs[0..] == runs && builder.ops + all.0 == old(builder.ops) + all.0;
    for i := 0 to |runs|
      invariant builder.Valid() && builder.charBank == old(builder.charBank)
      invariant builder.ops + UndoKeep(runs[i..], change, p, order, n + i).0 == old(builder.ops) + all.0
      invariant UndoKeep(runs[i..], change, p, order, n + i).1 == all.1
    {
      ghost var before, rest := builder.ops, UndoKeep(runs[i..], change, p, order, n + i).0;
      assert runs[i..][1..] == runs[i + 1..];
      UndoKeepStep(runs[i..], change, p, order, n + i);
      var (back, q) := Back(change, runs[i].attribs, p, order, n + i);
      builder.Keep(runs[i].chars, if runs[i].endsLine then 1 else 0, back);
      p := q;
      assert builder.ops + rest[1..] == before + rest;
    }
    assert runs[|runs|..] == [];
    UndoKeepEnds(change, p, order, n + |runs|);
    assert builder.ops + [] == builder.ops;
  }

  lemma {:induction false} UndoKeepStep(ss: seq<Stretch>, change: AttribMap, pool: Pool, order: Order, n: nat)
    requires ss != []
    ensures var (a, p) := Back(change, ss[0].attribs, pool, order, n);
            var (ops, q) := UndoKeep(ss[1..], change, p, order, n + 1);
            UndoKeep(ss, change, pool, order, n) ==
                ([Op(Keep, ss[0].chars, if ss[0].endsLine then 1 else 0, a)] + ops, q)
  {
    hide Back;
  }

  lemma {:induction false} UndoKeepEnds(change: AttribMap, pool: Pool, order: Order, n: nat)
    ensures UndoKeep([], change, pool, order, n) == ([], pool)
  {}

  lemma {:induction false} UndoTextStep(runs: seq<Stretch>, i: nat, text: string, idx: nat)
    requires i < |runs| && idx <= |text| && Covered(runs[i..], text[idx..])
    ensures var k := runs[i].chars;
            && idx + k <= |text| && Covered(runs[i + 1..], text[idx + k..])
            && UndoDelete(runs[i..], text[idx..]) ==
               OpsFromText(Insert, text[idx..idx + k], runs[i].attribs) + UndoDelete(runs[i + 1..], text[idx + k..])
            && text[..idx] + text[idx..idx + k] == text[..idx + k]
  {
    hide OpsFromText;
    var t, k := text[idx..], runs[i].chars;
    assert runs[i..][1..] == runs[i + 1..];
    assert t[..k] == text[idx..idx + k] && t[k..] == text[idx + k..];
  }

  lemma {:induction false} UndoTextEnds(text: string, idx: nat)
    requires idx <= |text|
    ensures UndoDelete([], text[idx..]) == [] && (Covered([], text[idx..]) ==> text[..idx] == text)
  {}

  /** The insertions that bring deleted text back. */
  method UndoText(builder: Builder, runs: seq<Stretch>, text: string)
    requires builder.Valid()
    requires Covered(runs, text)
    modifies builder.Repr()
    ensures builder.Valid() && builder.charBank == old(builder.charBank) + text
    ensures builder.ops == old(builder.ops) + UndoDelete(runs, text)
  {
    hide AppendAll, OpsFromText, UndoDelete, Covered;
    var textBankIndex := 0;
    ghost var all := UndoDelete(runs, text);
    assert runs[0..] == runs && text[0..] == text && text[..0] == "" && builder.charBank + "" == builder.charBank;
    for i := 0 to |runs|
      invariant builder.Valid() && 0 <= textBankIndex <= |text| && Covered(runs[i..], text[textBankIndex..])
      invariant builder.charBank == old(builder.charBank) + text[..textBankIndex]
      invariant builder.ops + UndoDelete(runs[i..], text[textBankIndex..]) == old(builder.ops) + all
    {
      UndoTextStep(runs, i, text, textBankIndex);
      var next := textBankIndex + runs[i].chars;
      builder.Insert(text[textBankIndex..next], runs[i].attribs);
      textBankIndex := next;
    }
    assert runs[|runs|..] == [];
    UndoTextEnds(text, textBankIndex);
  }

  /** The stretches are as long as the text. */
  predicate Covered(runs: seq<Stretch>, text: string) {
    if runs == [] then text == "" else runs[0].chars <= |text| && Covered(runs[1..], text[runs[0].chars..])
  }

  lemma {:induction false} TakenCovers(att: seq<Op>, n: nat, text: string)
    requires n <= Chars(att) && n == |text|
    ensures Covered(TakeRuns(att, n).taken, text)
    decreases |att|
  {
    if n > 0 && n >= att[0].chars { TakenCovers(att[1..], n - att[0].chars, text[att[0].chars..]); }
  }

  // ----- one operation -----

  /** What undoing one operation writes, and where it leaves the reading. */
  datatype Undoing = Undoing(ops: seq<Op>, bank: string, att: seq<Op>, text: string, pool: Pool, n: nat)

  function UndoOp(op: Op, att: seq<Op>, text: string, pool: Pool, order: Order, n: nat): Undoing {
    var k, r := Min(op.chars, |text|), TakeRuns(att, op.chars);
    var l := if op.lines > 0 then op.lines else 0;
    match op.code
    case Nop => Undoing([], "", att, text, pool, n)
    case Insert => Undoing([Op(Delete, op.chars, l, "")], "", att, text, pool, n)
    case Delete => Undoing(UndoDelete(r.taken, text[..k]), text[..k], r.rest, text[k..], pool, n)
    case Keep =>
      if op.attribs == "" then Undoing([Op(Keep, op.chars, l, "")], "", r.rest, text[k..], pool, n)
      else
        var p := UpdatePool(AttribsFromString(op.attribs, pool), false, pool);
        var (keeps, q) := UndoKeep(r.taken, FromString(op.attribs, pool), p, order, n);
        Undoing(keeps, "", r.rest, text[k..], q, n + |r.taken|)
  }

  lemma {:induction false} UndoUnfold(ops: seq<Op>, att: seq<Op>, text: string, pool: Pool, order: Order, n: nat)
    requires ops != []
    ensures var s := UndoOp(ops[0], att, text, pool, order, n);
            var u := Undo(ops[1..], s.att, s.text, s.pool, order, s.n);
            Undo(ops, att, text, pool, order, n) == Undone(s.ops + u.ops, s.bank + u.bank, u.pool)
  {
    hide TakeRuns, UndoKeep, UndoDelete, UpdatePool, FromString, AttribsFromString;
    var s := UndoOp(ops[0], att, text, pool, order, n);
    var u := Undo(ops[1..], s.att, s.text, s.pool, order, s.n);
    assert [] + u.ops == u.ops && "" + u.bank == u.bank;
  }

  /** Undoes one operation: reads what it passes over and writes what takes it back. */
  method UndoOne(reader: LineReader, builder: Builder, op: Op, pool: Pool, order: Order, n: nat)
    returns (p: Pool, m: nat)
    requires reader.Valid() && reader.AtRest() && builder.Valid() && reader !in builder.Repr()
    requires op.chars > 0 && op.lines >= 0 && op.code != Nop
    requires op.code != Insert ==>
               && op.chars <= |reader.TextAhead()| && Newlines(reader.TextAhead()[..op.chars]) == op.lines
               && Clean(reader.TextAhead()[..op.chars])
    requires Chars(reader.Ahead()) == |reader.TextAhead()|
    modifies reader, builder.Repr()
    ensures reader.Valid() && reader.AtRest() && builder.Valid()
    ensures var s := UndoOp(op, old(reader.Ahead()), old(reader.TextAhead()), pool, order, n);
            && builder.ops == old(builder.ops) + s.ops && builder.charBank == old(builder.charBank) + s.bank
            && reader.Ahead() == s.att && reader.TextAhead() == s.text && p == s.pool && m == s.n
  {
    hide Newlines, Clean, CoveredBy, LineList, Proper, TakeRuns, UndoKeep, UndoDelete, UpdatePool, FromString,
         AttribsFromString, AppendAll, RunsFrom, Behind, LineRuns;
    p, m := pool, n;
    ghost var att, text := reader.Ahead(), reader.TextAhead();
    assert builder.charBank + "" == builder.charBank;
    if op.code == Keep {
      if op.attribs != "" {
        var change := FromString(op.attribs, p);
        p := UpdatePool(AttribsFromString(op.attribs, p), false, p);
        var runs := reader.ConsumeAttribRuns(op.chars);
        p := UndoAttribs(builder, runs, change, p, order, n);
        m := n + |runs|;
      } else {
        reader.Skip(op.chars, op.lines);
        builder.Keep(op.chars, op.lines, "");
      }
    } else if op.code == Insert {
      builder.Remove(op.chars, op.lines);
    } else {
      var textBank := reader.NextText(op.chars);
      TakenCovers(att, op.chars, textBank);
      var runs := reader.ConsumeAttribRuns(op.chars);
      UndoText(builder, runs, textBank);
    }
  }

  /** Undoes all operations in order. */
  method UndoAll(reader: LineReader, builder: Builder, ops: seq<Op>, pool: Pool, order: Order, ghost bank: string)
    returns (p: Pool)
    requires reader.Valid() && reader.AtRest() && builder.Valid() && reader !in builder.Repr()
    requires Fitting(ops, bank, reader.TextAhead()) && builder.ops == [] && builder.charBank == ""
    modifies reader, builder.Repr()
    ensures builder.Valid()
    ensures Undone(builder.ops, builder.charBank, p) ==
            Undo(ops, old(reader.Ahead()), old(reader.TextAhead()), pool, order, 0)
  {
    hide Newlines, Clean, CoveredBy, LineList, Proper, TakeRuns, UndoOp, Undo, AppendAll, RunsFrom, Behind, LineRuns,
         Fitting, Chars, LineAt;
    hide LineReader.AtRest, Builder.Valid;
    p := pool;
    var n := 0;
    ghost var all := Undo(ops, reader.Ahead(), reader.TextAhead(), pool, order, 0);
    ghost var rest := bank;
    assert ops[0..] == ops && [] + all.ops == all.ops && "" + all.bank == all.bank;
    for i := 0 to |ops|
      invariant reader.Valid() && reader.AtRest() && builder.Valid()
      invariant Fitting(ops[i..], rest, reader.TextAhead())
      invariant var u := Undo(ops[i..], reader.Ahead(), reader.TextAhead(), p, order, n);
                builder.ops + u.ops == all.ops && builder.charBank + u.bank == all.bank && u.pool == all.pool
    {
      ghost var att, text, was := reader.Ahead(), reader.TextAhead(), builder.ops;
      ghost var s := UndoOp(ops[i], att, text, p, order, n);
      assert ops[i..][1..] == ops[i + 1..] && ops[i..][0] == ops[i];
      FittingStep(ops[i..], rest, text);
      UndoUnfold(ops[i..], att, text, p, order, n);
      RunsOfText(reader.alines, reader.lines, reader.curLine, reader.curChar);
      UndoneText(ops[i], att, text, p, order, n);
      rest := if ops[i].code == Insert then BankAfter(ops[i], rest) else rest;
      ghost var bankWas := builder.charBank;
      p, n := UndoOne(reader, builder, ops[i], p, order, n);
      ghost var u := Undo(ops[i + 1..], s.att, s.text, s.pool, order, s.n);
      assert was + (s.ops + u.ops) == was + s.ops + u.ops && bankWas + (s.bank + u.bank) == bankWas + s.bank + u.bank;
    }
    assert ops[|ops|..] == [];
    UndoNothing(reader.Ahead(), reader.TextAhead(), p, order, n);
    assert builder.ops + [] == builder.ops && builder.charBank + "" == builder.charBank;
  }

  lemma {:induction false} UndoneText(op: Op, att: seq<Op>, text: string, pool: Pool, order: Order, n: nat)
    requires op.code != Nop
    ensures UndoOp(op, att, text, pool, order, n).text == if op.code == Insert then text
            else text[Min(op.chars, |text|)..]
  {
    hide TakeRuns, UndoKeep, UndoDelete, UpdatePool, FromString, AttribsFromString;
  }

  lemma {:induction false} UndoNothing(att: seq<Op>, text: string, pool: Pool, order: Order, n: nat)
    ensures Undo([], att, text, pool, order, n) == Undone([], "", pool)
  {}

  /** The changeset that undoes `cs` on the document of `lines` and `alines`, before it is checked. */
  method BuildInverse(cs: string, lines: seq<string>, alines: seq<string>, pool: Pool, order: Order)
    returns (s: string, p: Pool)
    requires WellFormed(cs, Join(lines)) && LineList(lines) && CoveredBy(alines, lines)
    ensures (s, p) == Unchecked(cs, lines, alines, pool, order)
  {
    hide Unpack, CheckRep, Undo, Fitting, Pack, Serialize, Assemble, LengthChange, Flatten, Join, WellFormed, CoveredBy,
         LineList, OpsOf, AppendAll;
    hide Behind, RunsFrom, LineRuns, TakeRuns, LineAt, Proper, Newlines, Deserialize, NumToString, Inside;
    var unpacked := Unpack(cs);
    WellFormedFitting(cs, Join(lines));
    var builder := new Builder(unpacked.newLen);
    var reader := new LineReader(lines, alines);
    p := UndoAll(reader, builder, OpsOf(cs), pool, order, unpacked.bank);
    s := builder.ToString();
  }

  /**
    The changeset that undoes `cs` on the document of `lines` and `alines`, with the pool afterwards.
    It is accepted by CheckRep and restores the text.
   */
  method Inverse(cs: string, lines: seq<string>, alines: seq<string>, pool: Pool, order: Order)
    returns (r: Result<(string, Pool)>)
    requires WellFormed(cs, Join(lines)) && LineList(lines) && CoveredBy(alines, lines)
    ensures r == Inversion.Inverse(cs, lines, alines, pool, order)
    ensures Attributes.Enumerates(order) ==> r.Ok? && ApplyToText(r.value.0, After(cs, Join(lines))) == Ok(Join(lines))
  {
    hide Unpack, CheckRep, Deserialize, Unchecked, Join, ApplyToText, Run, Plain, CoveredBy, LineList, After;
    assert Deserialize(Unpack(cs).ops).Ok? by { CheckRepRegular(cs); }
    var result, p := BuildInverse(cs, lines, alines, pool, order);
    r := match CheckRep(result) case Err(e) => Err(e) case Ok(c) => Ok((c, p));
    if Attributes.Enumerates(order) { InverseRestores(cs, lines, alines, pool, order); }
  }

  lemma {:induction false} WellFormedFitting(cs: string, text: string)
    requires WellFormed(cs, text)
    ensures Fitting(OpsOf(cs), Unpack(cs).bank, text)
  {
    hide CheckRep, Unpack, Run, Deserialize, Plain;
    WellFormedFits(cs, text);
    CheckRepRegular(cs);
    Algebra.CanonicalPositive(OpsOf(cs));
  }
}
