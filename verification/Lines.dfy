/**
  A document as a list of lines, and what the line editor does to it at a cursor.
  The line editor itself is in module LineEditor.
 */
module Lines {
  import opened Basics

  function Join(lines: seq<string>): string {
    if lines == [] then "" else lines[0] + Join(lines[1..])
  }

  lemma {:induction false} JoinConcat(a: seq<string>, b: seq<string>)
    ensures Join(a + b) == Join(a) + Join(b)
  {
    if a == [] {
      assert a + b == b;
    } else {
      assert (a + b)[1..] == a[1..] + b;
      JoinConcat(a[1..], b);
    }
  }

  lemma {:induction false} JoinOne(l: string)
    ensures Join([l]) == l
  {}

  /** The index just after the first newline, or the length of a text without newline. */
  function LineEnd(t: string): (k: nat)
    ensures k <= |t| && (t != "" ==> k > 0)
    ensures Newlines(t) > 0 ==> Newlines(t[..k]) == 1 && EndsInNewline(t[..k])
    ensures Newlines(t) == 0 ==> k == |t|
  {
    if t == "" then 0
    else if t[0] == '\n' then (assert t[..1] == ['\n']; 1)
    else
      var k := LineEnd(t[1..]);
      assert t[..k + 1] == [t[0]] + t[1..][..k];
      k + 1
  }

  /** A text cut into its lines, each with its newline; the last one may lack it. */
  function SplitTextLines(t: string): seq<string>
    decreases |t|
  {
    if t == "" then [] else [t[..LineEnd(t)]] + SplitTextLines(t[LineEnd(t)..])
  }

  lemma {:induction false} JoinSplit(t: string)
    ensures Join(SplitTextLines(t)) == t
    decreases |t|
  {
    if t != "" { JoinSplit(t[LineEnd(t)..]); }
  }

  // ----- lines -----

  /** One line: no newline except at its end. */
  predicate IsLine(l: string) { Newlines(l) == 0 || (Newlines(l) == 1 && EndsInNewline(l)) }

  /** A line with its newline. */
  predicate FullLine(l: string) { Newlines(l) == 1 && EndsInNewline(l) }

  /** Lines in order; only the last one may lack its newline. */
  predicate LineList(lines: seq<string>) {
    && (forall i :: 0 <= i < |lines| ==> IsLine(lines[i]))
    && (forall i :: 0 <= i < |lines| - 1 ==> FullLine(lines[i]))
  }

  predicate AllFull(lines: seq<string>) { forall i :: 0 <= i < |lines| ==> FullLine(lines[i]) }

  lemma {:induction false} FullLineEnd(l: string, t: string)
    requires FullLine(l)
    ensures LineEnd(l + t) == |l| && (l + t)[..|l|] == l && (l + t)[|l|..] == t
  {
    assert l == [l[0]] + l[1..];
    if l[0] == '\n' {
      NewlinesBound(l[1..]);
      assert l[1..] == [];
    } else {
      assert FullLine(l[1..]);
      FullLineEnd(l[1..], t);
      assert (l + t)[1..] == l[1..] + t;
    }
  }

  /** Full lines are what cutting their text gives back. */
  lemma {:induction false} SplitJoin(lines: seq<string>)
    requires AllFull(lines)
    ensures SplitTextLines(Join(lines)) == lines
  {
    if lines != [] {
      assert FullLine(lines[0]);
      FullLineEnd(lines[0], Join(lines[1..]));
      SplitJoin(lines[1..]);
      assert lines == [lines[0]] + lines[1..];
    }
  }

  /** A text that ends with its last newline is cut into full lines, as many as it has newlines. */
  lemma {:induction false} SplitClean(t: string)
    requires t == "" || EndsInNewline(t)
    ensures AllFull(SplitTextLines(t)) && |SplitTextLines(t)| == Newlines(t)
    decreases |t|
  {
    if t != "" {
      NewlinesBound(t);
      var k := LineEnd(t);
      NewlinesSplit(t, k);
      assert EndsInNewline(t[k..]) || t[k..] == "";
      SplitClean(t[k..]);
    }
  }

  lemma {:induction false} SplitIsLineList(t: string)
    ensures LineList(SplitTextLines(t))
    decreases |t|
  {
    if t != "" {
      var k := LineEnd(t);
      SplitIsLineList(t[k..]);
      var rest := SplitTextLines(t[k..]);
      if Newlines(t) == 0 {
        assert t[..k] == t && t[k..] == "";
      }
    }
  }

  // ----- a cursor in a list of lines -----

  /** Lines, and a position: column `col` of line `line`. */
  datatype Cursor = Cursor(lines: seq<string>, line: nat, col: nat)

  function LineAt(lines: seq<string>, i: nat): string { if i < |lines| then lines[i] else "" }

  function From(lines: seq<string>, i: nat): seq<string> { if i < |lines| then lines[i..] else [] }

  /** The position is in the document or right behind it. */
  predicate Inside(c: Cursor) { c.line <= |c.lines| && c.col <= |LineAt(c.lines, c.line)| }

  function SkipLines(c: Cursor, l: nat): Cursor { c.(line := c.line + l, col := 0) }

  function SkipChars(c: Cursor, n: nat): Cursor { c.(col := c.col + n) }

  function RemoveLines(c: Cursor, l: nat): Cursor
    requires Inside(c) && c.line + l <= |c.lines|
  {
    if l == 0 then c
    else if c.col == 0 then c.(lines := c.lines[..c.line] + c.lines[c.line + l..])
    else c.(lines := c.lines[..c.line] + [c.lines[c.line][..c.col] + LineAt(c.lines, c.line + l)]
         + From(c.lines, c.line + l + 1))
  }

  function RemovedLines(c: Cursor, l: nat): string
    requires Inside(c) && c.line + l <= |c.lines|
  {
    if l == 0 then "" else c.lines[c.line][c.col..] + Join(c.lines[c.line + 1..c.line + l])
  }

  function RemoveChars(c: Cursor, n: nat): Cursor
    requires c.line < |c.lines| && c.col + n <= |c.lines[c.line]|
  {
    var l := c.lines[c.line];
    c.(lines := c.lines[c.line := l[..c.col] + l[c.col + n..]])
  }

  function InsertChars(c: Cursor, t: string): Cursor
    requires Inside(c)
  {
    var l := LineAt(c.lines, c.line);
    Cursor(c.lines[..c.line] + [l[..c.col] + t + l[c.col..]] + From(c.lines, c.line + 1), c.line, c.col + |t|)
  }

  /** Whole lines put in; a current line is cut in two. */
  function InsertLines(c: Cursor, ls: seq<string>): Cursor
    requires Inside(c) && ls != []
  {
    var l := LineAt(c.lines, c.line);
    var lines := if c.line < |c.lines|
                 then c.lines[..c.line] + ([l[..c.col] + ls[0]] + ls[1..] + [l[c.col..]]) + c.lines[c.line + 1..]
                 else c.lines + ls;
    Cursor(lines, c.line + |ls|, 0)
  }

  // ----- the same as texts -----

  /** The text before the cursor. */
  function Before(c: Cursor): string
    requires Inside(c)
  {
    Join(c.lines[..c.line]) + LineAt(c.lines, c.line)[..c.col]
  }

  /** The text after the cursor. */
  function Behind(c: Cursor): string
    requires Inside(c)
  {
    LineAt(c.lines, c.line)[c.col..] + Join(From(c.lines, c.line + 1))
  }

  lemma {:induction false} BeforeBehind(c: Cursor)
    requires Inside(c)
    ensures Before(c) + Behind(c) == Join(c.lines)
  {
    var pre, l, ls := c.lines[..c.line], LineAt(c.lines, c.line), From(c.lines, c.line + 1);
    JoinConcat(pre, From(c.lines, c.line));
    assert c.lines == pre + From(c.lines, c.line);
    assert Join(From(c.lines, c.line)) == l + Join(ls) by {
      if c.line < |c.lines| { assert From(c.lines, c.line) == [l] + ls; JoinFirst(l, ls); }
    }
    hide Join, From;
    CutAndJoin(l, c.col);
    Associate(l[..c.col], l[c.col..], Join(ls));
    Associate(Join(pre), l[..c.col], l[c.col..] + Join(ls));
  }

  /** A cursor in lines as they are read: no newline between the start of its line and itself. */
  predicate Proper(c: Cursor) {
    && Inside(c) && LineList(c.lines) && Newlines(LineAt(c.lines, c.line)[..c.col]) == 0
    && (c.line == |c.lines| ==> AllFull(c.lines))
  }

  lemma {:induction false} NewlinesSlice(t: string, i: nat, j: nat)
    requires i <= j <= |t|
    ensures Newlines(t[i..j]) <= Newlines(t)
  {
    NewlinesSplit(t, j);
    NewlinesSplit(t[..j], i);
    assert t[..j][i..] == t[i..j];
  }

  /** The rest of the cursor's line holds one newline, at its end, or it is the last line and holds none. */
  lemma {:induction false} RestOfLine(c: Cursor)
    requires Proper(c) && c.line < |c.lines|
    ensures var rest := c.lines[c.line][c.col..]; FullLine(rest) || (Newlines(rest) == 0 && c.line == |c.lines| - 1)
    ensures FullLine(c.lines[c.line]) <==> FullLine(c.lines[c.line][c.col..])
  {
    var l := c.lines[c.line];
    NewlinesSplit(l, c.col);
    if EndsInNewline(l) && c.col == |l| { assert l[..c.col] == l; NewlinesBound(l); }
  }

  /** A stretch of text behind a full line that ends with a newline reaches over that line. */
  lemma {:induction false} StretchOverLine(rest: string, tail: string, n: nat)
    requires FullLine(rest) && n <= |rest + tail| && EndsInNewline((rest + tail)[..n])
    ensures n >= |rest| && (rest + tail)[..n] == rest + tail[..n - |rest|]
    ensures Newlines((rest + tail)[..n]) == 1 + Newlines(tail[..n - |rest|])
    ensures tail[..n - |rest|] == "" || (EndsInNewline(tail[..n - |rest|]) && Newlines(tail[..n - |rest|]) > 0)
  {
    var t := (rest + tail)[..n];
    if n < |rest| {
      assert t == rest[..n];
      NewlinesSplit(rest, n);
      NewlinesBound(rest[n..]);
      assert rest[n..][|rest| - 1 - n] == '\n';
      NewlinesBound(t);
    } else {
      assert t == rest + tail[..n - |rest|];
      NewlinesConcat(rest, tail[..n - |rest|]);
      NewlinesBound(tail[..n - |rest|]);
    }
  }

  /** Text behind the cursor with `l` newlines, the last at its end, is the rest of the line and the next lines. */
  lemma {:induction false} LinesFit(c: Cursor, n: nat, l: nat)
    requires Proper(c) && l > 0 && n <= |Behind(c)|
    requires Newlines(Behind(c)[..n]) == l && EndsInNewline(Behind(c)[..n])
    ensures c.line + l <= |c.lines| && FullLine(c.lines[c.line + l - 1])
    ensures Behind(c)[..n] == RemovedLines(c, l) && Behind(c)[n..] == Join(c.lines[c.line + l..])
    decreases l
  {
    hide Newlines, LineList, FullLine, AllFull, Proper, EndsInNewline, Behind, Join, RemovedLines, From;
    assert Inside(c) by { ProperInside(c); }
    OnFullLine(c, n);
    var rest, tail := c.lines[c.line][c.col..], Join(c.lines[c.line + 1..]);
    assert Behind(c) == rest + tail by { FirstBehind(c); }
    StretchOverLine(rest, tail, n);
    var k := n - |rest|;
    assert (rest + tail)[n..] == tail[k..];
    if l == 1 {
      assert k == 0 by { NewlinesBound(tail[..k]); }
      assert tail[..0] == "" && tail[0..] == tail && rest + "" == rest;
      RemovedLast(c);
    } else {
      NextLineProper(c);
      BehindStart(c.lines, c.line + 1);
      LinesFit(Cursor(c.lines, c.line + 1, 0), k, l - 1);
      RemovedMore(c, l);
    }
  }

  lemma {:induction false} FirstBehind(c: Cursor)
    requires Inside(c) && c.line < |c.lines|
    ensures Behind(c) == c.lines[c.line][c.col..] + Join(c.lines[c.line + 1..])
  {
    hide Join;
    assert From(c.lines, c.line + 1) == c.lines[c.line + 1..];
  }

  lemma {:induction false} RemovedLast(c: Cursor)
    requires Inside(c) && c.line < |c.lines|
    ensures RemovedLines(c, 1) == c.lines[c.line][c.col..]
  {
    assert c.lines[c.line + 1..c.line + 1] == [];
    var rest := c.lines[c.line][c.col..];
    assert rest + "" == rest;
  }

  lemma {:induction false} RemovedMore(c: Cursor, l: nat)
    requires Inside(c) && l > 1 && c.line + l <= |c.lines|
    ensures Inside(Cursor(c.lines, c.line + 1, 0))
    ensures RemovedLines(c, l) == c.lines[c.line][c.col..] + RemovedLines(Cursor(c.lines, c.line + 1, 0), l - 1)
  {
    var ls, i := c.lines, c.line + 1;
    assert ls[i][0..] == ls[i];
    assert ls[i..c.line + l] == [ls[i]] + ls[i + 1..c.line + l];
  }

  lemma {:induction false} ProperInside(c: Cursor)
    requires Proper(c)
    ensures Inside(c)
  {}

  /** With a newline to come, the cursor is in a full line. */
  lemma {:induction false} OnFullLine(c: Cursor, n: nat)
    requires Proper(c) && n <= |Behind(c)| && EndsInNewline(Behind(c)[..n])
    ensures c.line < |c.lines| && FullLine(c.lines[c.line]) && FullLine(c.lines[c.line][c.col..])
  {
    hide LineList;
    NewlinesSlice(Behind(c), 0, n);
    NewlinesBound(Behind(c)[..n]);
    assert c.line + 1 >= |c.lines| ==> Behind(c) == LineAt(c.lines, c.line)[c.col..];
    if c.line < |c.lines| { RestOfLine(c); }
  }

  lemma {:induction false} BehindStart(lines: seq<string>, i: nat)
    requires i <= |lines|
    ensures Inside(Cursor(lines, i, 0)) && Behind(Cursor(lines, i, 0)) == Join(lines[i..])
  {
    if i < |lines| { assert lines[i..] == [lines[i]] + lines[i + 1..]; }
  }

  lemma {:induction false} NextLineProper(c: Cursor)
    requires Proper(c) && c.line < |c.lines| && FullLine(c.lines[c.line])
    ensures Proper(Cursor(c.lines, c.line + 1, 0))
  {
    assert LineAt(c.lines, c.line + 1)[..0] == "";
  }

  // ----- the editing steps as changes of the text -----

  lemma {:induction false} SkipLinesText(c: Cursor, n: nat, l: nat)
    requires Proper(c) && l > 0 && n <= |Behind(c)|
    requires Newlines(Behind(c)[..n]) == l && EndsInNewline(Behind(c)[..n])
    ensures c.line + l <= |c.lines| && Proper(SkipLines(c, l))
    ensures Before(SkipLines(c, l)) == Before(c) + Behind(c)[..n] && Behind(SkipLines(c, l)) == Behind(c)[n..]
  {
    hide Newlines, LineList, FullLine, EndsInNewline, Proper, Join, Before, Behind, RemovedLines;
    ProperInside(c);
    LinesFit(c, n, l);
    SkipLinesProper(c, l);
    BehindStart(c.lines, c.line + l);
    BeforeSkipped(c, l);
  }

  lemma {:induction false} BeforeSkipped(c: Cursor, l: nat)
    requires Inside(c) && l > 0 && c.line + l <= |c.lines|
    ensures Before(SkipLines(c, l)) == Before(c) + RemovedLines(c, l)
  {
    hide Join, From;
    var pre, cur, mid := c.lines[..c.line], c.lines[c.line], c.lines[c.line + 1..c.line + l];
    assert c.lines[..c.line + l] == pre + ([cur] + mid);
    assert Before(c) == Join(pre) + cur[..c.col] && Inside(SkipLines(c, l));
    SkippedEnd(c, l);
    hide Before, LineAt;
    JoinFirst(cur, mid);
    JoinConcat(pre, [cur] + mid);
    CutAndJoin(cur, c.col);
    Associate(cur[..c.col], cur[c.col..], Join(mid));
    Associate(Join(pre), cur[..c.col], cur[c.col..] + Join(mid));
  }

  lemma {:induction false} JoinFirst(l: string, ls: seq<string>)
    ensures Join([l] + ls) == l + Join(ls)
  {
    assert ([l] + ls)[1..] == ls;
  }

  lemma {:induction false} SkippedEnd(c: Cursor, l: nat)
    requires Inside(c) && c.line + l <= |c.lines|
    ensures Inside(SkipLines(c, l)) && Before(SkipLines(c, l)) == Join(c.lines[..c.line + l])
  {
    hide Join;
    assert LineAt(c.lines, c.line + l)[..0] == "";
    var t := Join(c.lines[..c.line + l]);
    assert t + "" == t;
  }

  lemma {:induction false} SkipLinesProper(c: Cursor, l: nat)
    requires Proper(c) && l > 0 && c.line + l <= |c.lines| && FullLine(c.lines[c.line + l - 1])
    ensures Proper(SkipLines(c, l))
  {
    assert LineAt(c.lines, c.line + l)[..0] == "";
  }

  lemma {:induction false} RemoveLinesText(c: Cursor, n: nat, l: nat)
    requires Proper(c) && l > 0 && n <= |Behind(c)|
    requires Newlines(Behind(c)[..n]) == l && EndsInNewline(Behind(c)[..n])
    ensures c.line + l <= |c.lines| && Proper(RemoveLines(c, l))
    ensures Before(RemoveLines(c, l)) == Before(c) && Behind(RemoveLines(c, l)) == Behind(c)[n..]
    ensures RemovedLines(c, l) == Behind(c)[..n]
  {
    hide Newlines, LineList, FullLine, EndsInNewline, Before, Behind, RemovedLines, RemoveLines, Proper;
    ProperInside(c);
    LinesFit(c, n, l);
    RemoveLinesProper(c, l);
    ProperInside(RemoveLines(c, l));
    RemoveLinesParts(c, l);
  }

  /** Removing lines leaves the text before the cursor, and the lines behind them come next. */
  lemma {:induction false} RemoveLinesParts(c: Cursor, l: nat)
    requires Inside(c) && l > 0 && c.line + l <= |c.lines| && Inside(RemoveLines(c, l))
    ensures Before(RemoveLines(c, l)) == Before(c) && Behind(RemoveLines(c, l)) == Join(c.lines[c.line + l..])
  {
    var d, i := RemoveLines(c, l), c.line;
    assert d.lines[..i] == c.lines[..i];
    var rest := From(c.lines, i + l);
    assert c.lines[i + l..] == rest;
    if c.col == 0 {
      assert From(d.lines, i) == rest;
      BehindStart(d.lines, i);
      assert LineAt(d.lines, i)[..0] == LineAt(c.lines, i)[..0] == "";
    } else {
      assert From(d.lines, i + 1) == From(c.lines, i + l + 1);
      assert rest != [] ==> rest == [LineAt(c.lines, i + l)] + From(c.lines, i + l + 1);
      assert d.lines[i][..c.col] == c.lines[i][..c.col] && d.lines[i][c.col..] == LineAt(c.lines, i + l);
    }
  }

  lemma {:induction false} RemoveLinesProper(c: Cursor, l: nat)
    requires Proper(c) && l > 0 && c.line + l <= |c.lines| && FullLine(c.lines[c.line + l - 1])
    ensures Proper(RemoveLines(c, l))
  {
    hide Newlines;
    var d, i := RemoveLines(c, l), c.line;
    if c.col == 0 {
      forall k | i <= k < |d.lines| ensures d.lines[k] == c.lines[k + l] {}
      assert LineAt(d.lines, i)[..0] == LineAt(c.lines, i)[..0];
    } else {
      var x := c.lines[i][..c.col] + LineAt(c.lines, i + l);
      JoinedLine(c.lines[i][..c.col], LineAt(c.lines, i + l));
      assert Newlines("") == 0 by { NewlinesBound(""); }
      PatchedList(c.lines, i, x, i + l + 1);
      assert d.lines[i][..c.col] == c.lines[i][..c.col];
    }
  }

  /** A list of lines with the lines from `i` up to `j` replaced by one line. */
  lemma {:induction false} PatchedList(lines: seq<string>, i: nat, x: string, j: nat)
    requires LineList(lines) && i < j && IsLine(x)
    requires i < |lines| || (i == |lines| && AllFull(lines))
    requires j - 1 < |lines| && FullLine(lines[j - 1]) ==> FullLine(x)
    ensures LineList(lines[..i] + [x] + From(lines, j))
  {
    hide IsLine, FullLine;
    var r := lines[..i] + [x] + From(lines, j);
    forall k | i < k < |r| ensures r[k] == lines[k + j - i - 1] {}
  }

  lemma {:induction false} JoinedLine(a: string, b: string)
    requires Newlines(a) == 0
    ensures Newlines(a + b) == Newlines(b)
    ensures EndsInNewline(b) ==> EndsInNewline(a + b)
  {
    NewlinesConcat(a, b);
    if b != [] { assert (a + b)[|a + b| - 1] == b[|b| - 1]; }
  }

  /** Text behind the cursor without newline lies in the cursor's line. */
  lemma {:induction false} CharsFit(c: Cursor, n: nat)
    requires Proper(c) && 0 < n <= |Behind(c)| && Newlines(Behind(c)[..n]) == 0
    ensures c.line < |c.lines| && c.col + n <= |c.lines[c.line]|
    ensures Behind(c)[..n] == c.lines[c.line][c.col..c.col + n]
    ensures Behind(c)[n..] == c.lines[c.line][c.col + n..] + Join(From(c.lines, c.line + 1))
    ensures FullLine(c.lines[c.line]) ==> c.col + n < |c.lines[c.line]|
  {
    hide LineList, Newlines, Join, Behind, FullLine, Proper;
    ProperInside(c);
    BehindInLine(c);
    RestOfLine(c);
    FirstBehind(c);
    var l, rest, tail := c.lines[c.line], c.lines[c.line][c.col..], Join(c.lines[c.line + 1..]);
    if FullLine(rest) && n >= |rest| {
      assert (rest + tail)[..n][..|rest|] == rest;
      assert Newlines(rest) == 1 by { FullCount(rest); }
      NewlinesSplit((rest + tail)[..n], |rest|);
    }
    CutBehind(l, c.col, tail, n);
    assert From(c.lines, c.line + 1) == c.lines[c.line + 1..];
  }

  lemma {:induction false} FullCount(l: string)
    requires FullLine(l)
    ensures Newlines(l) == 1
  {}

  lemma {:induction false} ProperLine(c: Cursor)
    requires Proper(c) && c.line < |c.lines|
    ensures IsLine(c.lines[c.line]) && Newlines(c.lines[c.line][..c.col]) == 0 && LineList(c.lines)
  {
    hide Newlines, IsLine, FullLine, AllFull;
  }

  /** Something behind the cursor stands in a line; behind an unfinished one there is nothing. */
  lemma {:induction false} BehindInLine(c: Cursor)
    requires Proper(c) && Behind(c) != ""
    ensures c.line < |c.lines| && (!FullLine(c.lines[c.line]) ==>
            c.line == |c.lines| - 1 && Join(c.lines[c.line + 1..]) == "")
  {
    hide Newlines, IsLine;
    if c.line >= |c.lines| {
      assert false;
    }
    if c.line == |c.lines| - 1 { assert c.lines[c.line + 1..] == []; }
  }

  lemma {:induction false} CutBehind(l: string, i: nat, tail: string, n: nat)
    requires i + n <= |l|
    ensures (l[i..] + tail)[..n] == l[i..i + n] && (l[i..] + tail)[n..] == l[i + n..] + tail
  {}

  lemma {:induction false} SkipCharsText(c: Cursor, n: nat)
    requires Proper(c) && 0 < n <= |Behind(c)| && Newlines(Behind(c)[..n]) == 0
    ensures Proper(SkipChars(c, n))
    ensures Before(SkipChars(c, n)) == Before(c) + Behind(c)[..n] && Behind(SkipChars(c, n)) == Behind(c)[n..]
  {
    hide LineList, Newlines, Join, FullLine, AllFull;
    CharsFit(c, n);
    hide Behind;
    var l := c.lines[c.line];
    CutAndJoin(l[..c.col + n], c.col);
    assert l[..c.col + n][..c.col] == l[..c.col] && l[..c.col + n][c.col..] == l[c.col..c.col + n];
    NewlinesConcat(l[..c.col], l[c.col..c.col + n]);
    Associate(Join(c.lines[..c.line]), l[..c.col], l[c.col..c.col + n]);
    assert Behind(SkipChars(c, n)) == Behind(c)[n..] by { SkippedBehind(c, n); }
  }

  lemma {:induction false} SkippedBehind(c: Cursor, n: nat)
    requires Inside(c) && c.line < |c.lines| && c.col + n <= |c.lines[c.line]|
    ensures Behind(SkipChars(c, n)) == c.lines[c.line][c.col + n..] + Join(From(c.lines, c.line + 1))
  {
    hide Join;
  }

  lemma {:induction false} RemoveCharsText(c: Cursor, n: nat)
    requires Proper(c) && 0 < n <= |Behind(c)| && Newlines(Behind(c)[..n]) == 0
    ensures c.line < |c.lines| && c.col + n <= |c.lines[c.line]| && Proper(RemoveChars(c, n))
    ensures Before(RemoveChars(c, n)) == Before(c) && Behind(RemoveChars(c, n)) == Behind(c)[n..]
  {
    hide Newlines, Join, Behind, IsLine, FullLine, LineList;
    CharsFit(c, n);
    var l, d := c.lines[c.line], RemoveChars(c, n);
    var l' := l[..c.col] + l[c.col + n..];
    ProperLine(c);
    ShorterLine(l, c.col, n);
    PatchedLine(c.lines, c.line, l');
    JoinAndCut(l[..c.col], l[c.col + n..]);
    assert Behind(d) == l[c.col + n..] + Join(From(c.lines, c.line + 1)) by { LineReplaced(c, l'); }
  }

  lemma {:induction false} LineReplaced(c: Cursor, l: string)
    requires Inside(c) && c.line < |c.lines| && c.col <= |l|
    ensures var d := c.(lines := c.lines[c.line := l]);
            && Inside(d) && d.lines[..c.line] == c.lines[..c.line]
            && Behind(d) == l[c.col..] + Join(From(c.lines, c.line + 1))
  {
    hide Join;
    var ls := c.lines[c.line := l];
    assert From(ls, c.line + 1) == From(c.lines, c.line + 1) && ls[..c.line] == c.lines[..c.line];
  }

  /** A line without some of its characters, none of them a newline, is as much a line. */
  lemma {:induction false} ShorterLine(l: string, i: nat, n: nat)
    requires i + n <= |l| && IsLine(l) && Newlines(l[..i]) == 0 && Newlines(l[i..i + n]) == 0
    ensures var l' := l[..i] + l[i + n..]; IsLine(l') && (FullLine(l) <==> FullLine(l'))
  {
    hide Newlines;
    CutAndJoin(l[..i + n], i);
    assert l[..i + n][..i] == l[..i] && l[..i + n][i..] == l[i..i + n];
    NewlinesConcat(l[..i], l[i..i + n]);
    NewlinesSplit(l, i + n);
    JoinedLine(l[..i], l[i + n..]);
    if EndsInNewline(l) && i + n == |l| {
      assert l[..i + n] == l;
      NewlinesBound(l);
    }
  }

  lemma {:induction false} PatchedLine(lines: seq<string>, i: nat, l: string)
    requires LineList(lines) && i < |lines| && IsLine(l) && (FullLine(lines[i]) <==> FullLine(l))
    ensures LineList(lines[i := l]) && (AllFull(lines) ==> AllFull(lines[i := l]))
  {
    hide IsLine, FullLine;
  }

  lemma {:induction false} InsertCharsText(c: Cursor, t: string)
    requires Proper(c) && Newlines(t) == 0
    ensures Proper(InsertChars(c, t))
    ensures Before(InsertChars(c, t)) == Before(c) + t && Behind(InsertChars(c, t)) == Behind(c)
  {
    hide Newlines, Join;
    var l, d, i := LineAt(c.lines, c.line), InsertChars(c, t), c.line;
    var l' := l[..c.col] + t + l[c.col..];
    CutOut(c.lines[..i], [l'], From(c.lines, i + 1));
    assert From(d.lines, i + 1) == From(c.lines, i + 1) && d.lines[..i] == c.lines[..i] && d.lines[i] == l' by {
      assert c.lines[..i] + [] == c.lines[..i];
    }
    JoinAndCut(l[..c.col] + t, l[c.col..]);
    Associate(Join(c.lines[..i]), l[..c.col], t);
    NewlinesConcat(l[..c.col], t);
    JoinedLine(l[..c.col] + t, l[c.col..]);
    NewlinesSplit(l, c.col);
    if EndsInNewline(l) && c.col == |l| { assert l[..c.col] == l; NewlinesBound(l); }
    PatchedList(c.lines, i, l', i + 1);
  }

  /** What replaces the cursor's line when whole lines are put in. */
  function CutLine(l: string, col: nat, ls: seq<string>): seq<string>
    requires col <= |l| && ls != []
  {
    [l[..col] + ls[0]] + ls[1..] + [l[col..]]
  }

  lemma {:induction false} CutLineJoin(l: string, col: nat, ls: seq<string>)
    requires col <= |l| && ls != []
    ensures Join(CutLine(l, col, ls)[..|ls|]) == l[..col] + Join(ls)
    ensures CutLine(l, col, ls)[|ls|] == l[col..]
  {
    assert CutLine(l, col, ls)[..|ls|] == [l[..col] + ls[0]] + ls[1..];
    assert ls == [ls[0]] + ls[1..];
  }

  lemma {:induction false} CutLineFull(l: string, col: nat, ls: seq<string>)
    requires col <= |l| && ls != [] && AllFull(ls) && Newlines(l[..col]) == 0
    ensures AllFull(CutLine(l, col, ls)[..|ls|])
    ensures IsLine(l) ==> IsLine(l[col..])
    ensures FullLine(l) ==> FullLine(l[col..])
  {
    hide Newlines;
    JoinedLine(l[..col], ls[0]);
    NewlinesSplit(l, col);
    if EndsInNewline(l) && col == |l| { assert l[..col] == l; NewlinesBound(l); }
  }

  lemma {:induction false} InsertLinesText(c: Cursor, t: string)
    requires Proper(c) && EndsInNewline(t)
    ensures SplitTextLines(t) != [] && Proper(InsertLines(c, SplitTextLines(t)))
    ensures var d := InsertLines(c, SplitTextLines(t)); Before(d) == Before(c) + t && Behind(d) == Behind(c)
  {
    hide Newlines, LineList, LineEnd, Proper, Before, Behind, InsertLines, SplitTextLines;
    SplitClean(t);
    JoinSplit(t);
    ProperInside(c);
    InsertLinesProper(c, SplitTextLines(t));
    ProperInside(InsertLines(c, SplitTextLines(t)));
    InsertLinesParts(c, SplitTextLines(t));
  }

  lemma {:induction false} CutOut(pre: seq<string>, x: seq<string>, post: seq<string>)
    requires x != []
    ensures var ls, i := pre + x + post, |pre| + |x| - 1;
            ls[..i] == pre + x[..|x| - 1] && ls[i] == x[|x| - 1] && ls[i + 1..] == post
  {}

  lemma {:induction false} InsertLinesParts(c: Cursor, ls: seq<string>)
    requires Inside(c) && ls != [] && Inside(InsertLines(c, ls))
    ensures var d := InsertLines(c, ls); Before(d) == Before(c) + Join(ls) && Behind(d) == Behind(c)
  {
    hide Before, Behind;
    if c.line < |c.lines| { InsertedAmong(c, ls); } else { InsertedLast(c, ls); }
  }

  lemma {:induction false} BeforeStart(c: Cursor)
    requires Inside(c) && c.col == 0
    ensures Before(c) == Join(c.lines[..c.line])
  {
    hide Join;
    var t := Join(c.lines[..c.line]);
    assert LineAt(c.lines, c.line)[..0] == "" && t + "" == t;
  }

  lemma {:induction false} InsertedAmong(c: Cursor, ls: seq<string>)
    requires Inside(c) && ls != [] && Inside(InsertLines(c, ls)) && c.line < |c.lines|
    ensures var d := InsertLines(c, ls); Before(d) == Before(c) + Join(ls) && Behind(d) == Behind(c)
  {
    hide Join, Before, Behind;
    var l, pre, post, d := c.lines[c.line], c.lines[..c.line], c.lines[c.line + 1..], InsertLines(c, ls);
    var x := CutLine(l, c.col, ls);
    assert d.lines == pre + x + post && |x| == |ls| + 1;
    CutOut(pre, x, post);
    CutLineJoin(l, c.col, ls);
    JoinConcat(pre, x[..|ls|]);
    BeforeStart(d);
    assert Before(c) == Join(pre) + l[..c.col] by { BeforeIn(c); }
    Associate(Join(pre), l[..c.col], Join(ls));
    FirstBehind(c);
    FirstBehind(d);
    assert d.lines[d.line][0..] == l[c.col..];
  }

  lemma {:induction false} BeforeIn(c: Cursor)
    requires Inside(c) && c.line < |c.lines|
    ensures Before(c) == Join(c.lines[..c.line]) + c.lines[c.line][..c.col]
  {}

  lemma {:induction false} InsertedLast(c: Cursor, ls: seq<string>)
    requires Inside(c) && ls != [] && Inside(InsertLines(c, ls)) && c.line == |c.lines|
    ensures var d := InsertLines(c, ls); Before(d) == Before(c) + Join(ls) && Behind(d) == Behind(c)
  {
    hide Join;
    var d := InsertLines(c, ls);
    JoinConcat(c.lines, ls);
    assert c.lines[..c.line] == c.lines && d.lines[..d.line] == d.lines;
    hide Before;
    BeforeStart(c);
    BeforeStart(d);
  }

  lemma {:induction false} InsertLinesProper(c: Cursor, ls: seq<string>)
    requires Proper(c) && ls != [] && AllFull(ls)
    ensures Proper(InsertLines(c, ls))
    ensures AllFull(c.lines) ==> AllFull(InsertLines(c, ls).lines)
  {
    hide Newlines, FullLine, IsLine, LineList, AllFull;
    assert Newlines("") == 0 by { NewlinesBound(""); }
    var i, d := c.line, InsertLines(c, ls);
    assert LineAt(d.lines, d.line)[..0] == "";
    if i < |c.lines| {
      ProperLine(c);
      CutLineFull(c.lines[i], c.col, ls);
      CutIntoList(c.lines, i, CutLine(c.lines[i], c.col, ls));
    } else {
      FullTogether(c.lines, ls);
    }
  }

  lemma {:induction false} FullTogether(a: seq<string>, b: seq<string>)
    requires AllFull(a) && AllFull(b)
    ensures AllFull(a + b) && LineList(a + b)
  {
    hide FullLine, IsLine;
    FullIsLine();
  }

  /** A line replaced by full lines and a last one like it. */
  lemma {:induction false} CutIntoList(lines: seq<string>, i: nat, x: seq<string>)
    requires LineList(lines) && i < |lines| && x != [] && AllFull(x[..|x| - 1])
    requires IsLine(x[|x| - 1]) && (FullLine(lines[i]) ==> FullLine(x[|x| - 1]))
    ensures LineList(lines[..i] + x + lines[i + 1..])
    ensures AllFull(lines) ==> AllFull(lines[..i] + x + lines[i + 1..])
  {
    hide FullLine, IsLine;
    FullIsLine();
    var r, n := lines[..i] + x + lines[i + 1..], |x|;
    forall k | 0 <= k < |r| ensures IsLine(r[k]) && (k < |r| - 1 || AllFull(lines) ==> FullLine(r[k])) {
      if k < i {
        assert r[k] == lines[k];
      } else if k < i + n {
        assert r[k] == x[k - i];
        if k < i + n - 1 { assert x[k - i] == x[..n - 1][k - i]; }
      } else {
        assert r[k] == lines[k - n + 1];
      }
    }
  }

  lemma {:induction false} FullIsLine()
    ensures forall l :: FullLine(l) ==> IsLine(l)
  {}

  // ----- full lines stay full as long as the text behind the cursor is not used up -----

  lemma {:induction false} RemoveLinesFull(c: Cursor, l: nat)
    requires Proper(c) && AllFull(c.lines) && c.line + l <= |c.lines|
    requires c.line + l < |c.lines| || c.col == 0
    ensures AllFull(RemoveLines(c, l).lines)
  {
    hide Newlines;
    if l > 0 && c.col > 0 { JoinedLine(c.lines[c.line][..c.col], LineAt(c.lines, c.line + l)); }
  }

  lemma {:induction false} RemoveCharsFull(c: Cursor, n: nat)
    requires Proper(c) && AllFull(c.lines) && 0 < n <= |Behind(c)| && Newlines(Behind(c)[..n]) == 0
    requires c.line < |c.lines| && c.col + n <= |c.lines[c.line]|
    ensures AllFull(RemoveChars(c, n).lines)
  {
    hide Newlines;
    CharsFit(c, n);
    var l := c.lines[c.line];
    assert l[..c.col + n] == l[..c.col] + l[c.col..c.col + n];
    NewlinesConcat(l[..c.col], l[c.col..c.col + n]);
    NewlinesSplit(l, c.col + n);
    JoinedLine(l[..c.col], l[c.col + n..]);
  }

  lemma {:induction false} InsertCharsFull(c: Cursor, t: string)
    requires Proper(c) && AllFull(c.lines) && Newlines(t) == 0 && c.line < |c.lines|
    ensures AllFull(InsertChars(c, t).lines)
  {
    hide Newlines;
    var l := c.lines[c.line];
    CutLineFull(l, c.col, [l]);
    NewlinesConcat(l[..c.col], t);
    JoinedLine(l[..c.col] + t, l[c.col..]);
  }
}
