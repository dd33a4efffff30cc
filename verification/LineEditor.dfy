/** The line editor that changes a list of lines through a splice buffer: lib/changeset/TextLinesMutator.go. */
module LineEditor {
  import opened Basics
  import opened Lines

  /** `lines` with the `deleted` lines from `start` on replaced by the lines of the buffer. */
  function Spliced(lines: seq<string>, start: nat, deleted: nat, splice: seq<string>): seq<string>
    requires start <= |lines|
  {
    lines[..start] + splice + From(lines, start + deleted)
  }

  class TextLinesMutator {
    var lines: seq<string>
    // the splice buffer: where it starts, how many lines it replaces, and the lines it holds
    var start: nat
    var deleted: nat
    var splice: seq<string>
    var inSplice: bool
    var curLine: nat
    var curCol: nat

    /** The cursor's line is the last one of the buffer, or the one right behind it. */
    ghost predicate AtSpliceEnd()
      reads this
    {
      start <= |lines| && start <= curLine && start + |splice| - 1 <= curLine <= start + |splice|
    }

    /** The document as it will be once the splice is left. */
    ghost function Document(): seq<string>
      requires start <= |lines|
      reads this
    {
      if inSplice then Spliced(lines, start, deleted, splice) else lines
    }

    ghost predicate Valid()
      reads this
    {
      && (!inSplice ==> start == 0 && deleted == 0 && splice == [])
      && (inSplice ==> AtSpliceEnd() && (curLine == start + |splice| ==> curCol == 0))
      && Inside(Cursor(Document(), curLine, curCol))
    }

    ghost function State(): Cursor
      requires Valid()
      reads this
    {
      Cursor(Document(), curLine, curCol)
    }

    /** The buffer does not replace lines behind the end of the list. */
    ghost predicate Exact()
      reads this
    {
      start + deleted <= |lines|
    }

    constructor (lines: seq<string>)
      ensures Valid() && Exact() && State() == Cursor(lines, 0, 0)
    {
      this.lines := lines;
      start, deleted, splice := 0, 0, [];
      inSplice := false;
      curLine, curCol := 0, 0;
    }

    /** Incorporates the cursor's line into the buffer; returns its index there. */
    method PutCurLineInSplice() returns (i: nat)
      requires AtSpliceEnd()
      modifies `deleted, `splice
      ensures AtSpliceEnd() && i == curLine - start == |splice| - 1
      ensures old(curLine - start < |splice|) ==> splice == old(splice) && deleted == old(deleted)
      ensures old(curLine - start == |splice|) ==>
              splice == old(splice) + [LineAt(lines, start + old(deleted))] && deleted == old(deleted) + 1
      ensures Spliced(lines, start, deleted, splice) ==
              var d := old(Spliced(lines, start, deleted, splice)); if curLine < |d| then d else d + [""]
      ensures old(Exact() && curLine < |Spliced(lines, start, deleted, splice)|) ==> Exact()
    {
      if curLine - start == |splice| {
        SpliceGrows(lines, start, deleted, splice);
        splice := splice + [if start + deleted < |lines| then lines[start + deleted] else ""];
        deleted := deleted + 1;
      }
      i := curLine - start;
    }

    method EnterSplice()
      requires Valid() && !inSplice
      modifies this
      ensures Valid() && inSplice && State() == old(State()) && lines == old(lines)
      ensures old(Exact()) ==> Exact()
    {
      start, deleted, splice := curLine, 0, [];
      assert lines[..start] + [] + From(lines, start + deleted) == lines;
      if curCol > 0 {
        var _ := PutCurLineInSplice();
      }
      inSplice := true;
    }

    method LeaveSplice()
      requires Valid() && inSplice
      modifies this
      ensures Valid() && !inSplice && State() == old(State()) && Exact()
    {
      var end := start + deleted;
      if end > |lines| {
        end := |lines|;
      }
      assert lines[end..] == From(lines, start + deleted);
      lines := lines[..start] + splice + lines[end..];
      start, deleted, splice := 0, 0, [];
      inSplice := false;
    }

    /** Skips whole lines, through the buffer if `includeInSplice`. */
    method SkipLines(l: nat, includeInSplice: bool)
      requires Valid() && curLine + l <= |Document()|
      modifies this
      ensures Valid() && State() == if l == 0 then old(State()) else Lines.SkipLines(old(State()), l)
      ensures old(Exact()) ==> Exact()
    {
      hide Spliced, From;
      if l == 0 {
        return;
      }
      if includeInSplice {
        if !inSplice {
          EnterSplice();
        }
        ghost var doc := Document();
        for i := 0 to l
          invariant inSplice && Valid() && Document() == doc
          invariant curLine == old(curLine) + i && (i > 0 ==> curCol == 0)
          invariant old(Exact()) ==> Exact()
        {
          curCol := 0;
          var _ := PutCurLineInSplice();
          curLine := curLine + 1;
        }
      } else {
        if inSplice {
          if l > 1 {
            LeaveSplice();
          } else {
            var _ := PutCurLineInSplice();
          }
        }
        curLine := curLine + l;
        curCol := 0;
      }
    }

    /** Skips `n` characters with `l` newlines. */
    method Skip(n: nat, l: nat, includeInSplice: bool)
      requires Valid()
      requires n > 0 ==> if l > 0 then curLine + l <= |Document()| else curCol + n <= |LineAt(Document(), curLine)|
      modifies this
      ensures Valid()
      ensures State() == if n == 0 then old(State())
                         else if l > 0 then Lines.SkipLines(old(State()), l) else SkipChars(old(State()), n)
    {
      hide Spliced, From;
      if n == 0 {
        return;
      }
      if l > 0 {
        SkipLines(l, includeInSplice);
      } else {
        if includeInSplice && !inSplice {
          EnterSplice();
        }
        if inSplice {
          var _ := PutCurLineInSplice();
        }
        curCol := curCol + n;
      }
    }

    /** The text of the `k` lines after the replaced ones. */
    method NextKLinesText(k: nat) returns (text: string)
      requires start <= |lines|
      ensures text == Join(LinesFrom(lines, start + deleted, k))
    {
      var i, j := start + deleted, start + deleted + k;
      if j > |lines| {
        j := |lines|;
      }
      if i >= j {
        text := "";
      } else {
        text := Join(lines[i..j]);
      }
    }

    /** Removes the rest of the cursor's line and whole lines after it, and returns the removed text. */
    method RemoveLines(l: nat) returns (removed: string)
      requires Valid() && curLine + l <= |Document()|
      modifies this
      ensures Valid() && State() == Lines.RemoveLines(old(State()), l) && removed == RemovedLines(old(State()), l)
      ensures old(Exact()) && old(curCol) == 0 ==> Exact()
    {
      hide Spliced, From, LineAt, Join, Lines.RemoveLines, RemovedLines, LinesFrom;
      if l == 0 {
        RemoveNothing(State());
        return "";
      }
      if !inSplice {
        EnterSplice();
      }
      if curLine - start < |splice| {
        removed := RemoveBuffered(l);
      } else {
        RemoveFromSplice(lines, start, deleted, splice, curLine, curCol, l);
        removed := NextKLinesText(l);
        deleted := deleted + l;
      }
    }

    /** Removes lines from the one at the end of the buffer on. */
    method RemoveBuffered(l: nat) returns (removed: string)
      requires Valid() && inSplice && curLine - start < |splice| && 0 < l && curLine + l <= |Document()|
      modifies this
      ensures Valid() && State() == Lines.RemoveLines(old(State()), l) && removed == RemovedLines(old(State()), l)
      ensures old(Exact()) && old(curCol) == 0 ==> Exact()
    {
      hide Spliced, From, LineAt, Join, Lines.RemoveLines, RemovedLines, LinesFrom;
      RemoveFromSplice(lines, start, deleted, splice, curLine, curCol, l);
      var i := |splice| - 1;
      if curCol == 0 {
        removed := splice[i];
        splice := splice[..i];
        var next := NextKLinesText(l - 1);
        removed := removed + next;
        deleted := deleted + l - 1;
      } else {
        removed := NextKLinesText(l - 1);
        deleted := deleted + l - 1;
        var line := splice[i];
        removed := line[curCol..] + removed;
        splice := splice[i := line[..curCol] + LineAt(lines, start + deleted)];
        deleted := deleted + 1;
      }
    }

    /** Removes `n` characters with `l` newlines, and returns them. */
    method Remove(n: nat, l: nat) returns (removed: string)
      requires Valid()
      requires n > 0 ==> if l > 0 then curLine + l <= |Document()|
                         else curLine < |Document()| && curCol + n <= |Document()[curLine]|
      modifies this
      ensures Valid()
      ensures State() == if n == 0 then old(State())
                         else if l > 0 then Lines.RemoveLines(old(State()), l) else RemoveChars(old(State()), n)
      ensures removed == if n == 0 then ""
                         else if l > 0 then RemovedLines(old(State()), l)
                         else old(Document()[curLine][curCol..curCol + n])
    {
      hide Spliced, From;
      if n == 0 {
        return "";
      }
      if l > 0 {
        removed := RemoveLines(l);
        return;
      }
      removed := RemoveInLine(n);
    }

    /** Removes characters from the cursor's line. */
    method RemoveInLine(n: nat) returns (removed: string)
      requires Valid() && curLine < |Document()| && curCol + n <= |Document()[curLine]|
      modifies this
      ensures Valid() && State() == RemoveChars(old(State()), n)
      ensures removed == old(Document()[curLine][curCol..curCol + n])
    {
      hide Spliced, From;
      if !inSplice {
        EnterSplice();
      }
      var i := PutCurLineInSplice();
      SpliceEnd(lines, start, deleted, splice);
      var line := splice[i];
      var endCol := curCol + n;
      if endCol > |line| {
        endCol := |line|;
      }
      removed := line[curCol..endCol];
      EndPatched(lines, start, deleted, splice, line[..curCol] + line[endCol..]);
      splice := splice[i := line[..curCol] + line[endCol..]];
    }

    /** Inserts whole lines; a current line in the buffer is cut in two. */
    method InsertNewLines(ls: seq<string>)
      requires Valid() && inSplice && ls != []
      modifies this
      ensures Valid() && State() == InsertLines(old(State()), ls)
      ensures old(Exact()) ==> Exact()
    {
      hide Spliced, From, InsertLines, LineAt;
      if curLine - start < |splice| {
        InsertedInLine(lines, start, deleted, splice, curCol, ls);
        var newLines := ls;
        var i := |splice| - 1;
        var theLine, lineCol := splice[i], curCol;
        splice := splice[i := theLine[..lineCol] + newLines[0]];
        curLine := curLine + 1;
        newLines := newLines[1..];
        splice := splice + newLines;
        curLine := curLine + |newLines|;
        splice := splice + [theLine[lineCol..]];
        curCol := 0;
      } else {
        InsertedBehind(lines, start, deleted, splice, ls);
        splice := splice + ls;
        curLine := curLine + |ls|;
      }
    }

    /** Inserts a part of a line. Reports whether the buffer holds the line. */
    method InsertPart(text: string) returns (ok: bool)
      requires Valid() && inSplice
      modifies this
      ensures Valid() && ok && State() == InsertChars(old(State()), text)
    {
      hide Spliced, From, LineAt;
      InsertedPart(lines, start, deleted, splice, curLine, curCol, text);
      var i := PutCurLineInSplice();
      if i >= |splice| {
        return false;
      }
      var line := splice[i];
      splice := splice[i := line[..curCol] + text + line[curCol..]];
      curCol := curCol + |text|;
      ok := true;
    }

    /** Inserts a text with `l` newlines: a part of a line, or whole lines. */
    method Insert(text: string, l: nat) returns (ok: bool)
      requires Valid()
      modifies this
      ensures Valid() && ok
      ensures State() == if text == "" then old(State())
                         else if l > 0 then InsertLines(old(State()), SplitTextLines(text))
                              else InsertChars(old(State()), text)
      ensures old(Exact()) && l > 0 ==> Exact()
    {
      if text == "" {
        return true;
      }
      if !inSplice {
        EnterSplice();
      }
      hide *;
      if l > 0 {
        SplitNotEmpty(text);
        InsertNewLines(SplitTextLines(text));
        ok := true;
      } else {
        ok := InsertPart(text);
      }
    }

    /** Whether lines are left at the cursor. */
    method HasMore() returns (more: bool)
      requires Valid() && Exact()
      ensures more == (curLine < |Document()|)
    {
      var docLines: int := |lines|;
      if inSplice {
        docLines := docLines + |splice| - deleted;
        assert |lines[..start]| == start && |From(lines, start + deleted)| == |lines| - start - deleted;
      }
      more := curLine < docLines;
    }

    method Close()
      requires Valid()
      modifies this
      ensures Valid() && !inSplice && State() == old(State()) && lines == old(Document())
    {
      if inSplice {
        LeaveSplice();
      }
    }
  }

  /** The last line of the buffer replaced by other lines. */
  lemma {:induction false} EndReplaced(lines: seq<string>, start: nat, deleted: nat, splice: seq<string>,
          xs: seq<string>)
    requires start <= |lines| && splice != []
    ensures var doc, i := Spliced(lines, start, deleted, splice), start + |splice| - 1;
            i < |doc| && Spliced(lines, start, deleted, splice[..|splice| - 1] + xs) == doc[..i] + xs + From(doc, i + 1)
  {
    var doc, i := Spliced(lines, start, deleted, splice), start + |splice| - 1;
    assert doc[..i] == lines[..start] + splice[..|splice| - 1];
    assert From(doc, i + 1) == From(lines, start + deleted);
  }

  /** The line behind the buffer is taken into it. */
  lemma {:induction false} SpliceGrows(lines: seq<string>, start: nat, deleted: nat, splice: seq<string>)
    requires start <= |lines|
    ensures var d := Spliced(lines, start, deleted, splice);
            Spliced(lines, start, deleted + 1, splice + [LineAt(lines, start + deleted)]) ==
            if start + |splice| < |d| then d else d + [""]
  {
    var x, n := LineAt(lines, start + deleted), start + deleted;
    Regroup(lines[..start], splice, [x], From(lines, n + 1));
    if n < |lines| { assert [lines[n]] + lines[n + 1..] == lines[n..]; }
  }

  lemma {:induction false} Regroup(a: seq<string>, b: seq<string>, c: seq<string>, d: seq<string>)
    ensures a + (b + c) + d == a + b + (c + d) && a + b + [] == a + b && (a + b + (c + []) == a + b + c)
  {}

  lemma {:induction false} ReplaceAmong(a: seq<string>, s: seq<string>, b: seq<string>, k: nat, x: string)
    requires k < |s|
    ensures a + s[k := x] + b == (a + s + b)[|a| + k := x]
  {}

  lemma {:induction false} EndPatched(lines: seq<string>, start: nat, deleted: nat, splice: seq<string>, x: string)
    requires start <= |lines| && splice != []
    ensures var doc, i := Spliced(lines, start, deleted, splice), start + |splice| - 1;
            i < |doc| && Spliced(lines, start, deleted, splice[|splice| - 1 := x]) == doc[i := x]
  {
    ReplaceAmong(lines[..start], splice, From(lines, start + deleted), |splice| - 1, x);
  }

  /** Whole lines inserted behind the buffer. */
  lemma {:induction false} InsertedBehind(lines: seq<string>, start: nat, deleted: nat, splice: seq<string>,
          ls: seq<string>)
    requires start <= |lines| && ls != []
    ensures Inside(Cursor(Spliced(lines, start, deleted, splice), start + |splice|, 0))
    ensures var d := InsertLines(Cursor(Spliced(lines, start, deleted, splice), start + |splice|, 0), ls);
            d == Cursor(Spliced(lines, start, deleted, splice + ls), start + |splice| + |ls|, 0) && Inside(d)
  {
    hide Spliced, From, InsertLines, Inside;
    var doc, i, tail := Spliced(lines, start, deleted, splice), start + |splice|, From(lines, start + deleted);
    SplicedBody(lines, start, deleted, splice);
    SplicedBody(lines, start, deleted, splice + ls);
    SplicedBehind(lines, start, deleted, splice, 0);
    InsertedLines(doc, i, ls);
    assert doc[..i] == lines[..start] + splice;
    assert doc[..i] + ls + tail == lines[..start] + (splice + ls) + tail;
  }

  lemma {:induction false} InsertedLines(doc: seq<string>, i: nat, ls: seq<string>)
    requires i <= |doc| && ls != []
    ensures InsertLines(Cursor(doc, i, 0), ls) == Cursor(doc[..i] + ls + From(doc, i), i + |ls|, 0)
    ensures Inside(Cursor(doc, i, 0)) && Inside(InsertLines(Cursor(doc, i, 0), ls))
  {
    if i < |doc| {
      assert doc[i][..0] + ls[0] == ls[0] && doc[i][0..] == doc[i];
      assert [ls[0]] + ls[1..] == ls;
      assert From(doc, i) == [doc[i]] + doc[i + 1..];
      Regroup(doc[..i], ls, [doc[i]], doc[i + 1..]);
    }
  }

  /** Whole lines inserted in the last line of the buffer. */
  lemma {:induction false} InsertedInLine(lines: seq<string>, start: nat, deleted: nat, splice: seq<string>, col: nat,
          ls: seq<string>)
    requires start <= |lines| && ls != [] && splice != []
    requires Inside(Cursor(Spliced(lines, start, deleted, splice), start + |splice| - 1, col))
    ensures var i := |splice| - 1;
            var d := InsertLines(Cursor(Spliced(lines, start, deleted, splice), start + i, col), ls);
            && col <= |splice[i]| && Inside(d)
            && d == Cursor(Spliced(lines, start, deleted,
               splice[i := splice[i][..col] + ls[0]] + ls[1..] + [splice[i][col..]]), start + i + |ls|, 0)
  {
    hide Spliced, From, LineAt;
    var i, doc := |splice| - 1, Spliced(lines, start, deleted, splice);
    SpliceEnd(lines, start, deleted, splice);
    LineAtIndex(doc, start + i);
    EndReplaced(lines, start, deleted, splice, CutLine(splice[i], col, ls));
    FromSlice(doc, start + i + 1);
    CutLineIs(splice, col, ls);
    hide CutLine;
    InsertLinesInside(Cursor(doc, start + i, col), ls);
  }

  lemma {:induction false} CutLineIs(splice: seq<string>, col: nat, ls: seq<string>)
    requires splice != [] && ls != [] && col <= |splice[|splice| - 1]|
    ensures var i := |splice| - 1;
            splice[i := splice[i][..col] + ls[0]] + ls[1..] + [splice[i][col..]] ==
                splice[..i] + CutLine(splice[i], col, ls)
  {}

  lemma {:induction false} InsertLinesInside(c: Cursor, ls: seq<string>)
    requires Inside(c) && ls != []
    ensures Inside(InsertLines(c, ls))
    ensures c.line < |c.lines| ==> InsertLines(c, ls).lines ==
                                   c.lines[..c.line] + CutLine(c.lines[c.line], c.col, ls) + c.lines[c.line + 1..]
  {}

  /** A part of a line inserted at the end of the buffer, once the current line is in it. */
  lemma {:induction false} InsertedPart(lines: seq<string>, start: nat, deleted: nat, splice: seq<string>, line: nat,
          col: nat, text: string)
    requires start <= |lines| && start <= line && start + |splice| - 1 <= line <= start + |splice|
    requires Inside(Cursor(Spliced(lines, start, deleted, splice), line, col))
    ensures var put := line == start + |splice|;
            var s := if put then splice + [LineAt(lines, start + deleted)] else splice;
            var k := if put then deleted + 1 else deleted;
            var i := line - start;
            var d := InsertChars(Cursor(Spliced(lines, start, deleted, splice), line, col), text);
            && i == |s| - 1 && col <= |s[i]| && Inside(d)
            && d == Cursor(Spliced(lines, start, k, s[i := s[i][..col] + text + s[i][col..]]), line, col + |text|)
  {
    hide Spliced, From, LineAt;
    var put := line == start + |splice|;
    var s := if put then splice + [LineAt(lines, start + deleted)] else splice;
    var k := if put then deleted + 1 else deleted;
    var doc, i := Spliced(lines, start, deleted, splice), line - start;
    if put {
      LinePutIn(lines, start, deleted, splice);
    } else {
      SpliceEnd(lines, start, k, s);
    }
    PaddedDocument(doc, line);
    SpliceEnd(lines, start, k, s);
    var x := s[i][..col] + text + s[i][col..];
    EndReplaced(lines, start, k, s, [x]);
    assert s[i := x] == s[..i] + [x];
    LineAtIndex(doc[..line] + [x] + From(doc, line + 1), line);
  }

  /** The next line of the list put into the buffer. */
  lemma {:induction false} LinePutIn(lines: seq<string>, start: nat, deleted: nat, splice: seq<string>)
    requires start <= |lines|
    ensures var doc := Spliced(lines, start, deleted, splice);
            && start + |splice| <= |doc|
            && Spliced(lines, start, deleted + 1, splice + [LineAt(lines, start + deleted)]) ==
               if start + |splice| < |doc| then doc else doc + [""]
  {}

  /** An empty line put in behind the document does not show in what an insertion there makes. */
  lemma {:induction false} PaddedDocument(doc: seq<string>, i: nat)
    requires i <= |doc|
    ensures var d := if i < |doc| then doc else doc + [""];
            d[..i] == doc[..i] && d[i] == LineAt(doc, i) && From(d, i + 1) == From(doc, i + 1)
  {}

  lemma {:induction false} SplitNotEmpty(t: string)
    requires t != ""
    ensures SplitTextLines(t) != []
  {}

  /** Up to `k` lines from index `i` on. */
  function LinesFrom(lines: seq<string>, i: nat, k: nat): seq<string> {
    if i < |lines| then lines[i..if i + k < |lines| then i + k else |lines|] else []
  }

  lemma {:induction false} RemoveNothing(c: Cursor)
    requires Inside(c)
    ensures Lines.RemoveLines(c, 0) == c && RemovedLines(c, 0) == ""
  {}

  /** Removing lines at the end of the buffer: the current line from the buffer, the others from the list. */
  lemma {:induction false} RemoveFromSplice(lines: seq<string>, start: nat, deleted: nat, splice: seq<string>,
          line: nat, col: nat, l: nat)
    requires start <= |lines| && l > 0 && start + |splice| - 1 <= line <= start + |splice| && start <= line
    requires line == start + |splice| ==> col == 0
    requires Inside(Cursor(Spliced(lines, start, deleted, splice), line, col))
    requires line + l <= |Spliced(lines, start, deleted, splice)|
    ensures var c := Cursor(Spliced(lines, start, deleted, splice), line, col);
            var (d, removed) := (Lines.RemoveLines(c, l), RemovedLines(c, l));
            if line == start + |splice| then
              && d == Cursor(Spliced(lines, start, deleted + l, splice), line, col)
              && removed == Join(LinesFrom(lines, start + deleted, l))
              && start + deleted + l <= |lines|
            else if col == 0 then
              && d == Cursor(Spliced(lines, start, deleted + l - 1, splice[..|splice| - 1]), line, col)
              && removed == splice[|splice| - 1] + Join(LinesFrom(lines, start + deleted, l - 1))
              && (l > 1 ==> start + deleted + l - 1 <= |lines|)
            else
              var x := splice[|splice| - 1];
              && col <= |x|
              && d == Cursor(Spliced(lines, start, deleted + l,
                 splice[|splice| - 1 := x[..col] + LineAt(lines, start + deleted + l - 1)]), line, col)
              && removed == x[col..] + Join(LinesFrom(lines, start + deleted, l - 1))
    ensures Inside(Lines.RemoveLines(Cursor(Spliced(lines, start, deleted, splice), line, col), l))
  {
    if line == start + |splice| {
      RemoveBehindSplice(lines, start, deleted, splice, l);
    } else {
      SpliceEnd(lines, start, deleted, splice);
      if col == 0 {
        RemoveSpliceLine(lines, start, deleted, splice, l);
      } else {
        RemoveSplicePart(lines, start, deleted, splice, col, l);
      }
    }
  }

  lemma {:induction false} RemoveBehindSplice(lines: seq<string>, start: nat, deleted: nat, splice: seq<string>, l: nat)
    requires start <= |lines| && l > 0 && start + |splice| + l <= |Spliced(lines, start, deleted, splice)|
    ensures var c := Cursor(Spliced(lines, start, deleted, splice), start + |splice|, 0);
            && Lines.RemoveLines(c, l) == Cursor(Spliced(lines, start, deleted + l, splice), c.line, 0)
            && RemovedLines(c, l) == Join(LinesFrom(lines, start + deleted, l))
            && start + deleted + l <= |lines|
  {
    hide Join, LinesFrom, From, LineAt;
    SplicedAt(lines, start, deleted, splice, l);
    var doc, i := Spliced(lines, start, deleted, splice), start + |splice|;
    assert doc[..i] == lines[..start] + splice;
    SplicedBody(lines, start, deleted + l, splice);
    hide Spliced;
    FromSlice(doc, i + l);
    LineAtIndex(doc, i);
    assert doc[i][0..] == doc[i];
    JoinLine(doc, i, l);
  }

  lemma {:induction false} JoinLine(doc: seq<string>, i: nat, l: nat)
    requires l > 0 && i + l <= |doc|
    ensures Join(doc[i..i + l]) == doc[i] + Join(doc[i + 1..i + l])
  {
    assert doc[i..i + l] == [doc[i]] + doc[i + 1..i + l];
  }

  lemma {:induction false} SpliceEndPatched(lines: seq<string>, start: nat, deleted: nat, splice: seq<string>,
          y: string)
    requires start <= |lines| && splice != []
    ensures Spliced(lines, start, deleted, splice[|splice| - 1 := y]) ==
            lines[..start] + splice[..|splice| - 1] + [y] + From(lines, start + deleted)
  {
    assert splice[|splice| - 1 := y] == splice[..|splice| - 1] + [y];
  }

  lemma {:induction false} RemoveSpliceLine(lines: seq<string>, start: nat, deleted: nat, splice: seq<string>, l: nat)
    requires start <= |lines| && l > 0 && splice != []
    requires start + |splice| - 1 + l <= |Spliced(lines, start, deleted, splice)|
    ensures var c := Cursor(Spliced(lines, start, deleted, splice), start + |splice| - 1, 0);
            && Lines.RemoveLines(c, l) ==
               Cursor(Spliced(lines, start, deleted + l - 1, splice[..|splice| - 1]), c.line, 0)
            && RemovedLines(c, l) == splice[|splice| - 1] + Join(LinesFrom(lines, start + deleted, l - 1))
            && (l > 1 ==> start + deleted + l - 1 <= |lines|)
  {
    hide Spliced, Join, LinesFrom, From, LineAt;
    SplicedAt(lines, start, deleted, splice, l - 1);
    SpliceEnd(lines, start, deleted, splice);
    var doc, i := Spliced(lines, start, deleted, splice), start + |splice| - 1;
    LineAtIndex(doc, i);
    FromSlice(doc, i + l);
    SplicedBody(lines, start, deleted + l - 1, splice[..|splice| - 1]);
  }

  lemma {:induction false} RemoveSplicePart(lines: seq<string>, start: nat, deleted: nat, splice: seq<string>, col: nat,
          l: nat)
    requires start <= |lines| && l > 0 && splice != [] && 0 < col <= |splice[|splice| - 1]|
    requires start + |splice| - 1 + l <= |Spliced(lines, start, deleted, splice)|
    ensures var c := Cursor(Spliced(lines, start, deleted, splice), start + |splice| - 1, col);
            var x := splice[|splice| - 1];
            && Inside(c)
            && RemovedLines(c, l) == x[col..] + Join(LinesFrom(lines, start + deleted, l - 1))
            && Lines.RemoveLines(c, l) ==
               Cursor(Spliced(lines, start, deleted + l,
                   splice[|splice| - 1 := x[..col] + LineAt(lines, start + deleted + l - 1)]), c.line, col)
  {
    hide Spliced, Join, LinesFrom, From, LineAt;
    SplicedAt(lines, start, deleted, splice, l - 1);
    SpliceEnd(lines, start, deleted, splice);
    var doc, i := Spliced(lines, start, deleted, splice), start + |splice| - 1;
    LineAtIndex(doc, i);
    var y := splice[|splice| - 1][..col] + LineAt(lines, start + deleted + l - 1);
    SpliceEndPatched(lines, start, deleted + l, splice, y);
    SplicedBehind(lines, start, deleted, splice, l);
    assert doc[i + 1..i + l] == LinesFrom(lines, start + deleted, l - 1);
    assert doc[..i] + [y] + From(doc, i + l + 1) ==
           lines[..start] + splice[..|splice| - 1] + [y] + From(lines, start + deleted + l);
  }

  lemma {:induction false} SpliceEnd(lines: seq<string>, start: nat, deleted: nat, splice: seq<string>)
    requires start <= |lines| && splice != []
    ensures var doc, i := Spliced(lines, start, deleted, splice), start + |splice| - 1;
            i < |doc| && doc[..i] == lines[..start] + splice[..|splice| - 1] && doc[i] == splice[|splice| - 1]
  {}

  lemma {:induction false} SplicedBehind(lines: seq<string>, start: nat, deleted: nat, splice: seq<string>, k: nat)
    requires start <= |lines|
    ensures From(Spliced(lines, start, deleted, splice), start + |splice| + k) == From(lines, start + deleted + k)
  {}

  lemma {:induction false} FromSlice(doc: seq<string>, i: nat)
    requires i <= |doc|
    ensures From(doc, i) == doc[i..]
  {}

  lemma {:induction false} LineAtIndex(doc: seq<string>, i: nat)
    requires i < |doc|
    ensures LineAt(doc, i) == doc[i]
  {}

  lemma {:induction false} SplicedBody(lines: seq<string>, start: nat, deleted: nat, splice: seq<string>)
    requires start <= |lines|
    ensures Spliced(lines, start, deleted, splice) == lines[..start] + splice + From(lines, start + deleted)
  {}

  /** The lines of a spliced document behind the buffer. */
  lemma {:induction false} SplicedAt(lines: seq<string>, start: nat, deleted: nat, splice: seq<string>, k: nat)
    requires start <= |lines| && start + |splice| + k <= |Spliced(lines, start, deleted, splice)|
    ensures var doc, i := Spliced(lines, start, deleted, splice), start + |splice|;
            && doc[i..i + k] == LinesFrom(lines, start + deleted, k)
            && LineAt(doc, i + k) == LineAt(lines, start + deleted + k)
            && From(doc, i + k) == From(lines, start + deleted + k)
            && (k > 0 ==> start + deleted + k <= |lines|)
  {
    var doc, i := Spliced(lines, start, deleted, splice), start + |splice|;
    var tail := From(lines, start + deleted);
    assert doc[i..] == tail;
    assert doc[i..i + k] == doc[i..][..k];
    assert LinesFrom(lines, start + deleted, k) == tail[..k];
    if i + k < |doc| { assert doc[i + k] == tail[k]; }
  }
}
