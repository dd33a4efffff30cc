/** HTML export: the nesting of lists, lib/io/exportHtml.go. */
module HtmlLists {
  import opened Basics

  /** A line: its list level, 0 outside lists, the kind of list, and whether it has content and text. */
  datatype Line = Line(level: nat, kind: string, content: bool, blank: bool)

  /** What is written: lists are opened and closed as ordered or not; items and content stand between. */
  datatype Piece = OpenList(ordered: bool) | CloseList(ordered: bool) | OpenItem | CloseItem | Content

  /** The lists open after the pieces, innermost first; none if a closing tag does not fit. */
  function ListNest(ps: seq<Piece>, stack: seq<bool>): Option<seq<bool>>
    decreases |ps|
  {
    if ps == [] then Some(stack)
    else match ps[0]
      case OpenList(o) => ListNest(ps[1..], [o] + stack)
      case CloseList(o) => if stack != [] && stack[0] == o then ListNest(ps[1..], stack[1..]) else None
      case _ => ListNest(ps[1..], stack)
  }

  /** The lists open around each content, innermost first. */
  function Around(ps: seq<Piece>, stack: seq<bool>): seq<seq<bool>>
    decreases |ps|
  {
    if ps == [] then []
    else match ps[0]
      case OpenList(o) => Around(ps[1..], [o] + stack)
      case CloseList(o) => Around(ps[1..], if stack != [] then stack[1..] else [])
      case Content => [stack] + Around(ps[1..], stack)
      case _ => Around(ps[1..], stack)
  }

  lemma {:induction false} ListNestNext(ps: seq<Piece>, p: Piece, stack: seq<bool>)
    requires ListNest(ps, stack).Some?
    ensures ListNest(ps + [p], stack) == ListNest([p], ListNest(ps, stack).value)
    ensures Around(ps + [p], stack) == Around(ps, stack) + (if p.Content? then [ListNest(ps, stack).value] else [])
    decreases |ps|
  {
    if ps == [] {
      assert ps + [p] == [p] && [p][1..] == [];
    } else {
      assert (ps + [p])[1..] == ps[1..] + [p];
      var st := match ps[0] case OpenList(o) => [o] + stack case CloseList(_) => stack[1..] case _ => stack;
      ListNestNext(ps[1..], p, st);
    }
  }

  function Repeat(o: bool, n: nat): (r: seq<bool>)
    ensures |r| == n && forall i :: 0 <= i < n ==> r[i] == o
  {
    if n == 0 then [] else [o] + Repeat(o, n - 1)
  }

  datatype OpenedList = OpenedList(level: nat, kind: string)

  /** The lists of one kind on the levels below `n`. */
  function Opened(n: nat, kind: string): (r: seq<OpenedList>)
    ensures |r| == n && forall i :: 0 <= i < n ==> r[i] == OpenedList(i, kind)
  {
    if n == 0 then [] else Opened(n - 1, kind) + [OpenedList(n - 1, kind)]
  }

  predicate ListExists(lists: seq<OpenedList>, level: nat, kind: string) {
    exists i :: 0 <= i < |lists| && lists[i].level == level && lists[i].kind == kind
  }

  function FilterList(lists: seq<OpenedList>, level: nat, kind: string): seq<OpenedList> {
    if lists == [] then []
    else (if lists[0] != OpenedList(level, kind) then [lists[0]] else []) + FilterList(lists[1..], level, kind)
  }

  /** A list level is removed from between the lower and the higher ones. */
  lemma {:induction false} FilterOne(lists: seq<OpenedList>, level: nat, kind: string, k: nat)
    requires k < |lists| && lists[k] == OpenedList(level, kind) && forall i :: 0 <= i < |lists| && i != k ==>
             lists[i].level != level
    ensures FilterList(lists, level, kind) == lists[..k] + lists[k + 1..]
    decreases |lists|
  {
    if k == 0 {
      FilterNone(lists[1..], level, kind);
      assert lists[..0] == [];
    } else {
      FilterOne(lists[1..], level, kind, k - 1);
      assert lists[..k] == [lists[0]] + lists[1..][..k - 1] && lists[1..][k..] == lists[k + 1..];
    }
  }

  lemma {:induction false} FilterNone(lists: seq<OpenedList>, level: nat, kind: string)
    requires forall i :: 0 <= i < |lists| ==> lists[i].level != level
    ensures FilterList(lists, level, kind) == lists
    decreases |lists|
  {
    if lists != [] { FilterNone(lists[1..], level, kind); }
  }

  class ListWriter {
    var openLists: seq<OpenedList>
    var pieces: seq<Piece>

    /** The lists around each content written. */
    ghost function Shown(): seq<seq<bool>>
      reads this
    {
      Around(pieces, [])
    }

    /** `n` lists of one kind are open. */
    ghost predicate At(n: nat, kind: string)
      reads this
    {
      ListNest(pieces, []) == Some(Repeat(kind == "number", n)) && openLists == Opened(n, kind)
    }

    constructor ()
      ensures At(0, "") && Shown() == []
    {
      openLists, pieces := [], [];
    }

    method Emit(p: Piece)
      requires ListNest(pieces, []).Some?
      modifies `pieces
      ensures ListNest(pieces, []) == ListNest([p], old(ListNest(pieces, [])).value) && pieces == old(pieces) + [p]
      ensures Shown() == old(Shown()) + (if p.Content? then [old(ListNest(pieces, [])).value] else [])
    {
      ListNestNext(pieces, p, []);
      pieces := pieces + [p];
      assert [p][1..] == [];
    }

    method EmitOther(p: Piece, ghost n: nat, ghost kind: string)
      requires At(n, kind) && !p.OpenList? && !p.CloseList?
      modifies `pieces
      ensures At(n, kind)
      ensures Shown() == old(Shown()) + (if p.Content? then [Repeat(kind == "number", n)] else [])
    {
      Emit(p);
      assert [p][1..] == [];
    }

    /** Opens the lists from level `from` to the level of the line. */
    method OpenTo(from: nat, line: Line, next: Option<Line>)
      requires from <= line.level && At(from, line.kind)
      modifies this
      ensures At(line.level, line.kind) && Shown() == old(Shown())
    {
      for diff := from to line.level
        invariant At(diff, line.kind) && Shown() == old(Shown())
      {
        openLists := openLists + [OpenedList(diff, line.kind)];
        if |pieces| > 0 {
          var prevPiece := pieces[|pieces| - 1];
          if prevPiece.OpenList? || prevPiece.CloseItem? {
            if next.None? || !(next.value.kind == "number" && next.value.blank) {
              ghost var o := openLists;
              Emit(OpenItem);
              assert [OpenItem][1..] == [];
            }
          }
        }
        Emit(OpenList(line.kind == "number"));
        assert [OpenList(line.kind == "number")][1..] == [];
      }
    }

    /** Closes one list. */
    method CloseOne(diff: nat, line: Line, ghost to: nat, ghost n: nat)
      requires to <= diff < line.level && n > 0 && ListNest(pieces, []) == Some(Repeat(line.kind == "number", n))
      requires openLists == Opened(to, line.kind) + Opened(line.level, line.kind)[diff..]
      modifies this
      ensures ListNest(pieces, []) == Some(Repeat(line.kind == "number", n - 1))
      ensures openLists == Opened(to, line.kind) + Opened(line.level, line.kind)[diff + 1..]
      ensures Shown() == old(Shown())
    {
      ghost var low, high, o := Opened(to, line.kind), Opened(line.level, line.kind), line.kind == "number";
      hide Opened;
      assert high[diff..] == [high[diff]] + high[diff + 1..];
      FilterOne(openLists, diff, line.kind, to);
      assert openLists[..to] == low && openLists[to + 1..] == high[diff + 1..];
      hide FilterList;
      openLists := FilterList(openLists, diff, line.kind);
      if |pieces| > 0 {
        var lastPiece := pieces[|pieces| - 1];
        if lastPiece.CloseList? {
          Emit(CloseItem);
          assert [CloseItem][1..] == [];
        }
      }
      Emit(CloseList(line.kind == "number"));
      assert [CloseList(o)][1..] == [] && Repeat(o, n)[1..] == Repeat(o, n - 1);
    }

    /** Closes the lists of the line down to level `to`. */
    method CloseTo(to: nat, line: Line)
      requires to <= line.level && At(line.level, line.kind)
      modifies this
      ensures At(to, line.kind) && Shown() == old(Shown())
    {
      OpenedSplit(to, line.level, line.kind);
      hide Opened, ListNest, Repeat, Around;
      for diff := to to line.level
        invariant Shown() == old(Shown())
        invariant ListNest(pieces, []) == Some(Repeat(line.kind == "number", line.level - (diff - to)))
        invariant openLists == Opened(to, line.kind) + Opened(line.level, line.kind)[diff..]
      {
        CloseOne(diff, line, to, line.level - (diff - to));
      }
      assert Opened(line.level, line.kind)[line.level..] == [];
    }
  }

  lemma {:induction false} OpenedSplit(to: nat, n: nat, kind: string)
    requires to <= n
    ensures Opened(n, kind) == Opened(to, kind) + Opened(n, kind)[to..]
  {
    assert Opened(n, kind)[..to] == Opened(to, kind);
  }

  /** How many lists of the line's kind stay open from the line before. */
  function Inherited(prev: Option<Line>, line: Line): nat {
    if prev.None? || prev.value.level == 0 || line.level == 0 || prev.value.kind != line.kind then 0
    else Min(prev.value.level, line.level)
  }

  lemma {:induction false} NothingOpen(w: ListWriter, a: string, b: string)
    requires w.At(0, a)
    ensures w.At(0, b)
  {}

  lemma {:induction false} NotListed(n: nat, level: nat, kind: string)
    requires n <= level
    ensures !ListExists(Opened(n, kind), level, kind)
  {}

  /** Opens the lists that a line needs. */
  method OpenFor(w: ListWriter, prev: Option<Line>, line: Line, next: Option<Line>)
    requires line.level > 0 && w.At(Inherited(prev, line), line.kind)
    modifies w
    ensures w.At(line.level, line.kind) && w.Shown() == old(w.Shown())
  {
    NotListed(Inherited(prev, line), line.level, line.kind);
    hide ListNest, Around, Repeat, Opened, ListExists;
    if prev.None? || prev.value.level != line.level || line.kind != prev.value.kind {
      var exists_ := ListExists(w.openLists, line.level, line.kind);
      if !exists_ {
        var prevLevel := 0;
        if prev.Some? && prev.value.level > 0 {
          prevLevel := prev.value.level;
        }
        if prev.Some? && line.kind != prev.value.kind {
          prevLevel := 0;
        }
        if prevLevel < line.level {
          w.OpenTo(prevLevel, line, next);
        }
      }
    }
  }

  /** Closes the lists that the next line does not need. */
  method CloseFor(w: ListWriter, line: Line, next: Option<Line>)
    requires line.level > 0 && w.At(line.level, line.kind)
    modifies w
    ensures next.Some? ==> w.At(Inherited(Some(line), next.value), next.value.kind)
    ensures next.None? ==> w.At(0, "")
    ensures w.Shown() == old(w.Shown())
  {
    if next.None? || next.value.level == 0 || next.value.level < line.level || line.kind != next.value.kind {
      var nextLevel := 0;
      if next.Some? && next.value.level > 0 {
        nextLevel := next.value.level;
      }
      if next.Some? && line.kind != next.value.kind {
        nextLevel := 0;
      }
      w.CloseTo(nextLevel, line);
      if nextLevel == 0 { NothingOpen(w, line.kind, if next.Some? then next.value.kind else ""); }
    }
  }

  /** One line inside a list. */
  method ExportListLine(w: ListWriter, prev: Option<Line>, line: Line, next: Option<Line>)
    requires line.level > 0 && w.At(Inherited(prev, line), line.kind)
    modifies w
    ensures next.Some? ==> w.At(Inherited(Some(line), next.value), next.value.kind)
    ensures next.None? ==> w.At(0, "")
    ensures w.Shown() == old(w.Shown()) + Expected(line)
  {
    hide ListNest, Around, Repeat, Opened;
    OpenFor(w, prev, line, next);
    assert w.Shown() + [] == w.Shown();
    if line.content {
      w.EmitOther(OpenItem, line.level, line.kind);
      w.EmitOther(Content, line.level, line.kind);
      ghost var shown := w.Shown();
      if next.Some? && next.value.level == line.level && line.kind == next.value.kind {
        if !(next.value.kind == "number" && next.value.blank) {
          w.EmitOther(CloseItem, line.level, line.kind);
          assert shown + [] == shown;
        }
      }
    }
    CloseFor(w, line, next);
  }

  /** The lists that should stand around the content of a line: as many of its kind as its level says. */
  function Expected(line: Line): seq<seq<bool>> {
    if line.level == 0 then [[]] else if line.content then [Repeat(line.kind == "number", line.level)] else []
  }

  function ExpectedAll(lines: seq<Line>): seq<seq<bool>> {
    if lines == [] then [] else ExpectedAll(lines[..|lines| - 1]) + Expected(lines[|lines| - 1])
  }

  /**
    For every sequence of lines with levels and kinds, the list tags are properly nested and closed, and the content of
    each line stands inside as many lists of its kind as its level says.
   */
  method ExportLists(lines: seq<Line>) returns (pieces: seq<Piece>)
    ensures ListNest(pieces, []) == Some([]) && Around(pieces, []) == ExpectedAll(lines)
  {
    hide ListNest, Around, Repeat, Opened;
    var w := new ListWriter();
    if lines != [] { NothingOpen(w, "", lines[0].kind); }
    for i := 0 to |lines|
      invariant fresh(w)
      invariant i < |lines| ==> w.At(Inherited(if i > 0 then Some(lines[i - 1]) else None, lines[i]), lines[i].kind)
      invariant i == |lines| ==> w.At(0, "")
      invariant w.Shown() == ExpectedAll(lines[..i])
    {
      assert lines[..i + 1][..i] == lines[..i];
      var prev := if i > 0 then Some(lines[i - 1]) else None;
      var next := if i + 1 < |lines| then Some(lines[i + 1]) else None;
      if lines[i].level > 0 {
        ExportListLine(w, prev, lines[i], next);
      } else {
        w.EmitOther(Content, 0, lines[i].kind);
        NothingOpen(w, lines[i].kind, if next.Some? then next.value.kind else "");
      }
    }
    assert lines[..|lines|] == lines;
    pieces := w.pieces;
  }
}
