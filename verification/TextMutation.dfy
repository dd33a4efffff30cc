/** Changing a list of lines by a changeset: MutateTextLines of lib/changeset/changeset.go. */
module TextMutation {
  import opened Basics
  import opened Ops
  import opened Syntax
  import opened Changesets
  import Lines
  import opened LineEditor
  import opened StringIterators

  // ----- operations that fit a text -----

  /** The operations fit the bank and the text, and those over several lines end with a newline. */
  predicate FitsText(ops: seq<Op>, bank: string, text: string) {
    if ops == [] then true
    else
      var op := ops[0];
      match op.code
      case Insert =>
        op.chars <= |bank| && Fits(Ignore(true), op.lines, bank[..op.chars])
            && FitsText(ops[1..], bank[op.chars..], text)
      case Nop => false
      case _ =>
        op.chars <= |text| && Fits(Ignore(true), op.lines, text[..op.chars])
            && FitsText(ops[1..], bank, text[op.chars..])
  }

  lemma {:induction false} FitsTextRuns(ops: seq<Op>, bank: string, text: string)
    ensures FitsText(ops, bank, text) <==> Run(Ignore(true), ops, bank, Plain(text)).Some?
  {
    hide Newlines, Clean, Fresh, Restyle, Plain, Text;
    if ops != [] {
      var op := ops[0];
      PlainText(text);
      if op.code == Insert {
        if op.chars <= |bank| { FitsTextRuns(ops[1..], bank[op.chars..], text); }
      } else if op.code != Nop && op.chars <= |text| {
        PlainSplit(text, op.chars);
        PlainText(text[..op.chars]);
        FitsTextRuns(ops[1..], bank, text[op.chars..]);
      }
    }
  }

  // ----- one operation at the cursor -----

  /** The characters that an operation inserts. */
  function Piece(op: Op, bank: string): string {
    if op.code == Insert && op.chars <= |bank| then bank[..op.chars] else ""
  }

  /** The first operation fits. */
  predicate FitsFirst(op: Op, bank: string, text: string) { FitsText([op], bank, text) }

  /** What the editor makes of an operation. */
  function Edit(c: Lines.Cursor, op: Op, piece: string): Lines.Cursor
    requires Lines.Inside(c) && op.lines >= 0
    requires op.code == Delete && op.chars > 0 ==>
               if op.lines > 0 then c.line + op.lines <= |c.lines|
               else c.line < |c.lines| && c.col + op.chars <= |c.lines[c.line]|
    requires op.code == Insert && op.lines > 0 ==> Lines.SplitTextLines(piece) != []
  {
    if op.chars == 0 then c
    else match op.code
      case Insert => if op.lines > 0 then Lines.InsertLines(c, Lines.SplitTextLines(piece))
           else Lines.InsertChars(c, piece)
      case Delete => if op.lines > 0 then Lines.RemoveLines(c, op.lines) else Lines.RemoveChars(c, op.chars)
      case Keep => if op.lines > 0 then Lines.SkipLines(c, op.lines) else Lines.SkipChars(c, op.chars)
      case Nop => c
  }

  /** An operation that fits the text behind the cursor can be done there and has its effect on the text. */
  lemma {:induction false} EditText(c: Lines.Cursor, op: Op, bank: string)
    requires Lines.Proper(c) && FitsFirst(op, bank, Lines.Behind(c))
    ensures op.lines >= 0 && (op.lines > 0 ==> op.chars > 0)
    ensures op.code == Delete && op.chars > 0 ==>
              if op.lines > 0 then c.line + op.lines <= |c.lines|
              else c.line < |c.lines| && c.col + op.chars <= |c.lines[c.line]|
    ensures op.code == Keep && op.chars > 0 ==>
              if op.lines > 0 then c.line + op.lines <= |c.lines|
              else c.col + op.chars <= |Lines.LineAt(c.lines, c.line)|
    ensures op.code == Insert && op.lines > 0 ==> Lines.SplitTextLines(Piece(op, bank)) != []
    ensures var d, t := Edit(c, op, Piece(op, bank)), Lines.Behind(c);
            && Lines.Proper(d)
            && Lines.Before(d) == Lines.Before(c)
               + (if op.code == Insert then Piece(op, bank) else if op.code == Keep then t[..op.chars] else "")
            && Lines.Behind(d) == if op.code == Insert then t else t[op.chars..]
  {
    hide Newlines, Lines.Proper, Lines.Before, Lines.Behind, Lines.SplitTextLines, Lines.InsertLines, Lines.InsertChars,
         Lines.RemoveLines;
    Lines.ProperInside(c);
    var t := Lines.Behind(c);
    assert [op][1..] == [];
    if op.code == Insert {
      NewlinesBound(bank[..op.chars]);
      if op.chars == 0 {
        assert bank[..0] == "" && t[0..] == t && Lines.Before(c) + "" == Lines.Before(c);
      } else if op.lines > 0 {
        Lines.InsertLinesText(c, bank[..op.chars]);
      } else {
        Lines.InsertCharsText(c, bank[..op.chars]);
      }
    } else {
      NewlinesBound(t[..op.chars]);
      assert Lines.Before(c) + "" == Lines.Before(c);
      if op.chars == 0 {
        assert t[..0] == "" && t[0..] == t;
      } else if op.lines > 0 {
        if op.code == Keep { Lines.SkipLinesText(c, op.chars, op.lines); } else {
          Lines.RemoveLinesText(c, op.chars, op.lines);
        }
      } else {
        Lines.CharsFit(c, op.chars);
        if op.code == Keep { Lines.SkipCharsText(c, op.chars); } else { Lines.RemoveCharsText(c, op.chars); }
      }
    }
  }

  // ----- the list of lines -----

  /** The text stops in the middle of a line. */
  predicate Midline(w: string) { w != "" && w[|w| - 1] != '\n' }

  /** The cursor is at the end of a document whose last line lacks its newline. */
  predicate Open(c: Lines.Cursor) {
    Lines.Inside(c) && c.line == |c.lines| - 1 && c.col == |c.lines[c.line]| && Lines.Before(c) != ""
  }

  /** The lines are full, or the cursor is behind a last line without newline. */
  predicate Shape(c: Lines.Cursor) { Lines.AllFull(c.lines) || Open(c) }

  lemma {:induction false} OpenBehind(c: Lines.Cursor)
    requires Open(c)
    ensures Lines.Behind(c) == ""
  {}

  lemma {:induction false} OpenNotFull(c: Lines.Cursor)
    requires Lines.Proper(c) && Open(c)
    ensures !Lines.AllFull(c.lines)
  {
    hide Newlines;
    var l := c.lines[c.line];
    assert l[..c.col] == l;
    assert !Lines.FullLine(l);
  }

  lemma {:induction false} JoinedFull(lines: seq<string>)
    requires Lines.AllFull(lines)
    ensures !Midline(Lines.Join(lines))
  {
    hide Newlines;
    if lines != [] {
      assert Lines.FullLine(lines[0]);
      JoinedFull(lines[1..]);
      var t := Lines.Join(lines[1..]);
      if t == "" { assert lines[0] + t == lines[0]; }
    }
  }

  /** With full lines only, the text can only be used up at the start of a line. */
  lemma {:induction false} FullStops(c: Lines.Cursor)
    requires Lines.Proper(c) && Lines.AllFull(c.lines)
    ensures !(Lines.Behind(c) == "" && Midline(Lines.Before(c)))
  {
    hide Newlines;
    if Lines.Behind(c) == "" {
      if c.line < |c.lines| {
        Lines.RestOfLine(c);
        assert false;
      }
      assert c.lines[..c.line] == c.lines;
      assert Lines.LineAt(c.lines, c.line)[..c.col] == "";
      assert Lines.Before(c) == Lines.Join(c.lines) + "" == Lines.Join(c.lines);
      JoinedFull(c.lines);
    }
  }

  lemma {:induction false} NoNewlineMidline(a: string, t: string)
    requires t != "" && Newlines(t) == 0
    ensures Midline(a + t)
  {
    NewlinesBound(t);
    assert (a + t)[|a + t| - 1] == t[|t| - 1];
    assert t[|t| - 1] in t;
  }

  /** Characters put behind full lines make a last line without newline. */
  lemma {:induction false} AppendOpens(c: Lines.Cursor, t: string)
    requires Lines.Proper(c) && c.line == |c.lines| && t != "" && Newlines(t) == 0
    ensures Lines.Inside(Lines.InsertChars(c, t)) && Open(Lines.InsertChars(c, t))
            && Midline(Lines.Before(Lines.InsertChars(c, t)))
  {
    hide Newlines, Lines.AllFull, Lines.LineList, Midline;
    var d := Lines.InsertChars(c, t);
    assert c.lines[..c.line] == c.lines && ""[..0] + t + ""[0..] == t;
    assert d.lines == c.lines + [t] && t[..|t|] == t && d.lines[..c.line] == c.lines;
    assert Lines.Before(d) == Lines.Join(c.lines) + t;
    NoNewlineMidline(Lines.Join(c.lines), t);
  }

  /** Removing the end of the document from within a line leaves a last line without newline. */
  lemma {:induction false} RemoveOpens(c: Lines.Cursor, l: nat)
    requires Lines.Proper(c) && l > 0 && c.col > 0 && c.line + l == |c.lines|
    ensures Lines.Inside(Lines.RemoveLines(c, l)) && Open(Lines.RemoveLines(c, l))
            && Midline(Lines.Before(Lines.RemoveLines(c, l)))
  {
    hide Newlines, Lines.AllFull, Lines.LineList, Midline;
    var d := Lines.RemoveLines(c, l);
    var x := c.lines[c.line][..c.col];
    assert x + "" == x && d.lines == c.lines[..c.line] + [x] && x[..c.col] == x
           && d.lines[..c.line] == c.lines[..c.line];
    assert Lines.Before(d) == Lines.Join(c.lines[..c.line]) + x;
    NoNewlineMidline(Lines.Join(c.lines[..c.line]), x);
  }

  /** At the end of an unfinished line, insertions leave the cursor at the end of an unfinished line. */
  lemma {:induction false} InsertOpen(c: Lines.Cursor, t: string, ls: seq<string>)
    requires Lines.Inside(c) && Open(c) && ls != []
    ensures Lines.Inside(Lines.InsertChars(c, t)) && Open(Lines.InsertChars(c, t))
    ensures Lines.Inside(Lines.InsertLines(c, ls))
            && (Lines.Before(Lines.InsertLines(c, ls)) != "" ==> Open(Lines.InsertLines(c, ls)))
  {
    hide Lines.Join;
    var l := c.lines[c.line];
    var d := Lines.InsertChars(c, t);
    assert l[..c.col] == l && l[c.col..] == "" && l + t + "" == l + t && (l + t)[..|l + t|] == l + t;
    assert d.lines == c.lines[..c.line] + [l + t] && d.lines[..c.line] == c.lines[..c.line];
    assert Lines.Before(c) == Lines.Join(c.lines[..c.line]) + l;
    assert Lines.Before(d) == Lines.Join(c.lines[..c.line]) + (l + t) == Lines.Before(c) + t;
    var e := Lines.InsertLines(c, ls);
    assert c.lines[c.line + 1..] == [] && e.lines[|e.lines| - 1] == "";
  }

  /** How an operation changes the shape of the list. */
  lemma {:induction false} EditShape(c: Lines.Cursor, op: Op, bank: string)
    requires Lines.Proper(c) && FitsFirst(op, bank, Lines.Behind(c)) && Shape(c)
    ensures op.lines >= 0
    ensures op.code == Delete && op.chars > 0 ==>
              if op.lines > 0 then c.line + op.lines <= |c.lines|
              else c.line < |c.lines| && c.col + op.chars <= |c.lines[c.line]|
    ensures op.code == Insert && op.lines > 0 ==> Lines.SplitTextLines(Piece(op, bank)) != []
    ensures var d := Edit(c, op, Piece(op, bank));
            Lines.Inside(d) && if Open(c) then Open(d)
                else Lines.AllFull(d.lines) || (Open(d) && Midline(Lines.Before(d)))
  {
    hide Newlines, Lines.Proper, Lines.Before, Lines.SplitTextLines, Lines.InsertLines, Lines.InsertChars,
         Lines.RemoveLines, Lines.RemoveChars, Lines.AllFull, Midline;
    EditText(c, op, bank);
    Lines.ProperInside(c);
    Lines.ProperInside(Edit(c, op, Piece(op, bank)));
    assert [op][1..] == [];
    if op.chars > 0 {
      if Open(c) {
        OpenBehind(c);
        var piece := bank[..op.chars];
        if op.lines > 0 { InsertOpen(c, piece, Lines.SplitTextLines(piece)); } else { InsertOpen(c, piece, [""]); }
      } else if op.code == Insert {
        InsertShape(c, op, bank);
      } else if op.code == Delete {
        DeleteShape(c, op);
      }
    }
  }

  lemma {:induction false} InsertShape(c: Lines.Cursor, op: Op, bank: string)
    requires Lines.Proper(c) && Lines.AllFull(c.lines) && op.code == Insert && op.chars > 0
    requires op.chars <= |bank| && Fits(Ignore(true), op.lines, bank[..op.chars])
    ensures op.lines > 0 ==> Lines.SplitTextLines(bank[..op.chars]) != []
    ensures Lines.Inside(c)
    ensures var d := Edit(c, op, bank[..op.chars]);
            Lines.Inside(d) && (Lines.AllFull(d.lines) || (Open(d) && Midline(Lines.Before(d))))
  {
    hide Newlines, Lines.Proper, Lines.Before, Lines.SplitTextLines, Lines.InsertLines, Lines.InsertChars,
         Lines.AllFull, Midline;
    var piece := bank[..op.chars];
    NewlinesBound(piece);
    Lines.ProperInside(c);
    if op.lines > 0 {
      Lines.SplitClean(piece);
      Lines.InsertLinesProper(c, Lines.SplitTextLines(piece));
      Lines.ProperInside(Lines.InsertLines(c, Lines.SplitTextLines(piece)));
    } else if c.line < |c.lines| {
      Lines.InsertCharsText(c, piece);
      Lines.ProperInside(Lines.InsertChars(c, piece));
      Lines.InsertCharsFull(c, piece);
    } else {
      AppendOpens(c, piece);
    }
  }

  lemma {:induction false} DeleteShape(c: Lines.Cursor, op: Op)
    requires Lines.Proper(c) && Lines.AllFull(c.lines) && op.code == Delete && op.chars > 0 && op.lines >= 0
    requires op.chars <= |Lines.Behind(c)| && Newlines(Lines.Behind(c)[..op.chars]) == op.lines
    requires if op.lines > 0 then c.line + op.lines <= |c.lines|
             else c.line < |c.lines| && c.col + op.chars <= |c.lines[c.line]|
    requires Lines.Inside(c) && Lines.Inside(Edit(c, op, ""))
    ensures var d := Edit(c, op, ""); Lines.AllFull(d.lines) || (Open(d) && Midline(Lines.Before(d)))
  {
    hide Newlines, Lines.Proper, Lines.Before, Lines.Behind, Lines.RemoveLines, Lines.RemoveChars, Lines.AllFull,
         Midline;
    if op.lines == 0 {
      Lines.RemoveCharsFull(c, op.chars);
    } else if c.line + op.lines < |c.lines| || c.col == 0 {
      Lines.RemoveLinesFull(c, op.lines);
    } else {
      RemoveOpens(c, op.lines);
    }
  }

  // ----- the run -----

  /** What an operation writes, and what it leaves of the bank and of the text. */
  function Wrote(op: Op, bank: string, text: string): string {
    if op.code == Insert then Piece(op, bank) else if op.code == Keep && op.chars <= |text| then text[..op.chars]
        else ""
  }

  function BankAfter(op: Op, bank: string): string {
    if op.code == Insert && op.chars <= |bank| then bank[op.chars..] else bank
  }

  function TextAfter(op: Op, text: string): string {
    if op.code != Insert && op.chars <= |text| then text[op.chars..] else text
  }

  /** At some point the text is used up while what is written stops in the middle of a line. */
  predicate StopsMidline(ops: seq<Op>, bank: string, text: string, written: string) {
    || (text == "" && Midline(written))
    || (ops != [] && StopsMidline(ops[1..], BankAfter(ops[0], bank), TextAfter(ops[0], text),
       written + Wrote(ops[0], bank, text)))
  }

  lemma {:induction false} FitsApplies(ops: seq<Op>, bank: string, text: string)
    requires FitsText(ops, bank, text)
    ensures ApplyOps(ops, bank, text).Ok?
  {
    hide Newlines, Clean;
    if ops != [] {
      var op := ops[0];
      if op.code == Insert {
        FitsApplies(ops[1..], bank[op.chars..], text);
      } else {
        FitsApplies(ops[1..], bank, text[op.chars..]);
      }
    }
  }

  /** The progress of one operation, on the side of the text. */
  lemma {:induction false} FitsStep(ops: seq<Op>, bank: string, text: string, written: string, r: string)
    requires ops != [] && FitsText(ops, bank, text)
    requires ApplyOps(ops, bank, text).Ok? && written + ApplyOps(ops, bank, text).value == r
    ensures FitsFirst(ops[0], bank, text)
    ensures FitsText(ops[1..], BankAfter(ops[0], bank), TextAfter(ops[0], text))
    ensures var rest := ApplyOps(ops[1..], BankAfter(ops[0], bank), TextAfter(ops[0], text));
            rest.Ok? && written + Wrote(ops[0], bank, text) + rest.value == r
  {
    hide Newlines, Clean;
    var op := ops[0];
    assert [op][1..] == [] && [op][0] == op;
    FitsApplies(ops, bank, text);
    var bank', text' := BankAfter(op, bank), TextAfter(op, text);
    FitsApplies(ops[1..], bank', text');
    assert FitsText([], bank', text');
    assert FitsText([op], bank, text);
    var s := ApplyOps(ops[1..], bank', text').value;
    assert ApplyOps(ops, bank, text).value == Wrote(op, bank, text) + s by {
      if op.code == Delete { assert "" + s == s; }
    }
    assert written + Wrote(op, bank, text) + s == written + (Wrote(op, bank, text) + s);
  }

  lemma {:induction false} StartProper(lines: seq<string>)
    requires Lines.LineList(lines)
    ensures var c := Lines.Cursor(lines, 0, 0);
            Lines.Proper(c) && Lines.Before(c) == "" && Lines.Behind(c) == Lines.Join(lines)
  {
    Lines.BehindStart(lines, 0);
    assert lines[0..] == lines && lines[..0] == [];
    assert Lines.LineAt(lines, 0)[..0] == "";
  }

  lemma {:induction false} FinishedText(c: Lines.Cursor, bank: string, r: string)
    requires Lines.Inside(c)
    requires ApplyOps([], bank, Lines.Behind(c)).Ok?
    requires Lines.Before(c) + ApplyOps([], bank, Lines.Behind(c)).value == r
    ensures Lines.Join(c.lines) == r
  {
    Lines.BeforeBehind(c);
  }

  /** An empty line, or none. */
  function Empty(more: bool): seq<string> { if more then [""] else [] }

  /** An unfinished last line is empty where the text ends with a newline. */
  lemma {:induction false} SplitOpen(c: Lines.Cursor)
    requires Lines.Proper(c) && Open(c)
    ensures c.lines == Lines.SplitTextLines(Lines.Join(c.lines)) + Empty(EndsInNewline(Lines.Join(c.lines)))
  {
    hide Newlines;
    var n := |c.lines| - 1;
    var full, last := c.lines[..n], c.lines[n];
    assert last[..c.col] == last && c.lines == full + [last];
    Lines.JoinConcat(full, [last]);
    Lines.JoinOne(last);
    assert Lines.Before(c) == Lines.Join(full) + last == Lines.Join(c.lines);
    JoinedFull(full);
    if last == "" {
      assert Lines.Join(full) + "" == Lines.Join(full);
      Lines.SplitJoin(full);
    } else {
      NoNewlineMidline(Lines.Join(full), last);
      SplitUnfinished(full, last);
    }
  }

  lemma {:induction false} SplitUnfinished(full: seq<string>, last: string)
    requires Lines.AllFull(full) && last != "" && Newlines(last) == 0
    ensures Lines.SplitTextLines(Lines.Join(full) + last) == full + [last]
  {
    hide Newlines;
    if full == [] {
      assert "" + last == last && last[|last|..] == "" && last[..|last|] == last;
    } else {
      assert Lines.FullLine(full[0]);
      var t := Lines.Join(full[1..]) + last;
      assert Lines.Join(full) + last == full[0] + t;
      Lines.FullLineEnd(full[0], t);
      SplitUnfinished(full[1..], last);
    }
  }

  /** The verdict on the final list. */
  lemma {:induction false} FinalShape(c: Lines.Cursor, midline: bool)
    requires Lines.Proper(c) && Shape(c)
    requires midline <==> Open(c)
    ensures c.lines ==
            Lines.SplitTextLines(Lines.Join(c.lines)) + Empty(midline && EndsInNewline(Lines.Join(c.lines)))
  {
    hide Lines.Proper, Lines.Join, Lines.SplitTextLines;
    if Open(c) {
      SplitOpen(c);
    } else {
      Lines.SplitJoin(c.lines);
      assert c.lines + [] == c.lines;
    }
  }

  lemma {:induction false} ShapeStep(c: Lines.Cursor, d: Lines.Cursor, ops: seq<Op>, bank: string, all: bool)
    requires Lines.Proper(c) && Lines.Proper(d) && Shape(c) && ops != []
    requires if Open(c) then Open(d) else Lines.AllFull(d.lines) || (Open(d) && Midline(Lines.Before(d)))
    requires Lines.Before(d) == Lines.Before(c) + Wrote(ops[0], bank, Lines.Behind(c))
             && Lines.Behind(d) == TextAfter(ops[0], Lines.Behind(c))
    requires all <==> Open(c) || StopsMidline(ops, bank, Lines.Behind(c), Lines.Before(c))
    ensures Shape(d)
    ensures all <==>
            Open(d) || StopsMidline(ops[1..], BankAfter(ops[0], bank), Lines.Behind(d), Lines.Before(d))
  {
    hide Lines.Proper, Lines.Before, Lines.Behind, Midline, Lines.AllFull;
    if !Open(c) {
      FullStops(c);
      if Open(d) {
        OpenBehind(d);
        OpenNotFull(d);
      }
    }
  }

  lemma {:induction false} ShapeStart(c: Lines.Cursor, ops: seq<Op>, bank: string)
    requires Lines.Proper(c) && Lines.AllFull(c.lines) && Lines.Before(c) == ""
    ensures Shape(c) && !Open(c)
  {}

  /** One operation, done by the editor. */
  method EditOne(mut: TextLinesMutator, bankIter: StringIterator, op: Op) returns (ok: bool)
    requires mut.Valid() && bankIter.Valid() && Lines.Proper(mut.State())
    requires FitsFirst(op, bankIter.Rest(), Lines.Behind(mut.State()))
    modifies mut, bankIter
    ensures mut.Valid() && bankIter.Valid() && ok
    ensures var (c, bank) := old((mut.State(), bankIter.Rest()));
            && Lines.Proper(mut.State())
            && Lines.Before(mut.State()) == Lines.Before(c) + Wrote(op, bank, Lines.Behind(c))
            && Lines.Behind(mut.State()) == TextAfter(op, Lines.Behind(c))
            && bankIter.Rest() == BankAfter(op, bank)
            && (Shape(c) ==> if Open(c) then Open(mut.State())
                             else Lines.AllFull(mut.State().lines)
                                  || (Open(mut.State()) && Midline(Lines.Before(mut.State()))))
  {
    hide Newlines, Lines.Proper, Lines.Before, Lines.Behind, Lines.SplitTextLines, Lines.InsertLines, Lines.InsertChars,
         Lines.RemoveLines, Lines.AllFull, Clean, Midline, Open;
    ghost var c, bank := mut.State(), bankIter.Rest();
    assert [op][1..] == [];
    EditText(c, op, bank);
    if Shape(c) { EditShape(c, op, bank); }
    ok := true;
    match op.code {
      case Insert =>
        var taken := bankIter.Take(op.chars);
        if taken.Err? {
          return false;
        }
        ok := mut.Insert(taken.value, op.lines);
      case Delete =>
        var _ := mut.Remove(op.chars, op.lines);
      case Keep =>
        mut.Skip(op.chars, op.lines, |op.attribs| > 0);
      case Nop =>
    }
  }

  /** All operations in order, done by the editor. */
  method EditAll(mut: TextLinesMutator, bankIter: StringIterator, ops: seq<Op>)
    requires mut.Valid() && bankIter.Valid() && Lines.Proper(mut.State()) && Lines.Before(mut.State()) == ""
    requires FitsText(ops, bankIter.Rest(), Lines.Behind(mut.State()))
    modifies mut, bankIter
    ensures mut.Valid() && Lines.Proper(mut.State())
    ensures ApplyOps(ops, old(bankIter.Rest()), old(Lines.Behind(mut.State()))) == Ok(Lines.Join(mut.Document()))
    ensures old(Lines.AllFull(mut.Document())) ==>
              mut.Document() ==
              Lines.SplitTextLines(Lines.Join(mut.Document()))
              + Empty(StopsMidline(ops, old(bankIter.Rest()), old(Lines.Behind(mut.State())), "")
                      && EndsInNewline(Lines.Join(mut.Document())))
  {
    hide Lines.LineList, Lines.Proper, Lines.Behind, Lines.Before, Lines.AllFull, FitsText, FitsFirst, ApplyOps,
         StopsMidline, Lines.Join, Wrote, BankAfter, TextAfter, Open, Lines.SplitTextLines;
    ghost var text, bank := Lines.Behind(mut.State()), bankIter.Rest();
    FitsApplies(ops, bank, text);
    ghost var full, stops := Lines.AllFull(mut.Document()), StopsMidline(ops, bank, text, "");
    ghost var result := ApplyOps(ops, bank, text).value;
    assert ops[0..] == ops && "" + result == result;
    if full { ShapeStart(mut.State(), ops, bank); }
    for i := 0 to |ops|
      invariant mut.Valid() && Lines.Proper(mut.State()) && bankIter.Valid()
      invariant FitsText(ops[i..], bankIter.Rest(), Lines.Behind(mut.State()))
      invariant ApplyOps(ops[i..], bankIter.Rest(), Lines.Behind(mut.State())).Ok?
      invariant Lines.Before(mut.State()) + ApplyOps(ops[i..], bankIter.Rest(), Lines.Behind(mut.State())).value ==
                result
      invariant full ==> Shape(mut.State())
      invariant full ==>
                  (stops <==>
                     || Open(mut.State())
                     || StopsMidline(ops[i..], bankIter.Rest(), Lines.Behind(mut.State()), Lines.Before(mut.State())))
    {
      ghost var c, b := mut.State(), bankIter.Rest();
      assert ops[i..][1..] == ops[i + 1..];
      FitsStep(ops[i..], b, Lines.Behind(c), Lines.Before(c), result);
      var ok := EditOne(mut, bankIter, ops[i]);
      if full { ShapeStep(c, mut.State(), ops[i..], b, stops); }
    }
    assert ops[|ops|..] == [];
    FinishedText(mut.State(), bankIter.Rest(), result);
    if full { FinalStop(mut.State(), bankIter.Rest(), stops); }
  }

  lemma {:induction false} ProperList(c: Lines.Cursor)
    requires Lines.Proper(c)
    ensures Lines.LineList(c.lines)
  {
    hide Lines.LineList, Lines.AllFull;
  }

  lemma {:induction false} FinalStop(c: Lines.Cursor, bank: string, stops: bool)
    requires Lines.Proper(c) && Shape(c)
    requires stops <==> Open(c) || StopsMidline([], bank, Lines.Behind(c), Lines.Before(c))
    ensures c.lines ==
            Lines.SplitTextLines(Lines.Join(c.lines)) + Empty(stops && EndsInNewline(Lines.Join(c.lines)))
  {
    hide Lines.Proper, Lines.Before, Lines.Behind, Midline, Lines.AllFull, Open, Lines.Join, Lines.SplitTextLines;
    if !Open(c) { FullStops(c); }
    FinalShape(c, stops);
  }

  // ----- which changesets keep the list in order -----

  /** A well-formed changeset fits its text. */
  lemma {:induction false} WellFormedFits(cs: string, text: string)
    requires WellFormed(cs, text)
    ensures Deserialize(Unpack(cs).ops).Ok? && FitsText(OpsOf(cs), Unpack(cs).bank, text)
    ensures ApplyToText(cs, text) == ApplyOps(OpsOf(cs), Unpack(cs).bank, text)
  {
    hide CheckRep, Unpack, Run, Plain, ApplyOps;
    CheckRepRegular(cs);
    FitsTextRuns(OpsOf(cs), Unpack(cs).bank, text);
  }

  /** Some text is left behind every deletion and every insertion: the end of the text is kept as it is. */
  predicate KeepsEnd(ops: seq<Op>, text: string) {
    if ops == [] then true
    else (ops[0].code == Keep || ops[0].chars == 0 || TextAfter(ops[0], text) != "")
         && KeepsEnd(ops[1..], TextAfter(ops[0], text))
  }

  /** Where the final newline is kept and nothing is inserted behind it, the list stays in order. */
  lemma {:induction false} KeepsEndInOrder(ops: seq<Op>, bank: string, text: string, written: string)
    requires FitsText(ops, bank, text) && KeepsEnd(ops, text)
    requires if text == "" then !Midline(written) else EndsInNewline(text)
    ensures !StopsMidline(ops, bank, text, written)
  {
    hide Newlines, Clean;
    if ops != [] {
      var op := ops[0];
      var written' := written + Wrote(op, bank, text);
      if op.chars == 0 {
        assert Wrote(op, bank, text) == "" && written' == written;
        assert op.code != Insert ==> TextAfter(op, text) == text;
      } else if TextAfter(op, text) == "" {
        assert op.code == Keep && Wrote(op, bank, text) == text;
        assert written'[|written'| - 1] == text[|text| - 1];
      }
      KeepsEndInOrder(ops[1..], BankAfter(op, bank), TextAfter(op, text), written');
    }
  }

  const LAST_LINE_OPS := [Op(Keep, 1, 0, ""), Op(Delete, 1, 1, ""), Op(Insert, 2, 1, "")]

  lemma {:induction false} LastLineFits()
    ensures FitsText(LAST_LINE_OPS, "b\n", "a\n") && InsertsFit(LAST_LINE_OPS, "b\n")
    ensures ApplyOps(LAST_LINE_OPS, "b\n", "a\n") == Ok("ab\n")
  {
    var ops, t, bank := LAST_LINE_OPS, "a\n", "b\n";
    assert t[..1] == "a" && t[1..] == "\n" && t[1..][..1] == "\n" && t[1..][1..] == "" && bank[..2] == bank
           && bank[2..] == "";
    assert Newlines("a") == 0 && Newlines("\n") == 1 && bank[1..] == "\n" && Newlines(bank) == 1;
    assert ops[1..] == [ops[1], ops[2]] && ops[1..][1..] == [ops[2]] && [ops[2]][1..] == [];
    assert ApplyOps([], "", "") == Ok("") && bank + "" == bank;
    assert FitsText([ops[2]], bank, "") && InsertsFit([ops[2]], bank) && ApplyOps([ops[2]], bank, "") == Ok(bank);
    assert FitsText(ops[1..], bank, t[1..]) && InsertsFit(ops[1..], bank)
           && ApplyOps(ops[1..], bank, t[1..]) == Ok(bank);
    assert ops[0].lines == Newlines(t[..1]) && ApplyOps(ops, bank, t) == Ok(t[..1] + bank);
    assert "a" + "b\n" == "ab\n";
  }

  lemma {:induction false} LastLineStops()
    ensures StopsMidline(LAST_LINE_OPS, "b\n", "a\n", "")
  {
    var ops, t, bank := LAST_LINE_OPS, "a\n", "b\n";
    assert t[..1] == "a" && t[1..] == "\n" && t[1..][1..] == "";
    assert ops[1..] == [ops[1], ops[2]] && "" + "a" == "a" && "a" + "" == "a";
    assert StopsMidline(ops[1..][1..], bank, "", "a");
    assert StopsMidline(ops[1..], bank, t[1..], "a");
  }

  /**
    CheckRep accepts a changeset that deletes the final newline in the middle of a line and then inserts the end
    of a line: the editor leaves an empty line behind it.
   */
  lemma {:induction false} EmptyLastLine() returns (cs: string)
    ensures cs == Pack(2, 3, Serialize(LAST_LINE_OPS), "b\n")
    ensures WellFormed(cs, "a\n") && ApplyToText(cs, "a\n") == Ok("ab\n")
    ensures StopsMidline(OpsOf(cs), Unpack(cs).bank, "a\n", "")
  {
    hide Pack, Unpack, CheckRep, Serialize, FitsText, ApplyOps, InsertsFit, Run, Plain, WellFormed, ApplyToText, OpsOf,
         StopsMidline;
    var ops, t, bank, r := LAST_LINE_OPS, "a\n", "b\n", "ab\n";
    LastLineFits();
    LastLineStops();
    FitsTextRuns(ops, bank, t);
    StrictIsPlain(ops, bank, Plain(t));
    ApplyOpsRun(ops, bank, t);
    RunUsesBank(Ignore(true), ops, bank, Plain(t));
    assert |t| == 2 && |r| == 3;
    ProducedWellFormed(ops, bank, t, r);
    cs := Pack(|t|, |r|, Serialize(ops), bank);
    assert OpsOf(cs) == ops && Unpack(cs).bank == bank;
    assert ApplyToText(cs, t) == Ok(r);
    assert WellFormed(cs, t);
  }

  /**
    Changes a list of lines by a changeset: the joined lines change as the text does. The new list is the new
    text cut into its lines, with an empty line behind them exactly if the text ran out in the middle of a line that was
    completed afterwards.
   */
  method MutateTextLines(cs: string, lines: seq<string>) returns (r: Result<seq<string>>)
    requires Lines.LineList(lines)
    requires Deserialize(Unpack(cs).ops).Ok? ==> FitsText(OpsOf(cs), Unpack(cs).bank, Lines.Join(lines))
    ensures r.Ok? <==> Deserialize(Unpack(cs).ops).Ok?
    ensures r.Ok? ==> ApplyOps(OpsOf(cs), Unpack(cs).bank, Lines.Join(lines)) == Ok(Lines.Join(r.value))
    ensures r.Ok? ==> Lines.LineList(r.value)
    ensures r.Ok? && Lines.AllFull(lines) ==>
              r.value ==
              Lines.SplitTextLines(Lines.Join(r.value))
              + Empty(StopsMidline(OpsOf(cs), Unpack(cs).bank, Lines.Join(lines), "")
                      && EndsInNewline(Lines.Join(r.value)))
  {
    hide Unpack, Deserialize, Lines.LineList, Lines.Proper, Lines.Behind, Lines.Before, Lines.AllFull, FitsText,
         ApplyOps, StopsMidline, Lines.Join, Lines.SplitTextLines;
    var u := Unpack(cs);
    var bankIter := new StringIterator(u.bank);
    var mut := new TextLinesMutator(lines);
    var csOps := Deserialize(u.ops);
    if csOps.Err? {
      return Err(csOps.error);
    }
    StartProper(lines);
    EditAll(mut, bankIter, csOps.value);
    ProperList(mut.State());
    mut.Close();
    r := Ok(mut.lines);
  }
}
