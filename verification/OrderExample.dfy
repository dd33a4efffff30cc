/**
  Two changesets that leave the lines of a text in order while their composition does not: an append,
      and the deletion of
  a final newline with the appended character.
 */
module OrderExample {
  import opened Basics
  import opened Pools
  import opened Ops
  import opened Syntax
  import opened Assemblers
  import opened Changesets
  import opened TextMutation
  import opened FinalNewlines
  import opened LineOrder
  import opened Inversion
  import opened InverseLaws
  import opened InverseOrder
  import opened Histories
  import opened Lines
  import opened Validation
  import Algebra
  import opened Attributes
  import InverseExample
  import Numerals
  import Zip = Composition

  const LINE := Op(Keep, 2, 1, "")
  const FIRST := Op(Keep, 1, 0, "")
  const LAST := Op(Insert, 1, 1, "")
  const INSERTED := Op(Insert, 2, 1, "")
  const KEPT := Op(Keep, 1, 1, "")
  const CUT := Op(Delete, 1, 1, "")
  const CUT_CHAR := Op(Delete, 1, 0, "")

  const APPEND_OPS := [LINE, INSERTED]
  const DELETE_OPS := [FIRST, CUT, CUT_CHAR]
  const COMPOSED_OPS := [FIRST, CUT, LAST]

  // ----- the zip -----

  /** One round of the zip on operations in front of others. */
  lemma {:induction false} ZipRound(a: Op, x: seq<Op>, b: Op, y: seq<Op>, bank: string, pool: Pool, s: Zip.Slice,
          d: Zip.Drawn, z: Zip.Composed)
    requires Zip.Slicer(a, b, pool) == Ok(s)
    requires var skip := if a.code == Insert && b.code == Delete then Min(a.chars, b.chars) else 0;
             skip <= |bank| && Zip.Draw(s.out, b, bank[skip..], "") == Ok(d)
    requires var (ops1, ops2) := (Zip.Emit(s.att) + x, Zip.Emit(s.cs) + y);
             Zip.ComposeZip(ops1, ops2, d.bank1, d.bank2, s.pool) == Ok(z)
    ensures Zip.ComposeZip([a] + x, [b] + y, bank, "", pool) ==
            Ok(Zip.Composed(Zip.Emit(s.out) + z.ops, d.piece + z.bank, z.pool))
  {
    hide Zip.Slicer, Zip.Draw;
    var ops1, ops2 := [a] + x, [b] + y;
    assert ops1[1..] == x && ops2[1..] == y;
    assert Zip.Behind(s.att, ops1) == Zip.Emit(s.att) + x && Zip.Behind(s.cs, ops2) == Zip.Emit(s.cs) + y;
  }

  lemma {:induction false} LastZip(pool: Pool)
    ensures Zip.ComposeZip([LAST], [], "\n", "", pool) == Ok(Zip.Composed([LAST], "\n", pool))
  {
    var s := Zip.Slicer(LAST, NO_OP, pool).value;
    assert "\n"[0..] == "\n" && "\n"[..1] == "\n" && "\n"[1..] == "";
    assert Zip.Draw(s.out, NO_OP, "\n", "") == Ok(Zip.Drawn("\n", "", ""));
    hide Zip.Draw, Zip.Slicer;
    assert Zip.Behind(s.att, [LAST]) == [] && Zip.Behind(s.cs, []) == [];
    assert Zip.ComposeZip([], [], "", "", pool) == Ok(Zip.Composed([], "", pool));
    assert [LAST] + [] == [LAST] && "\n" + "" == "\n";
  }

  /** A longer operation loses its first characters, or keeps them. */
  lemma {:induction false} SliceLonger(a: Op, b: Op, pool: Pool)
    requires (a.code == Insert && b.code == Delete) || (a.code == b.code == Keep && a.attribs == "")
    requires a.chars > b.chars && b.lines <= a.lines <= a.chars && b.lines <= b.chars
    ensures Zip.Slicer(a, b, pool) ==
            Ok(Zip.Slice(if a.code == Insert then b.(code := Nop) else b,
                a.(chars := a.chars - b.chars, lines := a.lines - b.lines), b.(code := Nop), pool))
  {
    hide AttribsFromString, UpdatePool, AttribString;
  }

  lemma {:induction false} InsertionSlice(pool: Pool) returns (s: Zip.Slice)
    ensures Zip.Slicer(INSERTED, CUT_CHAR, pool) == Ok(s)
    ensures s.att == LAST && s.cs.code == Nop && s.out.code == Nop && s.pool == pool
  {
    hide Zip.Slicer;
    SliceLonger(INSERTED, CUT_CHAR, pool);
    s := Zip.Slicer(INSERTED, CUT_CHAR, pool).value;
  }

  lemma {:induction false} KeepSlice(pool: Pool) returns (s: Zip.Slice)
    ensures Zip.Slicer(LINE, FIRST, pool) == Ok(s)
    ensures s.att == KEPT && s.cs.code == Nop && s.out == FIRST && s.pool == pool
  {
    hide Zip.Slicer;
    SliceLonger(LINE, FIRST, pool);
    s := Zip.Slicer(LINE, FIRST, pool).value;
  }

  /** The insertion whose first character is deleted at once. */
  lemma {:induction false} InsertionZip(pool: Pool)
    ensures Zip.ComposeZip([INSERTED], [CUT_CHAR], "b\n", "", pool) == Ok(Zip.Composed([LAST], "\n", pool))
  {
    hide Zip.ComposeZip;
    LastZip(pool);
    hide Zip.Slicer;
    var s := InsertionSlice(pool);
    assert "b\n"[1..] == "\n";
    assert Zip.Emit(s.att) + [] == [LAST] && Zip.Emit(s.cs) + [] == [];
    ZipRound(INSERTED, [], CUT_CHAR, [], "b\n", pool, s, Zip.Drawn("", "\n", ""), Zip.Composed([LAST], "\n", pool));
    assert [INSERTED] + [] == [INSERTED] && [CUT_CHAR] + [] == [CUT_CHAR] && [] + [LAST] == [LAST] && "" + "\n" == "\n";
  }

  lemma {:induction false} CutZip(pool: Pool)
    ensures Zip.ComposeZip([KEPT, INSERTED], [CUT, CUT_CHAR], "b\n", "", pool) ==
            Ok(Zip.Composed([CUT, LAST], "\n", pool))
  {
    hide Zip.ComposeZip;
    InsertionZip(pool);
    var s := Zip.Slicer(KEPT, CUT, pool).value;
    assert s.att.code == Nop && s.cs.code == Nop && s.out == CUT && s.pool == pool;
    hide Zip.Slicer;
    assert "b\n"[0..] == "b\n";
    assert Zip.Emit(s.att) + [INSERTED] == [INSERTED] && Zip.Emit(s.cs) + [CUT_CHAR] == [CUT_CHAR];
    ZipRound(KEPT, [INSERTED], CUT, [CUT_CHAR], "b\n", pool, s, Zip.Drawn("", "b\n", ""),
        Zip.Composed([LAST], "\n", pool));
    assert [KEPT] + [INSERTED] == [KEPT, INSERTED] && [CUT] + [CUT_CHAR] == [CUT, CUT_CHAR]
           && [CUT] + [LAST] == [CUT, LAST] && "" + "\n" == "\n";
  }

  lemma {:induction false} ExampleZip(pool: Pool)
    ensures Zip.ComposeZip(APPEND_OPS, DELETE_OPS, "b\n", "", pool) == Ok(Zip.Composed(COMPOSED_OPS, "\n", pool))
  {
    hide Zip.ComposeZip, Zip.Slicer;
    ExampleLists();
    CutZip(pool);
    var s := KeepSlice(pool);
    KeptRests(s);
    ZipRound(LINE, [INSERTED], FIRST, [CUT, CUT_CHAR], "b\n", pool, s, Zip.Drawn("", "b\n", ""),
        Zip.Composed([CUT, LAST], "\n", pool));
  }

  lemma {:induction false} KeptRests(s: Zip.Slice)
    requires s.att == KEPT && s.cs.code == Nop && s.out == FIRST
    ensures Zip.Emit(s.att) + [INSERTED] == [KEPT, INSERTED] && Zip.Emit(s.cs) + [CUT, CUT_CHAR] == [CUT, CUT_CHAR]
    ensures Zip.Emit(s.out) + [CUT, LAST] == COMPOSED_OPS
            && Zip.Draw(s.out, FIRST, "b\n"[0..], "") == Ok(Zip.Drawn("", "b\n", ""))
  {
    assert "b\n"[0..] == "b\n";
  }

  lemma {:induction false} ExampleLists()
    ensures [LINE] + [INSERTED] == APPEND_OPS && [FIRST] + [CUT, CUT_CHAR] == DELETE_OPS && "" + "\n" == "\n"
  {}

  // ----- the changesets -----

  /** Normal operations that fit a text are a changeset on it. */
  lemma {:induction false} Packed(ops: seq<Op>, bank: string, t: string, r: string)
    requires Normal(ops) && AllAttribText(ops) && FitsText(ops, bank, t) && InsertsFit(ops, bank)
    requires ApplyOps(ops, bank, t) == Ok(r)
    ensures var cs := Pack(|t|, |r|, Serialize(ops), bank);
            && WellFormed(cs, t) && After(cs, t) == r && OpsOf(cs) == ops
            && Unpack(cs) == Changeset(|t|, |r|, Serialize(ops), bank)
  {
    hide Pack, Unpack, CheckRep, Serialize, FitsText, ApplyOps, InsertsFit, Run, Plain, WellFormed, ApplyToText, OpsOf,
         Normal, AllAttribText;
    FitsTextRuns(ops, bank, t);
    StrictIsPlain(ops, bank, Plain(t));
    ApplyOpsRun(ops, bank, t);
    RunUsesBank(Ignore(true), ops, bank, Plain(t));
    ProducedWellFormed(ops, bank, t, r);
  }

  lemma {:induction false} Newline()
    ensures Newlines("\n") == 1 && Newlines("a") == 0 && Newlines("b") == 0 && Newlines("a\n") == 1
            && Newlines("b\n") == 1
    ensures Clean("a\n") && Clean("b\n") && Clean("\n") && Clean("a") && Clean("b")
  {
    assert "\n"[1..] == "" && "a"[1..] == "" && "b"[1..] == "" && "a\n"[1..] == "\n" && "b\n"[1..] == "\n";
  }

  lemma {:induction false} OneInsertion(op: Op, bank: string)
    requires op.code == Insert && op.chars == |bank| && op.lines == Newlines(bank) && Clean(bank)
    ensures FitsText([op], bank, "") && InsertsFit([op], bank) && ApplyOps([op], bank, "") == Ok(bank)
  {
    hide Newlines, Clean;
    assert [op][1..] == [] && bank[..op.chars] == bank && bank[op.chars..] == "" && bank + "" == bank;
    assert FitsText([], "", "") && InsertsFit([], "") && ApplyOps([], "", "") == Ok("");
  }

  lemma {:induction false} AppendFits()
    ensures FitsText(APPEND_OPS, "b\n", "a\n") && InsertsFit(APPEND_OPS, "b\n")
    ensures ApplyOps(APPEND_OPS, "b\n", "a\n") == Ok("a\nb\n") && !StopsMidline(APPEND_OPS, "b\n", "a\n", "")
  {
    hide Newlines, Clean;
    Newline();
    var ops, t, bank := APPEND_OPS, "a\n", "b\n";
    assert ops[1..] == [INSERTED] && [INSERTED][1..] == [] && t[..2] == t && t[2..] == "" && bank[..2] == bank
           && bank[2..] == "";
    assert ApplyOps([], "", "") == Ok("") && bank + "" == bank && t + bank == "a\nb\n" && "" + t == t;
    OneInsertion(INSERTED, bank);
    assert !StopsMidline([], "", "", t + bank) && !StopsMidline([INSERTED], bank, "", t);
  }

  lemma {:induction false} DeleteFits()
    ensures FitsText(DELETE_OPS, "", "a\nb\n") && InsertsFit(DELETE_OPS, "")
    ensures ApplyOps(DELETE_OPS, "", "a\nb\n") == Ok("a\n") && !StopsMidline(DELETE_OPS, "", "a\nb\n", "")
  {
    hide Newlines, Clean;
    Newline();
    var ops, t := DELETE_OPS, "a\nb\n";
    var t1, t2 := t[1..], t[1..][1..];
    assert ops[1..] == [CUT, CUT_CHAR] && [CUT, CUT_CHAR][1..] == [CUT_CHAR] && [CUT_CHAR][1..] == [];
    assert t[..1] == "a" && t1 == "\nb\n" && t1[..1] == "\n" && t2 == "b\n" && t2[..1] == "b" && t2[1..] == "\n";
    assert ApplyOps([], "", "\n") == Ok("\n") && "a" + "\n" == "a\n" && "" + "a" == "a" && "a" + "" == "a";
    assert FitsText([CUT_CHAR], "", t2) && InsertsFit([CUT_CHAR], "") && ApplyOps([CUT_CHAR], "", t2) == Ok("\n");
    assert FitsText([CUT, CUT_CHAR], "", t1) && InsertsFit([CUT, CUT_CHAR], "")
           && ApplyOps([CUT, CUT_CHAR], "", t1) == Ok("\n");
    assert !StopsMidline([], "", "\n", "a") && !StopsMidline([CUT_CHAR], "", t2, "a");
    assert !StopsMidline([CUT, CUT_CHAR], "", t1, "a");
  }

  lemma {:induction false} ComposedFits()
    ensures FitsText(COMPOSED_OPS, "\n", "a\n") && InsertsFit(COMPOSED_OPS, "\n")
    ensures ApplyOps(COMPOSED_OPS, "\n", "a\n") == Ok("a\n")
  {
    hide Newlines, Clean;
    Newline();
    var ops, t, l := COMPOSED_OPS, "a\n", "\n";
    assert ops[1..] == [CUT, LAST] && [CUT, LAST][1..] == [LAST] && [LAST][1..] == [];
    assert t[..1] == "a" && t[1..] == l && l[..1] == l && l[1..] == "" && l + "" == l && "a" + l == t;
    assert ApplyOps([], "", "") == Ok("");
    OneInsertion(LAST, l);
    assert FitsText([CUT, LAST], l, l) && InsertsFit([CUT, LAST], l) && ApplyOps([CUT, LAST], l, l) == Ok(l);
  }

  lemma {:induction false} ComposedStops()
    ensures StopsMidline(COMPOSED_OPS, "\n", "a\n", "")
  {
    var ops, t := COMPOSED_OPS, "a\n";
    assert ops[1..] == [CUT, LAST] && [CUT, LAST][1..] == [LAST] && t[..1] == "a" && t[1..] == "\n"
           && t[1..][1..] == "";
    assert "" + "a" == "a" && "a" + "" == "a";
    assert StopsMidline([LAST], "\n", "", "a");
    assert StopsMidline([CUT, LAST], "\n", "\n", "a");
  }

  lemma {:induction false} ExampleNormal()
    ensures Normal(APPEND_OPS) && Normal(DELETE_OPS) && Normal(COMPOSED_OPS)
    ensures AllAttribText(APPEND_OPS) && AllAttribText(DELETE_OPS) && AllAttribText(COMPOSED_OPS)
  {
    hide AttribText;
    EmptyAttribText();
  }

  lemma {:induction false} PrintedThree(a: Op, b: Op, c: Op)
    ensures Serialize([a, b, c]) == OpToString(a) + OpToString(b) + OpToString(c)
  {
    hide OpToString;
    assert [a, b, c][1..] == [b, c];
    InverseExample.PrintedTwo(b, c);
    assert OpToString(a) + (OpToString(b) + OpToString(c)) == OpToString(a) + OpToString(b) + OpToString(c);
  }

  /** The headers of the three changesets. */
  lemma {:induction false} Headers(ops: string, bank: string)
    ensures Pack(2, 4, ops, bank) == "Z:2>2" + ops + "$" + bank && Pack(4, 2, ops, bank) == "Z:4<2" + ops + "$" + bank
    ensures Pack(2, 2, ops, bank) == "Z:2>0" + ops + "$" + bank
  {
    hide Numerals.NumToString;
    InverseExample.SmallNumbers();
    FourPrinted();
    assert "Z:" + "2" + (">" + "2") == "Z:2>2" && "Z:" + "4" + ("<" + "2") == "Z:4<2"
           && "Z:" + "2" + (">" + "0") == "Z:2>0";
  }

  lemma {:induction false} AppendPrinted()
    ensures Pack(2, 4, Serialize(APPEND_OPS), "b\n") == "Z:2>2|1=2|1+2$b\n"
  {
    hide Numerals.NumToString;
    InverseExample.SmallNumbers();
    var a, b := APPEND_OPS[0], APPEND_OPS[1];
    assert OpToString(a) == "|1=2" && OpToString(b) == "|1+2" && APPEND_OPS == [a, b];
    hide OpToString;
    InverseExample.PrintedTwo(a, b);
    hide Serialize, Pack;
    Headers(Serialize(APPEND_OPS), "b\n");
    assert Serialize(APPEND_OPS) == "|1=2|1+2";
  }

  lemma {:induction false} DeletePrinted()
    ensures Pack(4, 2, Serialize(DELETE_OPS), "") == "Z:4<2=1|1-1-1$"
  {
    hide Numerals.NumToString;
    InverseExample.SmallNumbers();
    FourPrinted();
    var a := DELETE_OPS[0];
    assert OpToString(a) == "=1" && OpToString(CUT) == "|1-1" && OpToString(CUT_CHAR) == "-1";
    assert DELETE_OPS == [a, CUT, CUT_CHAR];
    hide OpToString;
    PrintedThree(a, CUT, CUT_CHAR);
    hide Serialize, Pack;
    Headers(Serialize(DELETE_OPS), "");
    assert Serialize(DELETE_OPS) == "=1|1-1-1";
  }

  lemma {:induction false} ComposedPrinted()
    ensures Pack(2, 2, Serialize(COMPOSED_OPS), "\n") == "Z:2>0=1|1-1|1+1$\n"
  {
    hide Numerals.NumToString, Pack, Serialize;
    InverseExample.SmallNumbers();
    assert OpToString(FIRST) == "=1" && OpToString(CUT) == "|1-1" && OpToString(LAST) == "|1+1";
    hide OpToString;
    PrintedThree(FIRST, CUT, LAST);
    assert "=1" + "|1-1" + "|1+1" == "=1|1-1|1+1";
    Headers("=1|1-1|1+1", "\n");
    assert "Z:2>0" + "=1|1-1|1+1" + "$" + "\n" == "Z:2>0=1|1-1|1+1$\n";
  }

  lemma {:induction false} FourPrinted()
    ensures Numerals.NumToString(4) == "4"
  {}

  lemma {:induction false} Lengths()
    ensures |"a\n"| == 2 && |"a\nb\n"| == 4
  {}

  lemma {:induction false} CourseOfTwo(a: string, b: string, t: string, m: string, r: string)
    requires WellFormed(a, t) && After(a, t) == m && EndsInNewline(m) && !Disorders(a, t)
    requires WellFormed(b, m) && After(b, m) == r && EndsInNewline(r) && !Disorders(b, m)
    ensures Course([a, b], t) && TextAfterAll([a, b], t) == r
  {
    hide WellFormed, After, Disorders, EndsInNewline;
    var cs := [a, b];
    assert cs[..0] == [] && cs[..1] == [a] && cs[..1][..0] == [];
    assert TextAfterAll([a], t) == m by { assert [a][..0] == []; }
  }

  /** The example for any strings that are its changesets. */
  lemma {:induction false} Composed(a: string, b: string, c: string, pool: Pool)
    requires a == Pack(2, 4, Serialize(APPEND_OPS), "b\n") && b == Pack(4, 2, Serialize(DELETE_OPS), "")
    requires c == Pack(2, 2, Serialize(COMPOSED_OPS), "\n")
    ensures Course([a, b], "a\n") && TextAfterAll([a, b], "a\n") == "a\n"
    ensures Algebra.Compose(a, b, pool) == Ok((c, pool))
    ensures WellFormed(c, "a\n") && After(c, "a\n") == "a\n" && Disorders(c, "a\n")
  {
    hide Pack, Unpack, CheckRep, Serialize, Deserialize, FitsText, ApplyOps, InsertsFit, Run, Plain, WellFormed,
         ApplyToText, Normal, AllAttribText, StopsMidline, Zip.ComposeZip, Assemble, Course, TextAfterAll;
    var t, m := "a\n", "a\nb\n";
    Lengths();
    ExampleNormal();
    AppendFits();
    DeleteFits();
    Packed(APPEND_OPS, "b\n", t, m);
    Packed(DELETE_OPS, "", m, t);
    CourseOfTwo(a, b, t, m, t);
    ExampleZip(pool);
    ComposedIs(a, b, c, pool);
    ComposedFits();
    Packed(COMPOSED_OPS, "\n", t, t);
    ComposedStops();
  }

  lemma {:induction false} ComposedIs(a: string, b: string, c: string, pool: Pool)
    requires Unpack(a) == Changeset(2, 4, Serialize(APPEND_OPS), "b\n") && OpsOf(a) == APPEND_OPS
    requires Unpack(b) == Changeset(4, 2, Serialize(DELETE_OPS), "") && OpsOf(b) == DELETE_OPS
    requires Deserialize(Unpack(a).ops).Ok? && Deserialize(Unpack(b).ops).Ok?
    requires Zip.ComposeZip(APPEND_OPS, DELETE_OPS, "b\n", "", pool) == Ok(Zip.Composed(COMPOSED_OPS, "\n", pool))
    requires c == Pack(2, 2, Serialize(COMPOSED_OPS), "\n")
    ensures Algebra.Compose(a, b, pool) == Ok((c, pool))
  {
    hide Pack, Unpack, Serialize, Deserialize, Zip.ComposeZip, Assemble, Normal;
    ExampleNormal();
    assert Assemble(COMPOSED_OPS) == COMPOSED_OPS by { AssembleFixed(COMPOSED_OPS); }
  }

  /**
    An append and a deletion that takes a final newline away, both of which leave the lines in order. Their composition
    does not: changing the lines by it leaves an empty one behind.
   */
  lemma {:induction false} ComposedDisorder(pool: Pool)
    ensures Course(["Z:2>2|1=2|1+2$b\n", "Z:4<2=1|1-1-1$"], "a\n")
    ensures TextAfterAll(["Z:2>2|1=2|1+2$b\n", "Z:4<2=1|1-1-1$"], "a\n") == "a\n"
    ensures Algebra.Compose("Z:2>2|1=2|1+2$b\n", "Z:4<2=1|1-1-1$", pool) == Ok(("Z:2>0=1|1-1|1+1$\n", pool))
    ensures WellFormed("Z:2>0=1|1-1|1+1$\n", "a\n") && After("Z:2>0=1|1-1|1+1$\n", "a\n") == "a\n"
    ensures Disorders("Z:2>0=1|1-1|1+1$\n", "a\n")
  {
    hide *;
    AppendPrinted();
    DeletePrinted();
    ComposedPrinted();
    Composed("Z:2>2|1=2|1+2$b\n", "Z:4<2=1|1-1-1$", "Z:2>0=1|1-1|1+1$\n", pool);
  }

  // ----- a false alarm -----

  const REPLACE_OPS := [Op(Delete, 2, 1, ""), Op(Insert, 2, 1, "")]

  lemma {:induction false} ReplaceFits()
    ensures FitsText(REPLACE_OPS, "b\n", "a\n") && InsertsFit(REPLACE_OPS, "b\n") && Normal(REPLACE_OPS)
    ensures ApplyOps(REPLACE_OPS, "b\n", "a\n") == Ok("b\n") && !StopsMidline(REPLACE_OPS, "b\n", "a\n", "")
    ensures Consumed(REPLACE_OPS) == 2 && DeletedEnd(REPLACE_OPS) == 2
  {
    hide Newlines, Clean;
    Newline();
    var ops, t, bank := REPLACE_OPS, "a\n", "b\n";
    assert ops[1..] == [INSERTED] && [INSERTED][1..] == [] && t[..2] == t && t[2..] == "" && bank[..2] == bank
           && bank[2..] == "";
    assert ApplyOps([], "", "") == Ok("") && bank + "" == bank && "" + "" == "" && "" + bank == bank;
    OneInsertion(INSERTED, bank);
    assert !StopsMidline([], "", "", bank) && !StopsMidline([INSERTED], bank, "", "");
    assert Consumed([INSERTED]) == 0 && DeletedEnd([INSERTED]) == 0 && !HasKeep([INSERTED]);
  }

  lemma {:induction false} ReplacePrinted()
    ensures Pack(2, 2, Serialize(REPLACE_OPS), "b\n") == "Z:2>0|1-2|1+2$b\n" && AllAttribText(REPLACE_OPS)
  {
    hide Numerals.NumToString, AttribText;
    EmptyAttribText();
    InverseExample.SmallNumbers();
    var a := REPLACE_OPS[0];
    assert OpToString(a) == "|1-2" && OpToString(INSERTED) == "|1+2" && REPLACE_OPS == [a, INSERTED];
    hide OpToString;
    InverseExample.PrintedTwo(a, INSERTED);
    hide Serialize, Pack;
    Headers(Serialize(REPLACE_OPS), "b\n");
    assert Serialize(REPLACE_OPS) == "|1-2|1+2";
  }

  /**
    A whole text is replaced whose first character has an attribute and whose newline has none. The changeset leaves the
    lines in order and its inverse leads back to the text, yet the round-trip check complains: character and newline
    come back one after the other.
   */
  lemma {:induction false} FalseAlarm(pool: Pool, order: Order)
    requires Enumerates(order)
    ensures var cs := "Z:2>0|1-2|1+2$b\n";
            && WellFormed(cs, "a\n") && After(cs, "a\n") == "b\n" && !Disorders(cs, "a\n")
            && Inversion.Inverse(cs, ["a\n"], ["*1+1|1+1"], pool, order).Ok?
    ensures var inv := Inversion.Inverse("Z:2>0|1-2|1+2$b\n", ["a\n"], ["*1+1|1+1"], pool, order).value.0;
            After(inv, "b\n") == "a\n" && !Returns(inv, SplitTextLines("b\n"), ["a\n"])
  {
    hide Pack, Unpack, CheckRep, Serialize, Deserialize, FitsText, ApplyOps, InsertsFit, Run, Plain, WellFormed,
         ApplyToText, Normal, AllAttribText, StopsMidline, Inversion.Inverse, CoveredBy, Returns, Fresh, Flatten,
         Produces, After, Consumed, DeletedEnd, OpsOf, SplitTextLines;
    var cs, t := "Z:2>0|1-2|1+2$b\n", "a\n";
    Lengths();
    ReplaceFits();
    ReplacePrinted();
    assert |"b\n"| == 2;
    Packed(REPLACE_OPS, "b\n", t, "b\n");
    InverseExample.BoldCovered();
    var d := InverseBroken(pool);
    assert Join([t]) == t by { assert [t][1..] == [] && t + "" == t; }
    InverseReturns(cs, [t], ["*1+1|1+1"], pool, order, pool, d);
    TornBreaks(cs, t, d);
    assert d[|d| - 2..] == d;
  }

  lemma {:induction false} InverseBroken(pool: Pool) returns (d: Doc)
    ensures Produces(Verbatim(true, pool), InverseExample.BOLD_LINE, "a\n", [], d) && |d| == 2 && Text(d) == "a\n"
    ensures Breaks(d)
  {
    hide Produces, ComposeAttributes;
    var v := Verbatim(true, pool);
    InverseExample.BoldDocument(v);
    d := Fresh(v, "*1", "a") + Fresh(v, "", "\n");
    SameLength(v, InverseExample.BOLD_LINE, "a\n", d);
    assert d[0] == Cell('a', map["" := "*1"]) && d[1] == Cell('\n', map["" := ""]);
    assert d[0].attrs[""] != d[1].attrs[""] by { assert |"*1"| == 2 && |""| == 0; }
    BreaksAt(d, 1);
  }
}
