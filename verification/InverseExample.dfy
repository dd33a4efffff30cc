/** An attribute that does not come back when a change of it is undone. */
module InverseExample {
  import opened Basics
  import opened Pools
  import opened Attributes
  import opened Ops
  import opened Syntax
  import opened Assemblers
  import opened Changesets
  import opened Algebra
  import opened AttributedText
  import opened Lines
  import opened Inversion
  import opened InverseLaws
  import opened UndoAttributes
  import Numerals
  import opened Rebasing

  const BOLD := Attribute("b", "x")
  const NOT_BOLD := Attribute("b", "")
  const BOLD_POOL := Pool(map[0 := BOLD, 1 := NOT_BOLD], map[BOLD := 0, NOT_BOLD := 1], 2)
  const BOLD_LINE := [Op(Insert, 1, 0, "*1"), Op(Insert, 1, 1, "")]
  const BOLD_KEEP := [Op(Keep, 1, 0, "*0")]

  lemma {:induction false} BoldPool()
    ensures Good(BOLD_POOL)
  {
    hide Trim, Good;
    assert BOLD.value != NOT_BOLD.value by { assert |"x"| != |""|; }
    TrimOne("b");
    TrimOne("x");
    TrimNothing();
    TwoEntries(BOLD, NOT_BOLD);
  }

  /** A pool of two trimmed attributes. */
  lemma {:induction false} TwoEntries(a: Attribute, b: Attribute)
    requires a != b && Trim(a.key) == a.key && Trim(a.value) == a.value
    requires Trim(b.key) == b.key && Trim(b.value) == b.value
    ensures Good(Pool(map[0 := a, 1 := b], map[a := 0, b := 1], 2))
  {
    hide Trim;
    var pool := Pool(map[0 := a, 1 := b], map[a := 0, b := 1], 2);
    assert pool.Consistent();
  }

  lemma {:induction false} TrimOne(s: string)
    requires |s| == 1 && !IsSpace(s[0])
    ensures Trim(s) == s
  {}

  /** How the two attribute strings of the example are read. */
  lemma {:induction false} BoldReads()
    ensures FromString("*0", BOLD_POOL) == map["b" := "x"] && Resolved("*0", BOLD_POOL)
    ensures FromString("*1", BOLD_POOL) == map["b" := ""] && Resolved("*1", BOLD_POOL)
  {
    hide Good, FromString, Resolved;
    BoldPool();
    assert Numerals.NumToString(0) == "0" && Numerals.NumToString(1) == "1";
    assert "*" + "0" == "*0" && "*" + "1" == "*1";
    BoldRead(0, "x");
    BoldRead(1, "");
  }

  lemma {:induction false} BoldRead(n: nat, v: string)
    requires Good(BOLD_POOL) && n in BOLD_POOL.numToAttrib && BOLD_POOL.numToAttrib[n] == Attribute("b", v)
    ensures var a := "*" + Numerals.NumToString(n); FromString(a, BOLD_POOL) == map["b" := v] && Resolved(a, BOLD_POOL)
  {
    hide FromString, Numerals.NumToString, Trim, Scan;
    var m, a := map["b" := v], "*" + Numerals.NumToString(n);
    assert BOLD_POOL.attribToNum[Attribute("b", v)] == n;
    assert Trim("b") == "b" && Trim(v) == v;
    assert Numbers(m, ["b"], BOLD_POOL) == [n] by { assert ["b"][1..] == []; }
    assert Encode([n]) == a by { assert [n][1..] == [] && a + "" == a; }
    ReadBack(m, ["b"], BOLD_POOL);
    ScanEncode([n]);
    assert Lookup([n], BOLD_POOL).Some? by { assert [n][1..] == []; }
  }

  /** The changeset and the attribution line of the example, as strings. */
  lemma {:induction false} BoldStrings()
    ensures AllPrintable(BOLD_LINE) && Serialize(BOLD_LINE) == "*1+1|1+1"
    ensures AllAttribText(BOLD_KEEP) && Pack(2, 2, Serialize(BOLD_KEEP), "") == "Z:2>0*0=1$"
  {
    hide Numerals.NumToString, AttribText;
    SmallNumbers();
    var a, b, c := BOLD_LINE[0], BOLD_LINE[1], BOLD_KEEP[0];
    assert OpToString(a) == "*1+1";
    assert OpToString(b) == "|1+1";
    assert OpToString(c) == "*0=1";
    hide OpToString;
    PrintedTwo(a, b);
    PrintedOne(c);
    assert BOLD_LINE == [a, b] && BOLD_KEEP == [c];
    assert "*1+1" + "|1+1" == "*1+1|1+1";
    OneAttrib("1");
    OneAttrib("0");
    assert "*" + "1" == "*1" && "*" + "0" == "*0";
    EmptyAttribText();
  }

  lemma {:induction false} SmallNumbers()
    ensures Numerals.NumToString(0) == "0" && Numerals.NumToString(1) == "1" && Numerals.NumToString(2) == "2"
  {}

  lemma {:induction false} PrintedOne(a: Op)
    ensures Serialize([a]) == OpToString(a)
  {
    hide OpToString;
    assert [a][1..] == [] && OpToString(a) + "" == OpToString(a);
  }

  lemma {:induction false} PrintedTwo(a: Op, b: Op)
    ensures Serialize([a, b]) == OpToString(a) + OpToString(b)
  {
    hide OpToString;
    assert [a, b][1..] == [b];
    PrintedOne(b);
  }

  lemma {:induction false} OneAttrib(n: string)
    requires |n| == 1 && Numerals.AllDigits(n)
    ensures AttribText("*" + n)
  {
    var s := "*" + n;
    assert s[1..] == n && n[1..] == "" && s[2..] == "";
    assert Numerals.DigitRun(n) == 1;
  }

  /** What the attribution line makes of its text. */
  lemma {:induction false} BoldDocument(sem: AttrSem)
    ensures Produces(sem, BOLD_LINE, "a\n", [], Fresh(sem, "*1", "a") + Fresh(sem, "", "\n"))
  {
    hide Produces, Fresh;
    var a, b := BOLD_LINE[0], BOLD_LINE[1];
    assert Newlines("\n") == 1 && Newlines("a") == 0 by { assert "\n"[1..] == "" && "a"[1..] == ""; }
    NothingProducedIn(sem, []);
    var x, y := Fresh(sem, "*1", "a"), Fresh(sem, "", "\n");
    ProducesInsert(sem, b, "\n", [], "", [], []);
    assert [b] + [] == [b] && "\n" + "" == "\n" && y + [] == y;
    ProducesInsert(sem, a, "a", [b], "\n", [], y);
    assert [a] + [b] == BOLD_LINE && "a" + "\n" == "a\n";
  }

  lemma {:induction false} BoldKeeps()
    ensures Produces(Ignore(true), BOLD_KEEP, "", Plain("a\n"), Plain("a\n")) && Normal(BOLD_KEEP)
  {
    hide Plain;
    var d, c := Plain("a\n"), BOLD_KEEP[0];
    PlainText("a\n");
    TextSplit(d, 1);
    assert "a\n"[..1] == "a" && Newlines("a") == 0 by { assert "a"[1..] == ""; }
    RestyleIgnored(true, c.attribs, d[..1]);
    assert BOLD_KEEP[1..] == [] && d[..1] + [] == d[..1] && d[..1] + d[1..] == d;
    assert RunOp(Ignore(true), c, "", d) == Some(Effect(d[..1], "", d[1..]));
    assert Run(Ignore(true), [], "", d[1..]) == Some(Effect([], "", d[1..]));
  }

  /** The changeset of the example is well-formed on its text. */
  lemma {:induction false} BoldChangeset()
    ensures WellFormed("Z:2>0*0=1$", Join(["a\n"])) && OpsOf("Z:2>0*0=1$") == BOLD_KEEP
  {
    hide Produces, WellFormed, OpsOf, Plain, Serialize, Pack, Unpack, ApplyToText, AttribText, Normal;
    var t := "a\n";
    BoldStrings();
    BoldKeeps();
    assert |t| == 2;
    ProducedWellFormed(BOLD_KEEP, "", t, t);
    assert Join([t]) == t by { assert [t][1..] == [] && t + "" == t; }
  }

  /** The attribution line of the example covers its text. */
  lemma {:induction false} BoldCovered()
    ensures CoveredBy(["*1+1|1+1"], ["a\n"]) && Flatten(["*1+1|1+1"]) == BOLD_LINE
  {
    hide Produces, Fresh, Plain, Deserialize, Serialize;
    var aline, t := "*1+1|1+1", "a\n";
    BoldStrings();
    DeserializeSerialize(BOLD_LINE);
    BoldDocument(Ignore(true));
    FreshIsPlain(true, "*1", "a");
    FreshIsPlain(true, "", "\n");
    PlainConcat("a", "\n");
    assert "a" + "\n" == t;
    assert [aline][1..] == [] && BOLD_LINE + [] == BOLD_LINE;
  }

  /** The pool of the example knows every attribute that is named. */
  lemma {:induction false} BoldNamed()
    ensures AttribsResolved("Z:2>0*0=1$", BOLD_POOL) && NamedAttribution(["*1+1|1+1"], BOLD_POOL)
  {
    hide Resolved, OpsOf, Flatten, WellFormed, CoveredBy;
    BoldReads();
    BoldChangeset();
    BoldCovered();
    EmptyResolved(BOLD_POOL);
  }

  /** Bold is set on a character that has it explicitly unset; after undoing, the key is gone. */
  lemma {:induction false} EmptyValueLost(order: Order) returns (d: Doc)
    requires Enumerates(order)
    ensures Text(d) == "a\n" && Produces(In(false, BOLD_POOL), BOLD_LINE, "a\n", [], d)
    ensures Inverse("Z:2>0*0=1$", ["a\n"], ["*1+1|1+1"], BOLD_POOL, order).Ok?
            && AfterDoc(BOLD_POOL, "Z:2>0*0=1$", d).Some?
    ensures var (inv, p) := Inverse("Z:2>0*0=1$", ["a\n"], ["*1+1|1+1"], BOLD_POOL, order).value;
            AfterDoc(p, inv, AfterDoc(BOLD_POOL, "Z:2>0*0=1$", d).value) != Some(d)
  {
    hide Fresh, Run, Plain, Resolved, Deserialize, Serialize, Pack, Unpack, CheckRep, ApplyToText, AttribText, Normal,
         Inverse, AfterDoc, Good, OpsOf;
    BoldPool();
    BoldChangeset();
    BoldCovered();
    BoldNamed();
    BoldReads();
    BoldDocument(In(false, BOLD_POOL));
    assert Join(["a\n"]) == "a\n" by { assert ["a\n"][1..] == [] && "a\n" + "" == "a\n"; }
    d := InverseAttributed("Z:2>0*0=1$", ["a\n"], ["*1+1|1+1"], BOLD_POOL, order);
    FirstBold(d);
    assert d[..1][0].attrs == map["b" := ""] && "b" in map["b" := "x"];
    assert !CanTakeBack(map["b" := "x"], d[..1]);
    assert Min(BOLD_KEEP[0].chars, |d|) == 1;
  }

  lemma {:induction false} FirstBold(d: Doc)
    requires d == Fresh(In(false, BOLD_POOL), "*1", "a") + Fresh(In(false, BOLD_POOL), "", "\n")
    ensures |d| == 2 && d[0].attrs == map["b" := ""]
  {
    hide FromString;
    BoldReads();
    assert Fresh(In(false, BOLD_POOL), "*1", "a")[0].attrs == FromString("*1", BOLD_POOL);
  }
}
