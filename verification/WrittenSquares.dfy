/**
  transformX of lib/cli/cli.go as it is written, where its second Follow does not fail: it closes for a server change
  that only sets attributes, and can go astray without an error for one that moves text.
 */
module WrittenSquares {
  import opened Basics
  import opened Pools
  import opened Attributes
  import opened Ops
  import opened Syntax
  import opened Assemblers
  import opened Changesets
  import opened Rebasing
  import opened Algebra
  import opened Clients
  import opened TextMutation
  import InverseExample
  import OrderExample
  import Numerals
  import Zip = Composition

  // ----- server changes that only set attributes -----

  predicate OnlyKeeps(ops: seq<Op>) { forall i :: 0 <= i < |ops| ==> ops[i].code == Keep }

  lemma {:induction false} FollowKeeps(ops1: seq<Op>, ops2: seq<Op>, bank1: string, bank2: string, c: Setting, n: nat)
    requires OnlyKeeps(ops2) && FollowZip(ops1, ops2, bank1, bank2, c, n).Ok?
    ensures OnlyKeeps(FollowZip(ops1, ops2, bank1, bank2, c, n).value)
    decreases |ops1| + |ops2|
  {
    hide FollowAttributes, InsertFirst;
    if !(ops1 == [] && ops2 == []) {
      var s := Step(Zip.First(ops1), Zip.First(ops2), bank1, bank2, c, n).value;
      StepKeeps(Zip.First(ops1), Zip.First(ops2), bank1, bank2, c, n);
      hide Step;
      FollowKeeps(Zip.Behind(s.op1, ops1), Zip.Behind(s.op2, ops2), bank1[s.skip1..], bank2[s.skip2..], c, n + 1);
    }
  }

  lemma {:induction false} StepKeeps(op1: Op, op2: Op, bank1: string, bank2: string, c: Setting, n: nat)
    requires op2.code in {Keep, Nop} && Step(op1, op2, bank1, bank2, c, n).Ok?
    ensures var s := Step(op1, op2, bank1, bank2, c, n).value; s.out.code in {Keep, Nop} && s.op2.code in {Keep, Nop}
  {
    hide FollowAttributes, InsertFirst;
  }

  /** Keeps alone wait in the assembler. */
  lemma {:induction false} KeepsWait(ops: seq<Op>)
    requires OnlyKeeps(ops)
    ensures var s := AppendAll(NEW_SMART, ops); s.done == [] && s.minus == NEW_MERGER && s.plus == NEW_MERGER
  {
    hide MergeAppend;
    if ops != [] {
      KeepsWait(ops[..|ops| - 1]);
      EmptyMerger();
    } else {
      AppendNothing();
    }
  }

  lemma {:induction false} AssembleKeeps(ops: seq<Op>)
    requires OnlyKeeps(ops)
    ensures OnlyKeeps(Assemble(ops))
  {
    hide MergeAppend, AppendAll;
    KeepsWait(ops);
    AppendAllOk(ops);
    EmptyMerger();
    var s := AppendAll(NEW_SMART, ops);
    FlushedKeepsOnly(s.keep);
    assert [] + Merged(NEW_MERGER) + Merged(NEW_MERGER) + Merged(Flush(s.keep, true)) == Merged(Flush(s.keep, true));
  }

  lemma {:induction false} FlushedKeepsOnly(m: Merger)
    requires MergerOk(m, Keep)
    ensures OnlyKeeps(Merged(Flush(m, true)))
  {}

  /** Keeps leave a text as it is. */
  lemma {:induction false} KeepsApply(ops: seq<Op>, bank: string, text: string)
    requires OnlyKeeps(ops) && ApplyOps(ops, bank, text).Ok?
    ensures ApplyOps(ops, bank, text) == Ok(text)
  {
    hide Newlines;
    if ops != [] {
      var n := ops[0].chars;
      KeepsApply(ops[1..], bank, text[n..]);
      assert text[..n] + text[n..] == text;
    }
  }

  lemma {:induction false} KeepsLead(cs: string, t: string, r: string)
    requires Leads(cs, t, r) && OnlyKeeps(OpsOf(cs))
    ensures r == t
  {
    hide CheckRep, Unpack, Run, Plain, ApplyOps;
    CheckRepRegular(cs);
    WellFormedProduces(cs, t);
    KeepsApply(OpsOf(cs), Unpack(cs).bank, t);
  }

  /** The written square closes for every server change that only sets attributes. */
  lemma {:induction false} WrittenSquareKeeps(client: string, server: string, pool: Pool, o1: Order, o2: Order,
          t: string, t1: string, t2: string)
    requires Ready(pool, o1, o2) && AttribsResolved(client, pool) && AttribsResolved(server, pool)
    requires Leads(client, t, t1) && Leads(server, t, t2) && OnlyKeeps(OpsOf(server))
    ensures var (c, s) := TransformX(client, server, pool, o1, o2); t2 == t && Leads(c, t2, t1) && Leads(s, t1, t1)
  {
    hide Unpack, CheckRep, Run, Plain, OpsOf, Follow, WellFormed, AttribsResolved, After, Ready, Leads, PlainChange;
    KeepsLead(server, t, t2);
    var r := SquareLeads(client, server, pool, o1, o2, t, t1, t2);
    var (c, s) := MeantTransformX(client, server, pool, o1, o2);
    KeepsFollow(client, server, pool, o1, o2, t, t1, t2, s, r);
    assert Leads(c, t, t1);
    var r' := SquareLeads(c, server, pool, o1, o2, t, t1, t2);
    KeepsFollow(c, server, pool, o1, o2, t, t1, t2, MeantTransformX(c, server, pool, o1, o2).1, r');
  }

  /** A change that only sets attributes still does so when it is rebased. */
  lemma {:induction false} KeepsFollow(client: string, server: string, pool: Pool, o1: Order, o2: Order, t: string,
          t1: string, t2: string, s: string, r: string)
    requires Ready(pool, o1, o2) && AttribsResolved(client, pool) && AttribsResolved(server, pool)
    requires Leads(client, t, t1) && Leads(server, t, t2) && OnlyKeeps(OpsOf(server))
    requires s == MeantTransformX(client, server, pool, o1, o2).1 && Leads(s, t1, r)
    ensures r == t1 && Follow(client, server, Setting(true, pool, o2)) == Ok(s)
  {
    hide Unpack, CheckRep, Run, Plain, OpsOf, Follow, WellFormed, AttribsResolved, After, Assemble, FollowZip;
    FollowSound(server, client, Setting(false, pool, o1), Setting(true, pool, o2), t);
    var ops1, ops2, b1, b2 := OpsOf(client), OpsOf(server), Unpack(client).bank, Unpack(server).bank;
    FollowKeeps(ops1, ops2, b1, b2, Setting(true, pool, o2), 0);
    AssembleKeeps(FollowZip(ops1, ops2, b1, b2, Setting(true, pool, o2), 0).value);
    KeepsLead(s, t1, r);
  }

  // ----- a server change that moves text -----

  const ONE := Op(Keep, 1, 0, "")
  const TWO := Op(Keep, 2, 0, "")
  const PUT := Op(Insert, 1, 0, "")
  const DROP := Op(Delete, 1, 0, "")

  /** One round of the zip of Follow on operations in front of others. */
  lemma {:induction false} FollowRound(ops1: seq<Op>, ops2: seq<Op>, bank1: string, bank2: string, c: Setting, n: nat,
          s: Move, rest1: seq<Op>, rest2: seq<Op>, out: seq<Op>)
    requires (ops1 != [] || ops2 != []) && Step(Zip.First(ops1), Zip.First(ops2), bank1, bank2, c, n) == Ok(s)
    requires rest1 == Zip.Behind(s.op1, ops1) && rest2 == Zip.Behind(s.op2, ops2)
    requires FollowZip(rest1, rest2, bank1[s.skip1..], bank2[s.skip2..], c, n + 1) == Ok(out)
    ensures FollowZip(ops1, ops2, bank1, bank2, c, n) == Ok(Zip.Emit(s.out) + out)
  {
    hide Step, FollowZip, Zip.Behind;
    ZipStep(ops1, ops2, bank1, bank2, c, n, s);
  }

  lemma {:induction false} FollowEnd(c: Setting, n: nat)
    ensures FollowZip([], [], "", "", c, n) == Ok([])
  {}

  lemma {:induction false} Slices()
    ensures "x"[0..] == "x" && "y"[0..] == "y" && "x"[1..] == "" && "y"[1..] == "" && ""[0..] == ""
  {}

  /** The client's change over the server's: it is moved behind the inserted character. */
  lemma {:induction false} ClientZip(c: Setting)
    ensures FollowZip([PUT, ONE, DROP], [ONE, PUT], "y", "x", c, 0) == Ok([ONE, ONE, PUT])
  {
    hide FollowZip;
    Slices();
    ClientRest(c);
    var s := Move(ONE, Rebasing.Consumed(PUT), ONE, 1, 0);
    assert Step(PUT, ONE, "y", "x", c, 0) == Ok(s);
    assert Zip.Behind(s.op1, [PUT, ONE, DROP]) == [ONE, DROP] && Zip.Behind(s.op2, [ONE, PUT]) == [ONE, PUT];
    FollowRound([PUT, ONE, DROP], [ONE, PUT], "y", "x", c, 0, s, [ONE, DROP], [ONE, PUT], [ONE, PUT]);
    assert [ONE] + [ONE, PUT] == [ONE, ONE, PUT];
  }

  lemma {:induction false} ClientRest(c: Setting)
    ensures FollowZip([ONE, DROP], [ONE, PUT], "", "x", c, 1) == Ok([ONE, PUT])
  {
    hide FollowZip;
    Slices();
    ClientLast(c);
    var s := Step(ONE, ONE, "", "x", c, 1).value;
    assert s.out == ONE && s.op1.code == Nop && s.op2.code == Nop && s.skip1 == 0 && s.skip2 == 0;
    assert Zip.Behind(s.op1, [ONE, DROP]) == [DROP] && Zip.Behind(s.op2, [ONE, PUT]) == [PUT];
    FollowRound([ONE, DROP], [ONE, PUT], "", "x", c, 1, s, [DROP], [PUT], [PUT]);
    assert [ONE] + [PUT] == [ONE, PUT];
  }

  lemma {:induction false} ClientLast(c: Setting)
    ensures FollowZip([DROP], [PUT], "", "x", c, 2) == Ok([PUT])
  {
    hide FollowZip;
    Slices();
    FollowEnd(c, 4);
    var e := Move(NO_OP, Rebasing.Consumed(DROP), NO_OP, 0, 0);
    assert Step(DROP, NO_OP, "", "", c, 3) == Ok(e);
    assert Zip.Behind(e.op1, [DROP]) == [] && Zip.Behind(e.op2, []) == [] && Zip.Emit(e.out) + [] == [];
    FollowRound([DROP], [], "", "", c, 3, e, [], [], []);
    var s := Move(PUT, DROP, Rebasing.Consumed(PUT), 0, 1);
    assert Step(DROP, PUT, "", "x", c, 2) == Ok(s);
    assert Zip.Behind(s.op1, [DROP]) == [DROP] && Zip.Behind(s.op2, [PUT]) == [] && [PUT] + [] == [PUT];
    FollowRound([DROP], [PUT], "", "x", c, 2, s, [DROP], [], []);
  }

  /** The server's change over the client's new one, as if both were made on the same text. */
  lemma {:induction false} ServerZip(c: Setting)
    ensures FollowZip([TWO, PUT], [PUT, ONE, DROP], "x", "y", c, 0) == Ok([PUT, ONE, DROP, ONE])
  {
    hide FollowZip;
    Slices();
    ServerRest(c);
    var s := Move(PUT, TWO, Rebasing.Consumed(PUT), 0, 1);
    assert Step(TWO, PUT, "x", "y", c, 0) == Ok(s);
    assert Zip.Behind(s.op1, [TWO, PUT]) == [TWO, PUT] && Zip.Behind(s.op2, [PUT, ONE, DROP]) == [ONE, DROP];
    FollowRound([TWO, PUT], [PUT, ONE, DROP], "x", "y", c, 0, s, [TWO, PUT], [ONE, DROP], [ONE, DROP, ONE]);
    assert [PUT] + [ONE, DROP, ONE] == [PUT, ONE, DROP, ONE];
  }

  lemma {:induction false} ServerRest(c: Setting)
    ensures FollowZip([TWO, PUT], [ONE, DROP], "x", "", c, 1) == Ok([ONE, DROP, ONE])
  {
    hide FollowZip, Step;
    Slices();
    ServerLast(c);
    var s := KeptBoth(c);
    Rests(s.op1, TWO, PUT);
    Rests(s.op2, ONE, DROP);
    FollowRound([TWO, PUT], [ONE, DROP], "x", "", c, 1, s, [ONE, PUT], [DROP], [DROP, ONE]);
    assert [ONE] + [DROP, ONE] == [ONE, DROP, ONE];
  }

  lemma {:induction false} KeptBoth(c: Setting) returns (s: Move)
    ensures Step(TWO, ONE, "x", "", c, 1) == Ok(s)
    ensures s.out == ONE && s.op1 == ONE && s.op2.code == Nop && s.skip1 == 0 && s.skip2 == 0
  {
    hide Step;
    StepKept(TWO, ONE, "x", "", c, 1);
    s := Step(TWO, ONE, "x", "", c, 1).value;
  }

  lemma {:induction false} StepKept(a: Op, b: Op, bank1: string, bank2: string, c: Setting, n: nat)
    requires a.code == Keep && b.code == Keep && b.attribs == "" && a.chars > b.chars
    ensures Step(a, b, bank1, bank2, c, n) ==
            Ok(Move(Op(Keep, b.chars, b.lines, ""), Zip.Shorten(a, b), Rebasing.Consumed(b), 0, 0))
  {}

  lemma {:induction false} StepDropped(a: Op, b: Op, bank1: string, bank2: string, c: Setting, n: nat)
    requires a.code == Keep && b.code == Delete && a.chars == b.chars
    ensures Step(a, b, bank1, bank2, c, n) == Ok(Move(b, Zip.Shorten(a, b), Rebasing.Consumed(b), 0, 0))
  {}

  lemma {:induction false} DroppedOne(c: Setting) returns (s: Move)
    ensures Step(ONE, DROP, "x", "", c, 2) == Ok(s)
    ensures s.out == DROP && s.op1.code == Nop && s.op2.code == Nop && s.skip1 == 0 && s.skip2 == 0
  {
    hide Step;
    StepDropped(ONE, DROP, "x", "", c, 2);
    s := Step(ONE, DROP, "x", "", c, 2).value;
  }

  /** What is left of two operations, the first of them cut down. */
  lemma {:induction false} Rests(left: Op, a: Op, b: Op)
    ensures Zip.Behind(left, [a, b]) == if left.code == Nop then [b] else [left, b]
    ensures left.code == Nop ==> Zip.Behind(left, [a]) == [] && Zip.Behind(left, []) == []
  {
    assert [a, b][1..] == [b] && [] + [b] == [b] && [left] + [b] == [left, b];
  }

  lemma {:induction false} ServerLast(c: Setting)
    ensures FollowZip([ONE, PUT], [DROP], "x", "", c, 2) == Ok([DROP, ONE])
  {
    hide FollowZip, Step;
    Slices();
    ServerEnd(c);
    var s := DroppedOne(c);
    Rests(s.op1, ONE, PUT);
    Rests(s.op2, DROP, DROP);
    FollowRound([ONE, PUT], [DROP], "x", "", c, 2, s, [PUT], [], [ONE]);
    assert [DROP] + [ONE] == [DROP, ONE];
  }

  lemma {:induction false} ServerEnd(c: Setting)
    ensures FollowZip([PUT], [], "x", "", c, 3) == Ok([ONE])
  {
    hide FollowZip;
    Slices();
    FollowEnd(c, 4);
    var e := Move(ONE, Rebasing.Consumed(PUT), NO_OP, 1, 0);
    assert Step(PUT, NO_OP, "x", "", c, 3) == Ok(e);
    hide Step;
    Rests(e.op1, PUT, PUT);
    Rests(e.op2, PUT, PUT);
    FollowRound([PUT], [], "x", "", c, 3, e, [], [], []);
    assert [ONE] + [] == [ONE];
  }

  // ----- the changesets -----

  const CLIENT_OPS := [ONE, PUT]
  const SERVER_OPS := [PUT, ONE, DROP]
  const MOVED_OPS := [TWO, PUT]

  lemma {:induction false} AppendTwo(a: Op, b: Op)
    ensures AppendAll(NEW_SMART, [a, b]) == SmartAppend(SmartAppend(NEW_SMART, a), b)
  {
    hide SmartAppend;
    assert [a, b][..1] == [a] && [a][..0] == [];
    AppendNothing();
    assert AppendAll(NEW_SMART, [a]) == SmartAppend(NEW_SMART, a);
  }

  lemma {:induction false} AppendThree(a: Op, b: Op, c: Op)
    ensures AppendAll(NEW_SMART, [a, b, c]) == SmartAppend(SmartAppend(SmartAppend(NEW_SMART, a), b), c)
  {
    hide SmartAppend;
    assert [a, b, c][..2] == [a, b];
    AppendTwo(a, b);
  }

  lemma {:induction false} KeptTwo()
    ensures SmartAppend(SmartAppend(NEW_SMART, ONE), ONE) ==
            Smart([], NEW_MERGER, NEW_MERGER, Merger([], TWO, 0), Keep, 0)
  {
    EmptyMerger();
    hide Merged;
    assert SmartAppend(NEW_SMART, ONE) == Smart([], NEW_MERGER, NEW_MERGER, Merger([], ONE, 0), Keep, 0);
  }

  lemma {:induction false} ChangeFirst(a: Op, ops: seq<Op>)
    ensures LengthChange([a] + ops) == OpChange(a) + LengthChange(ops)
  {
    assert ([a] + ops)[1..] == ops;
  }

  lemma {:induction false} Changes()
    ensures LengthChange([ONE, ONE, PUT]) == 1 && LengthChange([PUT, ONE, DROP, ONE]) == 0
  {
    hide LengthChange;
    assert LengthChange([]) == 0 by { NoChange(); }
    ChangeFirst(PUT, []);
    ChangeFirst(ONE, [PUT]);
    ChangeFirst(ONE, [ONE, PUT]);
    ChangeFirst(ONE, []);
    ChangeFirst(DROP, [ONE]);
    ChangeFirst(ONE, [DROP, ONE]);
    ChangeFirst(PUT, [ONE, DROP, ONE]);
    assert [PUT] + [] == [PUT] && [ONE] + [PUT] == [ONE, PUT] && [ONE] + [ONE, PUT] == [ONE, ONE, PUT];
    assert [ONE] + [] == [ONE] && [DROP] + [ONE] == [DROP, ONE] && [ONE] + [DROP, ONE] == [ONE, DROP, ONE]
           && [PUT] + [ONE, DROP, ONE] == [PUT, ONE, DROP, ONE];
  }

  lemma {:induction false} NoChange()
    ensures LengthChange([]) == 0
  {}

  lemma {:induction false} ClientAssembled()
    ensures Assemble([ONE, ONE, PUT]) == MOVED_OPS
  {
    hide AppendAll;
    AppendThree(ONE, ONE, PUT);
    KeptTwo();
    EmptyMerger();
    var s := Smart([TWO], NEW_MERGER, Merger([], PUT, 0), NEW_MERGER, Insert, 1);
    assert Merged(Merger([], TWO, 0)) == [TWO];
    assert SmartAppend(Smart([], NEW_MERGER, NEW_MERGER, Merger([], TWO, 0), Keep, 0), PUT) == s;
    hide SmartAppend;
    assert Merged(Merger([], PUT, 0)) == [PUT] && EndDocument(s) == s;
    assert [TWO] + [] + [PUT] + [] == MOVED_OPS;
  }

  lemma {:induction false} ServerAssembled()
    ensures Assemble([PUT, ONE, DROP, ONE]) == SERVER_OPS
  {
    hide SmartAppend, Assembled, EndDocument;
    var ops := [PUT, ONE, DROP, ONE];
    assert ops[..3] == SERVER_OPS;
    AppendAllOk(SERVER_OPS);
    EndAppendPlain(AppendAll(NEW_SMART, SERVER_OPS), ONE);
    assert Normal(SERVER_OPS);
    AssembleFixed(SERVER_OPS);
    assert AppendAll(NEW_SMART, ops) == SmartAppend(AppendAll(NEW_SMART, SERVER_OPS), ONE);
  }

  /** Some characters kept and one put behind them. */
  lemma {:induction false} PutFits(k: nat, t: string)
    requires 0 < k <= |t| && Newlines(t[..k]) == 0
    ensures var ops := [Op(Keep, k, 0, ""), PUT];
            && FitsText(ops, "x", t) && InsertsFit(ops, "x") && ApplyOps(ops, "x", t) == Ok(t[..k] + ("x" + t[k..]))
  {
    hide Newlines;
    var ops := [Op(Keep, k, 0, ""), PUT];
    assert ops[1..] == [PUT] && [PUT][1..] == [] && "x"[..1] == "x" && "x"[1..] == "";
    assert Newlines("x") == 0 && Newlines("") == 0 by { OneChar('x'); }
    assert FitsText([PUT], "x", t[k..]) && InsertsFit([PUT], "x") && ApplyOps([PUT], "x", t[k..]) == Ok("x" + t[k..]);
  }

  lemma {:induction false} OneChar(c: char)
    ensures Newlines([c]) == (if c == '\n' then 1 else 0) && Newlines("") == 0
  {
    assert [c][1..] == "";
  }

  /** The server's change puts a character in front and drops the second one of the text. */
  lemma {:induction false} ServerFits(t: string)
    requires |t| >= 2 && t[0] != '\n' && t[1] != '\n'
    ensures FitsText(SERVER_OPS, "y", t) && InsertsFit(SERVER_OPS, "y")
    ensures ApplyOps(SERVER_OPS, "y", t) == Ok("y" + ([t[0]] + t[2..]))
  {
    hide Newlines;
    var u := t[1..];
    OneChar('y');
    OneChar(t[0]);
    OneChar(t[1]);
    assert SERVER_OPS[1..] == [ONE, DROP] && [ONE, DROP][1..] == [DROP] && [DROP][1..] == [];
    assert "y"[..1] == "y" && "y"[1..] == "" && t[..1] == [t[0]] && u[..1] == [t[1]] && u[1..] == t[2..];
    assert FitsText([DROP], "", u) && InsertsFit([DROP], "") && ApplyOps([DROP], "", u) == Ok(t[2..]);
    assert FitsText([ONE, DROP], "", t) && InsertsFit([ONE, DROP], "")
           && ApplyOps([ONE, DROP], "", t) == Ok([t[0]] + t[2..]);
  }

  lemma {:induction false} OpsNormal()
    ensures Normal(CLIENT_OPS) && Normal(SERVER_OPS) && Normal(MOVED_OPS)
    ensures AllAttribText(CLIENT_OPS) && AllAttribText(SERVER_OPS) && AllAttribText(MOVED_OPS)
  {
    hide AttribText;
    EmptyAttribText();
  }

  /** What the four changesets of the example make of their texts. */
  lemma {:induction false} ExampleChanges()
    ensures var cs := Pack(3, 4, Serialize(CLIENT_OPS), "x");
            Leads(cs, "ab\n", "axb\n") && OpsOf(cs) == CLIENT_OPS
                && Unpack(cs) == Changeset(3, 4, Serialize(CLIENT_OPS), "x")
    ensures var cs := Pack(3, 3, Serialize(SERVER_OPS), "y");
            Leads(cs, "ab\n", "ya\n") && OpsOf(cs) == SERVER_OPS
                && Unpack(cs) == Changeset(3, 3, Serialize(SERVER_OPS), "y")
    ensures var cs := Pack(3, 4, Serialize(MOVED_OPS), "x");
            Leads(cs, "ya\n", "yax\n") && OpsOf(cs) == MOVED_OPS
                && Unpack(cs) == Changeset(3, 4, Serialize(MOVED_OPS), "x")
    ensures Leads(Pack(4, 4, Serialize(SERVER_OPS), "y"), "axb\n", "yab\n")
  {
    hide Pack, Unpack, CheckRep, Serialize, Deserialize, FitsText, ApplyOps, InsertsFit, Run, Plain, WellFormed,
         ApplyToText, Normal, AllAttribText, After, OpsOf, Newlines;
    OpsNormal();
    var t, a, b, c, d := "ab\n", "axb\n", "ya\n", "yax\n", "yab\n";
    Lengths();
    OneChar('a');
    assert t[..1] == "a" && t[..1] + ("x" + t[1..]) == a;
    PutFits(1, t);
    OrderExample.Packed(CLIENT_OPS, "x", t, a);
    ServerFits(t);
    assert "y" + ([t[0]] + t[2..]) == b;
    OrderExample.Packed(SERVER_OPS, "y", t, b);
    TwoChars();
    assert b[..2] + ("x" + b[2..]) == c;
    PutFits(2, b);
    OrderExample.Packed(MOVED_OPS, "x", b, c);
    ServerFits(a);
    assert "y" + ([a[0]] + a[2..]) == d;
    OrderExample.Packed(SERVER_OPS, "y", a, d);
  }

  lemma {:induction false} Lengths()
    ensures |"ab\n"| == 3 && |"axb\n"| == 4 && |"ya\n"| == 3 && |"yax\n"| == 4 && |"yab\n"| == 4
  {}

  lemma {:induction false} TwoChars()
    ensures "ya\n"[..2] == "ya" && Newlines("ya") == 0
  {
    assert "ya"[1..] == "a" && "a"[1..] == "";
  }

  /** The printed changesets. */
  lemma {:induction false} InsertionsPrinted()
    ensures Pack(3, 4, Serialize(CLIENT_OPS), "x") == "Z:3>1=1+1$x"
    ensures Pack(3, 4, Serialize(MOVED_OPS), "x") == "Z:3>1=2+1$x"
  {
    hide Pack, Serialize;
    OpsPrinted();
    Headers("=1+1", "x");
    Headers("=2+1", "x");
    assert "Z:3>1" + "=1+1" + "$" + "x" == "Z:3>1=1+1$x";
    assert "Z:3>1" + "=2+1" + "$" + "x" == "Z:3>1=2+1$x";
  }

  lemma {:induction false} ServersPrinted()
    ensures Pack(3, 3, Serialize(SERVER_OPS), "y") == "Z:3>0+1=1-1$y"
    ensures Pack(4, 4, Serialize(SERVER_OPS), "y") == "Z:4>0+1=1-1$y"
  {
    hide Pack, Serialize;
    OpsPrinted();
    Headers("+1=1-1", "y");
    assert "Z:3>0" + "+1=1-1" + "$" + "y" == "Z:3>0+1=1-1$y";
    assert "Z:4>0" + "+1=1-1" + "$" + "y" == "Z:4>0+1=1-1$y";
  }

  lemma {:induction false} OpsPrinted()
    ensures Serialize(CLIENT_OPS) == "=1+1" && Serialize(SERVER_OPS) == "+1=1-1" && Serialize(MOVED_OPS) == "=2+1"
  {
    hide Numerals.NumToString;
    InverseExample.SmallNumbers();
    assert OpToString(ONE) == "=1" && OpToString(TWO) == "=2" && OpToString(PUT) == "+1" && OpToString(DROP) == "-1";
    hide OpToString;
    InverseExample.PrintedTwo(ONE, PUT);
    InverseExample.PrintedTwo(TWO, PUT);
    OrderExample.PrintedThree(PUT, ONE, DROP);
    hide Serialize;
    assert "=1" + "+1" == "=1+1" && "=2" + "+1" == "=2+1" && "+1" + "=1" + "-1" == "+1=1-1";
  }

  lemma {:induction false} Headers(ops: string, bank: string)
    ensures Pack(3, 4, ops, bank) == "Z:3>1" + ops + "$" + bank && Pack(3, 3, ops, bank) == "Z:3>0" + ops + "$" + bank
    ensures Pack(4, 4, ops, bank) == "Z:4>0" + ops + "$" + bank
  {
    hide Numerals.NumToString;
    InverseExample.SmallNumbers();
    OrderExample.FourPrinted();
    assert Numerals.NumToString(3) == "3" by { ThreePrinted(); }
    assert "Z:" + "3" + (">" + "1") == "Z:3>1" && "Z:" + "3" + (">" + "0") == "Z:3>0"
           && "Z:" + "4" + (">" + "0") == "Z:4>0";
  }

  lemma {:induction false} ThreePrinted()
    ensures Numerals.NumToString(3) == "3"
  {}

  /** Both Follows of the written square on the example. */
  lemma {:induction false} ExampleSquare(client: string, server: string, c: string, s: string, pool: Pool, o1: Order,
          o2: Order)
    requires client == Pack(3, 4, Serialize(CLIENT_OPS), "x") && server == Pack(3, 3, Serialize(SERVER_OPS), "y")
    requires c == Pack(3, 4, Serialize(MOVED_OPS), "x") && s == Pack(4, 4, Serialize(SERVER_OPS), "y")
    ensures TransformX(client, server, pool, o1, o2) == (c, s)
    ensures Follow(c, server, Setting(true, pool, o2)) == Ok(s)
  {
    hide Pack, Unpack, CheckRep, Serialize, Deserialize, Run, Plain, WellFormed, After, Normal, FollowZip, Assemble,
         LengthChange;
    ExampleChanges();
    ClientZip(Setting(false, pool, o1));
    ServerZip(Setting(true, pool, o2));
    ClientAssembled();
    ServerAssembled();
    Changes();
    Parsed(client, "ab\n");
    Parsed(server, "ab\n");
    Parsed(c, "ya\n");
    assert Follow(server, client, Setting(false, pool, o1)) == Ok(c);
  }

  lemma {:induction false} Parsed(cs: string, t: string)
    requires WellFormed(cs, t)
    ensures Deserialize(Unpack(cs).ops) == Ok(OpsOf(cs))
  {
    hide CheckRep, Unpack, Run, Plain, Deserialize;
    CheckRepRegular(cs);
  }

  /**
    A server change that puts a character in front and drops another one, while the client has put a third between them.
    Texts are of equal length, both Follows succeed and every changeset applies, yet the client and the server end with
    different texts.
   */
  lemma {:induction false} WrittenSquareAstray(pool: Pool, o1: Order, o2: Order)
    ensures Leads("Z:3>1=1+1$x", "ab\n", "axb\n") && Leads("Z:3>0+1=1-1$y", "ab\n", "ya\n")
    ensures var (c, s) := TransformX("Z:3>1=1+1$x", "Z:3>0+1=1-1$y", pool, o1, o2);
            && Follow(c, "Z:3>0+1=1-1$y", Setting(true, pool, o2)) == Ok(s)
            && Leads(c, "ya\n", "yax\n") && Leads(s, "axb\n", "yab\n")
  {
    hide *;
    InsertionsPrinted();
    ServersPrinted();
    ExampleChanges();
    ExampleSquare("Z:3>1=1+1$x", "Z:3>0+1=1-1$y", "Z:3>1=2+1$x", "Z:4>0+1=1-1$y", pool, o1, o2);
  }
}
