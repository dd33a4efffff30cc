/**
  Changesets that keep the end of the text: the last character stays, and nothing is inserted behind it. They are closed
  under composition and inversion.
 */
module FinalNewlines {
  import opened Basics
  import opened Pools
  import opened Attributes
  import opened Ops
  import opened Assemblers
  import opened Changesets
  import opened TextMutation
  import opened Inversion
  import opened InverseLaws
  import Builders
  import Zip = Composition
  import Rebasing
  import Algebra
  import opened Syntax
  import opened UndoAttributes
  import Lines
  import opened LineReaders

  // ----- what it means: the last cell is followed through a run -----

  /** Only the last cell carries a mark. */
  predicate EndMarked(d: Doc) {
    d != [] && d[|d| - 1].attrs != map[] && forall i :: 0 <= i < |d| - 1 ==> d[i].attrs == map[]
  }

  predicate Unmarked(d: Doc) { forall i :: 0 <= i < |d| ==> d[i].attrs == map[] }

  /** `r` ends in the marked cell of `d`. */
  predicate Ends(r: Doc, d: Doc)
    requires d != []
  {
    EndMarked(r) && r[|r| - 1] == d[|d| - 1]
  }

  predicate MarkLast(d: Doc) { d != [] && d[|d| - 1].attrs != map[] }

  /** `t` with its last character marked. */
  function MarkEnd(t: string): (d: Doc)
    requires t != ""
    ensures EndMarked(d) && Text(d) == t
  {
    var k := |t| - 1;
    var (a, z) := (Plain(t[..k]), [Cell(t[k], map["" := ""])]);
    PlainUnmarked(t[..k]);
    TextConcat(a, z);
    assert z[1..] == [] && Text(z) == [t[k]] && t[..k] + [t[k]] == t;
    assert "" in z[0].attrs;
    assert (a + z)[|a + z| - 1] == z[0];
    assert Text(a) == t[..k] && Text(a + z) == t;
    a + z
  }

  lemma {:induction false} PlainUnmarked(s: string)
    ensures Unmarked(Plain(s))
  {
    FreshUnmarked(false, "", s);
  }

  lemma {:induction false} FreshUnmarked(strict: bool, a: string, s: string)
    ensures Unmarked(Fresh(Ignore(strict), a, s))
  {
    if s != [] {
      FreshUnmarked(strict, a, s[1..]);
      var d := Fresh(Ignore(strict), a, s);
      assert d == [d[0]] + Fresh(Ignore(strict), a, s[1..]);
    }
  }

  /** Once the text is used up, only insertions can write. */
  lemma {:induction false} NothingAhead(ops: seq<Op>, bank: string)
    requires Run(Ignore(true), ops, bank, []).Some?
    ensures var e := Run(Ignore(true), ops, bank, []).value;
            e.doc == [] && Unmarked(e.out) && (KeepsEnd(ops, "") <==> e.out == [])
    decreases |ops|
  {
    hide Newlines, Clean;
    if ops != [] {
      var e := RunOp(Ignore(true), ops[0], bank, []).value;
      assert e.doc == [] && Unmarked(e.out) by {
        if ops[0].code == Insert { FreshUnmarked(true, ops[0].attribs, bank[..ops[0].chars]); }
      }
      NothingAhead(ops[1..], e.bank);
    }
  }

  /** The end of the text is kept exactly when its last cell comes through the run and stays the last one. */
  lemma {:induction false} KeepsEndMeans(ops: seq<Op>, bank: string, d: Doc)
    requires EndMarked(d) && Run(Ignore(true), ops, bank, d).Some?
    ensures var e := Run(Ignore(true), ops, bank, d).value; KeepsEnd(ops, Text(d)) <==> MarkLast(e.out + e.doc)
    ensures var e := Run(Ignore(true), ops, bank, d).value; KeepsEnd(ops, Text(d)) ==> Ends(e.out + e.doc, d)
    decreases |ops|
  {
    hide Newlines, Clean, EndMarked, MarkLast, Ends, Fresh, Restyle, Text;
    if ops == [] {
      assert [] + d == d;
      MarkedItself(d);
    } else {
      MarkedItself(d);
      RunFirst(Ignore(true), ops, bank, d);
      var op, n := ops[0], ops[0].chars;
      var e := RunOp(Ignore(true), op, bank, d).value;
      var f := Run(Ignore(true), ops[1..], e.bank, e.doc).value;
      hide Run;
      assert e.out + f.out + f.doc == e.out + (f.out + f.doc);
      if op.code == Insert {
        FreshUnmarked(true, op.attribs, bank[..n]);
        KeepsEndMeans(ops[1..], e.bank, d);
        BehindUnmarked(e.out, f.out + f.doc);
      } else {
        RestyleIgnored(true, op.attribs, d[..n]);
        TextSplit(d, n);
        if n < |d| {
          MarkedBehind(d, n);
          KeepsEndMeans(ops[1..], bank, d[n..]);
          BehindUnmarked(e.out, f.out + f.doc);
        } else {
          assert d[..n] == d && d[n..] == [];
          NothingAhead(ops[1..], bank);
          BehindMarked(e.out, d, f.out);
        }
      }
    }
  }

  lemma {:induction false} MarkedItself(d: Doc)
    requires EndMarked(d)
    ensures d != [] && MarkLast(d) && Ends(d, d) && !MarkLast([])
  {}

  lemma {:induction false} MarkedBehind(d: Doc, n: nat)
    requires EndMarked(d) && n < |d|
    ensures Unmarked(d[..n]) && Ends(d[n..], d) && EndMarked(d[n..])
    ensures forall r :: Ends(r, d[n..]) ==> Ends(r, d)
  {}

  lemma {:induction false} BehindUnmarked(a: Doc, b: Doc)
    requires Unmarked(a)
    ensures MarkLast(a + b) <==> MarkLast(b)
    ensures forall d :: d != [] && Ends(b, d) ==> Ends(a + b, d)
  {
    if b == [] { assert a + b == a; }
  }

  lemma {:induction false} BehindMarked(a: Doc, d: Doc, b: Doc)
    requires EndMarked(d) && (a == d || a == []) && Unmarked(b)
    ensures MarkLast(a + (b + [])) <==> a == d && b == []
    ensures a == d && b == [] ==> Ends(a + (b + []), d)
  {
    assert b + [] == b;
    if b == [] { assert a + b == a; } else { assert (a + b)[|a + b| - 1] == b[|b| - 1]; }
  }

  /** The marked text runs as the plain one does. */
  lemma {:induction false} MarkedRun(ops: seq<Op>, bank: string, t: string, r: string) returns (m: Doc)
    requires t != "" && Produces(Ignore(true), ops, bank, Plain(t), Plain(r))
    ensures Produces(Ignore(true), ops, bank, MarkEnd(t), m) && Text(m) == r
    ensures KeepsEnd(ops, t) <==> MarkLast(m)
    ensures KeepsEnd(ops, t) ==> EndMarked(m) && r != "" && r[|r| - 1] == t[|t| - 1]
  {
    hide Run, EndMarked, MarkLast, MarkEnd, KeepsEnd, Plain;
    PlainText(t);
    PlainText(r);
    SameText(Ignore(true), Ignore(true), ops, bank, Plain(t), MarkEnd(t));
    var e := Run(Ignore(true), ops, bank, MarkEnd(t)).value;
    m := e.out + e.doc;
    var f := Run(Ignore(true), ops, bank, Plain(t)).value;
    TextConcat(e.out, e.doc);
    TextConcat(f.out, f.doc);
    KeepsEndMeans(ops, bank, MarkEnd(t));
    if KeepsEnd(ops, t) {
      LastChar(m);
      LastChar(MarkEnd(t));
    }
  }

  lemma {:induction false} LastChar(d: Doc)
    requires EndMarked(d)
    ensures Text(d) != "" && Text(d)[|d| - 1] == d[|d| - 1].c
    decreases |d|
  {
    if |d| > 1 { LastChar(d[1..]); }
  }

  // ----- assembling and composing -----

  lemma {:induction false} AssembleKeepsEnd(ops: seq<Op>, bank: string, t: string, r: string)
    requires t != "" && Produces(Ignore(true), ops, bank, Plain(t), Plain(r))
    ensures KeepsEnd(Assemble(ops), t) <==> KeepsEnd(ops, t)
  {
    hide EndMarked, MarkLast, MarkEnd, KeepsEnd, Plain, Assemble, Strip, Run;
    var m := MarkedRun(ops, bank, t, r);
    StripProduces(Ignore(true), ops, bank, MarkEnd(t), m);
    AssembleProduces(Ignore(true), ops, bank, MarkEnd(t), m);
    KeepsEndMeans(Assemble(ops), bank, MarkEnd(t));
  }

  /** Two changesets that keep the end of the text compose to one that does. */
  lemma {:induction false} ComposeKeepsEnd(cs1: string, cs2: string, pool: Pool, text: string)
    requires text != "" && WellFormed(cs1, text) && WellFormed(cs2, After(cs1, text))
    requires KeepsEnd(OpsOf(cs1), text) && KeepsEnd(OpsOf(cs2), After(cs1, text))
    ensures Algebra.Compose(cs1, cs2, pool).Ok? && KeepsEnd(OpsOf(Algebra.Compose(cs1, cs2, pool).value.0), text)
  {
    hide EndMarked, MarkLast, Ends, MarkEnd, KeepsEnd, Plain, Assemble, Run, Unpack, CheckRep, OpsOf, Algebra.Compose,
         Zip.ComposeZip, Pack, Serialize, Deserialize, ApplyToText, Canonical, AttribText;
    var t1, ops1, ops2, b1, b2 := After(cs1, text), OpsOf(cs1), OpsOf(cs2), Unpack(cs1).bank, Unpack(cs2).bank;
    Algebra.ComposeWellFormed(cs1, cs2, pool, text);
    WellFormedProduces(cs1, text);
    WellFormedProduces(cs2, t1);
    CheckRepRegular(cs1);
    CheckRepRegular(cs2);
    var d1 := MarkedRun(ops1, b1, text, t1);
    PlainText(t1);
    SameText(Ignore(true), Ignore(true), ops2, b2, Plain(t1), d1);
    KeepsEndMeans(ops2, b2, d1);
    var e := Run(Ignore(true), ops2, b2, d1).value;
    var d2 := e.out + e.doc;
    var z := Algebra.ComposedProduces(Ignore(true), cs1, cs2, pool, MarkEnd(text), d1, d2);
    KeepsEndMeans(Assemble(z.ops), z.bank, MarkEnd(text));
    EndsMarked(d2);
  }

  lemma {:induction false} EndsMarked(d: Doc)
    ensures EndMarked(d) ==> MarkLast(d)
    ensures forall r :: d != [] && Ends(r, d) ==> MarkLast(r)
  {}

  // ----- undoing -----

  /** The end that is kept is still there afterwards. */
  lemma {:induction false} EndStays(ops: seq<Op>, bank: string, text: string)
    requires text != "" && FitsText(ops, bank, text) && KeepsEnd(ops, text) && Rebasing.Positive(ops)
    ensures ApplyOps(ops, bank, text).Ok? && ApplyOps(ops, bank, text).value != ""
    decreases |ops|
  {
    hide Newlines, Clean;
    if ops != [] {
      FitsApplies(ops, bank, text);
      var op := ops[0];
      if TextAfter(op, text) != "" { EndStays(ops[1..], BankAfter(op, bank), TextAfter(op, text)); }
    }
  }

  function Length(ss: seq<Stretch>): nat { if ss == [] then 0 else ss[0].chars + Length(ss[1..]) }

  lemma {:induction false} TakenLength(att: seq<Op>, n: nat)
    requires n <= Chars(att)
    ensures Length(TakeRuns(att, n).taken) == n && Chars(TakeRuns(att, n).rest) == Chars(att) - n
    decreases |att|
  {
    if n != 0 && n >= att[0].chars { TakenLength(att[1..], n - att[0].chars); }
  }

  lemma {:induction false} KeepBefore(op: Op, rest: seq<Op>, t: string)
    requires op.code == Keep && op.chars <= |t| && KeepsEnd(rest, t[op.chars..])
    ensures KeepsEnd([op] + rest, t)
  {
    assert ([op] + rest)[1..] == rest;
  }

  /** Keeps before operations that keep the end behind them. */
  lemma {:induction false} KeepsBefore(ss: seq<Stretch>, change: AttribMap, pool: Pool, order: Order, n: nat,
          rest: seq<Op>, t: string)
    requires Length(ss) <= |t| && KeepsEnd(rest, t[Length(ss)..])
    ensures KeepsEnd(UndoKeep(ss, change, pool, order, n).0 + rest, t)
    decreases |ss|
  {
    hide Back, UndoKeep, KeepsEnd;
    if ss == [] {
      UndoKeepEnds(change, pool, order, n);
      assert [] + rest == rest && t[0..] == t;
    } else {
      UndoKeepStep(ss, change, pool, order, n);
      var (a, p) := Back(change, ss[0].attribs, pool, order, n);
      var k := ss[0].chars;
      assert t[k..][Length(ss[1..])..] == t[Length(ss)..];
      KeepsBefore(ss[1..], change, p, order, n + 1, rest, t[k..]);
      var keeps := UndoKeep(ss[1..], change, p, order, n + 1).0;
      var op := Op(Keep, k, if ss[0].endsLine then 1 else 0, a);
      KeepBefore(op, keeps + rest, t);
      assert UndoKeep(ss, change, pool, order, n).0 + rest == [op] + (keeps + rest);
    }
  }

  /** Insertions before operations that keep the end. */
  lemma {:induction false} InsertionsBefore(ins: seq<Op>, rest: seq<Op>, t: string)
    requires t != "" && OnlyInserts(ins) && KeepsEnd(rest, t)
    ensures KeepsEnd(ins + rest, t)
    decreases |ins|
  {
    if ins == [] {
      assert ins + rest == rest;
    } else {
      InsertionsBefore(ins[1..], rest, t);
      assert (ins + rest)[1..] == ins[1..] + rest;
    }
  }

  predicate OnlyInserts(ops: seq<Op>) { forall i :: 0 <= i < |ops| ==> ops[i].code == Insert }

  lemma {:induction false} UndoDeleteInserts(ss: seq<Stretch>, text: string)
    ensures OnlyInserts(UndoDelete(ss, text))
    decreases |ss|
  {
    if ss != [] { UndoDeleteInserts(ss[1..], text[Min(ss[0].chars, |text|)..]); }
  }

  lemma {:induction false} NothingFits(ops: seq<Op>, bank: string)
    requires FitsText(ops, bank, "") && KeepsEnd(ops, "") && Rebasing.Positive(ops)
    ensures ops == []
  {}

  /** What undoes operations that keep the end keeps the end too. */
  lemma {:induction false} UndoKeepsEnd(ops: seq<Op>, bank: string, att: seq<Op>, text: string, pool: Pool,
          order: Order, n: nat)
    requires FitsText(ops, bank, text) && Rebasing.Positive(ops) && KeepsEnd(ops, text)
    requires Chars(att) == |text|
    ensures ApplyOps(ops, bank, text).Ok?
    ensures KeepsEnd(Undo(ops, att, text, pool, order, n).ops, ApplyOps(ops, bank, text).value)
    decreases |ops|
  {
    hide FitsText, ApplyOps, TakeRuns, Undo;
    FitsApplies(ops, bank, text);
    if ops == [] {
      UndoNothing(att, text, pool, order, n);
    } else {
      var op, m := ops[0], ApplyOps(ops, bank, text).value;
      var text' := TextAfter(op, text);
      FitsStep(ops, bank, text, "", m);
      UndoUnfold(ops, att, text, pool, order, n);
      var s := UndoOp(op, att, text, pool, order, n);
      UndoneRest(op, bank, att, text, pool, order, n);
      UndoKeepsEnd(ops[1..], BankAfter(op, bank), s.att, text', s.pool, order, s.n);
      var m' := ApplyOps(ops[1..], BankAfter(op, bank), text').value;
      if text' != "" { EndStays(ops[1..], BankAfter(op, bank), text'); }
      if text == "" { NothingFits(ops, bank); }
      assert "" + Wrote(op, bank, text) == Wrote(op, bank, text);
      UndoneKeepsEnd(op, bank, att, text, pool, order, n, Undo(ops[1..], s.att, s.text, s.pool, order, s.n).ops, m');
    }
  }

  lemma {:induction false} UndoneRest(op: Op, bank: string, att: seq<Op>, text: string, pool: Pool, order: Order,
          n: nat)
    requires FitsFirst(op, bank, text) && Chars(att) == |text|
    ensures var s := UndoOp(op, att, text, pool, order, n); Chars(s.att) == |s.text| && s.text == TextAfter(op, text)
  {
    hide Newlines, Clean, Chars, TakeRuns, UndoKeep, UndoDelete, UpdatePool, FromString, AttribsFromString;
    if op.code != Insert { TakenLength(att, op.chars); }
  }

  /** What undoes one operation, before operations that keep the end. */
  lemma {:induction false} UndoneKeepsEnd(op: Op, bank: string, att: seq<Op>, text: string, pool: Pool, order: Order,
          n: nat, rest: seq<Op>, m: string)
    requires FitsFirst(op, bank, text) && Chars(att) == |text| && KeepsEnd(rest, m)
    requires op.code != Keep ==> m != ""
    ensures KeepsEnd(UndoOp(op, att, text, pool, order, n).ops + rest, Wrote(op, bank, text) + m)
  {
    hide Newlines, Clean, Chars, TakeRuns, UndoKeep, UndoDelete, UpdatePool, FromString, AttribsFromString;
    var w := Wrote(op, bank, text);
    var s := UndoOp(op, att, text, pool, order, n);
    if op.code == Delete {
      UndoDeleteInserts(TakeRuns(att, op.chars).taken, text[..op.chars]);
      assert w + m == m;
      InsertionsBefore(s.ops, rest, m);
    } else {
      assert |w| == op.chars && (w + m)[op.chars..] == m;
      if op.code == Insert || op.attribs == "" {
        assert (s.ops + rest)[1..] == rest;
      } else {
        TakenLength(att, op.chars);
        var p := UpdatePool(AttribsFromString(op.attribs, pool), false, pool);
        KeepsBefore(TakeRuns(att, op.chars).taken, FromString(op.attribs, pool), p, order, n, rest, w + m);
      }
    }
  }

  /** The inverse of a changeset that keeps the end of the text keeps it too. */
  lemma {:induction false} InverseKeepsEnd(cs: string, lines: seq<string>, alines: seq<string>, pool: Pool,
          order: Order)
    requires WellFormed(cs, Lines.Join(lines)) && CoveredBy(alines, lines) && Enumerates(order)
    requires Lines.Join(lines) != "" && KeepsEnd(OpsOf(cs), Lines.Join(lines))
    ensures Inversion.Inverse(cs, lines, alines, pool, order).Ok?
    ensures KeepsEnd(OpsOf(Inversion.Inverse(cs, lines, alines, pool, order).value.0), After(cs, Lines.Join(lines)))
  {
    hide Unpack, Deserialize, Undo, Assemble, AttribText, Pack, Serialize, ApplyToText, Run, RunsOk, Plain, OpsOf,
         After, Flatten, Lines.Join, KeepsEnd, FitsText, ApplyOps, Inversion.Inverse, Canonical, AllAttribText;
    var text := Lines.Join(lines);
    var ops, att, m := OpsOf(cs), Flatten(alines), After(cs, text);
    InverseRestores(cs, lines, alines, pool, order);
    UndoRestores(cs, lines, alines, pool, order);
    WellFormedFits(cs, text);
    CheckRepRegular(cs);
    Algebra.CanonicalPositive(ops);
    FlattenCovers(alines, lines);
    ProducedChars(Ignore(true), att, text, Plain(text));
    WellFormedProduces(cs, text);
    assert ApplyOps(ops, Unpack(cs).bank, text) == Ok(m) by { AfterIs(cs, text); }
    UndoKeepsEnd(ops, Unpack(cs).bank, att, text, pool, order, 0);
    EndStays(ops, Unpack(cs).bank, text);
    var u := Undo(ops, att, text, pool, order, 0);
    AssembleKeepsEnd(u.ops, u.bank, m, text);
  }

  lemma {:induction false} AfterIs(cs: string, text: string)
    requires WellFormed(cs, text)
    ensures ApplyToText(cs, text) == Ok(After(cs, text)) == ApplyOps(OpsOf(cs), Unpack(cs).bank, text)
  {
    hide ApplyToText, ApplyOps, CheckRep, Unpack, Run, Plain;
    WellFormedProduces(cs, text);
    WellFormedFits(cs, text);
  }
}
