/**
  Two insertions at one place: which of them comes first once the one is rebased over the other, lib/changeset/
  changeset.go.
 */
module InsertionOrder {
  import opened Basics
  import opened Numerals
  import opened Pools
  import opened Attributes
  import opened Ops
  import opened Syntax
  import opened Assemblers
  import Zip = Composition
  import opened Rebasing
  import opened Changesets
  import opened Algebra
  import opened Builders
  import opened Splices
  import LineOrder
  import CanonicalForm
  import Inversion

  // ----- the shape of an insertion -----

  /** Keeps without attributes. */
  predicate PlainKeeps(ops: seq<Op>) {
    forall i :: 0 <= i < |ops| ==> ops[i].code == Keep && ops[i].attribs == "" && ops[i].chars > 0
  }

  /** The insertion of one text with attributes `a`: only the first operation holds newlines. */
  predicate OneInsertion(ops: seq<Op>, a: string) {
    && (forall i :: 0 <= i < |ops| ==> ops[i].code == Insert && ops[i].attribs == a && ops[i].chars > 0)
    && (forall i :: 0 < i < |ops| ==> ops[i].lines == 0)
  }

  lemma {:induction false} InsertionTail(ops: seq<Op>, a: string, x: string)
    requires OneInsertion(ops, a) && ops != [] && InsertsFit(ops, x)
    ensures OneInsertion(ops[1..], a) && ops[0].chars <= |x| && InsertsFit(ops[1..], x[ops[0].chars..])
    ensures ops[1..] != [] ==> x[ops[0].chars..] != "" && x[ops[0].chars] != '\n'
    ensures ops[1..] == [] ==> x[ops[0].chars..] == ""
  {
    var y := x[ops[0].chars..];
    if ops[1..] != [] {
      var n := ops[1].chars;
      assert ops[1..][0] == ops[1];
      NewlinesPrefix(y, n);
    }
  }

  lemma {:induction false} NewlinesPrefix(y: string, n: nat)
    requires 0 < n <= |y| && Newlines(y[..n]) == 0
    ensures y[0] != '\n'
  {
    assert y[..n][0] == y[0];
  }

  // ----- the zip on two insertions -----

  /** The insertion of `a` comes before that of `b`. */
  predicate Earlier(a: string, x: string, b: string, y: string, reverse: bool, pool: Pool)
    requires x != "" && y != ""
  {
    if InsertFirst(a, pool) != InsertFirst(b, pool) then InsertFirst(a, pool)
    else if (x[0] == '\n') != (y[0] == '\n') then y[0] == '\n'
    else !reverse
  }

  /** Keeps over what is inserted. */
  function KeepsOver(ops: seq<Op>): (r: seq<Op>)
    ensures |r| == |ops|
  {
    if ops == [] then [] else [Op(Keep, ops[0].chars, ops[0].lines, "")] + KeepsOver(ops[1..])
  }

  lemma {:induction false} KeepsOverPlain(ops: seq<Op>)
    requires forall i :: 0 <= i < |ops| ==> ops[i].code == Insert && ops[i].chars > 0
    ensures PlainKeeps(KeepsOver(ops)) && LineOrder.Consumed(KeepsOver(ops)) == LineOrder.Inserted(ops)
  {
    if ops != [] { KeepsOverPlain(ops[1..]); }
  }

  /** What is left of the second insertion is copied. */
  lemma {:induction false} CopyInsertion(ops: seq<Op>, a: string, x: string, c: Setting, n: nat)
    requires OneInsertion(ops, a) && InsertsFit(ops, x)
    ensures FollowZip([], ops, "", x, c, n) == Ok(ops)
    decreases |ops|
  {
    hide FollowZip, InsertsFit;
    if ops == [] {
      FollowZipEmpty("", x, c, n);
    } else {
      InsertionTail(ops, a, x);
      CopyOne(ops, x, c, n);
      CopyInsertion(ops[1..], a, x[ops[0].chars..], c, n + 1);
      assert [ops[0]] + ops[1..] == ops;
    }
  }

  /** What is left of the first insertion is kept. */
  lemma {:induction false} KeepInsertion(ops: seq<Op>, a: string, x: string, c: Setting, n: nat)
    requires OneInsertion(ops, a) && InsertsFit(ops, x)
    ensures FollowZip(ops, [], x, "", c, n) == Ok(KeepsOver(ops))
    decreases |ops|
  {
    hide FollowZip, InsertsFit;
    if ops == [] {
      FollowZipEmpty(x, "", c, n);
    } else {
      InsertionTail(ops, a, x);
      var op := ops[0];
      var s := Move(Op(Keep, op.chars, op.lines, ""), Consumed(op), NO_OP, op.chars, 0);
      assert Step(op, NO_OP, x, "", c, n) == Ok(s);
      hide Step;
      ZipStep(ops, [], x, "", c, n, s);
      assert Zip.Behind(s.op1, ops) == ops[1..] && Zip.Behind(s.op2, []) == [] && ""[0..] == "";
      KeepInsertion(ops[1..], a, x[op.chars..], c, n + 1);
    }
  }

  lemma {:induction false} EarlierStep(op1: Op, op2: Op, x: string, y: string, c: Setting, n: nat)
    requires op1.code == op2.code == Insert && x != "" && y != "" && op1.chars <= |x| && op2.chars <= |y|
    ensures Step(op1, op2, x, y, c, n) ==
            if Earlier(op1.attribs, x, op2.attribs, y, c.reverse, c.pool)
            then Ok(Move(Op(Keep, op1.chars, op1.lines, ""), Consumed(op1), op2, op1.chars, 0))
            else Ok(Move(op2, op1, Consumed(op2), 0, op2.chars))
  {
    hide InsertFirst;
  }

  lemma {:induction false} FirstEarlier(i1: seq<Op>, i2: seq<Op>, a: string, b: string, x: string, y: string,
          c: Setting,
          n: nat)
    requires OneInsertion(i1, a) && OneInsertion(i2, b) && InsertsFit(i1, x) && InsertsFit(i2, y)
    requires i2 != [] && y != "" && (i1 != [] ==> x != "" && Earlier(a, x, b, y, c.reverse, c.pool))
    ensures FollowZip(i1, i2, x, y, c, n) == Ok(KeepsOver(i1) + i2)
    decreases |i1|
  {
    hide FollowZip, InsertsFit, InsertFirst;
    if i1 == [] {
      assert x == "" by { NoInsertions(x); }
      CopyInsertion(i2, b, y, c, n);
      assert KeepsOver(i1) + i2 == i2;
    } else {
      InsertionTail(i1, a, x);
      InsertionTail(i2, b, y);
      var op := i1[0];
      var s := Move(Op(Keep, op.chars, op.lines, ""), Consumed(op), i2[0], op.chars, 0);
      EarlierStep(op, i2[0], x, y, c, n);
      hide Step;
      ZipStep(i1, i2, x, y, c, n, s);
      assert Zip.Behind(s.op1, i1) == i1[1..] && Zip.Behind(s.op2, i2) == i2 && y[0..] == y;
      FirstEarlier(i1[1..], i2, a, b, x[op.chars..], y, c, n + 1);
      Associate([s.out], KeepsOver(i1[1..]), i2);
    }
  }

  lemma {:induction false} NoInsertions(x: string)
    requires InsertsFit([], x)
    ensures x == ""
  {}

  lemma {:induction false} SecondEarlier(i1: seq<Op>, i2: seq<Op>, a: string, b: string, x: string, y: string,
          c: Setting, n: nat)
    requires OneInsertion(i1, a) && OneInsertion(i2, b) && InsertsFit(i1, x) && InsertsFit(i2, y)
    requires i1 != [] && x != "" && (i2 != [] ==> y != "" && !Earlier(a, x, b, y, c.reverse, c.pool))
    ensures FollowZip(i1, i2, x, y, c, n) == Ok(i2 + KeepsOver(i1))
    decreases |i2|
  {
    hide FollowZip, InsertsFit, InsertFirst;
    if i2 == [] {
      assert y == "" by { NoInsertions(y); }
      KeepInsertion(i1, a, x, c, n);
      assert i2 + KeepsOver(i1) == KeepsOver(i1);
    } else {
      InsertionTail(i1, a, x);
      InsertionTail(i2, b, y);
      var op := i2[0];
      var s := Move(op, i1[0], Consumed(op), 0, op.chars);
      EarlierStep(i1[0], op, x, y, c, n);
      hide Step;
      ZipStep(i1, i2, x, y, c, n, s);
      assert Zip.Behind(s.op1, i1) == i1 && Zip.Behind(s.op2, i2) == i2[1..] && x[0..] == x;
      SecondEarlier(i1, i2[1..], a, b, x, y[op.chars..], c, n + 1);
      Associate([op], i2[1..], KeepsOver(i1));
      assert [op] + i2[1..] == i2;
    }
  }

  // ----- the keeps before them -----

  /** The first keep cut down to `op`, or done. */
  lemma {:induction false} FirstKept(keeps: seq<Op>, ins: seq<Op>, n: nat, op: Op)
    requires PlainKeeps(keeps) && keeps != [] && 0 < n <= keeps[0].chars
    requires if n == keeps[0].chars then op.code == Nop
             else op.code == Keep && op.attribs == "" && op.chars == keeps[0].chars - n
    ensures var rest := Zip.Behind(op, keeps);
            && PlainKeeps(rest) && LineOrder.Consumed(rest) == LineOrder.Consumed(keeps) - n
            && Zip.Behind(op, keeps + ins) == rest + ins && |rest| <= |keeps|
            && (n == keeps[0].chars ==> |rest| < |keeps|)
  {
    var rest := Zip.Behind(op, keeps);
    assert (keeps + ins)[1..] == keeps[1..] + ins;
    if n < keeps[0].chars {
      assert rest == [op] + keeps[1..] && rest[1..] == keeps[1..];
    } else {
      assert rest == keeps[1..];
    }
  }

  lemma {:induction false} KeepsStep(op1: Op, op2: Op, x: string, y: string, c: Setting, n: nat) returns (s: Move)
    requires op1.code == op2.code == Keep && op1.attribs == op2.attribs == ""
    ensures Step(op1, op2, x, y, c, n) == Ok(s) && s.skip1 == s.skip2 == 0
    ensures s.out.code == Keep && s.out.attribs == "" && s.out.chars == Min(op1.chars, op2.chars)
    ensures if op1.chars <= op2.chars then s.op1.code == Nop
            else s.op1.code == Keep && s.op1.attribs == "" && s.op1.chars == op1.chars - op2.chars
    ensures if op2.chars <= op1.chars then s.op2.code == Nop
            else s.op2.code == Keep && s.op2.attribs == "" && s.op2.chars == op2.chars - op1.chars
  {
    s := Step(op1, op2, x, y, c, n).value;
  }

  /** Equal stretches that are kept first are kept, and then the rest is rebased over the rest. */
  lemma {:induction false} KeepsFirst(k1: seq<Op>, k2: seq<Op>, i1: seq<Op>, i2: seq<Op>, x: string, y: string,
          c: Setting, n: nat)
    returns (keeps: seq<Op>, m: nat)
    requires PlainKeeps(k1) && PlainKeeps(k2) && LineOrder.Consumed(k1) == LineOrder.Consumed(k2)
    requires FollowZip(k1 + i1, k2 + i2, x, y, c, n).Ok?
    ensures PlainKeeps(keeps) && LineOrder.Consumed(keeps) == LineOrder.Consumed(k1)
    ensures FollowZip(i1, i2, x, y, c, m).Ok?
            && FollowZip(k1 + i1, k2 + i2, x, y, c, n) == Ok(keeps + FollowZip(i1, i2, x, y, c, m).value)
    decreases |k1| + |k2|
  {
    hide FollowZip, Step;
    if k1 == [] || k2 == [] {
      NothingKept(k1);
      NothingKept(k2);
      keeps, m := [], n;
      assert k1 + i1 == i1 && k2 + i2 == i2;
      assert [] + FollowZip(i1, i2, x, y, c, n).value == FollowZip(i1, i2, x, y, c, n).value;
    } else {
      var op1, op2 := k1[0], k2[0];
      assert (k1 + i1)[0] == op1 && (k2 + i2)[0] == op2;
      var s := KeepsStep(op1, op2, x, y, c, n);
      FirstKept(k1, i1, s.out.chars, s.op1);
      FirstKept(k2, i2, s.out.chars, s.op2);
      ZipStep(k1 + i1, k2 + i2, x, y, c, n, s);
      assert x[0..] == x && y[0..] == y;
      hide Zip.Behind;
      var rest;
      rest, m := KeepsFirst(Zip.Behind(s.op1, k1), Zip.Behind(s.op2, k2), i1, i2, x, y, c, n + 1);
      keeps := [s.out] + rest;
      assert keeps[1..] == rest;
      Associate([s.out], rest, FollowZip(i1, i2, x, y, c, m).value);
    }
  }

  lemma {:induction false} NothingKept(keeps: seq<Op>)
    requires PlainKeeps(keeps)
    ensures LineOrder.Consumed(keeps) == 0 <==> keeps == []
  {}

  // ----- what the operations make -----

  lemma {:induction false} StripBehind(a: seq<Op>, b: seq<Op>)
    requires Strip(b) != []
    ensures Strip(a + b) == a + Strip(b)
  {
    if a == [] {
      assert a + b == b;
    } else {
      assert (a + b)[0] == a[0] && (a + b)[1..] == a[1..] + b;
      StripBehind(a[1..], b);
      Associate([a[0]], a[1..], Strip(b));
      assert [a[0]] + a[1..] == a;
    }
  }

  lemma {:induction false} StripInsertion(ops: seq<Op>, a: string)
    requires OneInsertion(ops, a)
    ensures Strip(ops) == ops
  {
    if ops != [] {
      StripInsertion(ops[1..], a);
      assert [ops[0]] + ops[1..] == ops;
    }
  }

  lemma {:induction false} StripKeeps(ops: seq<Op>)
    requires PlainKeeps(ops)
    ensures Strip(ops) == []
  {
    if ops != [] { StripKeeps(ops[1..]); }
  }

  /** Plain keeps pass over a part of the document. */
  lemma {:induction false} KeepsPass(keeps: seq<Op>, ops: seq<Op>, bank: string, d: Doc, r: Doc) returns (r': Doc)
    requires PlainKeeps(keeps) && Produces(Ignore(true), keeps + ops, bank, d, r)
    ensures LineOrder.Consumed(keeps) <= |d|
    ensures r == d[..LineOrder.Consumed(keeps)] + r'
            && Produces(Ignore(true), ops, bank, d[LineOrder.Consumed(keeps)..], r')
  {
    hide Newlines, Text, Clean, Produces;
    if keeps == [] {
      assert keeps + ops == ops && d[..0] == [] && d[0..] == d && [] + r == r;
      r' := r;
    } else {
      var all, n := keeps + ops, keeps[0].chars;
      assert all[0] == keeps[0] && all[1..] == keeps[1..] + ops;
      var e, q := UnfoldProduces(Ignore(true), all, bank, d, r);
      RestyleIgnored(true, "", d[..n]);
      hide RunOp;
      r' := KeepsPass(keeps[1..], ops, bank, d[n..], q);
      var m := LineOrder.Consumed(keeps[1..]);
      CutTwice(d, n, m);
      Associate(d[..n], d[n..][..m], r');
    }
  }

  /** An insertion puts in its text. */
  lemma {:induction false} InsertionPuts(ins: seq<Op>, a: string, ops: seq<Op>, bank: string, x: string, d: Doc, r: Doc)
    returns (r': Doc)
    requires OneInsertion(ins, a) && InsertsFit(ins, x) && Produces(Ignore(true), ins + ops, x + bank, d, r)
    ensures r == Plain(x) + r' && Produces(Ignore(true), ops, bank, d, r')
    decreases |ins|
  {
    hide Newlines, Text, Clean, Produces, Plain, InsertsFit;
    if ins == [] {
      NoInsertions(x);
      PlainText(x);
      assert ins + ops == ops && x + bank == bank && Plain(x) == [] && [] + r == r;
      r' := r;
    } else {
      InsertionTail(ins, a, x);
      var all, n := ins + ops, ins[0].chars;
      assert all[0] == ins[0] && all[1..] == ins[1..] + ops;
      assert (x + bank)[..n] == x[..n] && (x + bank)[n..] == x[n..] + bank;
      var e, q := UnfoldProduces(Ignore(true), all, x + bank, d, r);
      FreshIsPlain(true, a, x[..n]);
      hide RunOp;
      r' := InsertionPuts(ins[1..], a, ops, bank, x[n..], d, q);
      CutAndJoin(x, n);
      PlainConcat(x[..n], x[n..]);
      Associate(Plain(x[..n]), Plain(x[n..]), r');
    }
  }

  // ----- changesets that insert -----

  /**
    The changeset inserts `x` with attributes `a` behind the first `k` characters of the text, and does nothing
    else.
   */
  ghost predicate Inserting(cs: string, t: string, k: nat, a: string, x: string, keeps: seq<Op>, ins: seq<Op>) {
    && WellFormed(cs, t) && k <= |t| && x != "" && Unpack(cs).bank == x && InsertsFit(ins, x)
    && OpsOf(cs) == keeps + ins && PlainKeeps(keeps) && LineOrder.Consumed(keeps) == k && OneInsertion(ins, a)
  }

  lemma {:induction false} InsertsBehind(keeps: seq<Op>, ins: seq<Op>, x: string)
    requires PlainKeeps(keeps) && InsertsFit(keeps + ins, x)
    ensures InsertsFit(ins, x)
  {
    if keeps == [] {
      assert keeps + ins == ins;
    } else {
      assert (keeps + ins)[1..] == keeps[1..] + ins;
      InsertsBehind(keeps[1..], ins, x);
    }
  }

  lemma {:induction false} InsertedText(cs: string, t: string, k: nat, a: string, x: string, keeps: seq<Op>,
          ins: seq<Op>)
    requires Inserting(cs, t, k, a, x, keeps, ins)
    ensures After(cs, t) == t[..k] + x + t[k..]
  {
    hide Unpack, OpsOf, CheckRep, Run, Plain, ApplyToText, InsertsFit, WellFormed;
    WellFormedProduces(cs, t);
    var d, r := Plain(t), Plain(After(cs, t));
    PlainText(t);
    var r' := KeepsPass(keeps, ins, x, d, r);
    assert ins + [] == ins && x + "" == x;
    var r'' := InsertionPuts(ins, a, [], "", x, d[k..], r');
    PlainLengths(t, k);
    assert r'' == d[k..] by { NothingMore(d[k..], r''); }
    PlainConcat(x, t[k..]);
    PlainConcat(t[..k], x + t[k..]);
    Associate(t[..k], x, t[k..]);
    PlainSame(After(cs, t), t[..k] + x + t[k..]);
  }

  lemma {:induction false} NothingMore(d: Doc, r: Doc)
    requires Produces(Ignore(true), [], "", d, r)
    ensures r == d
  {
    assert [] + d == d;
  }

  lemma {:induction false} PlainSame(a: string, b: string)
    requires Plain(a) == Plain(b)
    ensures a == b
  {
    hide Plain;
    PlainText(a);
    PlainText(b);
  }

  /** What the operations of the rebased insertion are, before they are assembled. */
  lemma {:induction false} RebasedInsertion(k1: seq<Op>, k2: seq<Op>, i1: seq<Op>, i2: seq<Op>, a: string, b: string,
          x: string, y: string, c: Setting)
    returns (keeps: seq<Op>)
    requires PlainKeeps(k1) && PlainKeeps(k2) && LineOrder.Consumed(k1) == LineOrder.Consumed(k2)
    requires OneInsertion(i1, a) && OneInsertion(i2, b) && InsertsFit(i1, x) && InsertsFit(i2, y)
    requires x != "" && y != "" && i1 != [] && i2 != []
    requires FollowZip(k1 + i1, k2 + i2, x, y, c, 0).Ok?
    ensures PlainKeeps(keeps) && LineOrder.Consumed(keeps) ==
            LineOrder.Consumed(k1) + if Earlier(a, x, b, y, c.reverse, c.pool) then LineOrder.Inserted(i1) else 0
    ensures Strip(FollowZip(k1 + i1, k2 + i2, x, y, c, 0).value) == keeps + i2
  {
    hide FollowZip, InsertsFit, Earlier, Strip;
    var k, m := KeepsFirst(k1, k2, i1, i2, x, y, c, 0);
    var over := KeepsOver(i1);
    KeepsOverPlain(i1);
    StripInsertion(i2, b);
    if Earlier(a, x, b, y, c.reverse, c.pool) {
      FirstEarlier(i1, i2, a, b, x, y, c, m);
      keeps := k + over;
      LineOrder.CountsConcat(k, over);
      Associate(k, over, i2);
      StripBehind(k + over, i2);
    } else {
      SecondEarlier(i1, i2, a, b, x, y, c, m);
      keeps := k;
      StripKeeps(over);
      StripTail(i2, over);
      Associate(k, i2, over);
      StripBehind(k, i2 + over);
    }
  }

  /** Plain keeps at the end are left out. */
  lemma {:induction false} StripTail(a: seq<Op>, b: seq<Op>)
    requires Strip(b) == [] && Strip(a) == a
    ensures Strip(a + b) == a
  {
    if a == [] {
      assert a + b == b;
    } else {
      assert (a + b)[0] == a[0] && (a + b)[1..] == a[1..] + b;
      assert a == [a[0]] + a[1..];
      assert Strip(a[1..]) == a[1..];
      StripTail(a[1..], b);
    }
  }

  lemma {:induction false} InsertedLength(ins: seq<Op>, a: string, x: string)
    requires OneInsertion(ins, a) && InsertsFit(ins, x)
    ensures LineOrder.Inserted(ins) == |x| && (x != "" ==> ins != [])
  {
    hide InsertsFit;
    if ins == [] {
      NoInsertions(x);
    } else {
      InsertionTail(ins, a, x);
      InsertedLength(ins[1..], a, x[ins[0].chars..]);
    }
  }

  /** The text that the operations of the rebased insertion make. */
  lemma {:induction false} PutBehind(keeps: seq<Op>, ins: seq<Op>, b: string, y: string, m: string, r: Doc)
    requires PlainKeeps(keeps) && OneInsertion(ins, b) && InsertsFit(ins, y)
    requires Produces(Ignore(true), keeps + ins, y, Plain(m), r)
    ensures LineOrder.Consumed(keeps) <= |m|
    ensures r == Plain(m[..LineOrder.Consumed(keeps)] + y + m[LineOrder.Consumed(keeps)..])
  {
    hide Produces, Plain, InsertsFit;
    var d, n := Plain(m), LineOrder.Consumed(keeps);
    PlainText(m);
    var r' := KeepsPass(keeps, ins, y, d, r);
    assert ins + [] == ins && y + "" == y;
    var r'' := InsertionPuts(ins, b, [], "", y, d[n..], r');
    NothingMore(d[n..], r'');
    PlainLengths(m, n);
    PlainConcat(y, m[n..]);
    PlainConcat(m[..n], y + m[n..]);
    Associate(m[..n], y, m[n..]);
  }

  /**
    Two insertions at one place, and the second rebased over the first: both texts stand there, the earlier one first.
   */
  lemma {:induction false} InsertionsMeet(c1: string, c2: string, t: string, k: nat, a: string, b: string, x: string,
          y: string, c: Setting, k1: seq<Op>, i1: seq<Op>, k2: seq<Op>, i2: seq<Op>)
    requires Inserting(c1, t, k, a, x, k1, i1) && Inserting(c2, t, k, b, y, k2, i2)
    requires AttribsResolved(c1, c.pool) && AttribsResolved(c2, c.pool)
    ensures After(c1, t) == t[..k] + x + t[k..]
    ensures Follow(c1, c2, c).Ok? && WellFormed(Follow(c1, c2, c).value, After(c1, t))
    ensures After(Follow(c1, c2, c).value, After(c1, t)) ==
            t[..k] + (if Earlier(a, x, b, y, c.reverse, c.pool) then x + y else y + x) + t[k..]
  {
    hide Unpack, OpsOf, CheckRep, Run, Plain, ApplyToText, InsertsFit, WellFormed, Earlier, Follow, FollowZip, Strip,
         AttribsResolved, Assemble;
    InsertedText(c1, t, k, a, x, k1, i1);
    FollowSound(c1, c2, c, c.(reverse := !c.reverse), t);
    var f, m := Follow(c1, c2, c).value, After(c1, t);
    var keeps, n := FollowedInsertion(c1, c2, t, k, a, b, x, y, c, k1, i1, k2, i2, f, m);
    if Earlier(a, x, b, y, c.reverse, c.pool) {
      assert m[..n] == t[..k] + x && m[n..] == t[k..];
      assert t[..k] + x + y + t[k..] == t[..k] + (x + y) + t[k..];
    } else {
      assert m[..n] == t[..k] && m[n..] == x + t[k..];
      assert t[..k] + y + (x + t[k..]) == t[..k] + (y + x) + t[k..];
    }
  }

  lemma {:induction false} FollowedInsertion(c1: string, c2: string, t: string, k: nat, a: string, b: string, x: string,
          y: string, c: Setting, k1: seq<Op>, i1: seq<Op>, k2: seq<Op>, i2: seq<Op>, f: string, m: string)
    returns (keeps: seq<Op>, n: nat)
    requires Inserting(c1, t, k, a, x, k1, i1) && Inserting(c2, t, k, b, y, k2, i2)
    requires Rebased(f, c1, c2, c) && WellFormed(f, m) && m == After(c1, t)
    requires AttribsResolved(c1, c.pool) && AttribsResolved(c2, c.pool)
    ensures n == (if Earlier(a, x, b, y, c.reverse, c.pool) then k + |x| else k) && n <= |m|
    ensures After(f, m) == m[..n] + y + m[n..]
  {
    hide Unpack, OpsOf, CheckRep, Run, Plain, ApplyToText, InsertsFit, WellFormed, Earlier, FollowZip, Strip, Resolved,
         Assemble, Canonical;
    WellFormedProduces(c1, t);
    WellFormedProduces(c2, t);
    WellFormedPositive(c1, t);
    WellFormedPositive(c2, t);
    InsertedLength(i1, a, x);
    InsertedLength(i2, b, y);
    var v := FollowZip(k1 + i1, k2 + i2, x, y, c, 0).value;
    var r := FollowConverges(Ignore(true), OpsOf(c1), OpsOf(c2), x, y, c, c.(reverse := !c.reverse), 0, Plain(t),
      Plain(m), Plain(After(c2, t)));
    keeps := RebasedInsertion(k1, k2, i1, i2, a, b, x, y, c);
    n := LineOrder.Consumed(keeps);
    PutBehind(keeps, i2, b, y, m, r);
    AssembleProduces(Ignore(true), v, y, Plain(m), r);
    WellFormedProduces(f, m);
    SameProduct(OpsOf(f), y, Plain(m), r, Plain(After(f, m)));
    PlainSame(After(f, m), m[..n] + y + m[n..]);
  }

  lemma {:induction false} WellFormedPositive(cs: string, t: string)
    requires WellFormed(cs, t)
    ensures Positive(OpsOf(cs))
  {
    hide Unpack, OpsOf, CheckRep, Run, Plain, Canonical;
    CheckRepRegular(cs);
    CanonicalPositive(OpsOf(cs));
  }

  lemma {:induction false} SameProduct(ops: seq<Op>, bank: string, d: Doc, r: Doc, q: Doc)
    requires Produces(Ignore(true), ops, bank, d, r) && Produces(Ignore(true), ops, bank, d, q)
    ensures r == q
  {}

  // ----- insertions made by MakeSplice -----

  predicate OfCode(ops: seq<Op>, c: OpCode) { forall i :: 0 <= i < |ops| ==> ops[i].code == c }

  /** Operations of one kind, apart from some without characters. */
  predicate Mostly(ops: seq<Op>, c: OpCode) { forall i :: 0 <= i < |ops| ==> ops[i].code == c || ops[i].chars == 0 }

  lemma {:induction false} KeepsCollected(ops: seq<Op>)
    requires Mostly(ops, Keep)
    ensures var s := AppendAll(NEW_SMART, ops); s.done == [] && s.minus == NEW_MERGER && s.plus == NEW_MERGER
  {
    hide MergeAppend;
    if ops == [] {
      AppendNothing();
    } else {
      KeepsCollected(ops[..|ops| - 1]);
      EmptyMerger();
    }
  }

  lemma {:induction false} InsertsCollected(keeps: seq<Op>, ins: seq<Op>)
    requires Mostly(keeps, Keep) && Mostly(ins, Insert)
    ensures var s := AppendAll(NEW_SMART, keeps + ins);
            && s.minus == NEW_MERGER && OfCode(s.done, Keep)
            && ((exists i :: 0 <= i < |ins| && ins[i].chars > 0) ==> s.last == Insert)
    decreases |ins|
  {
    hide MergeAppend, Merged, SmartOk;
    if ins == [] {
      assert keeps + ins == keeps;
      KeepsCollected(keeps);
    } else {
      var l := |ins| - 1;
      var all := keeps + ins;
      assert all[..|all| - 1] == keeps + ins[..l] && all[|all| - 1] == ins[l];
      InsertsCollected(keeps, ins[..l]);
      var s := AppendAll(NEW_SMART, keeps + ins[..l]);
      KeptCodes(keeps + ins[..l]);
      if i :| 0 <= i < |ins| && ins[i].chars > 0 && ins[l].chars == 0 { assert ins[..l][i] == ins[i]; }
    }
  }

  lemma {:induction false} KeptCodes(ops: seq<Op>)
    ensures OfCode(Merged(AppendAll(NEW_SMART, ops).keep), Keep)
    ensures OfCode(Merged(AppendAll(NEW_SMART, ops).plus), Insert)
    ensures AppendAll(NEW_SMART, ops).last != Keep ==> AppendAll(NEW_SMART, ops).keep == NEW_MERGER
  {
    hide AppendAll;
    AppendAllOk(ops);
  }

  lemma {:induction false} InsertsAssembled(keeps: seq<Op>, ins: seq<Op>) returns (k: seq<Op>, i: seq<Op>)
    requires Mostly(keeps, Keep) && Mostly(ins, Insert) && exists j :: 0 <= j < |ins| && ins[j].chars > 0
    ensures Assemble(keeps + ins) == k + i && OfCode(k, Keep) && OfCode(i, Insert)
  {
    hide AppendAll, Merged;
    var s := AppendAll(NEW_SMART, keeps + ins);
    InsertsCollected(keeps, ins);
    KeptCodes(keeps + ins);
    EmptyMerger();
    k, i := s.done, Merged(s.plus);
    assert Flush(NEW_MERGER, true) == NEW_MERGER;
    assert k + [] + i + [] == k + i;
  }

  /** The operations that MakeSplice writes where it deletes nothing. */
  lemma {:induction false} SpliceShape(t: string, k: nat, x: string, a: string) returns (keeps: seq<Op>, ins: seq<Op>)
    requires AttribText(a) && x != "" && k <= |t|
    ensures MakeSplice(t, k, 0, x, a).Ok?
    ensures var cs := MakeSplice(t, k, 0, x, a).value;
            && WellFormed(cs, t) && Unpack(cs).bank == x && OpsOf(cs) == keeps + ins
            && PlainKeeps(keeps) && OneInsertion(ins, a) && InsertsFit(ins, x)
  {
    hide AttribText, OpsFromText, Assemble, WellFormed, OpsOf, Unpack, ApplyToText, InsertsFit, Canonical, CheckRep,
         MakeSplice, Spliced, AllPrintable, LengthChange, Pack, Serialize;
    SpliceApplies(t, k, 0, x, a);
    SpliceCarries(t, k, 0, x, a);
    var cs := MakeSplice(t, k, 0, x, a).value;
    var before, nothing, put := OpsFromText(Keep, t[..k], ""), OpsFromText(Delete, t[k..k + 0], ""),
        OpsFromText(Insert, x, a);
    TextCodes(Keep, t[..k], "");
    TextCodes(Delete, "", "");
    TextCodes(Insert, x, a);
    assert t[k..k + 0] == "" && Mostly(nothing, Keep);
    assert Mostly(before + nothing, Keep);
    keeps, ins := InsertsAssembled(before + nothing, put);
    var ops := OpsOf(cs);
    assert ops == keeps + ins;
    WellFormedRegular(cs, t);
    assert forall i :: 0 <= i < |keeps| ==> ops[i] == keeps[i];
    assert forall i :: 0 <= i < |ins| ==> ops[|keeps| + i] == ins[i];
    InsertsBehind(keeps, ins, x);
    OneRun(keeps, ins, a);
  }

  lemma {:induction false} WellFormedRegular(cs: string, t: string)
    requires WellFormed(cs, t)
    ensures Canonical(OpsOf(cs)) && InsertsFit(OpsOf(cs), Unpack(cs).bank)
    ensures forall i :: 0 <= i < |OpsOf(cs)| ==> OpsOf(cs)[i].chars > 0
  {
    hide Unpack, OpsOf, CheckRep, Run, Plain, InsertsFit;
    CheckRepRegular(cs);
  }

  /** In canonical operations only the first insertion of a run holds newlines. */
  lemma {:induction false} OneRun(keeps: seq<Op>, ins: seq<Op>, a: string)
    requires Canonical(keeps + ins) && OfCode(ins, Insert) && forall i :: 0 <= i < |ins| ==> ins[i].attribs == a
    ensures OneInsertion(ins, a)
  {
    var ops := keeps + ins;
    forall i | 0 <= i < |ins| ensures ins[i].chars > 0 && (i > 0 ==> ins[i].lines == 0) {
      assert ops[|keeps| + i] == ins[i];
      if i > 0 { assert ops[|keeps| + i - 1] == ins[i - 1] && MayFollow(ins[i - 1], ins[i]); }
    }
  }

  lemma {:induction false} TextCodes(code: OpCode, t: string, attribs: string)
    ensures OfCode(OpsFromText(code, t, attribs), code)
    ensures t == "" ==> forall c :: Mostly(OpsFromText(code, t, attribs), c)
    ensures t != "" ==>
              exists i :: 0 <= i < |OpsFromText(code, t, attribs)| && OpsFromText(code, t, attribs)[i].chars > 0
  {
    hide Newlines;
    var ops := OpsFromText(code, t, attribs);
    if t != "" { assert ops[0].chars > 0; }
  }

  /** They are those of an insertion at that place. */
  lemma {:induction false} SpliceInserts(t: string, k: nat, x: string, a: string)
    returns (keeps: seq<Op>, ins: seq<Op>)
    requires AttribText(a) && x != "" && k <= |t|
    ensures MakeSplice(t, k, 0, x, a).Ok? && Inserting(MakeSplice(t, k, 0, x, a).value, t, k, a, x, keeps, ins)
  {
    hide AttribText, OpsFromText, Assemble, WellFormed, OpsOf, Unpack, ApplyToText, InsertsFit, MakeSplice, Produces,
         SpliceOps, CanonicalForm.Mark, Fresh, Plain, Strip, CanonicalForm.Marked;
    keeps, ins := SpliceShape(t, k, x, a);
    SpliceApplies(t, k, 0, x, a);
    var d := CanonicalForm.Mark(t, 0);
    CanonicalForm.MarkMarked(t);
    var ops, r := SpliceOps(t, k, 0, x, a), Spliced(d, k, 0, Fresh(Ignore(true), a, x));
    SpliceProduces(Ignore(true), d, k, 0, x, a);
    StripProduces(Ignore(true), ops, x, d, r);
    AssembleProduces(Ignore(true), ops, x, d, r);
    var r' := KeepsPass(keeps, ins, x, d, r);
    var n := LineOrder.Consumed(keeps);
    assert ins + [] == ins && x + "" == x;
    var r'' := InsertionPuts(ins, a, [], "", x, d[n..], r');
    NothingMore(d[n..], r'');
    FreshIsPlain(true, a, x);
    Associate(d[..n], Plain(x), d[n..]);
    SamePlace(d, n, k, x);
  }

  /** On distinct marked cells, what is inserted shows where. */
  lemma {:induction false} PlacesDiffer(d: Doc, n: nat, k: nat, x: string)
    requires CanonicalForm.Marked(d) && n < k <= |d| && x != ""
    ensures d[..n] + Plain(x) + d[n..] != d[..k] + Plain(x) + d[k..]
  {
    PlainText(x);
    var r, s := d[..n] + Plain(x) + d[n..], d[..k] + Plain(x) + d[k..];
    assert Plain(x)[0].attrs == map[];
    assert r[n] == Plain(x)[0] && s[n] == d[n];
  }

  lemma {:induction false} SamePlace(d: Doc, n: nat, k: nat, x: string)
    requires CanonicalForm.Marked(d) && n <= |d| && k <= |d| && x != ""
    requires d[..n] + Plain(x) + d[n..] == d[..k] + Plain(x) + d[k..]
    ensures n == k
  {
    if n < k {
      PlacesDiffer(d, n, k, x);
    } else if k < n {
      PlacesDiffer(d, k, n, x);
    }
  }

  // ----- the attribute (insertorder, first) -----

  /** The first number whose numeral begins with that of `n` is `n` itself. */
  predicate FirstLike(nums: seq<nat>, n: nat) {
    nums != [] && if NumToString(n) <= NumToString(nums[0]) then nums[0] == n else FirstLike(nums[1..], n)
  }

  lemma {:induction false} IndexSkips(d: string, rest: string, t: string)
    requires AllDigits(d) && t != "" && t[0] == '*'
    ensures IndexOf(d + rest, t) == if IndexOf(rest, t) == -1 then -1 else |d| + IndexOf(rest, t)
  {
    if d == "" {
      assert d + rest == rest;
    } else {
      assert (d + rest)[1..] == d[1..] + rest && (d + rest)[0] == d[0];
      IndexSkips(d[1..], rest, t);
    }
  }

  /** A beginning of a numeral is the numeral of a number that is not larger. */
  lemma {:induction false} NumeralPrefix(m: nat, k: nat) returns (n: nat)
    requires 0 < k <= |NumToString(m)|
    ensures NumToString(m)[..k] == NumToString(n) && n <= m && (k < |NumToString(m)| ==> n < m)
  {
    var s := NumToString(m);
    if k == |s| {
      assert s[..k] == s;
      n := m;
    } else {
      assert s[..k] == NumToString(m / 36)[..k];
      n := NumeralPrefix(m / 36, k);
    }
  }

  lemma {:induction false} PrefixSmaller(n: nat, m: nat)
    requires NumToString(n) <= NumToString(m)
    ensures n == m || n < m
    ensures |NumToString(n)| == |NumToString(m)| ==> n == m
  {
    hide NumToString;
    var k := NumeralPrefix(m, |NumToString(n)|);
    assert NumToString(m)[..|NumToString(n)|] == NumToString(n);
    ParsePrinted(n);
    ParsePrinted(k);
    if |NumToString(n)| == |NumToString(m)| {
      assert NumToString(m)[..|NumToString(m)|] == NumToString(m);
      ParsePrinted(m);
    }
  }

  /** The search for the number in an attribute string. */
  predicate Finds(s: string, n: nat) {
    var token := "*" + NumToString(n);
    var i := IndexOf(s, token);
    i != -1 && (i + |token| == |s| || !IsWordChar(s[i + |token|]))
  }

  lemma {:induction false} SearchFinds(nums: seq<nat>, n: nat)
    ensures Finds(Encode(nums), n) <==> FirstLike(nums, n)
  {
    hide NumToString, Finds;
    if nums == [] {
      NothingFound(n);
    } else {
      var m, rest := NumToString(nums[0]), Encode(nums[1..]);
      assert Encode(nums) == "*" + m + rest && (rest == "" || rest[0] == '*');
      hide Encode;
      if NumToString(n) <= m {
        FoundHere("*" + m + rest, m, rest, n, nums[0]);
      } else {
        SearchFinds(nums[1..], n);
        FoundBehind(m, rest, n);
      }
    }
  }

  lemma {:induction false} NothingFound(n: nat)
    ensures !Finds("", n)
  {
    hide NumToString;
  }

  lemma {:induction false} FoundBehind(m: string, rest: string, n: nat)
    requires AllDigits(m) && (rest == "" || rest[0] == '*') && !(NumToString(n) <= m)
    ensures Finds("*" + m + rest, n) <==> Finds(rest, n)
  {
    hide NumToString;
    var s, t, token := "*" + m + rest, NumToString(n), "*" + NumToString(n);
    assert s[1..] == m + rest && token[0] == '*';
    if token <= s { PrefixHere(m, rest, t); }
    assert IndexOf(s, token) == if IndexOf(s[1..], token) == -1 then -1 else IndexOf(s[1..], token) + 1;
    IndexSkips(m, rest, token);
    hide IndexOf;
    var i := IndexOf(rest, token);
    if i != -1 && i + |token| < |rest| { assert s[1 + |m| + i + |token|] == rest[i + |token|]; }
  }

  lemma {:induction false} PrefixHere(m: string, rest: string, t: string)
    requires AllDigits(t) && (rest == "" || rest[0] == '*') && "*" + t <= "*" + m + rest
    ensures t <= m
  {
    var s := "*" + m + rest;
    assert s[1..] == m + rest && ("*" + t)[1..] == t;
    DigitsPrefix(m, rest, t);
  }

  lemma {:induction false} DigitsPrefix(m: string, rest: string, t: string)
    requires AllDigits(t) && (rest == "" || rest[0] == '*') && t <= m + rest
    ensures t <= m
  {
    assert m == "" ==> m + rest == rest;
    if t != "" && m != "" {
      assert (m + rest)[1..] == m[1..] + rest && (m + rest)[0] == m[0];
      DigitsPrefix(m[1..], rest, t[1..]);
    }
  }

  lemma {:induction false} FoundHere(s: string, m: string, rest: string, n: nat, k: nat)
    requires m == NumToString(k) && s == "*" + m + rest && (rest == "" || rest[0] == '*') && NumToString(n) <= m
    ensures Finds(s, n) <==> k == n
  {
    hide NumToString;
    var token := "*" + NumToString(n);
    assert token <= s;
    PrefixSmaller(n, k);
    if |NumToString(n)| < |m| { assert s[|token|] == m[|NumToString(n)|]; }
  }

  lemma {:induction false} LikeAscending(nums: seq<nat>, n: nat)
    requires Ascending(nums)
    ensures FirstLike(nums, n) <==> n in nums
  {
    hide NumToString;
    if nums != [] {
      FirstIsLeast(nums);
      LikeAscending(nums[1..], n);
      if NumToString(n) <= NumToString(nums[0]) { PrefixSmaller(n, nums[0]); }
    }
  }

  /**
    The test for the attribute succeeds exactly if its number is the first in the string whose numeral begins like its
    own; in a string of ascending numbers, exactly if the number is there.
   */
  lemma {:induction false} InsertFirstMeans(nums: seq<nat>, pool: Pool)
    requires pool.Consistent()
    ensures var a := Attribute("insertorder", "first");
            && (InsertFirst(Encode(nums), pool) <==> a in pool.attribToNum && FirstLike(nums, pool.attribToNum[a]))
            && (Ascending(nums) ==>
                (InsertFirst(Encode(nums), pool) <==> a in pool.attribToNum && pool.attribToNum[a] in nums))
  {
    hide FirstLike, IndexOf, NumToString, Encode;
    var a := Attribute("insertorder", "first");
    if a in pool.attribToNum {
      var n := pool.attribToNum[a];
      SearchFinds(nums, n);
      assert InsertFirst(Encode(nums), pool) <==> Finds(Encode(nums), n);
      if Ascending(nums) { LikeAscending(nums, n); }
    }
  }

  /** A string that names the attribute and fails the test: another number begins like its own. */
  lemma {:induction false} InsertFirstMissed(pool: Pool)
    requires pool.Consistent() && Attribute("insertorder", "first") in pool.attribToNum
             && pool.attribToNum[Attribute("insertorder", "first")] == 1
    ensures Encode([46, 1]) == "*1a*1" && !InsertFirst("*1a*1", pool)
  {
    assert NumToString(46) == "1a" && NumToString(1) == "1";
    assert [46, 1][1..] == [1] && [1][1..] == [];
    assert Encode([1]) == "*1";
    assert "1" <= "1a";
    InsertFirstMeans([46, 1], pool);
  }

  // ----- the law -----

  /**
    Two texts put in at one place, and the second rebased over the first. If just one of them is to come first, it does;
    otherwise, one that begins with a newline comes behind one that does not; otherwise, the first comes first, or last
    if the order is reversed.
   */
  lemma {:induction false} SplicesMeet(t: string, k: nat, x: string, y: string, a: string, b: string, c: Setting)
    requires k <= |t| && x != "" && y != "" && AttribText(a) && AttribText(b)
    requires Resolved(a, c.pool) && Resolved(b, c.pool)
    ensures MakeSplice(t, k, 0, x, a).Ok? && MakeSplice(t, k, 0, y, b).Ok?
    ensures Follow(MakeSplice(t, k, 0, x, a).value, MakeSplice(t, k, 0, y, b).value, c).Ok?
    ensures var f := Follow(MakeSplice(t, k, 0, x, a).value, MakeSplice(t, k, 0, y, b).value, c).value;
            var r := After(f, t[..k] + x + t[k..]);
            var first, second := t[..k] + x + y + t[k..], t[..k] + y + x + t[k..];
            && (InsertFirst(a, c.pool) && !InsertFirst(b, c.pool) ==> r == first)
            && (!InsertFirst(a, c.pool) && InsertFirst(b, c.pool) ==> r == second)
            && ((InsertFirst(a, c.pool) <==> InsertFirst(b, c.pool)) ==>
                && (x[0] == '\n' && y[0] != '\n' ==> r == second)
                && (x[0] != '\n' && y[0] == '\n' ==> r == first)
                && ((x[0] == '\n' <==> y[0] == '\n') ==> r == if c.reverse then second else first))
  {
    hide MakeSplice, Follow, After, InsertFirst, AttribText, Resolved, Earlier;
    SplicedBoth(t, k, x, y, a, b, c);
    EarlierCases(a, x, b, y, c.reverse, c.pool);
  }

  lemma {:induction false} SplicedBoth(t: string, k: nat, x: string, y: string, a: string, b: string, c: Setting)
    requires k <= |t| && x != "" && y != "" && AttribText(a) && AttribText(b)
    requires Resolved(a, c.pool) && Resolved(b, c.pool)
    ensures MakeSplice(t, k, 0, x, a).Ok? && MakeSplice(t, k, 0, y, b).Ok?
    ensures Follow(MakeSplice(t, k, 0, x, a).value, MakeSplice(t, k, 0, y, b).value, c).Ok?
    ensures After(Follow(MakeSplice(t, k, 0, x, a).value, MakeSplice(t, k, 0, y, b).value, c).value,
                t[..k] + x + t[k..]) ==
            if Earlier(a, x, b, y, c.reverse, c.pool) then t[..k] + x + y + t[k..] else t[..k] + y + x + t[k..]
  {
    hide MakeSplice, Follow, After, InsertFirst, AttribText, Resolved, Inserting, Earlier;
    var k1, i1 := SpliceInserts(t, k, x, a);
    var k2, i2 := SpliceInserts(t, k, y, b);
    var c1, c2 := MakeSplice(t, k, 0, x, a).value, MakeSplice(t, k, 0, y, b).value;
    SpliceResolved(t, k, x, a, c.pool);
    SpliceResolved(t, k, y, b, c.pool);
    InsertionsMeet(c1, c2, t, k, a, b, x, y, c, k1, i1, k2, i2);
    Associate(t[..k], x, y);
    Associate(t[..k], y, x);
  }

  lemma {:induction false} EarlierCases(a: string, x: string, b: string, y: string, reverse: bool, pool: Pool)
    requires x != "" && y != ""
    ensures InsertFirst(a, pool) && !InsertFirst(b, pool) ==> Earlier(a, x, b, y, reverse, pool)
    ensures !InsertFirst(a, pool) && InsertFirst(b, pool) ==> !Earlier(a, x, b, y, reverse, pool)
    ensures (InsertFirst(a, pool) <==> InsertFirst(b, pool)) ==>
              && (x[0] == '\n' && y[0] != '\n' ==> !Earlier(a, x, b, y, reverse, pool))
              && (x[0] != '\n' && y[0] == '\n' ==> Earlier(a, x, b, y, reverse, pool))
              && ((x[0] == '\n' <==> y[0] == '\n') ==> (Earlier(a, x, b, y, reverse, pool) <==> !reverse))
  {
    hide InsertFirst;
  }

  lemma {:induction false} SpliceResolved(t: string, k: nat, x: string, a: string, pool: Pool)
    requires AttribText(a) && Resolved(a, pool)
    ensures MakeSplice(t, k, 0, x, a).Ok? && AttribsResolved(MakeSplice(t, k, 0, x, a).value, pool)
  {
    hide MakeSplice, AttribText, Resolved, OpsOf;
    SpliceCarries(t, k, 0, x, a);
    EmptyResolved(pool);
  }
}
