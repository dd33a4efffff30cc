/** Rebasing one changeset over another: Follow of lib/changeset/changeset.go. */
module Rebasing {
  import opened Basics
  import opened Numerals
  import opened Pools
  import opened Attributes
  import opened Ops
  import opened Composition

  // ----- which of two insertions at one place comes first -----

  /** The index of the first occurrence of `t` in `s`, or -1. */
  function IndexOf(s: string, t: string): (i: int)
    ensures i == -1 || 0 <= i <= i + |t| <= |s|
  {
    if t <= s then 0
    else if s == [] then -1
    else var i := IndexOf(s[1..], t); if i == -1 then -1 else i + 1
  }

  predicate IsWordChar(c: char) { IsDigit(c) || 'A' <= c <= 'Z' || c == '_' }

  /** The test made for the attribute (insertorder, first): a search in the attribute string. */
  predicate InsertFirst(attribs: string, pool: Pool) {
    var a := Attribute("insertorder", "first");
    a in pool.attribToNum && pool.attribToNum[a] >= 0 &&
    var token := "*" + NumToString(pool.attribToNum[a]);
    var i := IndexOf(attribs, token);
    i != -1 && (i + |token| == |attribs| || !IsWordChar(attribs[i + |token|]))
  }

  /** Whether the first changeset's insertion is done before the second one's. */
  function FirstGoes(op1: Op, op2: Op, bank1: string, bank2: string, reverse: bool, pool: Pool): Result<bool> {
    if op2.code != Insert then Ok(true)
    else if op1.code != Insert then Ok(false)
    else if bank1 == "" || bank2 == "" then Err("not enough characters remaining")
    else
      var first1, first2 := InsertFirst(op1.attribs, pool), InsertFirst(op2.attribs, pool);
      if first1 && !first2 then Ok(true)
      else if first2 && !first1 then Ok(false)
      else if bank1[0] == '\n' && bank2[0] != '\n' then Ok(false)
      else if bank1[0] != '\n' && bank2[0] == '\n' then Ok(true)
      else Ok(!reverse)
  }

  // ----- the zip -----

  /** What a step writes, what it leaves of its operations, and how far it moves in the banks. */
  datatype Move = Move(out: Op, op1: Op, op2: Op, skip1: nat, skip2: nat)

  /** Parameters that stay fixed during a run. */
  datatype Setting = Setting(reverse: bool, pool: Pool, order: Order)

  function Consumed(op: Op): Op { op.(code := Nop) }

  function Step(op1: Op, op2: Op, bank1: string, bank2: string, c: Setting, n: nat): (r: Result<Move>)
    ensures r.Ok? ==> r.value.op1.code == Nop || r.value.op2.code == Nop
    ensures r.Ok? && op1.code == Nop ==> r.value.op2.code == Nop && r.value.op1.code == Nop
    ensures r.Ok? && op2.code == Nop ==> r.value.op1.code == Nop && r.value.op2.code == Nop
    ensures r.Ok? ==> r.value.skip1 <= |bank1| && r.value.skip2 <= |bank2|
  {
    if op1.code == Insert || op2.code == Insert then
      match FirstGoes(op1, op2, bank1, bank2, c.reverse, c.pool)
      case Err(e) => Err(e)
      case Ok(true) =>
        if op1.chars > |bank1| then Err("not enough characters remaining")
        else Ok(Move(Op(Keep, op1.chars, op1.lines, ""), Consumed(op1), op2, op1.chars, 0))
      case Ok(false) =>
        if op2.chars > |bank2| then Err("not enough characters remaining")
        else Ok(Move(op2, op1, Consumed(op2), 0, op2.chars))
    else if op1.code == Delete then
      if op2.code == Nop then Ok(Move(NO_OP, Consumed(op1), op2, 0, 0))
      else if op1.chars <= op2.chars then Ok(Move(NO_OP, Consumed(op1), Shorten(op2, op1), 0, 0))
      else Ok(Move(NO_OP, Shorten(op1, op2), Consumed(op2), 0, 0))
    else if op2.code == Delete then
      if op1.code == Nop then Ok(Move(op2, op1, Consumed(op2), 0, 0))
      else if op2.chars <= op1.chars then Ok(Move(op2, Shorten(op1, op2), Consumed(op2), 0, 0))
      else Ok(Move(op2.(chars := op1.chars, lines := op1.lines), Consumed(op1), Shorten(op2, op1), 0, 0))
    else if op1.code == Nop then Ok(Move(op2, op1, Consumed(op2), 0, 0))
    else if op2.code == Nop then Ok(Move(NO_OP, Consumed(op1), op2, 0, 0))
    else
      match FollowAttributes(op1.attribs, op2.attribs, c.pool, c.order, n)
      case Err(e) => Err(e)
      case Ok(a) =>
        if op1.chars <= op2.chars
        then Ok(Move(Op(Keep, op1.chars, op1.lines, a), Consumed(op1), Shorten(op2, op1), 0, 0))
        else Ok(Move(Op(Keep, op2.chars, op2.lines, a), Shorten(op1, op2), Consumed(op2), 0, 0))
  }

  /** What the zip of `ops1` with `ops2` writes, from step `n` on. */
  function FollowZip(ops1: seq<Op>, ops2: seq<Op>, bank1: string, bank2: string, c: Setting,
          n: nat): (r: Result<seq<Op>>)
    decreases |ops1| + |ops2|
  {
    if ops1 == [] && ops2 == [] then Ok([])
    else match Step(First(ops1), First(ops2), bank1, bank2, c, n)
      case Err(e) => Err(e)
      case Ok(s) =>
        match FollowZip(Behind(s.op1, ops1), Behind(s.op2, ops2), bank1[s.skip1..], bank2[s.skip2..], c, n + 1)
        case Err(e) => Err(e)
        case Ok(rest) => Ok(Emit(s.out) + rest)
  }

  // ----- convergence -----

  predicate Positive(ops: seq<Op>) { forall i :: 0 <= i < |ops| ==> ops[i].chars > 0 }

  predicate Resolved(a: string, pool: Pool) { Lookup(Scan(a).0, pool).Some? }

  /** Every attribute number is in the pool; where attributes are read, strings are clean and keys distinct. */
  predicate AttribsOk(sem: AttrSem, ops: seq<Op>, pool: Pool) {
    forall i :: 0 <= i < |ops| ==> Resolved(ops[i].attribs, pool) && (sem.In? ==> Known(ops[i].attribs, pool))
  }

  /** The two directions of a rebase: same pool, opposite tie-breaks, any map orders. */
  ghost predicate Opposite(sem: AttrSem, c1: Setting, c2: Setting) {
    && !sem.Verbatim? && c1.pool == c2.pool && c1.reverse != c2.reverse
    && (sem.In? ==> sem.pool == c1.pool && Good(c1.pool) && Enumerates(c1.order) && Enumerates(c2.order))
  }

  /** `ops1` makes `m1` of `doc`, and `ops2` makes `m2` of the same `doc`. */
  ghost predicate Concurrent(sem: AttrSem, ops1: seq<Op>, ops2: seq<Op>, bank1: string, bank2: string, c1: Setting,
          c2: Setting, doc: Doc, m1: Doc, m2: Doc)
  {
    && Produces(sem, ops1, bank1, doc, m1) && Produces(sem, ops2, bank2, doc, m2)
    && Positive(ops1) && Positive(ops2)
    && AttribsOk(sem, ops1, c1.pool) && AttribsOk(sem, ops2, c1.pool)
    && Opposite(sem, c1, c2)
  }

  /** Both rebases succeed and both ways lead to `r`. */
  ghost predicate ConvergesTo(sem: AttrSem, ops1: seq<Op>, ops2: seq<Op>, bank1: string, bank2: string, c1: Setting,
          c2: Setting, n: nat, m1: Doc, m2: Doc, r: Doc)
  {
    var f1, f2 := FollowZip(ops1, ops2, bank1, bank2, c1, n), FollowZip(ops2, ops1, bank2, bank1, c2, n);
    && f1.Ok? && f2.Ok?
    && Produces(sem, Strip(f1.value), bank2, m1, r)
    && Produces(sem, Strip(f2.value), bank1, m2, r)
  }

  lemma {:induction false} ZipStep(ops1: seq<Op>, ops2: seq<Op>, bank1: string, bank2: string, c: Setting, n: nat,
          s: Move)
    requires ops1 != [] || ops2 != []
    requires Step(First(ops1), First(ops2), bank1, bank2, c, n) == Ok(s)
    ensures FollowZip(ops1, ops2, bank1, bank2, c, n) ==
            match FollowZip(Behind(s.op1, ops1), Behind(s.op2, ops2), bank1[s.skip1..], bank2[s.skip2..], c, n + 1)
            case Err(e) => Err(e)
            case Ok(rest) => Ok(Emit(s.out) + rest)
  {}

  lemma {:induction false} StepAlone(op: Op, bank: string, c: Setting, n: nat)
    requires op.code != Nop && (op.code == Insert ==> op.chars <= |bank|)
    ensures Step(NO_OP, op, "", bank, c, n) ==
            Ok(Move(op, NO_OP, Consumed(op), 0, if op.code == Insert then op.chars else 0))
  {
    hide InsertFirst;
  }

  lemma {:induction false} CopyOne(ops: seq<Op>, bank: string, c: Setting, n: nat)
    requires ops != [] && ops[0].code != Nop && (ops[0].code == Insert ==> ops[0].chars <= |bank|)
    ensures FollowZip([], ops, "", bank, c, n) ==
            match FollowZip([], ops[1..], "", if ops[0].code == Insert then bank[ops[0].chars..] else bank, c, n + 1)
            case Err(e) => Err(e)
            case Ok(rest) => Ok([ops[0]] + rest)
  {
    hide FollowZip, Step;
    var op := ops[0];
    var s := Move(op, NO_OP, Consumed(op), 0, if op.code == Insert then op.chars else 0);
    StepAlone(op, bank, c, n);
    ZipStep([], ops, "", bank, c, n, s);
    assert Behind(s.op2, ops) == ops[1..] && Behind(s.op1, []) == [] && ""[0..] == "" && bank[0..] == bank;
  }

  /** Once the first list is done, the second one is copied. */
  lemma {:induction false} FollowNothing(sem: AttrSem, ops: seq<Op>, bank: string, c: Setting, n: nat, doc: Doc, m: Doc)
    requires Produces(sem, ops, bank, doc, m)
    ensures FollowZip([], ops, "", bank, c, n) == Ok(ops)
    decreases |ops|
  {
    hide Newlines, Text, Fresh, Restyle, FollowZip, InsertFirst, Step;
    if ops == [] {
      FollowZipEmpty("", bank, c, n);
    } else {
      var e, m' := UnfoldProduces(sem, ops, bank, doc, m);
      CopyOne(ops, bank, c, n);
      hide Produces;
      FollowNothing(sem, ops[1..], e.bank, c, n + 1, e.doc, m');
      assert [ops[0]] + ops[1..] == ops;
    }
  }

  lemma {:induction false} FollowZipEmpty(bank1: string, bank2: string, c: Setting, n: nat)
    ensures FollowZip([], [], bank1, bank2, c, n) == Ok([])
  {}

  /** Rebasing nothing over a changeset gives plain keeps, which are left implicit in the end. */
  lemma {:induction false} NothingFollows(sem: AttrSem, ops: seq<Op>, bank: string, c: Setting, n: nat, doc: Doc,
          m: Doc)
    requires Produces(sem, ops, bank, doc, m)
    ensures var f := FollowZip(ops, [], bank, "", c, n); f.Ok? && Strip(f.value) == []
    decreases |ops|
  {
    hide Newlines, Text, Fresh, Restyle, FollowZip, InsertFirst;
    if ops == [] {
      FollowZipEmpty(bank, "", c, n);
    } else {
      var e, m' := UnfoldProduces(sem, ops, bank, doc, m);
      var op := ops[0];
      var out := if op.code == Insert then Op(Keep, op.chars, op.lines, "") else NO_OP;
      var s := Move(out, Consumed(op), NO_OP, if op.code == Insert then op.chars else 0, 0);
      assert Step(op, NO_OP, bank, "", c, n) == Ok(s);
      ZipStep(ops, [], bank, "", c, n, s);
      assert Behind(s.op1, ops) == ops[1..] && Behind(s.op2, []) == [] && ""[0..] == "" && bank[0..] == bank;
      NothingFollows(sem, ops[1..], e.bank, c, n + 1, e.doc, m');
      var f := FollowZip(ops[1..], [], e.bank, "", c, n + 1).value;
      assert ([out] + f)[1..] == f && [] + f == f;
    }
  }

  lemma {:induction false} Exhausted(sem: AttrSem, ops: seq<Op>, bank: string, c1: Setting, c2: Setting, n: nat,
          doc: Doc, m: Doc)
    requires Produces(sem, ops, bank, doc, m)
    ensures ConvergesTo(sem, [], ops, "", bank, c1, c2, n, doc, m, m)
  {
    hide RunOp, FollowZip;
    FollowNothing(sem, ops, bank, c1, n, doc, m);
    NothingFollows(sem, ops, bank, c2, n, doc, m);
    StripProduces(sem, ops, bank, doc, m);
    assert [] + m == m;
  }

  /** For any text and any two changesets on it, both rebases succeed and both ways lead to one document. */
  lemma {:induction false} FollowConverges(sem: AttrSem, ops1: seq<Op>, ops2: seq<Op>, bank1: string, bank2: string,
          c1: Setting, c2: Setting, n: nat, doc: Doc, m1: Doc, m2: Doc)
    returns (r: Doc)
    requires Concurrent(sem, ops1, ops2, bank1, bank2, c1, c2, doc, m1, m2)
    ensures ConvergesTo(sem, ops1, ops2, bank1, bank2, c1, c2, n, m1, m2, r)
    decreases |ops1| + |ops2|, 1
  {
    hide FollowZip, RunOp, FirstGoes;
    if ops1 == [] {
      assert [] + doc == doc;
      Exhausted(sem, ops2, bank2, c1, c2, n, doc, m2);
      r := m2;
    } else if ops2 == [] {
      assert [] + doc == doc;
      Exhausted(sem, ops1, bank1, c2, c1, n, doc, m1);
      r := m1;
    } else {
      assert ops1[0].code != Nop && ops2[0].code != Nop by {
        CodesOk(sem, ops1, bank1, doc);
        CodesOk(sem, ops2, bank2, doc);
      }
      if ops1[0].code == Insert || ops2[0].code == Insert {
        TieBreak(sem, ops1, ops2, bank1, bank2, c1, c2, doc, m1, m2);
        if FirstGoes(ops1[0], ops2[0], bank1, bank2, c1.reverse, c1.pool) == Ok(true) {
          r := AdvanceInsert(sem, ops1, ops2, bank1, bank2, c1, c2, n, doc, m1, m2);
        } else {
          r := AdvanceInsert(sem, ops2, ops1, bank2, bank1, c2, c1, n, doc, m2, m1);
        }
      } else if ops1[0].code == Delete {
        r := AdvanceDelete(sem, ops1, ops2, bank1, bank2, c1, c2, n, doc, m1, m2);
      } else if ops2[0].code == Delete {
        r := AdvanceDelete(sem, ops2, ops1, bank2, bank1, c2, c1, n, doc, m2, m1);
      } else {
        r := AdvanceKeep(sem, ops1, ops2, bank1, bank2, c1, c2, n, doc, m1, m2);
      }
    }
  }

  lemma {:induction false} CodesOk(sem: AttrSem, ops: seq<Op>, bank: string, doc: Doc)
    requires ops != [] && Run(sem, ops, bank, doc).Some?
    ensures ops[0].code != Nop
    ensures ops[0].code == Insert ==> ops[0].chars <= |bank| && Fits(sem, ops[0].lines, bank[..ops[0].chars])
  {}

  /** The two directions agree on whose insertion comes first. */
  lemma {:induction false} TieBreak(sem: AttrSem, ops1: seq<Op>, ops2: seq<Op>, bank1: string, bank2: string,
          c1: Setting, c2: Setting, doc: Doc, m1: Doc, m2: Doc)
    requires Concurrent(sem, ops1, ops2, bank1, bank2, c1, c2, doc, m1, m2)
    requires ops1 != [] && ops2 != [] && (ops1[0].code == Insert || ops2[0].code == Insert)
    ensures var g1 := FirstGoes(ops1[0], ops2[0], bank1, bank2, c1.reverse, c1.pool);
            var g2 := FirstGoes(ops2[0], ops1[0], bank2, bank1, c2.reverse, c2.pool);
            && g1.Ok? && g2.Ok? && g1.value == !g2.value
            && (g1.value ==> ops1[0].code == Insert) && (g2.value ==> ops2[0].code == Insert)
  {
    hide InsertFirst, Newlines, Run, AttribsOk, Fits;
    CodesOk(sem, ops1, bank1, doc);
    CodesOk(sem, ops2, bank2, doc);
  }

  lemma {:induction false} RestOk(sem: AttrSem, ops: seq<Op>, k: nat, l: int, pool: Pool)
    requires ops != [] && k <= ops[0].chars && Positive(ops) && AttribsOk(sem, ops, pool)
    ensures Positive(Rest(ops[0], k, l) + ops[1..]) && AttribsOk(sem, Rest(ops[0], k, l) + ops[1..], pool)
  {
    var rest := Rest(ops[0], k, l) + ops[1..];
    forall i | 0 <= i < |rest|
      ensures rest[i].chars > 0
      ensures exists j :: 0 <= j < |ops| && rest[i].attribs == ops[j].attribs
    {
      var j := i + |ops| - |rest|;
      assert ops[j].attribs == rest[i].attribs;
    }
  }

  /** The first list inserts: one way skips the insertion, the other makes it. */
  lemma {:induction false} AdvanceInsert(sem: AttrSem, ops1: seq<Op>, ops2: seq<Op>, bank1: string, bank2: string,
          c1: Setting, c2: Setting, n: nat, doc: Doc, m1: Doc, m2: Doc)
    returns (r: Doc)
    requires Concurrent(sem, ops1, ops2, bank1, bank2, c1, c2, doc, m1, m2)
    requires ops1 != [] && ops2 != [] && ops1[0].code == Insert && ops2[0].code != Nop
    requires FirstGoes(ops1[0], ops2[0], bank1, bank2, c1.reverse, c1.pool) == Ok(true)
    requires FirstGoes(ops2[0], ops1[0], bank2, bank1, c2.reverse, c2.pool) == Ok(false)
    ensures ConvergesTo(sem, ops1, ops2, bank1, bank2, c1, c2, n, m1, m2, r)
    decreases |ops1| + |ops2|, 0
  {
    hide FirstGoes, FollowZip, Fresh, Restyle, Newlines, Text, Run, Strip, Cut, Clean;
    var op := ops1[0];
    var e, m' := UnfoldProduces(sem, ops1, bank1, doc, m1);
    RestOk(sem, ops1, op.chars, op.lines, c1.pool);
    assert [] + ops1[1..] == ops1[1..];
    var r' := FollowConverges(sem, ops1[1..], ops2, e.bank, bank2, c1, c2, n + 1, doc, m', m2);
    var keep := Op(Keep, op.chars, op.lines, "");
    ZipStep(ops1, ops2, bank1, bank2, c1, n, Move(keep, Consumed(op), ops2[0], op.chars, 0));
    ZipStep(ops2, ops1, bank2, bank1, c2, n, Move(op, ops2[0], Consumed(op), 0, op.chars));
    BehindSame(ops2);
    BehindConsumed(ops1);
    assert bank2[0..] == bank2;
    var f1, f2 := FollowZip(ops1[1..], ops2, e.bank, bank2, c1, n + 1).value,
        FollowZip(ops2, ops1[1..], bank2, e.bank, c2, n + 1).value;
    r := e.out + r';
    assert m1[..op.chars] == e.out && m1[op.chars..] == m';
    RestylePlain(sem, e.out);
    EmitKeep(sem, keep, f1, bank2, m1, r');
    EmitInsert(sem, op, bank1[..op.chars], f2, e.bank, m2, r');
    assert bank1[..op.chars] + e.bank == bank1;
  }

  lemma {:induction false} BehindSame(ops: seq<Op>)
    requires ops != [] && ops[0].code != Nop
    ensures First(ops) == ops[0] && Behind(ops[0], ops) == ops
  {}

  lemma {:induction false} BehindConsumed(ops: seq<Op>)
    requires ops != []
    ensures First(ops) == ops[0] && Behind(Consumed(ops[0]), ops) == ops[1..]
  {}

  /** Parts of a document that two operations pass over hold the same newlines. */
  lemma {:induction false} SameLines(op1: Op, op2: Op, k: nat, bank1: string, bank2: string, doc: Doc)
    requires op1.code in {Keep, Delete} && op2.code in {Keep, Delete}
    requires k <= |Segment(op1, bank1, doc)| && k <= |Segment(op2, bank2, doc)|
    ensures k <= |doc|
    ensures Cut(op1, k, bank1, doc) == Cut(op2, k, bank2, doc) == Text(doc[..k])
  {
    TextSplit(doc[..Min(op1.chars, |doc|)], k);
    TextSplit(doc[..Min(op2.chars, |doc|)], k);
    assert doc[..Min(op1.chars, |doc|)][..k] == doc[..k] == doc[..Min(op2.chars, |doc|)][..k];
  }

  lemma {:induction false} SharedCut(sem: AttrSem, ops1: seq<Op>, ops2: seq<Op>, bank1: string, bank2: string, doc: Doc)
    requires Run(sem, ops1, bank1, doc).Some? && Run(sem, ops2, bank2, doc).Some?
    requires ops1 != [] && ops2 != [] && ops1[0].code in {Keep, Delete} && ops2[0].code in {Keep, Delete}
    ensures var k := Min(ops1[0].chars, ops2[0].chars);
            && k <= |doc|
            && Cut(ops1[0], k, bank1, doc) == Cut(ops2[0], k, bank2, doc) == Text(doc[..k])
            && (sem.strict ==> Clean(Text(doc[..k])))
  {
    hide Newlines, Text, Fresh, Restyle, Clean;
    var op1, op2 := ops1[0], ops2[0];
    SameLines(op1, op2, Min(op1.chars, op2.chars), bank1, bank2, doc);
  }

  lemma {:induction false} CutEffect(sem: AttrSem, op: Op, k: nat, l: int, bank: string, doc: Doc, e: Effect)
    requires k <= op.chars && op.code in {Keep, Delete} && RunOp(sem, Head(op, k, l), bank, doc) == Some(e)
    ensures k <= |doc| && e.bank == bank && e.doc == doc[k..]
    ensures e.out == if op.code == Keep then Restyle(sem, op.attribs, doc[..k]) else []
  {
    hide Newlines, Text, Fresh, Restyle, Clean;
  }

  /** What a step leaves of two operations with equal parts of `k` characters taken off. */
  lemma {:induction false} BehindCut(ops1: seq<Op>, ops2: seq<Op>, k: nat, l: int)
    requires ops1 != [] && ops2 != [] && ops1[0].code != Nop && ops2[0].code != Nop
    requires k == Min(ops1[0].chars, ops2[0].chars)
    requires k == ops1[0].chars ==> l == ops1[0].lines
    requires k == ops2[0].chars ==> l == ops2[0].lines
    ensures var (op1, op2) := (ops1[0], ops2[0]);
            var rest1, rest2 := Rest(op1, k, l) + ops1[1..], Rest(op2, k, l) + ops2[1..];
            if op1.chars <= op2.chars
            then Behind(Consumed(op1), ops1) == rest1 && Behind(Shorten(op2, op1), ops2) == rest2
            else Behind(Shorten(op1, op2), ops1) == rest1 && Behind(Consumed(op2), ops2) == rest2
    ensures ops1[0].chars == ops2[0].chars ==>
            && Behind(Shorten(ops1[0], ops2[0]), ops1) == Rest(ops1[0], k, l) + ops1[1..]
            && Behind(Consumed(ops2[0]), ops2) == Rest(ops2[0], k, l) + ops2[1..]
  {}

  /** The first list deletes what the second one keeps or deletes too. */
  lemma {:induction false} AdvanceDelete(sem: AttrSem, ops1: seq<Op>, ops2: seq<Op>, bank1: string, bank2: string,
          c1: Setting, c2: Setting, n: nat, doc: Doc, m1: Doc, m2: Doc)
    returns (r: Doc)
    requires Concurrent(sem, ops1, ops2, bank1, bank2, c1, c2, doc, m1, m2)
    requires ops1 != [] && ops2 != [] && ops1[0].code == Delete && ops2[0].code in {Keep, Delete}
    ensures ConvergesTo(sem, ops1, ops2, bank1, bank2, c1, c2, n, m1, m2, r)
    decreases |ops1| + |ops2|, 0
  {
    hide FollowZip, Fresh, Restyle, Newlines, Text, Run, Strip, Cut, Clean, RunOp;
    var op1, op2 := ops1[0], ops2[0];
    var k := Min(op1.chars, op2.chars);
    SharedCut(sem, ops1, ops2, bank1, bank2, doc);
    var l, e1, m1' := SplitProduces(sem, ops1, k, bank1, doc, m1);
    var l2, e2, m2' := SplitProduces(sem, ops2, k, bank2, doc, m2);
    CutEffect(sem, op1, k, l, bank1, doc, e1);
    CutEffect(sem, op2, k, l, bank2, doc, e2);
    RestOk(sem, ops1, k, l, c1.pool);
    RestOk(sem, ops2, k, l, c1.pool);
    assert [] + m1' == m1';
    var rest1, rest2 := Rest(op1, k, l) + ops1[1..], Rest(op2, k, l) + ops2[1..];
    r := FollowConverges(sem, rest1, rest2, bank1, bank2, c1, c2, n + 1, doc[k..], m1, m2');
    BehindCut(ops1, ops2, k, l);
    assert bank1[0..] == bank1 && bank2[0..] == bank2;
    var f1, f2 := FollowZip(rest1, rest2, bank1, bank2, c1, n + 1).value,
        FollowZip(rest2, rest1, bank2, bank1, c2, n + 1).value;
    ZipStep(ops1, ops2, bank1, bank2, c1, n, Step(op1, op2, bank1, bank2, c1, n).value);
    assert [] + f1 == f1;
    var out := Step(op2, op1, bank2, bank1, c2, n).value.out;
    ZipStep(ops2, ops1, bank2, bank1, c2, n, Step(op2, op1, bank2, bank1, c2, n).value);
    if op2.code == Delete {
      assert [] + f2 == f2 && [] + m2' == m2';
    } else {
      assert out == Op(Delete, k, l, op1.attribs);
      assert m2[..k] == e2.out && m2[k..] == m2';
      EmitDelete(sem, out, f2, bank1, m2, r);
    }
  }

  lemma {:induction false} RestyleConverges(sem: AttrSem, a1: string, a2: string, d: Doc, c1: Setting, c2: Setting,
          n: nat)
    requires Opposite(sem, c1, c2)
    requires Resolved(a1, c1.pool) && Resolved(a2, c1.pool) && (sem.In? ==> Known(a1, c1.pool) && Known(a2, c1.pool))
    ensures var f1, f2 := FollowAttributes(a1, a2, c1.pool, c1.order, n),
            FollowAttributes(a2, a1, c2.pool, c2.order, n);
            && f1.Ok? && f2.Ok?
            && Restyle(sem, f1.value, Restyle(sem, a1, d)) == Restyle(sem, f2.value, Restyle(sem, a2, d))
  {
    if d != [] {
      RestyleConverges(sem, a1, a2, d[1..], c1, c2, n);
      if sem.In? { FollowAttributesConverge(d[0].attrs, a1, a2, c1.pool, c1.order, n, c2.order, n); }
    }
  }

  /** Both lists keep: the attribute changes are merged. */
  lemma {:induction false} AdvanceKeep(sem: AttrSem, ops1: seq<Op>, ops2: seq<Op>, bank1: string, bank2: string,
          c1: Setting, c2: Setting, n: nat, doc: Doc, m1: Doc, m2: Doc)
    returns (r: Doc)
    requires Concurrent(sem, ops1, ops2, bank1, bank2, c1, c2, doc, m1, m2)
    requires ops1 != [] && ops2 != [] && ops1[0].code == Keep && ops2[0].code == Keep
    ensures ConvergesTo(sem, ops1, ops2, bank1, bank2, c1, c2, n, m1, m2, r)
    decreases |ops1| + |ops2|, 0
  {
    hide FollowZip, Fresh, Restyle, Newlines, Text, Run, Strip, Cut, Clean, FollowAttributes, Resolved, Known, RunOp;
    var op1, op2 := ops1[0], ops2[0];
    var k := Min(op1.chars, op2.chars);
    SharedCut(sem, ops1, ops2, bank1, bank2, doc);
    var l, e1, m1' := SplitProduces(sem, ops1, k, bank1, doc, m1);
    var l2, e2, m2' := SplitProduces(sem, ops2, k, bank2, doc, m2);
    CutEffect(sem, op1, k, l, bank1, doc, e1);
    CutEffect(sem, op2, k, l, bank2, doc, e2);
    RestOk(sem, ops1, k, l, c1.pool);
    RestOk(sem, ops2, k, l, c1.pool);
    var rest1, rest2 := Rest(op1, k, l) + ops1[1..], Rest(op2, k, l) + ops2[1..];
    var r' := FollowConverges(sem, rest1, rest2, bank1, bank2, c1, c2, n + 1, doc[k..], m1', m2');
    RestyleConverges(sem, op1.attribs, op2.attribs, doc[..k], c1, c2, n);
    var a1 := FollowAttributes(op1.attribs, op2.attribs, c1.pool, c1.order, n).value;
    var a2 := FollowAttributes(op2.attribs, op1.attribs, c2.pool, c2.order, n).value;
    BehindCut(ops1, ops2, k, l);
    assert bank1[0..] == bank1 && bank2[0..] == bank2;
    var out1, out2 := Op(Keep, k, l, a1), Op(Keep, k, l, a2);
    var f1, f2 := FollowZip(rest1, rest2, bank1, bank2, c1, n + 1).value,
        FollowZip(rest2, rest1, bank2, bank1, c2, n + 1).value;
    ZipStep(ops1, ops2, bank1, bank2, c1, n, Step(op1, op2, bank1, bank2, c1, n).value);
    ZipStep(ops2, ops1, bank2, bank1, c2, n, Step(op2, op1, bank2, bank1, c2, n).value);
    assert m1[..k] == e1.out && m1[k..] == m1' && m2[..k] == e2.out && m2[k..] == m2';
    EmitKeep(sem, out1, f1, bank2, m1, r');
    EmitKeep(sem, out2, f2, bank1, m2, r');
    r := Restyle(sem, a1, e1.out) + r';
  }
}
