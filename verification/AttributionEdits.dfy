/**
  Changing attribution lines by a changeset: MutateAttributionLines of lib/changeset/changeset.go. This module holds
  the reasoning on values; module AttributionMutators holds the procedure.
 */
module AttributionEdits {
  import opened Basics
  import opened Pools
  import opened Attributes
  import opened Ops
  import opened Syntax
  import opened Assemblers
  import Zip = Composition
  import opened Changesets
  import opened AttributedText
  import opened Lines
  import opened Inversion
  import opened InverseLaws
  import opened Attributions
  import Algebra
  import Rebasing

  // ----- lists of attribution lines -----

  lemma {:induction false} CoverCons(sem: AttrSem, x: seq<Op>, l: string, dx: Doc, a: seq<seq<Op>>, la: seq<string>,
          da: Doc)
    requires |l| == |dx| && LineCover(sem, x, l, dx) && LinesCover(sem, a, la, da)
    ensures LinesCover(sem, [x] + a, [l] + la, dx + da)
  {
    hide LineCover;
    assert ([x] + a)[1..] == a && ([l] + la)[1..] == la;
    assert (dx + da)[..|l|] == dx && (dx + da)[|l|..] == da;
  }

  lemma {:induction false} Regroup<T>(s: seq<T>, n: nat, t: seq<T>)
    requires n <= |s|
    ensures s[..n] + (s[n..] + t) == s + t
  {}

  lemma {:induction false} CoverAppend(sem: AttrSem, a: seq<seq<Op>>, la: seq<string>, da: Doc, b: seq<seq<Op>>,
          lb: seq<string>, db: Doc)
    requires LinesCover(sem, a, la, da) && LinesCover(sem, b, lb, db)
    ensures LinesCover(sem, a + b, la + lb, da + db)
    decreases |a|
  {
    hide LineCover;
    if a == [] {
      assert a + b == b && la + lb == lb && da + db == db;
    } else {
      var n := |la[0]|;
      CoverAppend(sem, a[1..], la[1..], da[n..], b, lb, db);
      hide LinesCover;
      CoverCons(sem, a[0], la[0], da[..n], a[1..] + b, la[1..] + lb, da[n..] + db);
      Regroup(a, 1, b);
      Regroup(la, 1, lb);
      Regroup(da, n, db);
      assert [a[0]] == a[..1] && [la[0]] == la[..1];
    }
  }

  lemma {:induction false} CoverSize(sem: AttrSem, a: seq<seq<Op>>, la: seq<string>, d: Doc)
    requires LinesCover(sem, a, la, d)
    ensures |a| == |la| && |Join(la)| == |d|
    decreases |a|
  {
    hide LineCover;
    if a != [] { CoverSize(sem, a[1..], la[1..], d[|la[0]|..]); }
  }

  lemma {:induction false} CoverSplit(sem: AttrSem, a: seq<seq<Op>>, la: seq<string>, d: Doc, k: nat) returns (j: nat)
    requires LinesCover(sem, a, la, d) && k <= |a|
    ensures |a| == |la| && j == |Join(la[..k])| <= |d|
    ensures LinesCover(sem, a[..k], la[..k], d[..j]) && LinesCover(sem, a[k..], la[k..], d[j..])
    decreases |a|
  {
    hide LineCover;
    CoverSize(sem, a, la, d);
    if k == 0 {
      j := 0;
      assert la[..0] == [] && a[..0] == [] && d[..0] == [] && a[0..] == a && la[0..] == la && d[0..] == d;
    } else {
      var n := |la[0]|;
      var i := CoverSplit(sem, a[1..], la[1..], d[n..], k - 1);
      j := n + i;
      CoverFirst(sem, a, la, d, k, i);
    }
  }

  lemma {:induction false} CoverFirst(sem: AttrSem, a: seq<seq<Op>>, la: seq<string>, d: Doc, k: nat, i: nat)
    requires LinesCover(sem, a, la, d) && 0 < k <= |a| == |la| && i == |Join(la[1..][..k - 1])| && |la[0]| + i <= |d|
    requires LinesCover(sem, a[1..][..k - 1], la[1..][..k - 1], d[|la[0]|..][..i])
    requires LinesCover(sem, a[1..][k - 1..], la[1..][k - 1..], d[|la[0]|..][i..])
    ensures var j := |la[0]| + i;
            j == |Join(la[..k])| && LinesCover(sem, a[..k], la[..k], d[..j]) && LinesCover(sem, a[k..], la[k..], d[j..])
  {
    hide LineCover, LinesCover, Join;
    var n := |la[0]|;
    FirstCovered(sem, a, la, d);
    OneMoreLine(sem, a[0], a[1..][..k - 1], la[0], la[1..][..k - 1], d[..n], d[n..][..i]);
    Lines.JoinFirst(la[0], la[1..][..k - 1]);
    CutTail(a, k);
    CutTail(la, k);
    CutTwice(d, n, i);
  }

  lemma {:induction false} FirstCovered(sem: AttrSem, a: seq<seq<Op>>, la: seq<string>, d: Doc)
    requires LinesCover(sem, a, la, d) && a != []
    ensures la != [] && |la[0]| <= |d| && LineCover(sem, a[0], la[0], d[..|la[0]|])
  {
    hide LineCover;
  }

  // ----- one step of the zip -----

  /** An attribution run and a keep or deletion over the same text: the slicer takes the shorter one off both. */
  lemma {:induction false} SliceStep(pool: Pool, a: Op, c: Op, t: string)
    requires Good(pool) && a.code == Insert && (c.code == Keep || c.code == Delete) && 0 < a.chars <= |t|
             && 0 < c.chars <= |t|
    requires a.lines == Newlines(t[..a.chars]) && Clean(t[..a.chars]) && c.lines == Newlines(t[..c.chars])
             && Clean(t[..c.chars])
    ensures var k := Min(a.chars, c.chars);
            var l := Newlines(t[..k]);
            && Clean(t[..k])
            && Zip.Slicer(a, c, pool).Ok?
            && var s := Zip.Slicer(a, c, pool).value;
            && s.pool == pool
            && s.out == Op(if c.code == Keep then Insert else Nop, k, l,
               if c.code == Keep then ComposeAttributes(a.attribs, c.attribs, false, pool).0 else c.attribs)
            && (if k == a.chars then s.att.code == Nop else s.att == Op(Insert, a.chars - k, a.lines - l, a.attribs))
            && (if k == c.chars then s.cs.code == Nop else s.cs == Op(c.code, c.chars - k, c.lines - l, c.attribs))
    ensures a.lines >= Newlines(t[..Min(a.chars, c.chars)]) && c.lines >= Newlines(t[..Min(a.chars, c.chars)])
  {
    hide Newlines, ComposeAttributes, Clean;
    LinesAhead(t, a.chars, c.chars);
    LinesAhead(t, c.chars, a.chars);
    ComposeAttributesMap(a.attribs, c.attribs, false, pool);
  }

  lemma {:induction false} LinesAhead(t: string, i: nat, j: nat)
    requires i <= |t| && j <= |t|
    ensures Newlines(t[..i]) <= i && (i <= j ==> Newlines(t[..i]) <= Newlines(t[..j]))
  {
    hide Newlines;
    NewlinesBound(t[..i]);
    if i <= j {
      NewlinesSplit(t[..j], i);
      assert t[..j][..i] == t[..i];
    }
  }

  // ----- the attribution that the zip writes -----

  /** A run whose characters are kept with attribute string `b`. */
  lemma {:induction false} KeptRun(pool: Pool, a: string, b: string, s: string)
    requires Good(pool)
    ensures Restyle(Verbatim(true, pool), b, Fresh(Verbatim(true, pool), a, s)) ==
            Fresh(Verbatim(true, pool), ComposeAttributes(a, b, false, pool).0, s)
  {
    hide ComposeAttributes;
    if s != "" {
      KeptRun(pool, a, b, s[1..]);
      var m: map<string, string> := map["" := a];
      var x := ComposeAttributes(a, b, false, pool).0;
      assert m["" := x] == map["" := x];
    }
  }

  /** The rest of a list whose first operation is cut after `k` characters. */
  lemma {:induction false} CutFirst(sem: AttrSem, ops: seq<Op>, k: nat, bank: string, doc: Doc, r: Doc)
    returns (e: Effect, r': Doc)
    requires ops != [] && Produces(sem, ops, bank, doc, r) && k <= ops[0].chars
    requires sem.strict ==> Clean(Ops.Cut(ops[0], k, bank, doc))
    ensures var l := Newlines(Ops.Cut(ops[0], k, bank, doc));
            && RunOp(sem, Head(ops[0], k, l), bank, doc) == Some(e) && r == e.out + r'
            && Produces(sem, Zip.Behind(Op(if k == ops[0].chars then Nop else ops[0].code, ops[0].chars - k,
               ops[0].lines - l, ops[0].attribs), ops), e.bank, e.doc, r')
  {
    hide Newlines, Clean, RunOp, Run;
    RunCodes(sem, ops, bank, doc, r);
    var l, e0, r0 := SplitProduces(sem, ops, k, bank, doc, r);
    e, r' := e0, r0;
    assert Ops.Rest(ops[0], k, l) + ops[1..] ==
           Zip.Behind(Op(if k == ops[0].chars then Nop else ops[0].code, ops[0].chars - k, ops[0].lines - l,
               ops[0].attribs), ops);
  }

  lemma {:induction false} RunCodes(sem: AttrSem, ops: seq<Op>, bank: string, doc: Doc, r: Doc)
    requires ops != [] && Produces(sem, ops, bank, doc, r)
    ensures ops[0].code != Nop
  {}

  /** What a keep or deletion reads of the text. */
  lemma {:induction false} ReadsText(sem: AttrSem, ops: seq<Op>, bank: string, d: Doc, r: Doc)
    requires ops != [] && Produces(sem, ops, bank, d, r) && sem.strict
    ensures ops[0].code == Keep || ops[0].code == Delete ==>
              && ops[0].chars <= |d|
              && ops[0].lines == Newlines(Text(d)[..ops[0].chars]) && Clean(Text(d)[..ops[0].chars])
              && Ops.Segment(ops[0], bank, d) == Text(d)[..ops[0].chars]
    ensures ops[0].code == Insert ==>
              && ops[0].chars <= |bank|
              && ops[0].lines == Newlines(bank[..ops[0].chars]) && Clean(bank[..ops[0].chars])
  {
    hide Newlines, Clean, Text, Fresh, Restyle;
    if ops[0].chars <= |d| { TextSplit(d, ops[0].chars); }
  }

  /** Both lists cut after `k` characters: the run written, and what is left. */
  lemma {:induction false} CutBoth(pool: Pool, att: seq<Op>, ops: seq<Op>, bank: string, t: string, d: Doc, r: Doc)
    returns (r': Doc)
    requires Good(pool) && att != [] && ops != [] && Inserts(att) && ops[0].chars > 0
             && (ops[0].code == Keep || ops[0].code == Delete)
    requires Produces(Verbatim(true, pool), att, t, [], d) && Produces(Verbatim(true, pool), ops, bank, d, r)
    ensures var k := Min(att[0].chars, ops[0].chars);
            && 0 < k <= |t| == |d| && Zip.Slicer(att[0], ops[0], pool).Ok?
            && var s := Zip.Slicer(att[0], ops[0], pool).value;
            && s.pool == pool && s.out.chars == k
            && s.out.code == (if ops[0].code == Keep then Insert else Nop)
            && s.out.lines == Newlines(t[..k]) && Clean(t[..k])
            && (ops[0].code == Keep ==>
                  s.out.attribs == ComposeAttributes(att[0].attribs, ops[0].attribs, false, pool).0)
            && Inserts(Zip.Behind(s.att, att))
            && Produces(Verbatim(true, pool), Zip.Behind(s.att, att), t[k..], [], d[k..])
            && Produces(Verbatim(true, pool), Zip.Behind(s.cs, ops), bank, d[k..], r')
            && r == (if ops[0].code == Keep then Fresh(Verbatim(true, pool), s.out.attribs, t[..k]) else []) + r'
            && d[..k] == Fresh(Verbatim(true, pool), att[0].attribs, t[..k])
  {
    hide Newlines, Clean, Text, Fresh, Restyle, Produces, ComposeAttributes, Zip.Slicer;
    var sem, k := Verbatim(true, pool), Min(att[0].chars, ops[0].chars);
    SameLength(sem, att, t, d);
    var da := FirstRun(pool, att, t, d);
    ReadsText(sem, ops, bank, d, r);
    NotLonger(sem, ops, bank, d, r);
    SliceStep(pool, att[0], ops[0], t);
    var s := Zip.Slicer(att[0], ops[0], pool).value;
    assert Ops.Cut(att[0], k, t, []) == t[..k];
    var e, d' := CutFirst(sem, att, k, t, [], d);
    CutInserts(att, s.att, k);
    CutOut(sem, att[0], ops[0], k, t, bank, d, e, d');
    var e2, x := CutFirst(sem, ops, k, bank, d, r);
    r' := x;
    if ops[0].code == Keep {
      KeptRun(pool, att[0].attribs, ops[0].attribs, t[..k]);
    }
    CutOutOf(sem, ops[0], k, bank, d, e2);
  }

  lemma {:induction false} NotLonger(sem: AttrSem, ops: seq<Op>, bank: string, d: Doc, r: Doc)
    requires ops != [] && Produces(sem, ops, bank, d, r)
    ensures ops[0].code == Keep || ops[0].code == Delete ==> ops[0].chars <= |d|
  {}

  lemma {:induction false} CutInserts(att: seq<Op>, left: Op, k: nat)
    requires Inserts(att) && att != [] && 0 < k <= att[0].chars
    requires if k == att[0].chars then left.code == Nop
             else left.code == Insert && left.chars == att[0].chars - k && left.lines >= 0
    ensures Inserts(Zip.Behind(left, att))
  {}

  lemma {:induction false} CutOut(sem: AttrSem, a: Op, c: Op, k: nat, t: string, bank: string, d: Doc, e: Effect,
          d': Doc)
    requires a.code == Insert && k <= |t| && RunOp(sem, Head(a, k, Newlines(t[..k])), t, []) == Some(e)
             && d == e.out + d'
    requires k <= |d| && Text(d) == t && (c.code == Keep || c.code == Delete) && k <= c.chars <= |d|
    ensures e.out == Fresh(sem, a.attribs, t[..k]) && e.bank == t[k..] && e.doc == [] && d[..k] == e.out && d[k..] == d'
    ensures Ops.Cut(c, k, bank, d) == t[..k]
  {
    hide Newlines, Clean, Text, Fresh;
    TextSplit(d, c.chars);
    assert t[..c.chars][..k] == t[..k];
  }

  lemma {:induction false} CutOutOf(sem: AttrSem, c: Op, k: nat, bank: string, d: Doc, e: Effect)
    requires (c.code == Keep || c.code == Delete) && k <= |d|
             && RunOp(sem, Head(c, k, Newlines(Ops.Cut(c, k, bank, d))), bank, d) == Some(e)
    ensures e.bank == bank && e.doc == d[k..] && e.out == if c.code == Keep then Restyle(sem, c.attribs, d[..k]) else []
  {
    hide Newlines, Clean, Text, Fresh, Restyle;
  }

  // ----- ApplyToAttribution, verbatim -----

  /**
    The zip of an attribution with a changeset: its runs carry the composed attribute strings, and the pool stays as
    it is.
   */
  lemma {:induction false} AttribZipVerbatim(pool: Pool, att: seq<Op>, ops: seq<Op>, bank: string, t: string, d: Doc,
          r: Doc)
    returns (zs: seq<Op>)
    requires Good(pool) && Inserts(att) && Rebasing.Positive(ops)
    requires Produces(Verbatim(true, pool), att, t, [], d) && Produces(Verbatim(true, pool), ops, bank, d, r)
    ensures AttribZip(att, ops, pool) == Ok((zs, pool)) && Inserts(zs)
    ensures Produces(Verbatim(true, pool), zs, Text(r), [], r)
    decreases |att| + |ops|
  {
    hide Newlines, Clean, Text, Fresh, Restyle, Produces, ComposeAttributes, Inserts, Rebasing.Positive, AttribZip,
         Zip.Slicer;
    var sem := Verbatim(true, pool);
    if ops == [] {
      assert r == d && bank == "" by { NothingDone(sem, bank, d, r); }
      zs := att;
      SameLength(sem, att, t, d);
      AttribZipRest(att, pool);
    } else {
      ReadsText(sem, ops, bank, d, r);
      RunCodes(sem, ops, bank, d, r);
      PositiveFirst(ops);
      if ops[0].code == Insert {
        zs := ZipInsert(pool, att, ops, bank, t, d, r);
      } else {
        if att == [] {
          NothingProduced(sem, t, d);
          NotLonger(sem, ops, bank, d, r);
          assert false;
        }
        zs := ZipKeep(pool, att, ops, bank, t, d, r);
      }
    }
  }

  lemma {:induction false} PositiveFirst(ops: seq<Op>)
    requires Rebasing.Positive(ops) && ops != []
    ensures ops[0].chars > 0 && Rebasing.Positive(ops[1..])
  {}

  lemma {:induction false} PositiveBehind(ops: seq<Op>, left: Op)
    requires Rebasing.Positive(ops) && ops != [] && (left.code == Nop || left.chars > 0)
    ensures Rebasing.Positive(Zip.Behind(left, ops))
  {}

  lemma {:induction false} AttribZipNothing(pool: Pool)
    ensures AttribZip([], [], pool) == Ok(([], pool))
  {}

  lemma {:induction false} AttribZipOne(att: seq<Op>, pool: Pool)
    requires att != [] && att[0].code == Insert
    ensures AttribZip(att, [], pool) ==
            match AttribZip(att[1..], [], pool)
            case Err(e) => Err(e)
            case Ok((ops, p)) => Ok(([att[0]] + ops, p))
  {
    var s := Zip.Slice(att[0], att[0].(code := Nop), NO_OP, pool);
    assert Zip.Slicer(att[0], NO_OP, pool) == Ok(s);
    assert Zip.Behind(s.att, att) == att[1..] && Zip.Behind(s.cs, []) == [];
    hide Zip.Slicer, Zip.Behind;
  }

  /** Without further operations the zip writes the rest of the attribution. */
  lemma {:induction false} AttribZipRest(att: seq<Op>, pool: Pool)
    requires Inserts(att)
    ensures AttribZip(att, [], pool) == Ok((att, pool))
    decreases |att|
  {
    hide AttribZip;
    if att == [] {
      AttribZipNothing(pool);
    } else {
      assert Inserts(att[1..]) && att[0].code == Insert;
      AttribZipOne(att, pool);
      hide Inserts;
      AttribZipRest(att[1..], pool);
      assert att == [att[0]] + att[1..];
    }
  }

  lemma {:induction false} AttribZipStep(att: seq<Op>, ops: seq<Op>, pool: Pool, s: Zip.Slice, rest: seq<Op>)
    requires !(att == [] && ops == []) && Zip.Slicer(Zip.First(att), Zip.First(ops), pool) == Ok(s)
    requires AttribZip(Zip.Behind(s.att, att), Zip.Behind(s.cs, ops), s.pool) == Ok((rest, pool))
    ensures AttribZip(att, ops, pool) == Ok((Zip.Emit(s.out) + rest, pool))
  {
    hide Zip.Slicer;
  }

  lemma {:induction false} ZipInsert(pool: Pool, att: seq<Op>, ops: seq<Op>, bank: string, t: string, d: Doc, r: Doc)
    returns (zs: seq<Op>)
    requires Good(pool) && Inserts(att) && Rebasing.Positive(ops) && ops != [] && ops[0].code == Insert
    requires Produces(Verbatim(true, pool), att, t, [], d) && Produces(Verbatim(true, pool), ops, bank, d, r)
    ensures AttribZip(att, ops, pool) == Ok((zs, pool)) && Inserts(zs)
    ensures Produces(Verbatim(true, pool), zs, Text(r), [], r)
    decreases |att| + |ops|, 0
  {
    hide Newlines, Clean, Text, Fresh, Restyle, Run, ComposeAttributes, AttribZip, Inserts, Rebasing.Positive;
    var sem, k := Verbatim(true, pool), ops[0].chars;
    PositiveFirst(ops);
    var e, r' := UnfoldProduces(sem, ops, bank, d, r);
    var zs' := AttribZipVerbatim(pool, att, ops[1..], bank[k..], t, d, r');
    var s := Zip.Slice(ops[0], Zip.First(att), ops[0].(code := Nop), pool);
    assert Zip.Slicer(Zip.First(att), ops[0], pool) == Ok(s) by { FirstInsert(att); }
    assert Zip.Behind(s.att, att) == att && Zip.Behind(s.cs, ops) == ops[1..] by {
      FirstInsert(att);
      assert [] + ops[1..] == ops[1..];
    }
    AttribZipStep(att, ops, pool, s, zs');
    zs := [ops[0]] + zs';
    ProducesInsert(sem, ops[0], bank[..k], zs', Text(r'), [], r');
    TextConcat(e.out, r');
    assert Text(e.out) == bank[..k];
    InsertsCons(ops[0], zs');
  }

  lemma {:induction false} FirstInsert(att: seq<Op>)
    requires Inserts(att)
    ensures att == [] ==> Zip.First(att).code == Nop
    ensures att != [] ==> Zip.First(att).code == Insert && att == [att[0]] + att[1..]
  {}

  lemma {:induction false} InsertsCons(op: Op, ops: seq<Op>)
    requires Inserts(ops) && op.code == Insert && op.chars > 0 && op.lines >= 0
    ensures Inserts([op] + ops)
  {}

  lemma {:induction false} ZipKeep(pool: Pool, att: seq<Op>, ops: seq<Op>, bank: string, t: string, d: Doc, r: Doc)
    returns (zs: seq<Op>)
    requires Good(pool) && Inserts(att) && Rebasing.Positive(ops) && att != [] && ops != []
             && (ops[0].code == Keep || ops[0].code == Delete)
    requires Produces(Verbatim(true, pool), att, t, [], d) && Produces(Verbatim(true, pool), ops, bank, d, r)
    ensures AttribZip(att, ops, pool) == Ok((zs, pool)) && Inserts(zs)
    ensures Produces(Verbatim(true, pool), zs, Text(r), [], r)
    decreases |att| + |ops|, 0
  {
    hide Newlines, Clean, Text, Fresh, Restyle, Produces, ComposeAttributes, AttribZip, Zip.Slicer, Inserts,
         Rebasing.Positive;
    var sem, k := Verbatim(true, pool), Min(att[0].chars, ops[0].chars);
    PositiveFirst(ops);
    var r' := CutBoth(pool, att, ops, bank, t, d, r);
    var s := Zip.Slicer(att[0], ops[0], pool).value;
    FirstInsert(att);
    SlicedSmaller(pool, att, ops, s);
    PositiveBehind(ops, s.cs);
    var zs' := AttribZipVerbatim(pool, Zip.Behind(s.att, att), Zip.Behind(s.cs, ops), bank, t[k..], d[k..], r');
    AttribZipStep(att, ops, pool, s, zs');
    zs := Zip.Emit(s.out) + zs';
    if ops[0].code == Keep {
      var x := Fresh(sem, s.out.attribs, t[..k]);
      ProducesInsert(sem, s.out, t[..k], zs', Text(r'), [], r');
      TextConcat(x, r');
      assert Text(x) == t[..k];
      InsertsCons(s.out, zs');
    } else {
      assert [] + zs' == zs' && [] + r' == r';
    }
  }

  lemma {:induction false} SlicedSmaller(pool: Pool, att: seq<Op>, ops: seq<Op>, s: Zip.Slice)
    requires att != [] && ops != [] && ops[0].chars > 0 && Zip.Slicer(att[0], ops[0], pool) == Ok(s)
    requires att[0].code == Insert && (ops[0].code == Keep || ops[0].code == Delete)
    ensures |Zip.Behind(s.att, att)| + |Zip.Behind(s.cs, ops)| < |att| + |ops|
    ensures s.cs.code == Nop || s.cs.chars > 0
  {}

  // ----- the state of the line-by-line procedure -----

  /**
    Attribution lines written, the merger of the line being written, the runs left of the line being read, and
    the attribution lines not read yet.
   */
  datatype View = View(done: seq<string>, m: Merger, pending: seq<Op>, rest: seq<string>)

  /** The texts and documents that the parts of a view cover. */
  datatype Progress = Progress(
    tl: seq<string>, ls: seq<seq<Op>>, dd: Doc, p: string, dp: Doc, u: string, du: Doc, tr: seq<string>,
        lr: seq<seq<Op>>, dr: Doc)

  ghost predicate Fine(pool: Pool, v: View, g: Progress) {
    && LineAttributes(pool, v.done, g.tl, g.ls, g.dd) && AllFull(g.tl)
    && MergerFine(v.m) && MergerText(v.m) && Produces(Verbatim(true, pool), Merged(v.m), g.p, [], g.dp)
    && Newlines(g.p) == 0
    && Inserts(v.pending) && RunsOk(v.pending) && AllAttribText(v.pending)
    && Produces(Verbatim(true, pool), v.pending, g.u, [], g.du) && (g.u != "" ==> EndsInNewline(g.u))
    && LineAttributes(pool, v.rest, g.tr, g.lr, g.dr) && AllFull(g.tr)
  }

  /** The text and the document still to be read. */
  function Ahead(g: Progress): string { g.u + Join(g.tr) }

  function AheadDoc(g: Progress): Doc { g.du + g.dr }

  /** What is written so far. */
  function WrittenText(g: Progress): string { Join(g.tl) + g.p }

  function WrittenDoc(g: Progress): Doc { g.dd + g.dp }

  /** Reading the runs of the next line. */
  function Fetched(v: View): View
    requires v.rest != []
  {
    v.(pending := LineOps(v.rest[0]), rest := v.rest[1..])
  }

  lemma {:induction false} LineTail(pool: Pool, alines: seq<string>, lines: seq<string>, ls: seq<seq<Op>>, d: Doc)
    requires LineAttributes(pool, alines, lines, ls, d) && alines != []
    ensures LineOps(alines[0]) == ls[0] && LineCover(Verbatim(true, pool), ls[0], lines[0], d[..|lines[0]|])
            && |lines[0]| <= |d|
    ensures LineAttributes(pool, alines[1..], lines[1..], ls[1..], d[|lines[0]|..])
    ensures AllAttribText(ls[0])
  {
    hide LineCover, AttribText, Deserialize;
    ParsedPrintable(alines[0]);
    PrintableParts(ls[0]);
  }

  lemma {:induction false} FetchFine(pool: Pool, v: View, g: Progress) returns (h: Progress)
    requires Fine(pool, v, g) && v.pending == [] && v.rest != []
    ensures Fine(pool, Fetched(v), h) && Ahead(h) == Ahead(g) && AheadDoc(h) == AheadDoc(g)
    ensures h.tl == g.tl && h.p == g.p && h.dd == g.dd && h.dp == g.dp && h.ls == g.ls
    ensures Fetched(v).pending != []
  {
    hide Newlines, Produces, MergerFine, MergerText, Merged, RunsOk, AllAttribText, LineCover, LinesCover, Canonical,
         Inserts;
    NothingProduced(Verbatim(true, pool), g.u, g.du);
    LineTail(pool, v.rest, g.tr, g.lr, g.dr);
    var n := |g.tr[0]|;
    h := g.(u := g.tr[0], du := g.dr[..n], tr := g.tr[1..], lr := g.lr[1..], dr := g.dr[n..]);
    assert FullLine(g.tr[0]);
    CoverRuns(pool, g.lr[0], g.tr[0], g.dr[..n]);
    assert AllFull(h.tr) by { FullTail(g.tr); }
    assert "" + (g.tr[0] + Join(g.tr[1..])) == g.tr[0] + Join(g.tr[1..]);
    assert [] + g.dr == g.dr[..n] + g.dr[n..];
  }

  lemma {:induction false} FullTail(lines: seq<string>)
    requires AllFull(lines) && lines != []
    ensures AllFull(lines[1..])
  {
    hide FullLine;
  }

  lemma {:induction false} CoverRuns(pool: Pool, ops: seq<Op>, l: string, d: Doc)
    requires LineCover(Verbatim(true, pool), ops, l, d)
    ensures RunsOk(ops) && Inserts(ops) && Produces(Verbatim(true, pool), ops, l, [], d) && (l != "" ==> ops != [])
  {
    hide Newlines, Produces;
    RunsInserts(ops, Verbatim(true, pool), l, d);
    if ops == [] { NothingProduced(Verbatim(true, pool), l, d); }
  }

  /** Writing a run: the line is shipped when the run ends it. */
  function Output(v: View, op: Op): View {
    var n := MergeAppend(v.m, op);
    if op.lines > 0 then v.(done := v.done + [Serialize(Merged(n))], m := NEW_MERGER) else v.(m := n)
  }

  lemma {:induction false} OutputFine(pool: Pool, v: View, g: Progress, op: Op, x: string) returns (h: Progress)
    requires Fine(pool, v, g) && op.code == Insert && op.chars == |x| > 0 && Fits(Verbatim(true, pool), op.lines, x)
             && op.lines <= 1
    requires AttribText(op.attribs)
    ensures Fine(pool, Output(v, op), h)
    ensures h.u == g.u && h.du == g.du && h.tr == g.tr && h.lr == g.lr && h.dr == g.dr
    ensures WrittenText(h) == WrittenText(g) + x
            && WrittenDoc(h) == WrittenDoc(g) + Fresh(Verbatim(true, pool), op.attribs, x)
    ensures op.lines <= 0 ==> Output(v, op).m.buf.code != Nop
  {
    hide Newlines, Produces, MergerFine, MergerText, Merged, RunsOk, AttribText, AllAttribText, LineCover, LinesCover,
         Canonical, Inserts, MergeAppend, Fresh, Join, Deserialize, Serialize;
    var sem, n, dx := Verbatim(true, pool), MergeAppend(v.m, op), Fresh(Verbatim(true, pool), op.attribs, x);
    MergeCovers(sem, v.m, op, g.p, x, g.dp, dx);
    MergeText(v.m, op);
    NewlinesConcat(g.p, x);
    NewlinesBound(x);
    var q, dq := g.p + x, g.dp + dx;
    if op.lines > 0 {
      assert EndsInNewline(q);
      LineDone(sem, n, q, dq);
      ShipLine(pool, v, g, n, q, dq);
      NewMergerFine();
      NewMergerText();
      NothingProducedIn(sem, []);
      NewlinesBound("");
      h := g.(tl := g.tl + [q], ls := g.ls + [Merged(n)], dd := g.dd + dq, p := "", dp := []);
      JoinConcat(g.tl, [q]);
      JoinOne(q);
      assert Join(g.tl) + g.p + x == Join(g.tl) + q && Join(g.tl) + q + "" == Join(g.tl) + q;
      assert g.dd + g.dp + dx == g.dd + dq && g.dd + dq + [] == g.dd + dq;
    } else {
      h := g.(p := q, dp := dq);
      assert Join(g.tl) + g.p + x == Join(g.tl) + q && g.dd + g.dp + dx == g.dd + dq;
      MergedSome(v.m, op);
    }
  }

  lemma {:induction false} MergedSome(m: Merger, op: Op)
    requires op.code == Insert && op.chars > 0
    ensures MergeAppend(m, op).buf.code != Nop
  {}

  /** A finished line joins the lines written. */
  lemma {:induction false} ShipLine(pool: Pool, v: View, g: Progress, n: Merger, q: string, dq: Doc)
    requires LineAttributes(pool, v.done, g.tl, g.ls, g.dd) && AllFull(g.tl)
    requires Produces(Verbatim(true, pool), Merged(n), q, [], dq) && RunsOk(Merged(n)) && Canonical(Merged(n))
             && AllAttribText(Merged(n))
    requires Newlines(q) == 1 && EndsInNewline(q)
    ensures LineAttributes(pool, v.done + [Serialize(Merged(n))], g.tl + [q], g.ls + [Merged(n)], g.dd + dq)
            && AllFull(g.tl + [q])
  {
    hide Newlines, Produces, Merged, RunsOk, Canonical, AllAttribText, Deserialize, Serialize;
    var sem, ops := Verbatim(true, pool), Merged(n);
    RunsPrintable(ops);
    DeserializeSerialize(ops);
    SameLength(sem, ops, q, dq);
    assert dq[..|q|] == dq && dq[|q|..] == [] && [q][1..] == [] && [ops][1..] == [];
    assert LinesCover(sem, [], [], []);
    assert LinesCover(sem, [ops], [q], dq);
    CoverAppend(sem, g.ls, g.tl, g.dd, [ops], [q], dq);
  }

  // ----- the steps of the procedure -----

  /** Passing over `l` whole attribution lines. */
  function Skipped(v: View, l: nat): View
    requires l <= |v.rest|
  {
    v.(done := v.done + v.rest[..l], rest := v.rest[l..])
  }

  /** A stretch of full lines that ends with a newline is so many lines. */
  lemma {:induction false} WholeLines(lines: seq<string>, n: nat, l: nat)
    requires AllFull(lines) && n <= |Join(lines)| && l > 0 && Newlines(Join(lines)[..n]) == l
             && EndsInNewline(Join(lines)[..n])
    ensures l <= |lines| && Join(lines)[..n] == Join(lines[..l]) && n == |Join(lines[..l])|
  {
    hide Newlines, Join;
    var c := Cursor(lines, 0, 0);
    BehindStart(lines, 0);
    assert lines[0..] == lines;
    NewlinesBound("");
    assert LineAt(lines, 0)[..0] == "";
    assert LineList(lines) by { FullIsList(lines); }
    LinesFit(c, n, l);
    JoinFirst(lines, l);
    assert lines[0][0..] == lines[0];
  }

  lemma {:induction false} FullIsList(lines: seq<string>)
    requires AllFull(lines)
    ensures LineList(lines)
  {
    FullIsLine();
  }

  lemma {:induction false} JoinFirst(lines: seq<string>, l: nat)
    requires 0 < l <= |lines|
    ensures Join(lines[..l]) == lines[0] + Join(lines[1..l])
  {
    assert lines[..l][1..] == lines[1..l];
  }

  lemma {:induction false} FullSplit(lines: seq<string>, l: nat)
    requires AllFull(lines) && l <= |lines|
    ensures AllFull(lines[..l]) && AllFull(lines[l..])
  {
    hide FullLine;
  }

  lemma {:induction false} FullConcat(a: seq<string>, b: seq<string>)
    requires AllFull(a) && AllFull(b)
    ensures AllFull(a + b)
  {
    hide FullLine;
  }

  lemma {:induction false} LinesConcat(pool: Pool, a1: seq<string>, t1: seq<string>, l1: seq<seq<Op>>, d1: Doc,
          a2: seq<string>, t2: seq<string>, l2: seq<seq<Op>>, d2: Doc)
    requires LineAttributes(pool, a1, t1, l1, d1) && LineAttributes(pool, a2, t2, l2, d2)
    ensures LineAttributes(pool, a1 + a2, t1 + t2, l1 + l2, d1 + d2)
  {
    hide LinesCover, Deserialize;
    CoverAppend(Verbatim(true, pool), l1, t1, d1, l2, t2, d2);
  }

  lemma {:induction false} LinesSplit(pool: Pool, a: seq<string>, t: seq<string>, ls: seq<seq<Op>>, d: Doc, k: nat)
    returns (j: nat)
    requires LineAttributes(pool, a, t, ls, d) && k <= |a|
    ensures j == |Join(t[..k])| <= |d|
    ensures LineAttributes(pool, a[..k], t[..k], ls[..k], d[..j])
            && LineAttributes(pool, a[k..], t[k..], ls[k..], d[j..])
  {
    hide LinesCover, Deserialize;
    j := CoverSplit(Verbatim(true, pool), ls, t, d, k);
  }

  lemma {:induction false} SkipFine(pool: Pool, v: View, g: Progress, n: nat, l: nat) returns (h: Progress)
    requires Fine(pool, v, g) && v.pending == [] && v.m == NEW_MERGER
    requires n <= |Ahead(g)| && l > 0 && Newlines(Ahead(g)[..n]) == l && EndsInNewline(Ahead(g)[..n])
    ensures l <= |v.rest| && Fine(pool, Skipped(v, l), h)
    ensures |AheadDoc(g)| >= n && AheadDoc(h) == AheadDoc(g)[n..] && WrittenDoc(h) == WrittenDoc(g) + AheadDoc(g)[..n]
  {
    hide Newlines, Produces, MergerFine, MergerText, RunsOk, AllAttribText, LinesCover, Inserts, Join, LineAttributes;
    var sem := Verbatim(true, pool);
    NothingProduced(sem, g.u, g.du);
    NewMergerFine();
    NothingProduced(sem, g.p, g.dp);
    assert Ahead(g) == Join(g.tr) && AheadDoc(g) == g.dr;
    WholeLines(g.tr, n, l);
    SameCount(pool, v.rest, g.tr, g.lr, g.dr);
    var j := LinesSplit(pool, v.rest, g.tr, g.lr, g.dr, l);
    LinesConcat(pool, v.done, g.tl, g.ls, g.dd, v.rest[..l], g.tr[..l], g.lr[..l], g.dr[..n]);
    FullSplit(g.tr, l);
    FullConcat(g.tl, g.tr[..l]);
    h := g.(tl := g.tl + g.tr[..l], ls := g.ls + g.lr[..l], dd := g.dd + g.dr[..n], tr := g.tr[l..], lr := g.lr[l..],
        dr := g.dr[n..]);
  }

  lemma {:induction false} SameCount(pool: Pool, a: seq<string>, t: seq<string>, ls: seq<seq<Op>>, d: Doc)
    requires LineAttributes(pool, a, t, ls, d)
    ensures |a| == |t| == |ls|
  {}

  /** The document behind the view is covered by all runs ahead. */
  lemma {:induction false} AheadCovered(pool: Pool, v: View, g: Progress)
    requires Fine(pool, v, g)
    ensures Produces(Verbatim(true, pool), v.pending + Concat(g.lr), Ahead(g), [], AheadDoc(g))
            && Inserts(v.pending + Concat(g.lr))
    ensures |g.u| == |g.du| && Text(AheadDoc(g)) == Ahead(g)
  {
    hide Newlines, Produces, MergerFine, MergerText, RunsOk, AllAttribText, LinesCover, Merged;
    var sem := Verbatim(true, pool);
    CoverConcat(sem, g.lr, g.tr, g.dr);
    RunsConcat(sem, v.pending, Concat(g.lr), g.u, Join(g.tr), g.du, g.dr);
    RunsInserts(Concat(g.lr), sem, Join(g.tr), g.dr);
    SameLength(sem, v.pending, g.u, g.du);
    SameLength(sem, v.pending + Concat(g.lr), Ahead(g), AheadDoc(g));
  }

  /** The view once a part of the current run is read. */
  function TakenOff(v: View, left: Op): View
    requires v.pending != []
  {
    v.(pending := Zip.Behind(left, v.pending))
  }

  /** A part of the first of some runs is read. */
  lemma {:induction false} TakeRun(sem: AttrSem, pending: seq<Op>, left: Op, k: nat, u: string, du: Doc)
    requires sem.strict && Inserts(pending) && RunsOk(pending) && Produces(sem, pending, u, [], du) && pending != []
    requires 0 < k <= pending[0].chars <= |u| && Clean(u[..k]) && pending[0].lines >= Newlines(u[..k])
    requires if k == pending[0].chars then left.code == Nop
             else left == Op(Insert, pending[0].chars - k, pending[0].lines - Newlines(u[..k]), pending[0].attribs)
    ensures |u| == |du| && Produces(sem, Zip.Behind(left, pending), u[k..], [], du[k..])
    ensures Inserts(Zip.Behind(left, pending)) && RunsOk(Zip.Behind(left, pending))
  {
    hide Newlines, Clean, Produces, Fresh;
    SameLength(sem, pending, u, du);
    assert Ops.Cut(pending[0], k, u, []) == u[..k];
    var e, d' := CutFirst(sem, pending, k, u, [], du);
    HeadEffect(sem, pending[0], k, u, e);
    assert du[k..] == d';
    CutInserts(pending, left, k);
    NewlinesPositive(u[..k]);
  }

  /** Reading a part of the current run. */
  lemma {:induction false} TakeFine(pool: Pool, v: View, g: Progress, left: Op, k: nat) returns (h: Progress)
    requires Fine(pool, v, g) && v.pending != [] && 0 < k <= v.pending[0].chars && k <= |g.u| && Clean(g.u[..k])
    requires if k == v.pending[0].chars then left.code == Nop
             else left == Op(Insert, v.pending[0].chars - k, v.pending[0].lines - Newlines(g.u[..k]),
                  v.pending[0].attribs)
    requires v.pending[0].lines >= Newlines(g.u[..k])
    ensures Fine(pool, TakenOff(v, left), h) && |g.u| == |g.du|
    ensures h.tl == g.tl && h.ls == g.ls && h.dd == g.dd && h.p == g.p && h.dp == g.dp
    ensures Ahead(h) == Ahead(g)[k..] && AheadDoc(h) == AheadDoc(g)[k..]
  {
    hide Newlines, Clean, Produces, MergerFine, MergerText, AttribText, LineAttributes, Merged, Fresh, Inserts, RunsOk,
         Zip.Behind;
    FirstRunFits(pool, v.pending, g.u, g.du);
    TakeRun(Verbatim(true, pool), v.pending, left, k, g.u, g.du);
    BehindText(left, v.pending);
    h := g.(u := g.u[k..], du := g.du[k..]);
    assert (g.u + Join(g.tr))[k..] == g.u[k..] + Join(g.tr) && (g.du + g.dr)[k..] == g.du[k..] + g.dr;
    assert g.u[k..] != "" ==> EndsInNewline(g.u[k..]);
  }

  lemma {:induction false} NewlinesPositive(s: string)
    ensures Newlines(s) >= 0
  {}

  lemma {:induction false} FirstRunFits(pool: Pool, ops: seq<Op>, t: string, d: Doc)
    requires ops != [] && Inserts(ops) && Produces(Verbatim(true, pool), ops, t, [], d)
    ensures ops[0].chars <= |t|
  {
    hide Produces;
    var _ := FirstRun(pool, ops, t, d);
  }

  lemma {:induction false} HeadEffect(sem: AttrSem, op: Op, k: nat, t: string, e: Effect)
    requires op.code == Insert && k <= |t| && RunOp(sem, Head(op, k, Newlines(t[..k])), t, []) == Some(e)
    ensures e.bank == t[k..] && e.doc == [] && |e.out| == k && e.out == Fresh(sem, op.attribs, t[..k])
  {
    hide Newlines, Clean, Fresh;
  }

  // ----- the changeset beside the view -----

  /** The operations still to do turn what is ahead into the rest of the result. */
  ghost predicate InStep(pool: Pool, v: View, g: Progress, ops: seq<Op>, bank: string, result: Doc) {
    && Fine(pool, v, g) && Rebasing.Positive(ops) && AllAttribText(ops)
    && exists r :: Produces(Verbatim(true, pool), ops, bank, AheadDoc(g), r) && WrittenDoc(g) + r == result
  }

  /** A run that the slicer writes goes to the line; nothing is written for a deletion. */
  function Emitted(v: View, out: Op): View { if out.code == Nop then v else Output(v, out) }

  lemma {:induction false} BehindText(left: Op, ops: seq<Op>)
    requires AllAttribText(ops) && ops != [] && (left.code != Nop ==> AttribText(left.attribs))
    ensures AllAttribText(Zip.Behind(left, ops))
  {
    hide AttribText;
  }

  /** A keep or a deletion against the current run. */
  lemma {:induction false} KeepStep(pool: Pool, v: View, g: Progress, ops: seq<Op>, bank: string, result: Doc)
    returns (h: Progress)
    requires Good(pool) && InStep(pool, v, g, ops, bank, result) && v.pending != [] && ops != []
             && (ops[0].code == Keep || ops[0].code == Delete)
    ensures Zip.Slicer(v.pending[0], ops[0], pool).Ok?
    ensures var s := Zip.Slicer(v.pending[0], ops[0], pool).value;
            && s.pool == pool && s.out.lines <= 1 && (s.out.code != Nop ==> s.out.chars > 0)
            && InStep(pool, Emitted(TakenOff(v, s.att), s.out), h, Zip.Behind(s.cs, ops), bank, result)
            && |Zip.Behind(s.att, v.pending)| + |Zip.Behind(s.cs, ops)| < |v.pending| + |ops|
  {
    hide Newlines, Clean, Produces, ComposeAttributes, AttribText, LineAttributes, Zip.Slicer, Fine, Fresh, Output,
         Inserts;
    var sem := Verbatim(true, pool);
    var r :| Produces(sem, ops, bank, AheadDoc(g), r) && WrittenDoc(g) + r == result;
    AheadCovered(pool, v, g);
    var att := v.pending + Concat(g.lr);
    PositiveFirst(ops);
    var r' := CutBoth(pool, att, ops, bank, Ahead(g), AheadDoc(g), r);
    var s := Zip.Slicer(v.pending[0], ops[0], pool).value;
    var k := Min(v.pending[0].chars, ops[0].chars);
    PendingParts(pool, v, g);
    assert Ahead(g)[..k] == g.u[..k];
    SliceStep2(pool, v, g, ops, bank, r, s);
    var h1 := TakeFine(pool, v, g, s.att, k);
    Algebra.SlicerAttribText(v.pending[0], ops[0], pool);
    SlicedSmaller(pool, v.pending, ops, s);
    PositiveBehind(ops, s.cs);
    BehindText(s.cs, ops);
    if ops[0].code == Keep {
      h := OutputFine(pool, TakenOff(v, s.att), h1, s.out, g.u[..k]);
      var x := Fresh(sem, s.out.attribs, g.u[..k]);
      assert WrittenDoc(g) + (x + r') == WrittenDoc(g) + x + r';
    } else {
      h := h1;
      assert [] + r' == r';
    }
    assert Produces(sem, Zip.Behind(s.cs, ops), bank, AheadDoc(h), r') && WrittenDoc(h) + r' == result;
  }

  /** The runs of the line being read. */
  lemma {:induction false} PendingParts(pool: Pool, v: View, g: Progress)
    requires Fine(pool, v, g) && v.pending != []
    ensures v.pending[0].chars <= |g.u| && v.pending[0].lines <= 1 && v.pending[0].code == Insert
            && AttribText(v.pending[0].attribs)
    ensures v.pending[0].lines == Newlines(g.u[..v.pending[0].chars]) && Clean(g.u[..v.pending[0].chars])
  {
    hide Newlines, Clean, Produces, AttribText, LineAttributes, MergerFine, MergerText, Merged;
    var _ := FirstRun(pool, v.pending, g.u, g.du);
  }

  /** What the slicer leaves of the current run. */
  lemma {:induction false} SliceStep2(pool: Pool, v: View, g: Progress, ops: seq<Op>, bank: string, r: Doc,
          s: Zip.Slice)
    requires Good(pool) && Fine(pool, v, g) && v.pending != [] && ops != []
             && (ops[0].code == Keep || ops[0].code == Delete) && ops[0].chars > 0
    requires Produces(Verbatim(true, pool), ops, bank, AheadDoc(g), r)
             && Zip.Slicer(v.pending[0], ops[0], pool) == Ok(s)
    ensures var k := Min(v.pending[0].chars, ops[0].chars);
            && 0 < k <= |g.u| && Clean(g.u[..k])
            && (if k == v.pending[0].chars then s.att.code == Nop
                else s.att == Op(Insert, v.pending[0].chars - k, v.pending[0].lines - Newlines(g.u[..k]),
                     v.pending[0].attribs))
            && v.pending[0].lines >= Newlines(g.u[..k])
            && s.out.lines == Newlines(g.u[..k]) && s.out.chars == k && s.out.lines <= 1
  {
    hide Newlines, Clean, Produces, ComposeAttributes, AttribText, LineAttributes, Zip.Slicer, MergerFine, MergerText,
         Merged;
    var n := v.pending[0].chars;
    PendingParts(pool, v, g);
    assert v.pending[0].chars > 0;
    AheadCovered(pool, v, g);
    ReadsText(Verbatim(true, pool), ops, bank, AheadDoc(g), r);
    var t := Ahead(g);
    assert t[..n] == g.u[..n];
    SliceStep(pool, v.pending[0], ops[0], t);
    assert t[..Min(n, ops[0].chars)] == g.u[..Min(n, ops[0].chars)];
  }

  /** With no operation left, the rest of the line is written as it is. */
  lemma {:induction false} RestStep(pool: Pool, v: View, g: Progress, bank: string, result: Doc) returns (h: Progress)
    requires InStep(pool, v, g, [], bank, result) && v.pending != []
    ensures v.pending[0].lines <= 1 && v.pending[0].chars > 0 && v.pending[0].code == Insert
    ensures InStep(pool, Output(v.(pending := v.pending[1..]), v.pending[0]), h, [], bank, result)
  {
    hide Newlines, Clean, Produces, AttribText, LineAttributes, Fine, Fresh, Output;
    var sem, op := Verbatim(true, pool), v.pending[0];
    var r :| Produces(sem, [], bank, AheadDoc(g), r) && WrittenDoc(g) + r == result;
    NothingDone(sem, bank, AheadDoc(g), r);
    PendingParts(pool, v, g);
    var k := op.chars;
    assert k > 0 by { PendingSome(pool, v, g); }
    var h1 := TakeFine(pool, v, g, op.(code := Nop), k);
    assert TakenOff(v, op.(code := Nop)).pending == v.pending[1..];
    h := OutputFine(pool, TakenOff(v, op.(code := Nop)), h1, op, g.u[..k]);
    var x := Fresh(sem, op.attribs, g.u[..k]);
    PendingDoc(pool, v, g);
    assert WrittenDoc(g) + AheadDoc(g) == WrittenDoc(g) + x + AheadDoc(g)[k..] by {
      assert AheadDoc(g) == AheadDoc(g)[..k] + AheadDoc(g)[k..];
      assert WrittenDoc(g) + (x + AheadDoc(g)[k..]) == WrittenDoc(g) + x + AheadDoc(g)[k..];
    }
    NothingProducedIn(sem, AheadDoc(h));
    assert Produces(sem, [], bank, AheadDoc(h), AheadDoc(h));
  }

  lemma {:induction false} PendingSome(pool: Pool, v: View, g: Progress)
    requires Fine(pool, v, g) && v.pending != []
    ensures v.pending[0].chars > 0
  {
    hide Produces, LineAttributes, MergerFine, MergerText, Merged, AttribText;
  }

  /** The document that the current run gives. */
  lemma {:induction false} PendingDoc(pool: Pool, v: View, g: Progress)
    requires Fine(pool, v, g) && v.pending != []
    ensures var k := v.pending[0].chars;
            k <= |g.u| && k <= |AheadDoc(g)|
                && AheadDoc(g)[..k] == Fresh(Verbatim(true, pool), v.pending[0].attribs, g.u[..k])
  {
    hide Newlines, Clean, Run, AttribText, LineAttributes, MergerFine, MergerText, Merged, Fresh;
    var k := v.pending[0].chars;
    var e, d' := UnfoldProduces(Verbatim(true, pool), v.pending, g.u, [], g.du);
    assert (g.du + g.dr)[..k] == e.out;
  }

  /** The first line of an insertion, or all of one that holds no more than a newline. */
  function FirstInsertion(op: Op, bank: string): Op {
    if op.lines > 1 then Op(op.code, RuneIndex(bank, '\n') + 1, 1, op.attribs) else op
  }

  function InsertionLeft(op: Op, bank: string): Op {
    var k := RuneIndex(bank, '\n') + 1;
    if op.lines > 1 then Op(op.code, if op.chars >= k then op.chars - k else 0, op.lines - 1, op.attribs)
        else op.(code := Nop)
  }

  lemma {:induction false} FirstInsertionFits(sem: AttrSem, ops: seq<Op>, bank: string, d: Doc, r: Doc)
    requires sem.strict && ops != [] && ops[0].code == Insert && ops[0].chars > 0 && Produces(sem, ops, bank, d, r)
    ensures var out := FirstInsertion(ops[0], bank);
            && 0 < out.chars <= ops[0].chars <= |bank| && out.lines <= 1 && Fits(sem, out.lines, bank[..out.chars])
            && Clean(bank[..out.chars])
            && (ops[0].lines > 1 ==> out.chars < ops[0].chars)
  {
    hide Newlines, Clean, Fresh, Run, RuneIndex;
    ReadsText(sem, ops, bank, d, r);
    if ops[0].lines > 1 {
      var n := ops[0].chars;
      var s := bank[..n];
      FirstNewline(s);
      FirstNewlinePrefix(bank, n);
      var k := RuneIndex(bank, '\n') + 1;
      assert s[..k] == bank[..k];
      assert s[..|s|] == s;
      EndsClean(bank[..k]);
    }
  }

  /** The first line of an insertion is taken off the operations. */
  lemma {:induction false} InsertionTaken(pool: Pool, ops: seq<Op>, bank: string, ahead: Doc, r: Doc) returns (r': Doc)
    requires Produces(Verbatim(true, pool), ops, bank, ahead, r) && Rebasing.Positive(ops) && AllAttribText(ops)
    requires ops != [] && ops[0].code == Insert
    ensures var out := FirstInsertion(ops[0], bank);
            && out.code == Insert && 0 < out.chars <= |bank| && 0 <= out.lines <= 1 && AttribText(out.attribs)
            && Fits(Verbatim(true, pool), out.lines, bank[..out.chars])
            && r == Fresh(Verbatim(true, pool), out.attribs, bank[..out.chars]) + r'
            && var behind := Zip.Behind(InsertionLeft(ops[0], bank), ops);
            && Produces(Verbatim(true, pool), behind, bank[out.chars..], ahead, r')
            && Rebasing.Positive(behind) && AllAttribText(behind)
  {
    hide Newlines, Clean, Produces, AttribText, Fresh, RuneIndex, Rebasing.Positive, Zip.Behind;
    var sem := Verbatim(true, pool);
    PositiveFirst(ops);
    FirstInsertionFits(sem, ops, bank, ahead, r);
    var out, left := FirstInsertion(ops[0], bank), InsertionLeft(ops[0], bank);
    var k := out.chars;
    CutOfInsert(ops[0], k, bank, ahead);
    var e;
    e, r' := CutFirst(sem, ops, k, bank, ahead, r);
    InsertEffect(sem, ops[0], k, bank, ahead, e);
    SameBehind(ops, left, k, Newlines(bank[..k]));
    PositiveBehind(ops, left);
    assert AttribText(ops[0].attribs);
    NewlinesPositive(bank[..k]);
    BehindText(left, ops);
  }

  /** An insertion is written line by line. */
  lemma {:induction false} InsertStep(pool: Pool, v: View, g: Progress, ops: seq<Op>, bank: string, result: Doc)
    returns (h: Progress)
    requires InStep(pool, v, g, ops, bank, result) && ops != [] && ops[0].code == Insert
    ensures var out := FirstInsertion(ops[0], bank);
            && 0 < out.chars <= |bank| && 0 <= out.lines <= 1 && AttribText(out.attribs)
            && InStep(pool, Output(v, out), h, Zip.Behind(InsertionLeft(ops[0], bank), ops), bank[out.chars..], result)
            && h.u == g.u && h.tr == g.tr
            && |bank[out.chars..]| < |bank|
  {
    hide Newlines, Produces, AttribText, AllAttribText, Fine, Fresh, Output, FirstInsertion, InsertionLeft,
         Rebasing.Positive, Zip.Behind, WrittenDoc, Fits;
    var sem := Verbatim(true, pool);
    var r :| Produces(sem, ops, bank, AheadDoc(g), r) && WrittenDoc(g) + r == result;
    var r' := InsertionTaken(pool, ops, bank, AheadDoc(g), r);
    var out := FirstInsertion(ops[0], bank);
    h := OutputFine(pool, v, g, out, bank[..out.chars]);
    Associate(WrittenDoc(g), Fresh(sem, out.attribs, bank[..out.chars]), r');
    assert WrittenDoc(h) + r' == result && AheadDoc(h) == AheadDoc(g);
  }

  lemma {:induction false} CutOfInsert(op: Op, k: nat, bank: string, d: Doc)
    requires op.code == Insert && k <= op.chars <= |bank|
    ensures Ops.Cut(op, k, bank, d) == bank[..k]
  {
    assert bank[..op.chars][..k] == bank[..k];
  }

  lemma {:induction false} InsertEffect(sem: AttrSem, op: Op, k: nat, bank: string, d: Doc, e: Effect)
    requires op.code == Insert && k <= |bank| && RunOp(sem, Head(op, k, Newlines(bank[..k])), bank, d) == Some(e)
    ensures e.bank == bank[k..] && e.doc == d && e.out == Fresh(sem, op.attribs, bank[..k])
  {
    hide Newlines, Clean, Fresh;
  }

  lemma {:induction false} SameBehind(ops: seq<Op>, left: Op, k: nat, l: int)
    requires ops != [] && k <= ops[0].chars
    requires if k == ops[0].chars then left.code == Nop
             else left == Op(ops[0].code, ops[0].chars - k, ops[0].lines - l, ops[0].attribs)
    ensures Zip.Behind(left, ops) ==
            Zip.Behind(Op(if k == ops[0].chars then Nop else ops[0].code, ops[0].chars - k, ops[0].lines - l,
                ops[0].attribs), ops)
  {}

  /** The next line is read. */
  lemma {:induction false} FetchStep(pool: Pool, v: View, g: Progress, ops: seq<Op>, bank: string, result: Doc)
    returns (h: Progress)
    requires InStep(pool, v, g, ops, bank, result) && v.pending == [] && v.rest != []
    ensures InStep(pool, Fetched(v), h, ops, bank, result) && Fetched(v).pending != []
  {
    hide Fine, Produces, AttribText;
    var r :| Produces(Verbatim(true, pool), ops, bank, AheadDoc(g), r) && WrittenDoc(g) + r == result;
    h := FetchFine(pool, v, g);
    assert Produces(Verbatim(true, pool), ops, bank, AheadDoc(h), r) && WrittenDoc(h) + r == result;
  }

  /** Lines that a plain keep covers are passed over whole. */
  lemma {:induction false} SkipStep(pool: Pool, v: View, g: Progress, ops: seq<Op>, bank: string, result: Doc)
    returns (h: Progress)
    requires InStep(pool, v, g, ops, bank, result) && v.pending == [] && v.m == NEW_MERGER
    requires ops != [] && ops[0].code == Keep && ops[0].attribs == "" && ops[0].lines > 0
    ensures ops[0].lines <= |v.rest| && InStep(pool, Skipped(v, ops[0].lines), h, ops[1..], bank, result)
  {
    hide Fine, Run, AttribText, Newlines, Clean, Fresh, Restyle, Text;
    var sem, n := Verbatim(true, pool), ops[0].chars;
    var r :| Produces(sem, ops, bank, AheadDoc(g), r) && WrittenDoc(g) + r == result;
    AheadCovered(pool, v, g);
    ReadsText(sem, ops, bank, AheadDoc(g), r);
    var e, r' := UnfoldProduces(sem, ops, bank, AheadDoc(g), r);
    assert EndsInNewline(Ahead(g)[..n]) by { CleanEnds(Ahead(g)[..n]); }
    h := SkipFine(pool, v, g, n, ops[0].lines);
    RestylePlain(sem, AheadDoc(g)[..n]);
    assert WrittenDoc(g) + (AheadDoc(g)[..n] + r') == WrittenDoc(g) + AheadDoc(g)[..n] + r';
    PositiveFirst(ops);
    assert Produces(sem, ops[1..], bank, AheadDoc(h), r') && WrittenDoc(h) + r' == result;
  }

  lemma {:induction false} CleanEnds(t: string)
    requires Clean(t) && Newlines(t) > 0
    ensures EndsInNewline(t)
  {}

  /** While text is ahead that an operation reads, a run is pending or a line is left. */
  lemma {:induction false} SomethingAhead(pool: Pool, v: View, g: Progress, ops: seq<Op>, bank: string, result: Doc)
    requires InStep(pool, v, g, ops, bank, result) && ops != [] && (ops[0].code == Keep || ops[0].code == Delete)
    ensures v.pending != [] || v.rest != []
  {
    hide Newlines, Produces, AttribText, MergerFine, MergerText, Merged, RunsOk, AllAttribText;
    var sem := Verbatim(true, pool);
    var r :| Produces(sem, ops, bank, AheadDoc(g), r) && WrittenDoc(g) + r == result;
    PositiveFirst(ops);
    NotLonger(sem, ops, bank, AheadDoc(g), r);
    if v.pending == [] && v.rest == [] { NothingProduced(sem, g.u, g.du); }
  }

  lemma {:induction false} StepCodes(pool: Pool, v: View, g: Progress, ops: seq<Op>, bank: string, result: Doc)
    requires InStep(pool, v, g, ops, bank, result) && ops != []
    ensures ops[0].code != Nop && ops[0].chars > 0
  {
    hide Fine, Produces, AttribText;
    var r :| Produces(Verbatim(true, pool), ops, bank, AheadDoc(g), r) && WrittenDoc(g) + r == result;
    PositiveFirst(ops);
    RunCodes(Verbatim(true, pool), ops, bank, AheadDoc(g), r);
  }

  // ----- the end -----

  /** When all is done and no line is unfinished, the lines are those of the result. */
  lemma {:induction false} FinishLines(pool: Pool, v: View, g: Progress, bank: string, result: Doc)
    returns (ls: seq<seq<Op>>)
    requires InStep(pool, v, g, [], bank, result) && v.pending == [] && v.m == NEW_MERGER
    ensures Text(result) != "" ==> EndsInNewline(Text(result))
    ensures LineAttributes(pool, v.done + v.rest, SplitTextLines(Text(result)), ls, result)
  {
    hide Newlines, Produces, AttribText, MergerFine, MergerText, RunsOk, AllAttribText, LineAttributes, Join,
         SplitTextLines, Text;
    var sem := Verbatim(true, pool);
    var r :| Produces(sem, [], bank, AheadDoc(g), r) && WrittenDoc(g) + r == result;
    NothingDone(sem, bank, AheadDoc(g), r);
    NothingProduced(sem, g.u, g.du);
    NewMergerFine();
    NothingProduced(sem, g.p, g.dp);
    ls := g.ls + g.lr;
    LinesConcat(pool, v.done, g.tl, g.ls, g.dd, v.rest, g.tr, g.lr, g.dr);
    FullConcat(g.tl, g.tr);
    assert result == g.dd + g.dr;
    LinesText(pool, v.done + v.rest, g.tl + g.tr, ls, result);
    SplitJoin(g.tl + g.tr);
    JoinEnds(g.tl + g.tr);
  }

  lemma {:induction false} JoinEnds(lines: seq<string>)
    requires AllFull(lines)
    ensures Join(lines) != "" ==> EndsInNewline(Join(lines))
  {
    hide Newlines;
    if lines != [] {
      assert FullLine(lines[0]);
      JoinEnds(lines[1..]);
      if Join(lines[1..]) == "" { assert lines[0] + "" == lines[0]; }
    }
  }

  lemma {:induction false} LinesText(pool: Pool, a: seq<string>, t: seq<string>, ls: seq<seq<Op>>, d: Doc)
    requires LineAttributes(pool, a, t, ls, d)
    ensures Text(d) == Join(t)
  {
    hide LinesCover, Deserialize, Produces;
    CoverConcat(Verbatim(true, pool), ls, t, d);
    SameLength(Verbatim(true, pool), Concat(ls), Join(t), d);
  }

  /** An unfinished line at the end means that the result does not end with a newline. */
  lemma {:induction false} FinishPart(pool: Pool, v: View, g: Progress, bank: string, result: Doc)
    requires InStep(pool, v, g, [], bank, result) && v.pending == [] && v.rest == [] && v.m.buf.code != Nop
    ensures Text(result) != "" && !EndsInNewline(Text(result))
  {
    hide Newlines, Produces, AttribText, MergerText, RunsOk, AllAttribText, Join, Text, Canonical;
    var sem := Verbatim(true, pool);
    var r :| Produces(sem, [], bank, AheadDoc(g), r) && WrittenDoc(g) + r == result;
    NothingDone(sem, bank, AheadDoc(g), r);
    NothingProduced(sem, g.u, g.du);
    assert g.dr == [];
    assert AheadDoc(g) == [] && result == g.dd + g.dp;
    LinesText(pool, v.done, g.tl, g.ls, g.dd);
    SameLength(sem, Merged(v.m), g.p, g.dp);
    TextConcat(g.dd, g.dp);
    MergedLong(pool, v.m, g.p, g.dp);
    NewlinesBound(g.p);
    assert g.p[|g.p| - 1] in g.p;
  }

  lemma {:induction false} MergedLong(pool: Pool, m: Merger, p: string, dp: Doc)
    requires MergerFine(m) && m.buf.code != Nop && Produces(Verbatim(true, pool), Merged(m), p, [], dp)
    ensures p != ""
  {
    hide Produces;
    MergedFine(m);
    assert Merged(m) != [];
    var _ := FirstRun(pool, Merged(m), p, dp);
  }
}
