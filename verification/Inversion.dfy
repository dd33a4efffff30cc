/**
  Undoing a changeset: Inverse of lib/changeset/changeset.go, as a function on operation lists.
  Module LineReaders holds the procedure, which reads the document line by line.
 */
module Inversion {
  import opened Basics
  import opened Pools
  import opened Attributes
  import opened UndoAttributes
  import opened Ops
  import opened Syntax
  import opened Assemblers
  import opened Rebasing
  import opened Changesets
  import opened AttributedText
  import opened Builders
  import opened Lines
  import Algebra

  // ----- runs of an attribution -----

  /** Characters that share an attribute string, and whether a newline ends them. */
  datatype Stretch = Stretch(chars: nat, attribs: string, endsLine: bool)

  datatype Runs = Runs(taken: seq<Stretch>, rest: seq<Op>)

  /** The stretches of the next `n` characters of an attribution, and what is left of it. */
  function TakeRuns(att: seq<Op>, n: nat): Runs
    decreases |att|
  {
    if n == 0 || att == [] then Runs([], att)
    else if n < att[0].chars then Runs([Stretch(n, att[0].attribs, false)],
         [att[0].(chars := att[0].chars - n)] + att[1..])
    else
      var r := TakeRuns(att[1..], n - att[0].chars);
      r.(taken := [Stretch(att[0].chars, att[0].attribs, att[0].lines > 0)] + r.taken)
  }

  // ----- the undo operations -----

  datatype Undone = Undone(ops: seq<Op>, bank: string, pool: Pool)

  /** Keeps that take back an attribute change, stretch by stretch. */
  function UndoKeep(ss: seq<Stretch>, change: AttribMap, pool: Pool, order: Order, n: nat): (seq<Op>, Pool) {
    if ss == [] then ([], pool)
    else
      var (a, p) := Back(change, ss[0].attribs, pool, order, n);
      var (ops, q) := UndoKeep(ss[1..], change, p, order, n + 1);
      ([Op(Keep, ss[0].chars, if ss[0].endsLine then 1 else 0, a)] + ops, q)
  }

  /** Insertions that bring deleted text back, stretch by stretch. */
  function UndoDelete(ss: seq<Stretch>, text: string): seq<Op> {
    if ss == [] then []
    else
      var k := Min(ss[0].chars, |text|);
      OpsFromText(Insert, text[..k], ss[0].attribs) + UndoDelete(ss[1..], text[k..])
  }

  /** What undoes `ops` on a document with attribution `att` and text `text`. */
  function Undo(ops: seq<Op>, att: seq<Op>, text: string, pool: Pool, order: Order, n: nat): Undone {
    if ops == [] then Undone([], "", pool)
    else
      var op := ops[0];
      var k, r := Min(op.chars, |text|), TakeRuns(att, op.chars);
      var l := if op.lines > 0 then op.lines else 0;
      match op.code
      case Nop => Undo(ops[1..], att, text, pool, order, n)
      case Insert =>
        var u := Undo(ops[1..], att, text, pool, order, n);
        u.(ops := [Op(Delete, op.chars, l, "")] + u.ops)
      case Delete =>
        var u := Undo(ops[1..], r.rest, text[k..], pool, order, n);
        Undone(UndoDelete(r.taken, text[..k]) + u.ops, text[..k] + u.bank, u.pool)
      case Keep =>
        if op.attribs == "" then
          var u := Undo(ops[1..], r.rest, text[k..], pool, order, n);
          u.(ops := [Op(Keep, op.chars, l, "")] + u.ops)
        else
          var p := UpdatePool(AttribsFromString(op.attribs, pool), false, pool);
          var (keeps, q) := UndoKeep(r.taken, FromString(op.attribs, pool), p, order, n);
          var u := Undo(ops[1..], r.rest, text[k..], q, order, n + |r.taken|);
          u.(ops := keeps + u.ops)
  }

  /** The operations of attribution lines, one after the other. */
  function Flatten(alines: seq<string>): seq<Op> {
    if alines == [] then []
    else (match Deserialize(alines[0]) case Ok(ops) => ops case Err(_) => []) + Flatten(alines[1..])
  }

  /** The undo changeset before it is checked, with the pool afterwards. */
  function Unchecked(cs: string, lines: seq<string>, alines: seq<string>, pool: Pool, order: Order): (string, Pool) {
    var u := Undo(OpsOf(cs), Flatten(alines), Join(lines), pool, order, 0);
    var newLen := Unpack(cs).newLen;
    (Pack(newLen, newLen + LengthChange(u.ops), Serialize(Assemble(u.ops)), u.bank), u.pool)
  }

  function Inverse(cs: string, lines: seq<string>, alines: seq<string>, pool: Pool, order: Order)
    : Result<(string, Pool)>
  {
    if Deserialize(Unpack(cs).ops).Err? then Err(Deserialize(Unpack(cs).ops).error)
    else
      var (s, p) := Unchecked(cs, lines, alines, pool, order);
      match CheckRep(s) case Err(e) => Err(e) case Ok(c) => Ok((c, p))
  }

  // ----- reading runs -----

  /** The operations of an attribution line: insertions with at most one newline each. */
  predicate RunsOk(att: seq<Op>) {
    forall i :: 0 <= i < |att| ==> att[i].code == Insert && att[i].chars > 0 && att[i].lines <= 1
  }

  /** The stretches cover the text and give the document its attributes. */
  ghost predicate Stretches(sem: AttrSem, ss: seq<Stretch>, t: string, d: Doc) {
    if ss == [] then t == "" && d == []
    else
      var k := ss[0].chars;
      && k <= |t| && k <= |d|
      && d[..k] == Fresh(sem, ss[0].attribs, t[..k])
      && Fits(sem, if ss[0].endsLine then 1 else 0, t[..k])
      && Stretches(sem, ss[1..], t[k..], d[k..])
  }

  /** What is taken covers the next `n` characters, and what is left covers the rest. */
  lemma {:induction false} TakeRunsCovers(sem: AttrSem, att: seq<Op>, n: nat, t: string, d: Doc)
    requires sem.strict && RunsOk(att) && Produces(sem, att, t, [], d) && n <= |d|
    ensures |t| == |d|
    ensures RunsOk(TakeRuns(att, n).rest) && Produces(sem, TakeRuns(att, n).rest, t[n..], [], d[n..])
    ensures Stretches(sem, TakeRuns(att, n).taken, t[..n], d[..n])
    decreases |att|
  {
    hide Newlines, Fresh, Text, Run, Produces;
    SameLength(sem, att, t, d);
    if n == 0 {
      assert t[n..] == t && d[n..] == d && t[..n] == "" && d[..n] == [];
    } else if att == [] {
      NothingProduced(sem, t, d);
      assert false;
    } else if n < att[0].chars {
      TakePart(sem, att, n, t, d);
    } else {
      var k := att[0].chars;
      var e, d' := UnfoldProduces(sem, att, t, [], d);
      assert d[k..] == d' && d[..k] == e.out;
      TakeRunsCovers(sem, att[1..], n - k, t[k..], d');
      SliceSlice(t, n, k);
      SliceSlice(d, n, k);
      var r := TakeRuns(att[1..], n - k);
      assert TakeRuns(att, n) == r.(taken := [Stretch(k, att[0].attribs, att[0].lines > 0)] + r.taken);
      hide TakeRuns;
      NewlinesBound(t[..k]);
      StretchCons(sem, Stretch(k, att[0].attribs, att[0].lines > 0), r.taken, t[..n], d[..n]);
    }
  }

  lemma {:induction false} StretchCons(sem: AttrSem, s: Stretch, ss: seq<Stretch>, t: string, d: Doc)
    requires s.chars <= |t| && s.chars <= |d| && d[..s.chars] == Fresh(sem, s.attribs, t[..s.chars])
    requires Fits(sem, if s.endsLine then 1 else 0, t[..s.chars]) && Stretches(sem, ss, t[s.chars..], d[s.chars..])
    ensures Stretches(sem, [s] + ss, t, d)
  {
    hide Newlines, Fresh, Clean;
    assert ([s] + ss)[1..] == ss;
  }

  lemma {:induction false} NothingProduced(sem: AttrSem, t: string, d: Doc)
    requires Produces(sem, [], t, [], d)
    ensures d == [] && t == ""
  {}

  lemma {:induction false} SameLength(sem: AttrSem, att: seq<Op>, t: string, d: Doc)
    requires Produces(sem, att, t, [], d)
    ensures |t| == |d| && Text(d) == t
  {
    hide RunOp;
    InsertedText(sem, att, t);
    var e := Run(sem, att, t, []).value;
    assert e.out + e.doc == e.out && Text(e.out) + "" == Text(e.out);
  }

  lemma {:induction false} PartOfRun(s: string, n: nat)
    requires n < |s| && Clean(s) && Newlines(s) <= 1
    ensures Newlines(s[..n]) == 0 && Clean(s[..n])
  {
    hide Newlines;
    NewlinesSplit(s, n);
    NewlinesBound(s[n..]);
    NewlinesBound(s[..n]);
    if Newlines(s) > 0 { assert s[n..][|s[n..]| - 1] == '\n'; }
  }

  /** Taking a part of the first run. */
  lemma {:induction false} TakePart(sem: AttrSem, att: seq<Op>, n: nat, t: string, d: Doc)
    requires sem.strict && RunsOk(att) && Produces(sem, att, t, [], d) && att != [] && 0 < n < att[0].chars
             && n <= |d| == |t|
    ensures RunsOk(TakeRuns(att, n).rest) && Produces(sem, TakeRuns(att, n).rest, t[n..], [], d[n..])
    ensures Stretches(sem, TakeRuns(att, n).taken, t[..n], d[..n])
  {
    hide Newlines, Fresh, Text, Run, Produces, Clean;
    var op := att[0];
    var e0, d0 := UnfoldProduces(sem, att, t, [], d);
    assert Ops.Cut(op, n, t, []) == t[..n];
    PartOfRun(t[..op.chars], n);
    assert t[..op.chars][..n] == t[..n];
    hide RunOp;
    var l, e, d' := SplitProduces(sem, att, n, t, [], d);
    assert d[..n] == e.out == Fresh(sem, op.attribs, t[..n]) && d[n..] == d';
    assert TakeRuns(att, n).rest == Ops.Rest(op, n, l) + att[1..];
    assert TakeRuns(att, n).taken == [Stretch(n, op.attribs, false)];
    OneStretch(sem, n, op.attribs, t[..n], d[..n]);
  }

  lemma {:induction false} OneStretch(sem: AttrSem, n: nat, a: string, t: string, d: Doc)
    requires |t| == |d| == n && d == Fresh(sem, a, t) && Newlines(t) == 0
    ensures Stretches(sem, [Stretch(n, a, false)], t, d)
  {
    hide Newlines, Fresh;
    assert [Stretch(n, a, false)][1..] == [] && t[..n] == t && d[..n] == d && t[n..] == "" && d[n..] == [];
  }

  // ----- bringing text back -----

  lemma {:induction false} OpsFromTextProduces(sem: AttrSem, text: string, attribs: string, ops: seq<Op>, bank: string,
          m: Doc, d: Doc)
    requires Produces(sem, ops, bank, m, d)
    ensures Produces(sem, OpsFromText(Insert, text, attribs) + ops, text + bank, m, Fresh(sem, attribs, text) + d)
  {
    hide Newlines, Fresh, Produces;
    var k := LinesEnd(text);
    NewlinesBound(text);
    if k == 0 {
      assert text[0..] == text;
      ProducesInsert(sem, Op(Insert, |text|, 0, attribs), text, ops, bank, m, d);
    } else {
      var a, b := text[..k], text[k..];
      var x, y := Op(Insert, k, Newlines(text), attribs), Op(Insert, |text| - k, 0, attribs);
      ProducesInsert(sem, y, b, ops, bank, m, d);
      ProducesInsert(sem, x, a, [y] + ops, b + bank, m, Fresh(sem, attribs, b) + d);
      FreshSplit(sem, attribs, text, k);
      var r := OpsFromText(Insert, text, attribs);
      assert r == [x] + [y];
      hide OpsFromText;
      Associate([x], [y], ops);
      Associate(a, b, bank);
      CutAndJoin(text, k);
      Associate(Fresh(sem, attribs, a), Fresh(sem, attribs, b), d);
    }
  }

  lemma {:induction false} UndoDeleteProduces(sem: AttrSem, ss: seq<Stretch>, t: string, d: Doc, ops: seq<Op>,
          bank: string, m: Doc, d': Doc)
    requires Stretches(sem, ss, t, d) && Produces(sem, ops, bank, m, d')
    ensures Produces(sem, UndoDelete(ss, t) + ops, t + bank, m, d + d')
    decreases |ss|
  {
    hide Newlines, Fresh, Produces, OpsFromText, Fits;
    if ss == [] {
      assert [] + ops == ops && "" + bank == bank && [] + d' == d';
    } else {
      var k, tail := ss[0].chars, UndoDelete(ss[1..], t[ss[0].chars..]);
      UndoDeleteProduces(sem, ss[1..], t[k..], d[k..], ops, bank, m, d');
      OpsFromTextProduces(sem, t[..k], ss[0].attribs, tail + ops, t[k..] + bank, m, d[k..] + d');
      var x := OpsFromText(Insert, t[..k], ss[0].attribs);
      assert UndoDelete(ss, t) == x + tail;
      Associate(x, tail, ops);
      Associate(t[..k], t[k..], bank);
      Associate(d[..k], d[k..], d');
      CutAndJoin(t, k);
      CutAndJoin(d, k);
    }
  }

  // ----- taking attribute changes back -----

  /** The meaning of strings through a pool is that of the final pool. */
  ghost predicate Reads(sem: AttrSem, pool: Pool) {
    !sem.Verbatim? && (sem.In? ==> Good(pool) && Extends(pool, sem.pool))
  }

  /** Where attributes are read, the pool knows those of the string. */
  ghost predicate Named(sem: AttrSem, a: string, pool: Pool) { sem.In? ==> Resolved(a, pool) }

  ghost predicate AllNamed(sem: AttrSem, ss: seq<Stretch>, pool: Pool) {
    forall i :: 0 <= i < |ss| ==> Named(sem, ss[i].attribs, pool)
  }

  ghost predicate RunsNamed(sem: AttrSem, att: seq<Op>, pool: Pool) {
    forall i :: 0 <= i < |att| ==> Named(sem, att[i].attribs, pool)
  }

  lemma {:induction false} NamedExtends(sem: AttrSem, a: string, p: Pool, q: Pool)
    requires Named(sem, a, p) && (sem.In? ==> Extends(p, q))
    ensures Named(sem, a, q)
  {
    if sem.In? { MeaningExtends(a, p, q); }
  }

  lemma {:induction false} TakenNamed(sem: AttrSem, att: seq<Op>, n: nat, pool: Pool)
    requires RunsNamed(sem, att, pool)
    ensures AllNamed(sem, TakeRuns(att, n).taken, pool) && RunsNamed(sem, TakeRuns(att, n).rest, pool)
    decreases |att|
  {
    hide Named;
    if n > 0 && att != [] && n >= att[0].chars { TakenNamed(sem, att[1..], n - att[0].chars, pool); }
  }

  lemma {:induction false} UndoKeepPool(ss: seq<Stretch>, change: AttribMap, pool: Pool, order: Order, n: nat)
    requires Good(pool) && Covers(pool, change) && Enumerates(order)
    ensures var q := UndoKeep(ss, change, pool, order, n).1; Good(q) && Extends(pool, q) && AddsEmpty(pool, q)
    decreases |ss|
  {
    hide Good, Back, Covers, Resolved, BackMap;
    hide Extends;
    if ss != [] {
      BackFacts(change, ss[0].attribs, pool, order, n);
      BackExact(change, ss[0].attribs, pool, order, n);
      var p := Back(change, ss[0].attribs, pool, order, n).1;
      UndoKeepPool(ss[1..], change, p, order, n + 1);
      ExtendsTransitive(pool, p, UndoKeep(ss[1..], change, p, order, n + 1).1);
    } else {
      assert Extends(pool, pool) by { ExtendsItself(pool); }
    }
  }

  /** What attributes `m` become when the change `a` of them is made and taken back. */
  function BouncedAttribs(sem: AttrSem, a: string, m: AttribMap): AttribMap {
    if sem.In? then
      var change := FromString(a, sem.pool);
      Overlay(Overlay(m, change), BackMap(change, m))
    else m
  }

  function Bounced(sem: AttrSem, a: string, d: Doc): (r: Doc)
    ensures |r| == |d|
  {
    if d == [] then [] else [Cell(d[0].c, BouncedAttribs(sem, a, d[0].attrs))] + Bounced(sem, a, d[1..])
  }

  lemma {:induction false} BouncedSplit(sem: AttrSem, a: string, d: Doc, k: nat)
    requires k <= |d|
    ensures Bounced(sem, a, d) == Bounced(sem, a, d[..k]) + Bounced(sem, a, d[k..])
  {
    hide BouncedAttribs;
    if k > 0 {
      assert d[..k][1..] == d[1..][..k - 1] && d[..k][0] == d[0] && d[1..][k - 1..] == d[k..];
      BouncedSplit(sem, a, d[1..], k - 1);
    }
  }

  /**
    What a document becomes when `ops` are done and undone: where they change attributes, these may come back
    changed.
   */
  function Returned(sem: AttrSem, ops: seq<Op>, d: Doc): (r: Doc)
    ensures |r| == |d|
    decreases |ops|
  {
    if ops == [] then d
    else
      var k := Min(ops[0].chars, |d|);
      match ops[0].code
      case Delete => d[..k] + Returned(sem, ops[1..], d[k..])
      case Keep => (if ops[0].attribs == "" then d[..k] else Bounced(sem, ops[0].attribs, d[..k]))
           + Returned(sem, ops[1..], d[k..])
      case _ => Returned(sem, ops[1..], d)
  }

  /** On characters of one run, the undo string takes the change back as far as it can be. */
  lemma {:induction false} RestyleBack(sem: AttrSem, a: string, was: string, back: string, t: string)
    requires !sem.Verbatim?
    requires sem.In? ==> FromString(back, sem.pool) == BackMap(FromString(a, sem.pool), FromString(was, sem.pool))
    ensures Restyle(sem, back, Restyle(sem, a, Fresh(sem, was, t))) == Bounced(sem, a, Fresh(sem, was, t))
  {
    hide FromString, UpdateFromString, BackMap, Overlay;
    if t != "" {
      RestyleBack(sem, a, was, back, t[1..]);
      if sem.In? {
        var m := FromString(was, sem.pool);
        MutationIsOverlay(m, a, sem.pool);
        MutationIsOverlay(UpdateFromString(m, a, true, sem.pool), back, sem.pool);
      }
    }
  }

  /** One keep that takes the change `a` back, put before operations for the rest. */
  lemma {:induction false} KeepBack(sem: AttrSem, l: int, a: string, was: string, back: string, t: string, d: Doc,
          ops: seq<Op>, bank: string, m: Doc, d': Doc)
    requires !sem.Verbatim? && d == Fresh(sem, was, t) && Fits(sem, l, t) && Produces(sem, ops, bank, m, d')
    requires sem.In? ==> FromString(back, sem.pool) == BackMap(FromString(a, sem.pool), FromString(was, sem.pool))
    ensures Produces(sem, [Op(Keep, |t|, l, back)] + ops, bank, Restyle(sem, a, d) + m, Bounced(sem, a, d) + d')
  {
    hide Newlines, Fresh, Restyle, Produces, FromString, BackMap, Bounced, Text, Clean;
    var x := Restyle(sem, a, d);
    RestyleBack(sem, a, was, back, t);
    assert (x + m)[..|t|] == x && (x + m)[|t|..] == m;
    ProducesKeep(sem, Op(Keep, |t|, l, back), ops, bank, x + m, d');
  }

  lemma {:induction false} AllNamedLater(sem: AttrSem, ss: seq<Stretch>, p: Pool, q: Pool)
    requires ss != [] && AllNamed(sem, ss, p) && (sem.In? ==> Extends(p, q))
    ensures AllNamed(sem, ss[1..], q)
  {
    hide Named;
    forall i | 0 <= i < |ss[1..]| ensures Named(sem, ss[1..][i].attribs, q) {
      assert ss[1..][i] == ss[i + 1];
      NamedExtends(sem, ss[i + 1].attribs, p, q);
    }
  }

  /** Keeps that take the change `a` back, put before operations for the rest. */
  lemma {:induction false} UndoKeepProduces(sem: AttrSem, ss: seq<Stretch>, t: string, d: Doc, a: string,
          change: AttribMap, pool: Pool, order: Order, n: nat, ops: seq<Op>, bank: string, m: Doc, d': Doc)
    requires Stretches(sem, ss, t, d) && Produces(sem, ops, bank, m, d')
    requires AllNamed(sem, ss, pool) && Reads(sem, pool) && Enumerates(order)
    requires sem.In? ==>
               && change == FromString(a, sem.pool) && Covers(pool, change)
               && Extends(UndoKeep(ss, change, pool, order, n).1, sem.pool)
    ensures Produces(sem, UndoKeep(ss, change, pool, order, n).0 + ops, bank, Restyle(sem, a, d) + m,
            Bounced(sem, a, d) + d')
    decreases |ss|
  {
    hide Newlines, Fresh, Restyle, Produces, Back, Extends, Good, Covers, FromString, Resolved, BackMap, Text, Clean,
         Bounced;
    if ss == [] {
      assert [] + ops == ops && [] + d' == d' && Bounced(sem, a, d) == [] && Restyle(sem, a, d) == [] && [] + m == m;
    } else {
      var k, was := ss[0].chars, ss[0].attribs;
      var (back, p) := Back(change, was, pool, order, n);
      var tail := UndoKeep(ss[1..], change, p, order, n + 1).0;
      assert Named(sem, was, pool);
      if sem.In? { BackReads(sem, ss, change, pool, order, n); }
      AllNamedLater(sem, ss, pool, p);
      UndoKeepProduces(sem, ss[1..], t[k..], d[k..], a, change, p, order, n + 1, ops, bank, m, d');
      var x, y := Restyle(sem, a, d[..k]), Restyle(sem, a, d[k..]);
      RestyleSplit(sem, a, d, k);
      BouncedSplit(sem, a, d, k);
      var b, c := Bounced(sem, a, d[..k]), Bounced(sem, a, d[k..]);
      var l := if ss[0].endsLine then 1 else 0;
      KeepBack(sem, l, a, was, back, t[..k], d[..k], tail + ops, bank, y + m, c + d');
      Associate(x, y, m);
      Associate(b, c, d');
      Associate([Op(Keep, k, l, back)], tail, ops);
      assert UndoKeep(ss, change, pool, order, n).0 == [Op(Keep, k, l, back)] + tail;
    }
  }

  /** One undo string: it reads as the map that takes the change back, in the final pool too. */
  lemma {:induction false} BackReads(sem: AttrSem, ss: seq<Stretch>, change: AttribMap, pool: Pool, order: Order,
          n: nat)
    requires sem.In? && ss != [] && Good(pool) && Covers(pool, change) && Enumerates(order)
             && Named(sem, ss[0].attribs, pool)
    requires Extends(pool, sem.pool) && Extends(UndoKeep(ss, change, pool, order, n).1, sem.pool)
    ensures var (back, p) := Back(change, ss[0].attribs, pool, order, n);
            && Good(p) && Extends(pool, p) && Extends(p, sem.pool) && Covers(p, change)
            && FromString(back, sem.pool) == BackMap(change, FromString(ss[0].attribs, sem.pool))
            && Extends(UndoKeep(ss[1..], change, p, order, n + 1).1, sem.pool)
  {
    hide Good, Back, Covers, Resolved, BackMap, Extends, FromString;
    BackFacts(change, ss[0].attribs, pool, order, n);
    var (back, p) := Back(change, ss[0].attribs, pool, order, n);
    UndoKeepPool(ss[1..], change, p, order, n + 1);
    ExtendsTransitive(p, UndoKeep(ss[1..], change, p, order, n + 1).1, sem.pool);
    MeaningExtends(ss[0].attribs, pool, sem.pool);
    MeaningExtends(back, p, sem.pool);
  }

  // ----- undoing -----

  ghost predicate AllResolved(sem: AttrSem, ops: seq<Op>, pool: Pool) {
    sem.In? ==> forall i :: 0 <= i < |ops| ==> Resolved(ops[i].attribs, pool)
  }

  /** The pool only grows. */
  lemma {:induction false} UndoPool(ops: seq<Op>, att: seq<Op>, text: string, pool: Pool, order: Order, n: nat)
    requires Good(pool) && Enumerates(order)
    ensures var q := Undo(ops, att, text, pool, order, n).pool; Good(q) && Extends(pool, q) && AddsEmpty(pool, q)
    decreases |ops|
  {
    hide Good, Covers, Resolved, Extends, UpdatePool, FromString, AttribsFromString, UndoDelete, UndoKeep, TakeRuns;
    if ops == [] {
      ExtendsItself(pool);
    } else {
      var op, r := ops[0], TakeRuns(att, ops[0].chars);
      var k := Min(op.chars, |text|);
      if op.code == Insert || op.code == Nop {
        UndoPool(ops[1..], att, text, pool, order, n);
      } else if op.code == Delete || op.attribs == "" {
        UndoPool(ops[1..], r.rest, text[k..], pool, order, n);
      } else {
        ResolvedCovers(op.attribs, pool);
        UndoKeepPool(r.taken, FromString(op.attribs, pool), pool, order, n);
        var q := UndoKeep(r.taken, FromString(op.attribs, pool), pool, order, n).1;
        UndoPool(ops[1..], r.rest, text[k..], q, order, n + |r.taken|);
        ExtendsTransitive(pool, q, Undo(ops, att, text, pool, order, n).pool);
      }
    }
  }

  /** What must hold of the attribution and of the pools for an undo to restore the document. */
  ghost predicate Undoable(sem: AttrSem, ops: seq<Op>, att: seq<Op>, text: string, doc: Doc, pool: Pool, order: Order,
          n: nat)
  {
    && sem.strict && RunsOk(att) && Produces(sem, att, text, [], doc)
    && RunsNamed(sem, att, pool) && AllResolved(sem, ops, pool) && Reads(sem, pool) && Enumerates(order)
    && (sem.In? ==> Extends(Undo(ops, att, text, pool, order, n).pool, sem.pool))
  }

  /** The undo operations turn the changed document back into the document, as far as attributes can be taken back. */
  lemma {:induction false} Undoes(sem: AttrSem, ops: seq<Op>, bank: string, att: seq<Op>, text: string, doc: Doc,
          m: Doc, pool: Pool, order: Order, n: nat)
    requires Undoable(sem, ops, att, text, doc, pool, order, n) && Produces(sem, ops, bank, doc, m)
    ensures var u := Undo(ops, att, text, pool, order, n); Produces(sem, u.ops, u.bank, m, Returned(sem, ops, doc))
    decreases |ops|
  {
    hide Newlines, Fresh, Restyle, Text, Run, Clean, TakeRuns, Bounced, UndoKeep, UndoDelete, Good, Extends, Resolved,
         FromString, UpdatePool, AttribsFromString;
    if ops == [] {
      assert m == doc && bank == "" by { NothingDone(sem, bank, doc, m); }
      NothingProducedIn(sem, doc);
    } else {
      var op := ops[0];
      var e, m' := UnfoldProduces(sem, ops, bank, doc, m);
      SameLength(sem, att, text, doc);
      if op.code == Insert {
        var u := Undo(ops[1..], att, text, pool, order, n);
        RestResolved(sem, ops, pool, pool);
        Undoes(sem, ops[1..], e.bank, att, text, doc, m', pool, order, n);
        assert m[..op.chars] == e.out && m[op.chars..] == m';
        ProducesDelete(sem, Op(Delete, op.chars, op.lines, ""), u.ops, u.bank, m, Returned(sem, ops[1..], doc));
      } else if op.code == Delete {
        assert m == e.out + m' && e.out == [] && m == m';
        UndoesDelete(sem, ops, e.bank, att, text, doc, m, pool, order, n);
      } else if op.attribs == "" {
        UndoesPlain(sem, ops, e.bank, att, text, doc, m', pool, order, n);
        RestylePlain(sem, doc[..op.chars]);
      } else {
        UndoesKeep(sem, ops, e.bank, att, text, doc, m', pool, order, n);
      }
    }
  }

  lemma {:induction false} NothingDone(sem: AttrSem, bank: string, doc: Doc, m: Doc)
    requires Produces(sem, [], bank, doc, m)
    ensures m == doc && bank == ""
  {}

  lemma {:induction false} NothingProducedIn(sem: AttrSem, doc: Doc)
    ensures Produces(sem, [], "", doc, doc)
  {}

  lemma {:induction false} RestResolved(sem: AttrSem, ops: seq<Op>, p: Pool, q: Pool)
    requires ops != [] && AllResolved(sem, ops, p) && (sem.In? ==> p == q || Extends(p, q))
    ensures AllResolved(sem, ops[1..], q)
  {
    hide Resolved, Extends;
    if sem.In? && p != q {
      forall i | 0 <= i < |ops[1..]| ensures Resolved(ops[1..][i].attribs, q) {
        MeaningExtends(ops[i + 1].attribs, p, q);
      }
    }
  }

  lemma {:induction false} UndoesDelete(sem: AttrSem, ops: seq<Op>, bank: string, att: seq<Op>, text: string, doc: Doc,
          m: Doc, pool: Pool, order: Order, n: nat)
    requires Undoable(sem, ops, att, text, doc, pool, order, n) && ops != [] && ops[0].code == Delete
    requires ops[0].chars <= |doc| == |text| && Produces(sem, ops[1..], bank, doc[ops[0].chars..], m)
    ensures var u := Undo(ops, att, text, pool, order, n); Produces(sem, u.ops, u.bank, m, Returned(sem, ops, doc))
    decreases |ops|, 0
  {
    hide Newlines, Fresh, Restyle, Text, Produces, Clean, TakeRuns, Bounced, UndoDelete, Good, Extends, Resolved,
         FromString, UpdatePool, AttribsFromString;
    var k := ops[0].chars;
    var r := TakeRuns(att, k);
    TakeRunsCovers(sem, att, k, text, doc);
    TakenNamed(sem, att, k, pool);
    RestResolved(sem, ops, pool, pool);
    var u := Undo(ops[1..], r.rest, text[k..], pool, order, n);
    Undoes(sem, ops[1..], bank, r.rest, text[k..], doc[k..], m, pool, order, n);
    UndoDeleteProduces(sem, r.taken, text[..k], doc[..k], u.ops, u.bank, m, Returned(sem, ops[1..], doc[k..]));
  }

  lemma {:induction false} UndoesPlain(sem: AttrSem, ops: seq<Op>, bank: string, att: seq<Op>, text: string, doc: Doc,
          m: Doc, pool: Pool, order: Order, n: nat)
    requires Undoable(sem, ops, att, text, doc, pool, order, n) && ops != [] && ops[0].code == Keep
             && ops[0].attribs == ""
    requires ops[0].chars <= |doc| == |text| && Fits(sem, ops[0].lines, Text(doc[..ops[0].chars]))
             && Produces(sem, ops[1..], bank, doc[ops[0].chars..], m)
    ensures var u := Undo(ops, att, text, pool, order, n);
            Produces(sem, u.ops, u.bank, doc[..ops[0].chars] + m, Returned(sem, ops, doc))
    decreases |ops|, 0
  {
    hide Newlines, Fresh, Restyle, Text, Produces, Clean, TakeRuns, Bounced, Good, Extends, Resolved, FromString,
         UpdatePool, AttribsFromString;
    var k := ops[0].chars;
    var r := TakeRuns(att, k);
    TakeRunsCovers(sem, att, k, text, doc);
    TakenNamed(sem, att, k, pool);
    RestResolved(sem, ops, pool, pool);
    var u := Undo(ops[1..], r.rest, text[k..], pool, order, n);
    Undoes(sem, ops[1..], bank, r.rest, text[k..], doc[k..], m, pool, order, n);
    var x := doc[..k] + m;
    assert x[..k] == doc[..k] && x[k..] == m;
    ProducesKeep(sem, ops[0], u.ops, u.bank, x, Returned(sem, ops[1..], doc[k..]));
    RestylePlain(sem, doc[..k]);
  }

  lemma {:induction false} UndoesKeep(sem: AttrSem, ops: seq<Op>, bank: string, att: seq<Op>, text: string, doc: Doc,
          m: Doc, pool: Pool, order: Order, n: nat)
    requires Undoable(sem, ops, att, text, doc, pool, order, n) && ops != [] && ops[0].code == Keep
             && ops[0].attribs != ""
    requires ops[0].chars <= |doc| == |text| && Produces(sem, ops[1..], bank, doc[ops[0].chars..], m)
    ensures var u := Undo(ops, att, text, pool, order, n);
            Produces(sem, u.ops, u.bank, Restyle(sem, ops[0].attribs, doc[..ops[0].chars]) + m, Returned(sem, ops, doc))
    decreases |ops|, 0
  {
    hide Newlines, Fresh, Restyle, Text, Produces, Clean, TakeRuns, Bounced, Good, Extends, Resolved, FromString,
         UpdatePool, AttribsFromString, UndoKeep, Named, Covers;
    var op := ops[0];
    var k := op.chars;
    var r := TakeRuns(att, k);
    TakeRunsCovers(sem, att, k, text, doc);
    TakenNamed(sem, att, k, pool);
    var p := UpdatePool(AttribsFromString(op.attribs, pool), false, pool);
    var change := FromString(op.attribs, pool);
    var (keeps, q) := UndoKeep(r.taken, change, p, order, n);
    var u := Undo(ops[1..], r.rest, text[k..], q, order, n + |r.taken|);
    if sem.In? {
      ResolvedCovers(op.attribs, pool);
      UndoKeepPool(r.taken, change, pool, order, n);
      UndoPool(ops[1..], r.rest, text[k..], q, order, n + |r.taken|);
      ExtendsTransitive(q, u.pool, sem.pool);
      MeaningExtends(op.attribs, pool, sem.pool);
      forall i | 0 <= i < |r.rest| ensures Named(sem, r.rest[i].attribs, q) {
        NamedExtends(sem, r.rest[i].attribs, pool, q);
      }
      RestResolved(sem, ops, pool, q);
    } else {
      IgnoredNamed(sem, r.rest, q);
      IgnoredNamed(sem, att, p);
      TakenNamed(sem, att, k, p);
    }
    Undoes(sem, ops[1..], bank, r.rest, text[k..], doc[k..], m, q, order, n + |r.taken|);
    UndoKeepProduces(sem, r.taken, text[..k], doc[..k], op.attribs, change, p, order, n, u.ops, u.bank, m,
        Returned(sem, ops[1..], doc[k..]));
  }

  lemma {:induction false} IgnoredNamed(sem: AttrSem, att: seq<Op>, pool: Pool)
    requires sem.Ignore?
    ensures RunsNamed(sem, att, pool)
  {}

  // ----- what comes back -----

  /** Where attributes are not read, everything comes back. */
  lemma {:induction false} ReturnedIgnored(strict: bool, ops: seq<Op>, d: Doc)
    ensures Returned(Ignore(strict), ops, d) == d
    decreases |ops|
  {
    hide Bounced;
    if ops != [] {
      var k := Min(ops[0].chars, |d|);
      CutAndJoin(d, k);
      BouncedIgnored(strict, ops[0].attribs, d[..k]);
      ReturnedIgnored(strict, ops[1..], d[k..]);
      ReturnedIgnored(strict, ops[1..], d);
    }
  }

  lemma {:induction false} BouncedIgnored(strict: bool, a: string, d: Doc)
    ensures Bounced(Ignore(strict), a, d) == d
  {
    if d != [] { BouncedIgnored(strict, a, d[1..]); }
  }

  /** No character has the empty value for a key that `a` changes. */
  ghost predicate CanTakeBack(change: AttribMap, d: Doc) {
    forall i :: 0 <= i < |d| ==> forall k :: k in change && k in d[i].attrs ==> d[i].attrs[k] != ""
  }

  /** No operation changes the value of a key for a character that has the empty value for it. */
  ghost predicate AllCanBeTakenBack(pool: Pool, ops: seq<Op>, d: Doc)
    decreases |ops|
  {
    if ops == [] then true
    else
      var op, k := ops[0], Min(ops[0].chars, |d|);
      && (op.code == Keep && op.attribs != "" ==> CanTakeBack(FromString(op.attribs, pool), d[..k]))
      && AllCanBeTakenBack(pool, ops[1..], if op.code == Keep || op.code == Delete then d[k..] else d)
  }

  lemma {:induction false} BouncedSame(sem: AttrSem, a: string, d: Doc)
    requires sem.In?
    ensures Bounced(sem, a, d) == d <==> CanTakeBack(FromString(a, sem.pool), d)
  {
    hide FromString, Overlay, BackMap;
    var change := FromString(a, sem.pool);
    if d != [] {
      BouncedSame(sem, a, d[1..]);
      BackRestores(d[0].attrs, change);
      var r := Bounced(sem, a, d);
      assert r[1..] == Bounced(sem, a, d[1..]);
      assert r == d <==> r[0] == d[0] && r[1..] == d[1..] by { assert r == [r[0]] + r[1..] && d == [d[0]] + d[1..]; }
      CanTakeBackCons(change, d);
    }
  }

  lemma {:induction false} CanTakeBackCons(change: AttribMap, d: Doc)
    requires d != []
    ensures CanTakeBack(change, d) <==>
            (forall k :: k in change && k in d[0].attrs ==> d[0].attrs[k] != "") && CanTakeBack(change, d[1..])
  {
    if CanTakeBack(change, d) {
      forall i | 0 <= i < |d[1..]| ensures forall k :: k in change && k in d[1..][i].attrs ==>
          d[1..][i].attrs[k] != "" {
        assert d[1..][i] == d[i + 1];
      }
    }
    if (forall k :: k in change && k in d[0].attrs ==> d[0].attrs[k] != "") && CanTakeBack(change, d[1..]) {
      forall i | 0 <= i < |d| ensures forall k :: k in change && k in d[i].attrs ==> d[i].attrs[k] != "" {
        if i > 0 { assert d[i] == d[1..][i - 1]; }
      }
    }
  }

  /** Exactly then the document comes back as it was. */
  lemma {:induction false} ReturnedSame(sem: AttrSem, ops: seq<Op>, d: Doc)
    requires sem.In?
    ensures Returned(sem, ops, d) == d <==> AllCanBeTakenBack(sem.pool, ops, d)
    decreases |ops|
  {
    hide Bounced, CanTakeBack, FromString;
    if ops != [] {
      var op, k := ops[0], Min(ops[0].chars, |d|);
      if op.code == Keep || op.code == Delete {
        ReturnedSame(sem, ops[1..], d[k..]);
        var x, y := if op.code == Delete || op.attribs == "" then d[..k]
            else Bounced(sem, op.attribs, d[..k]), Returned(sem, ops[1..], d[k..]);
        BouncedSame(sem, op.attribs, d[..k]);
        SameParts(x, y, d, k);
      } else {
        ReturnedSame(sem, ops[1..], d);
      }
    }
  }

  lemma {:induction false} SameParts(x: Doc, y: Doc, d: Doc, k: nat)
    requires k <= |d| && |x| == k && |y| == |d| - k
    ensures x + y == d <==> x == d[..k] && y == d[k..]
  {
    if x + y == d { assert (x + y)[..k] == x && (x + y)[k..] == y; }
    if x == d[..k] && y == d[k..] { assert d[..k] + d[k..] == d; }
  }
}
