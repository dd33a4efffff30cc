/** Composition of two changesets: SlicerZipperFunc, ApplyZip and Compose of lib/changeset/changeset.go. */
module Composition {
  import opened Basics
  import opened Pools
  import opened Attributes
  import opened Ops

  /** What one step of the zip writes and what it leaves of its two operations. */
  datatype Slice = Slice(out: Op, att: Op, cs: Op, pool: Pool)

  function Slicer(att: Op, cs: Op, pool: Pool): (r: Result<Slice>)
    ensures r.Ok? ==> r.value.att.code == Nop || r.value.cs.code == Nop
    ensures r.Ok? && (att.code == Nop || cs.code == Nop) ==> r.value.att.code == Nop && r.value.cs.code == Nop
  {
    if att.code == Nop then Ok(Slice(cs, att, cs.(code := Nop), pool))
    else if cs.code == Nop then Ok(Slice(att, att.(code := Nop), cs, pool))
    else if att.code == Delete then Ok(Slice(att, att.(code := Nop), cs, pool))
    else if cs.code == Insert then Ok(Slice(cs, att, cs.(code := Nop), pool))
    else if att.chars < att.lines || cs.chars < cs.lines then Err("op has more characters than lines")
    else if !(if att.chars < cs.chars then att.lines <= cs.lines
              else if att.chars > cs.chars then att.lines >= cs.lines
              else att.lines == cs.lines) then Err("line count mismatch when composing changesets A*B; ")
    else
      var code := if cs.code == Delete then (if att.code == Insert then Nop else Delete) else att.code;
      var (attribs, p) := if cs.code == Delete then (cs.attribs, pool)
                          else ComposeAttributes(att.attribs, cs.attribs, att.code == Keep, pool);
      if att.chars > cs.chars then
        Ok(Slice(Op(code, cs.chars, cs.lines, attribs), Shorten(att, cs), cs.(code := Nop), p))
      else
        Ok(Slice(Op(code, att.chars, att.lines, attribs), att.(code := Nop), Shorten(cs, att), p))
  }

  /** `op` without the characters of `part`. */
  function Shorten(op: Op, part: Op): (r: Op)
    requires part.chars <= op.chars
  {
    Op(if op.chars == part.chars then Nop else op.code, op.chars - part.chars, op.lines - part.lines, op.attribs)
  }

  function First(ops: seq<Op>): Op { if ops == [] then NO_OP else ops[0] }

  /** The operations still to do once the first one is cut down to `op`. */
  function Behind(op: Op, ops: seq<Op>): (r: seq<Op>)
    ensures ops != [] || op.code == Nop ==> |r| <= |ops|
    ensures op.code == Nop && ops != [] ==> |r| < |ops|
  {
    (if op.code == Nop then [] else [op]) + (if ops == [] then [] else ops[1..])
  }

  function Emit(op: Op): seq<Op> { if op.code == Nop then [] else [op] }

  /** The characters of an insertion, and the banks once they are taken. */
  datatype Drawn = Drawn(piece: string, bank1: string, bank2: string)

  function Draw(out: Op, op2: Op, bank1: string, bank2: string): Result<Drawn> {
    var n := out.chars;
    if out.code != Insert then Ok(Drawn("", bank1, bank2))
    else if op2.code == Insert then
      if n > |bank2| then Err("not enough characters remaining") else Ok(Drawn(bank2[..n], bank1, bank2[n..]))
    else
      if n > |bank1| then Err("not enough characters remaining") else Ok(Drawn(bank1[..n], bank1[n..], bank2))
  }

  datatype Composed = Composed(ops: seq<Op>, bank: string, pool: Pool)

  /** The two lists zipped: what is written, the inserted characters, and the pool afterwards. */
  function ComposeZip(ops1: seq<Op>, ops2: seq<Op>, bank1: string, bank2: string, pool: Pool): (r: Result<Composed>)
    decreases |ops1| + |ops2|
  {
    if ops1 == [] && ops2 == [] then Ok(Composed([], "", pool))
    else
      var op1, op2 := First(ops1), First(ops2);
      var skip := if op1.code == Insert && op2.code == Delete then Min(op1.chars, op2.chars) else 0;
      if skip > |bank1| then Err("not enough characters remaining")
      else match Slicer(op1, op2, pool)
        case Err(e) => Err(e)
        case Ok(s) =>
          match Draw(s.out, op2, bank1[skip..], bank2)
          case Err(e) => Err(e)
          case Ok(d) =>
            match ComposeZip(Behind(s.att, ops1), Behind(s.cs, ops2), d.bank1, d.bank2, s.pool)
            case Err(e) => Err(e)
            case Ok(z) => Ok(Composed(Emit(s.out) + z.ops, d.piece + z.bank, z.pool))
  }

  /** How attributes are read agrees with the pool that composes them. */
  ghost predicate Lawful(sem: AttrSem, pool: Pool) { sem.Ignore? || (sem.In? && sem.pool == pool && Good(pool)) }

  lemma {:induction false} RestyleComposed(sem: AttrSem, a1: string, a2: string, d: Doc, pool: Pool)
    requires Lawful(sem, pool)
    ensures Restyle(sem, a2, Restyle(sem, a1, d)) == Restyle(sem, ComposeAttributes(a1, a2, true, pool).0, d)
  {
    if d != [] {
      RestyleComposed(sem, a1, a2, d[1..], pool);
      if sem.In? { ComposeMutations(d[0].attrs, a1, a2, pool); }
    }
  }

  lemma {:induction false} FreshComposed(sem: AttrSem, a1: string, a2: string, s: string, pool: Pool)
    requires Lawful(sem, pool)
    ensures Restyle(sem, a2, Fresh(sem, a1, s)) == Fresh(sem, ComposeAttributes(a1, a2, false, pool).0, s)
  {
    if s != [] {
      FreshComposed(sem, a1, a2, s[1..], pool);
      if sem.In? { ComposeAttributesMap(a1, a2, false, pool); }
    }
  }

  /** Zipping the two lists succeeds and makes `r` of `doc`; a good pool stays as it is. */
  ghost predicate ZipsTo(sem: AttrSem, ops1: seq<Op>, ops2: seq<Op>, bank1: string, bank2: string, pool: Pool, doc: Doc,
          r: Doc)
  {
    var z := ComposeZip(ops1, ops2, bank1, bank2, pool);
    z.Ok? && Produces(sem, z.value.ops, z.value.bank, doc, r) && (Good(pool) ==> z.value.pool == pool)
  }

  /** The zip of two lists does what the lists do one after the other. */
  lemma {:induction false} ComposeSound(sem: AttrSem, ops1: seq<Op>, ops2: seq<Op>, bank1: string, bank2: string,
          pool: Pool, doc: Doc, m: Doc, r: Doc)
    requires Apply(sem, ops1, bank1, doc) == Some(m)
    requires Apply(sem, ops2, bank2, m) == Some(r)
    requires Lawful(sem, pool)
    ensures ZipsTo(sem, ops1, ops2, bank1, bank2, pool, doc, r)
    decreases |ops1| + |ops2|, 1
  {
    if ops1 == [] && ops2 == [] {
      assert [] + doc == doc;
    } else if ops1 != [] && (ops2 == [] || ops1[0].code == Delete) {
      ComposeFirst(sem, ops1, ops2, bank1, bank2, pool, doc, m, r);
    } else if ops1 == [] || ops2[0].code == Insert {
      ComposeSecond(sem, ops1, ops2, bank1, bank2, pool, doc, m, r);
    } else {
      ComposeBoth(sem, ops1, ops2, bank1, bank2, pool, doc, m, r);
    }
  }

  // ----- one step of the zip -----

  lemma {:induction false} StepFirst(ops1: seq<Op>, ops2: seq<Op>, bank1: string, bank2: string, pool: Pool,
          z: Composed)
    requires ops1 != [] && ops1[0].code != Nop && (ops2 == [] || (ops1[0].code == Delete && ops2[0].code != Nop))
    requires ops1[0].code == Insert ==> ops1[0].chars <= |bank1|
    requires ComposeZip(ops1[1..], ops2, bank1[if ops1[0].code == Insert then ops1[0].chars else 0..], bank2, pool) ==
             Ok(z)
    ensures ComposeZip(ops1, ops2, bank1, bank2, pool) ==
            Ok(Composed([ops1[0]] + z.ops, (if ops1[0].code == Insert then bank1[..ops1[0].chars] else "") + z.bank,
                z.pool))
  {
    hide ComposeAttributes, Shorten;
    assert Behind(ops1[0].(code := Nop), ops1) == ops1[1..];
    assert Behind(First(ops2), ops2) == ops2;
    assert bank1[0..] == bank1;
    assert Slicer(ops1[0], First(ops2), pool) == Ok(Slice(ops1[0], ops1[0].(code := Nop), First(ops2), pool));
    hide Slicer, Behind;
  }

  lemma {:induction false} StepSecond(ops1: seq<Op>, ops2: seq<Op>, bank1: string, bank2: string, pool: Pool,
          z: Composed)
    requires ops2 != [] && ops2[0].code != Nop
    requires ops1 == [] || (ops1[0].code in {Keep, Insert} && ops2[0].code == Insert)
    requires ops2[0].code == Insert ==> ops2[0].chars <= |bank2|
    requires ComposeZip(ops1, ops2[1..], bank1, bank2[if ops2[0].code == Insert then ops2[0].chars else 0..], pool) ==
             Ok(z)
    ensures ComposeZip(ops1, ops2, bank1, bank2, pool) ==
            Ok(Composed([ops2[0]] + z.ops, (if ops2[0].code == Insert then bank2[..ops2[0].chars] else "") + z.bank,
                z.pool))
  {
    assert Behind(ops2[0].(code := Nop), ops2) == ops2[1..];
    assert Behind(First(ops1), ops1) == ops1;
    assert bank1[0..] == bank1 && bank2[0..] == bank2;
  }

  /** What is written for equal parts, with `k` characters and `l` newlines, of a pair of operations. */
  function Pair(op1: Op, op2: Op, k: nat, l: int, pool: Pool): (Op, Pool) {
    if op2.code == Delete then
      (Op(if op1.code == Insert then Nop else Delete, k, l, op2.attribs), pool)
    else
      var (a, p) := ComposeAttributes(op1.attribs, op2.attribs, op1.code == Keep, pool);
      (Op(op1.code, k, l, a), p)
  }

  lemma {:induction false} SlicePair(op1: Op, op2: Op, pool: Pool, k: nat, l: nat) returns (s: Slice)
    requires op1.code in {Keep, Insert} && op2.code in {Keep, Delete}
    requires k == Min(op1.chars, op2.chars) && l <= op1.lines <= op1.chars && l <= op2.lines <= op2.chars
    requires k == op1.chars ==> l == op1.lines
    requires k == op2.chars ==> l == op2.lines
    ensures Slicer(op1, op2, pool) == Ok(s) && (s.out, s.pool) == Pair(op1, op2, k, l, pool)
    ensures Emit(s.att) == Rest(op1, k, l) && Emit(s.cs) == Rest(op2, k, l)
  {
    hide ComposeAttributes;
    s := Slicer(op1, op2, pool).value;
  }

  lemma {:induction false} StepBoth(ops1: seq<Op>, ops2: seq<Op>, bank1: string, bank2: string, pool: Pool, k: nat,
          l: nat, z: Composed)
    requires ops1 != [] && ops2 != [] && ops1[0].code in {Keep, Insert} && ops2[0].code in {Keep, Delete}
    requires k == Min(ops1[0].chars, ops2[0].chars) && l <= ops1[0].lines && l <= ops2[0].lines
    requires ops1[0].lines <= ops1[0].chars && ops2[0].lines <= ops2[0].chars
    requires k == ops1[0].chars ==> l == ops1[0].lines
    requires k == ops2[0].chars ==> l == ops2[0].lines
    requires ops1[0].code == Insert ==> k <= |bank1|
    requires ComposeZip(Rest(ops1[0], k, l) + ops1[1..], Rest(ops2[0], k, l) + ops2[1..],
                        bank1[if ops1[0].code == Insert then k else 0..], bank2,
                        Pair(ops1[0], ops2[0], k, l, pool).1) == Ok(z)
    ensures ComposeZip(ops1, ops2, bank1, bank2, pool) ==
            Ok(Composed(Emit(Pair(ops1[0], ops2[0], k, l, pool).0) + z.ops,
                        (if ops1[0].code == Insert && ops2[0].code == Keep then bank1[..k] else "") + z.bank, z.pool))
  {
    hide ComposeAttributes, Slicer;
    var op1, op2 := ops1[0], ops2[0];
    var s := SlicePair(op1, op2, pool, k, l);
    assert Behind(s.att, ops1) == Rest(op1, k, l) + ops1[1..];
    assert Behind(s.cs, ops2) == Rest(op2, k, l) + ops2[1..];
    assert bank1[0..] == bank1;
  }

  // ----- the three kinds of steps are sound -----

  /** A step that takes only the first list's operation. */
  lemma {:induction false} ComposeFirst(sem: AttrSem, ops1: seq<Op>, ops2: seq<Op>, bank1: string, bank2: string,
          pool: Pool, doc: Doc, m: Doc, r: Doc)
    requires Apply(sem, ops1, bank1, doc) == Some(m) && Apply(sem, ops2, bank2, m) == Some(r) && Lawful(sem, pool)
    requires ops1 != [] && (ops2 == [] || ops1[0].code == Delete)
    ensures ZipsTo(sem, ops1, ops2, bank1, bank2, pool, doc, r)
    decreases |ops1| + |ops2|, 0
  {
    hide Newlines, Text, Fresh, Restyle, ComposeAttributes, ComposeZip;
    var op := ops1[0];
    var e, m' := UnfoldApply(sem, ops1, bank1, doc, m);
    var r' := if ops2 == [] then m' else r;
    assert [] + m' == m' && [] + m == m;
    ComposeSound(sem, ops1[1..], ops2, e.bank, bank2, pool, e.doc, m', r');
    var z := ComposeZip(ops1[1..], ops2, e.bank, bank2, pool).value;
    StepFirst(ops1, ops2, bank1, bank2, pool, z);
    assert "" + z.bank == z.bank;
    if op.code == Insert {
      ProducesInsert(sem, op, bank1[..op.chars], z.ops, z.bank, doc, r');
    } else if op.code == Delete {
      ProducesDelete(sem, op, z.ops, z.bank, doc, r');
    } else {
      ProducesKeep(sem, op, z.ops, z.bank, doc, r');
    }
  }

  /** A step that takes only the second list's operation. */
  lemma {:induction false} ComposeSecond(sem: AttrSem, ops1: seq<Op>, ops2: seq<Op>, bank1: string, bank2: string,
          pool: Pool, doc: Doc, m: Doc, r: Doc)
    requires Apply(sem, ops1, bank1, doc) == Some(m) && Apply(sem, ops2, bank2, m) == Some(r) && Lawful(sem, pool)
    requires ops2 != [] && (ops1 == [] || (ops1[0].code != Delete && ops2[0].code == Insert))
    ensures ZipsTo(sem, ops1, ops2, bank1, bank2, pool, doc, r)
    decreases |ops1| + |ops2|, 0
  {
    hide Newlines, Text, Fresh, Restyle, ComposeAttributes, ComposeZip;
    var op := ops2[0];
    var e, r' := UnfoldApply(sem, ops2, bank2, m, r);
    var doc' := if ops1 == [] then e.doc else doc;
    assert [] + e.doc == e.doc && [] + doc == doc && [] + r' == r';
    ComposeSound(sem, ops1, ops2[1..], bank1, e.bank, pool, doc', e.doc, r');
    var z := ComposeZip(ops1, ops2[1..], bank1, e.bank, pool).value;
    StepSecond(ops1, ops2, bank1, bank2, pool, z);
    assert "" + z.bank == z.bank;
    if op.code == Insert {
      ProducesInsert(sem, op, bank2[..op.chars], z.ops, z.bank, doc, r');
    } else if op.code == Delete {
      ProducesDelete(sem, op, z.ops, z.bank, doc, r');
    } else {
      ProducesKeep(sem, op, z.ops, z.bank, doc, r');
    }
  }

  /** A step that cuts equal parts off both lists' operations. */
  lemma {:induction false} ComposeBoth(sem: AttrSem, ops1: seq<Op>, ops2: seq<Op>, bank1: string, bank2: string,
          pool: Pool, doc: Doc, m: Doc, r: Doc)
    requires Apply(sem, ops1, bank1, doc) == Some(m) && Apply(sem, ops2, bank2, m) == Some(r) && Lawful(sem, pool)
    requires ops1 != [] && ops2 != [] && ops1[0].code != Delete && ops2[0].code != Insert
    ensures ZipsTo(sem, ops1, ops2, bank1, bank2, pool, doc, r)
    decreases |ops1| + |ops2|, 0
  {
    hide Newlines, Text, Fresh, Restyle, ComposeAttributes, Run, ComposeZip, Pair, Produces, Lawful, Cut, Clean;
    var op1, op2 := ops1[0], ops2[0];
    var k := Min(op1.chars, op2.chars);
    LinesWithinChars(sem, ops1, bank1, doc);
    LinesWithinChars(sem, ops2, bank2, m);
    CutsAgree(sem, ops1, ops2, bank1, bank2, doc, m);
    var l, e, m' := SplitApply(sem, ops1, k, bank1, doc, m);
    var l2, e2, r' := SplitApply(sem, ops2, k, bank2, m, r);
    assert m[..k] == e.out && m[k..] == m' by { OutLength(sem, Head(op1, k, l), bank1, doc); }
    PairLawful(sem, op1, op2, k, l, pool);
    var p := Pair(op1, op2, k, l, pool).1;
    ComposeSound(sem, Rest(op1, k, l) + ops1[1..], Rest(op2, k, l) + ops2[1..], e.bank, e2.bank, p, e.doc, m', r');
    var z := ComposeZip(Rest(op1, k, l) + ops1[1..], Rest(op2, k, l) + ops2[1..], e.bank, e2.bank, p).value;
    StepBoth(ops1, ops2, bank1, bank2, pool, k, l, z);
    PairSound(sem, op1, op2, k, l, bank1, bank2, doc, m, e, e2, pool, z.ops, z.bank, r');
  }

  lemma {:induction false} LinesWithinChars(sem: AttrSem, ops: seq<Op>, bank: string, doc: Doc)
    requires ops != [] && Apply(sem, ops, bank, doc).Some?
    ensures ops[0].lines <= ops[0].chars && ops[0].code != Nop
  {
    if ops[0].code == Insert {
      NewlinesBound(bank[..ops[0].chars]);
    } else {
      NewlinesBound(Text(doc[..ops[0].chars]));
    }
  }

  /** What is written for a pair of equal parts does what the two parts do one after the other. */
  lemma {:induction false} PairSound(sem: AttrSem, op1: Op, op2: Op, k: nat, l: int, bank1: string, bank2: string,
          doc: Doc, m: Doc, e: Effect, e2: Effect, pool: Pool, ops: seq<Op>, bank: string, r: Doc)
    requires op1.code in {Keep, Insert} && op2.code in {Keep, Delete} && Lawful(sem, pool)
    requires RunOp(sem, Head(op1, k, l), bank1, doc) == Some(e)
    requires RunOp(sem, Head(op2, k, l), bank2, m) == Some(e2)
    requires m[..k] == e.out
    requires Produces(sem, ops, bank, e.doc, r)
    ensures Produces(sem, Emit(Pair(op1, op2, k, l, pool).0) + ops,
                     (if op1.code == Insert && op2.code == Keep then bank1[..k] else "") + bank, doc, e2.out + r)
  {
    hide Newlines, Text, Fresh, Restyle, ComposeAttributes, Run, Produces, Lawful;
    var op := Pair(op1, op2, k, l, pool).0;
    assert "" + bank == bank && [] + r == r && [] + ops == ops;
    if op.code == Delete {
      ProducesDelete(sem, op, ops, bank, doc, r);
    } else if op.code == Insert {
      FreshComposed(sem, op1.attribs, op2.attribs, bank1[..k], pool);
      ProducesInsert(sem, op, bank1[..k], ops, bank, doc, r);
    } else if op.code == Keep {
      RestyleComposed(sem, op1.attribs, op2.attribs, doc[..k], pool);
      ProducesKeep(sem, op, ops, bank, doc, r);
    }
  }

  lemma {:induction false} PairLawful(sem: AttrSem, op1: Op, op2: Op, k: nat, l: int, pool: Pool)
    requires Lawful(sem, pool)
    ensures Lawful(sem, Pair(op1, op2, k, l, pool).1)
    ensures Good(pool) ==> Pair(op1, op2, k, l, pool).1 == pool
  {
    if Good(pool) { ComposeAttributesMap(op1.attribs, op2.attribs, op1.code == Keep, pool); }
  }

  lemma {:induction false} OutLength(sem: AttrSem, op: Op, bank: string, doc: Doc)
    requires op.code in {Keep, Insert} && RunOp(sem, op, bank, doc).Some?
    ensures |RunOp(sem, op, bank, doc).value.out| == op.chars
    ensures Text(RunOp(sem, op, bank, doc).value.out) == Segment(op, bank, doc)
  {}

  /** The part cut off the second operation passes over just what the part cut off the first one wrote. */
  lemma {:induction false} CutsAgree(sem: AttrSem, ops1: seq<Op>, ops2: seq<Op>, bank1: string, bank2: string, doc: Doc,
          m: Doc)
    requires Apply(sem, ops1, bank1, doc) == Some(m) && Apply(sem, ops2, bank2, m).Some?
    requires ops1 != [] && ops2 != [] && ops1[0].code in {Keep, Insert} && ops2[0].code in {Keep, Delete}
    ensures var k := Min(ops1[0].chars, ops2[0].chars);
            && Cut(ops1[0], k, bank1, doc) == Cut(ops2[0], k, bank2, m)
            && (sem.strict ==> Clean(Cut(ops1[0], k, bank1, doc)))
  {
    hide RunOp, Run, Clean, Cut;
    var e, m' := UnfoldApply(sem, ops1, bank1, doc, m);
    var e2, r' := UnfoldApply(sem, ops2, bank2, m, Apply(sem, ops2, bank2, m).value);
    SegmentsAgree(sem, ops1[0], ops2[0], bank1, bank2, doc, e, m', m);
  }

  lemma {:induction false} SegmentsAgree(sem: AttrSem, op1: Op, op2: Op, bank1: string, bank2: string, doc: Doc,
          e: Effect, m': Doc, m: Doc)
    requires op1.code in {Keep, Insert} && op2.code in {Keep, Delete}
    requires RunOp(sem, op1, bank1, doc) == Some(e) && m == e.out + m' && RunOp(sem, op2, bank2, m).Some?
    ensures var k := Min(op1.chars, op2.chars);
            Cut(op1, k, bank1, doc) == Cut(op2, k, bank2, m) && (sem.strict ==> Clean(Cut(op1, k, bank1, doc)))
  {
    hide Newlines, Fresh, Restyle, Clean, Text;
    var k, t := Min(op1.chars, op2.chars), Text(m);
    OutLength(sem, op1, bank1, doc);
    TextSplit(m, op1.chars);
    TextSplit(m, op2.chars);
    assert m[..op1.chars] == e.out;
    SliceSlice(t, op1.chars, k);
    SliceSlice(t, op2.chars, k);
  }
}
