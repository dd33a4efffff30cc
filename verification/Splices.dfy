/** Replacing a stretch of text: MakeSplice of lib/changeset/changeset.go. */
module Splices {
  import opened Basics
  import opened Pools
  import opened Ops
  import opened Syntax
  import opened Assemblers
  import opened AssemblerObjects
  import opened Changesets
  import opened Builders
  import opened AttributedText
  import Inversion
  import Algebra

  /** The operations of a splice: keep, delete, insert. */
  function SpliceOps(orig: string, start: nat, ndel: nat, ins: string, attribs: string): seq<Op>
    requires start + ndel <= |orig|
  {
    OpsFromText(Keep, orig[..start], "") + OpsFromText(Delete, orig[start..start + ndel], "")
        + OpsFromText(Insert, ins, attribs)
  }

  /** The position and the length of the deletion, brought into the text. */
  function Clamped(orig: string, start: nat, ndel: nat): (r: (nat, nat))
    ensures r.0 + r.1 <= |orig|
  {
    var s := Min(start, |orig|);
    (s, Min(ndel, |orig| - s))
  }

  /** A sequence with `ndel` elements from `start` on, as far as it has them, replaced by others. */
  function Spliced<T>(orig: seq<T>, start: nat, ndel: nat, ins: seq<T>): seq<T> {
    orig[..Min(start, |orig|)] + ins + orig[Min(start + ndel, |orig|)..]
  }

  function MakeSplice(orig: string, start: int, ndel: int, ins: string, attribs: string): Result<string> {
    if start < 0 then Err("start is negative")
    else if ndel < 0 then Err("ndel is negative")
    else
      var (s, n) := Clamped(orig, start, ndel);
      Ok(Pack(|orig|, |orig| + |ins| - n, Serialize(Assemble(SpliceOps(orig, s, n, ins, attribs))), ins))
  }

  /** Whole lines and the rest of a text, kept or deleted, before operations for what follows. */
  lemma {:induction false} PassText(sem: AttrSem, code: OpCode, d: Doc, after: Doc, ops: seq<Op>, bank: string, r: Doc)
    requires code == Keep || code == Delete
    requires Produces(sem, ops, bank, after, r)
    ensures Produces(sem, OpsFromText(code, Text(d), "") + ops, bank, d + after, (if code == Keep then d else []) + r)
  {
    hide Newlines, Produces, Text;
    var t := Text(d);
    var k := LinesEnd(t);
    NewlinesBound(t);
    if k == 0 {
      assert t[0..] == t;
      PassOne(sem, Op(code, |t|, 0, ""), d, after, ops, bank, r);
    } else {
      var a, b := d[..k], d[k..];
      var x, y := Op(code, k, Newlines(t), ""), Op(code, |t| - k, 0, "");
      TextSplit(d, k);
      PassOne(sem, y, b, after, ops, bank, r);
      var out := if code == Keep then b else [];
      PassOne(sem, x, a, b + after, [y] + ops, bank, out + r);
      assert OpsFromText(code, t, "") == [x] + [y];
      hide OpsFromText;
      Associate([x], [y], ops);
      Associate(a, b, after);
      CutAndJoin(d, k);
      Associate(a, b, r);
      assert [] + ([] + r) == [] + r;
    }
  }

  lemma {:induction false} PassOne(sem: AttrSem, op: Op, d: Doc, after: Doc, ops: seq<Op>, bank: string, r: Doc)
    requires (op.code == Keep || op.code == Delete) && op.attribs == "" && op.chars == |d|
             && Fits(sem, op.lines, Text(d))
    requires Produces(sem, ops, bank, after, r)
    ensures Produces(sem, [op] + ops, bank, d + after, (if op.code == Keep then d else []) + r)
  {
    hide Produces, Restyle, Text, Fits;
    JoinAndCut(d, after);
    if op.code == Keep {
      ProducesKeep(sem, op, ops, bank, d + after, r);
      RestylePlain(sem, d);
    } else {
      ProducesDelete(sem, op, ops, bank, d + after, r);
      assert [] + r == r;
    }
  }

  lemma {:induction false} OpsFromTextAttribs(code: OpCode, t: string, attribs: string)
    requires AttribText(attribs)
    ensures AllAttribText(OpsFromText(code, t, attribs))
  {
    hide AttribText, LinesEnd;
  }

  /** The operations of a splice replace the stretch of the document by text with the attributes given. */
  lemma {:induction false} SpliceProduces(sem: AttrSem, d: Doc, start: nat, ndel: nat, ins: string, attribs: string)
    requires start + ndel <= |d|
    ensures Produces(sem, SpliceOps(Text(d), start, ndel, ins, attribs), ins, d,
            Spliced(d, start, ndel, Fresh(sem, attribs, ins)))
  {
    hide Newlines, Fresh, Produces, Restyle, Text, OpsFromText;
    var a, b, c := d[..start], d[start..][..ndel], d[start + ndel..];
    var x := OpsFromText(Keep, Text(a), "");
    var y, z := OpsFromText(Delete, Text(b), ""), OpsFromText(Insert, ins, attribs);
    Inversion.NothingProducedIn(sem, c);
    Inversion.OpsFromTextProduces(sem, ins, attribs, [], "", c, c);
    assert z + [] == z && ins + "" == ins;
    var i := Fresh(sem, attribs, ins);
    PassText(sem, Delete, b, c, z, ins, i + c);
    assert [] + (i + c) == i + c;
    PassText(sem, Keep, a, b + c, y + z, ins, i + c);
    SplitDoc(d, start, ndel);
    Associate(x, y, z);
    Associate(a, i, c);
  }

  lemma {:induction false} SplitDoc(d: Doc, s: nat, n: nat)
    requires s + n <= |d|
    ensures d[..s] + (d[s..][..n] + d[s + n..]) == d
    ensures Text(d[..s]) == Text(d)[..s] && Text(d[s..][..n]) == Text(d)[s..s + n]
  {
    hide Text;
    TextSplit(d, s);
    TextSplit(d[s..], n);
    assert Text(d)[s..][..n] == Text(d)[s..s + n];
  }

  lemma {:induction false} ClampedSplice<T>(orig: seq<T>, text: string, start: nat, ndel: nat, ins: seq<T>)
    requires |orig| == |text|
    ensures var (s, n) := Clamped(text, start, ndel); Spliced(orig, s, n, ins) == Spliced(orig, start, ndel, ins)
  {}

  lemma {:induction false} PlainSplice(orig: string, s: nat, n: nat, ins: string)
    requires s + n <= |orig|
    ensures Spliced(Plain(orig), s, n, Plain(ins)) == Plain(Spliced(orig, s, n, ins))
  {
    hide Plain;
    PlainText(orig);
    PlainLengths(orig, s);
    PlainLengths(orig, s + n);
    PlainConcat(orig[..s], ins);
    PlainConcat(orig[..s] + ins, orig[s + n..]);
  }

  lemma {:induction false} PlainLengths(t: string, k: nat)
    requires k <= |t|
    ensures Plain(t)[..k] == Plain(t[..k]) && Plain(t)[k..] == Plain(t[k..])
  {
    hide Plain;
    CutAndJoin(t, k);
    PlainConcat(t[..k], t[k..]);
    PlainText(t[..k]);
    JoinAndCut(Plain(t[..k]), Plain(t[k..]));
  }

  /** The same for the text alone. */
  lemma {:induction false} SpliceProducesText(orig: string, s: nat, n: nat, ins: string, attribs: string)
    requires s + n <= |orig|
    ensures Produces(Ignore(true), SpliceOps(orig, s, n, ins, attribs), ins, Plain(orig),
            Plain(Spliced(orig, s, n, ins)))
  {
    hide Produces, Plain, SpliceOps, Spliced, Fresh, Text;
    PlainText(orig);
    SpliceProduces(Ignore(true), Plain(orig), s, n, ins, attribs);
    FreshIsPlain(true, attribs, ins);
    PlainSplice(orig, s, n, ins);
  }

  /** A splice is a well-formed changeset, accepted by CheckRep, and replaces the stretch of text. */
  lemma {:induction false} SpliceApplies(orig: string, start: nat, ndel: nat, ins: string, attribs: string)
    requires AttribText(attribs)
    ensures MakeSplice(orig, start, ndel, ins, attribs).Ok?
    ensures var cs := MakeSplice(orig, start, ndel, ins, attribs).value;
            && WellFormed(cs, orig) && ApplyToText(cs, orig) == Ok(Spliced(orig, start, ndel, ins))
            && Unpack(cs).bank == ins
            && OpsOf(cs) == Assemble(SpliceOps(orig, Clamped(orig, start, ndel).0, Clamped(orig, start, ndel).1, ins,
               attribs))
  {
    hide Newlines, Produces, Plain, OpsFromText, Assemble, Pack, Serialize, AttribText, WellFormed, ApplyToText, Unpack,
         OpsOf, AllAttribText, LengthChange, Strip, SpliceOps, Fresh;
    var (s, n) := Clamped(orig, start, ndel);
    var ops, r := SpliceOps(orig, s, n, ins, attribs), Spliced(orig, start, ndel, ins);
    PlainText(orig);
    ClampedSplice(orig, orig, start, ndel, ins);
    SpliceProducesText(orig, s, n, ins, attribs);
    Algebra.ProducesLines(Ignore(true), ops, ins, Plain(orig), Plain(r));
    PlainText(r);
    StripProduces(Ignore(true), ops, ins, Plain(orig), Plain(r));
    assert AllAttribText(ops) by { SpliceAttribs(orig, s, n, ins, attribs); }
    Algebra.RebasedWellFormed(ops, ins, orig, r);
  }

  lemma {:induction false} SpliceAttribs(orig: string, s: nat, n: nat, ins: string, attribs: string)
    requires s + n <= |orig| && AttribText(attribs)
    ensures AllAttribText(SpliceOps(orig, s, n, ins, attribs))
  {
    hide AttribText, OpsFromText;
    EmptyAttribText();
    OpsFromTextAttribs(Keep, orig[..s], "");
    OpsFromTextAttribs(Delete, orig[s..s + n], "");
    OpsFromTextAttribs(Insert, ins, attribs);
  }

  /**
    On every document with that text the splice puts in its text with the attributes given, and leaves the rest as it
    is.
   */
  lemma {:induction false} SpliceDocument(d: Doc, start: nat, ndel: nat, ins: string, attribs: string, pool: Pool)
    requires AttribText(attribs)
    ensures MakeSplice(Text(d), start, ndel, ins, attribs).Ok?
    ensures AfterDoc(pool, MakeSplice(Text(d), start, ndel, ins, attribs).value, d) ==
            Some(Spliced(d, start, ndel, Fresh(In(false, pool), attribs, ins)))
  {
    hide Newlines, Produces, OpsFromText, Assemble, Pack, Serialize, AttribText, WellFormed, ApplyToText, Unpack, OpsOf,
         SpliceOps, Spliced, Fresh, Text, Strip;
    var orig, sem := Text(d), In(false, pool);
    var (s, n) := Clamped(orig, start, ndel);
    var x := Fresh(sem, attribs, ins);
    SpliceApplies(orig, start, ndel, ins, attribs);
    var ops, r := SpliceOps(orig, s, n, ins, attribs), Spliced(d, s, n, x);
    SpliceProduces(sem, d, s, n, ins, attribs);
    StripProduces(sem, ops, ins, d, r);
    AssembleProduces(sem, ops, ins, d, r);
    ClampedSplice(d, orig, start, ndel, x);
    ProducedAfter(pool, MakeSplice(orig, start, ndel, ins, attribs).value, d, r);
  }

  lemma {:induction false} ProducedAfter(pool: Pool, cs: string, d: Doc, r: Doc)
    requires Produces(In(false, pool), OpsOf(cs), Unpack(cs).bank, d, r)
    ensures AfterDoc(pool, cs, d) == Some(r)
  {
    hide OpsOf, Unpack, Run;
  }

  /** Its insertions have the attributes given, and its other operations have none. */
  predicate InsertsCarry(cs: string, attribs: string) {
    forall i :: 0 <= i < |OpsOf(cs)| ==> OpsOf(cs)[i].attribs == if OpsOf(cs)[i].code == Insert then attribs else ""
  }

  lemma {:induction false} SpliceCarries(orig: string, start: nat, ndel: nat, ins: string, attribs: string)
    requires AttribText(attribs)
    ensures MakeSplice(orig, start, ndel, ins, attribs).Ok?
    ensures InsertsCarry(MakeSplice(orig, start, ndel, ins, attribs).value, attribs)
  {
    hide OpsFromText, Assemble, AttribText, WellFormed, ApplyToText, Unpack, OpsOf, MakeSplice, Spliced;
    var p := (c: OpCode, a: string) => a == if c == Insert then attribs else "";
    var (s, n) := Clamped(orig, start, ndel);
    var ops := SpliceOps(orig, s, n, ins, attribs);
    SpliceApplies(orig, start, ndel, ins, attribs);
    OneAttrib(Keep, orig[..s], "");
    OneAttrib(Delete, orig[s..s + n], "");
    OneAttrib(Insert, ins, attribs);
    assert AllAttribs(p, ops);
    AssembleAttribs(p, ops);
    assert OpsOf(MakeSplice(orig, start, ndel, ins, attribs).value) == Assemble(ops);
    assert forall i :: 0 <= i < |Assemble(ops)| ==> p(Assemble(ops)[i].code, Assemble(ops)[i].attribs);
  }

  lemma {:induction false} OneAttrib(code: OpCode, t: string, attribs: string)
    ensures forall i :: 0 <= i < |OpsFromText(code, t, attribs)| ==>
              OpsFromText(code, t, attribs)[i].code == code && OpsFromText(code, t, attribs)[i].attribs == attribs
  {
    hide LinesEnd;
  }

  /**
    The changeset replaces the stretch of the text, on every document with that text by text with the attributes given,
    and names no attributes anywhere else.
   */
  ghost predicate SplicesIn(r: Result<string>, orig: string, start: nat, ndel: nat, ins: string, attribs: string) {
    && r.Ok?
    && WellFormed(r.value, orig) && ApplyToText(r.value, orig) == Ok(Spliced(orig, start, ndel, ins))
    && InsertsCarry(r.value, attribs)
    && forall pool, d :: Text(d) == orig ==>
         AfterDoc(pool, r.value, d) == Some(Spliced(d, start, ndel, Fresh(In(false, pool), attribs, ins)))
  }

  lemma {:induction false} SpliceFully(orig: string, start: nat, ndel: nat, ins: string, attribs: string)
    requires AttribText(attribs)
    ensures SplicesIn(MakeSplice(orig, start, ndel, ins, attribs), orig, start, ndel, ins, attribs)
  {
    hide AttribText, WellFormed, ApplyToText, MakeSplice, Spliced, AfterDoc, InsertsCarry, OpsOf, Unpack, Fresh, Text;
    SpliceApplies(orig, start, ndel, ins, attribs);
    SpliceCarries(orig, start, ndel, ins, attribs);
    var cs := MakeSplice(orig, start, ndel, ins, attribs).value;
    forall pool, d | Text(d) == orig
      ensures AfterDoc(pool, cs, d) == Some(Spliced(d, start, ndel, Fresh(In(false, pool), attribs, ins)))
    {
      SpliceDocument(d, start, ndel, ins, attribs, pool);
    }
  }
}
