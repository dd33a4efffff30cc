/**
  When a splice leaves the lines of a text in order: the changesets that MakeSplice of lib/changeset/changeset.go writes
  for an append, for a new text and for any other edit.
 */
module SpliceOrder {
  import opened Basics
  import opened Pools
  import opened Ops
  import opened Syntax
  import opened Assemblers
  import opened Changesets
  import opened Builders
  import opened Splices
  import opened TextMutation
  import opened Attributions
  import opened FinalNewlines
  import opened LineOrder
  import opened InverseOrder
  import Inversion
  import Algebra

  lemma {:induction false} TextOps(code: OpCode, t: string, attribs: string)
    ensures code != Insert ==>
              Consumed(OpsFromText(code, t, attribs)) == |t| && EndInserts(OpsFromText(code, t, attribs)) == []
    ensures code == Insert ==> OnlyInserts(OpsFromText(code, t, attribs))
  {
    hide LinesEnd, HasKeep, Newlines, EndInserts;
    var ops := OpsFromText(code, t, attribs);
    EndInsertsOne(ops[0]);
    CountsOne(ops[0]);
    if |ops| == 2 {
      EndInsertsOne(ops[1]);
      CountsOne(ops[1]);
      EndInsertsConcat([ops[0]], [ops[1]]);
      CountsConcat([ops[0]], [ops[1]]);
      assert ops == [ops[0]] + [ops[1]];
    } else {
      assert ops == [ops[0]];
    }
  }

  lemma {:induction false} CountsOne(op: Op)
    ensures Consumed([op]) == if op.code == Insert then 0 else op.chars
  {
    assert [op][1..] == [];
  }

  /** What a splice inserts comes at the end of its operations. */
  lemma {:induction false} SpliceEnd(orig: string, s: nat, n: nat, ins: string, attribs: string) returns (d: Doc)
    requires s + n <= |orig|
    ensures var ops := SpliceOps(orig, s, n, ins, attribs);
            Consumed(ops) == s + n && Produces(Verbatim(true, EMPTY_POOL), EndInserts(ops), ins, [], d)
    ensures !Breaks(d)
  {
    hide OpsFromText, HasKeep, Consumed, EndInserts, Produces, Fresh, OnlyInserts;
    var v := Verbatim(true, EMPTY_POOL);
    var a, b, c := OpsFromText(Keep, orig[..s], ""), OpsFromText(Delete, orig[s..s + n], ""),
        OpsFromText(Insert, ins, attribs);
    TextOps(Keep, orig[..s], "");
    TextOps(Delete, orig[s..s + n], "");
    TextOps(Insert, ins, attribs);
    NoKeepsHere(c);
    CountsConcat(a, b);
    CountsConcat(a + b, c);
    EndInsertsConcat(a, b);
    EndInsertsConcat(a + b, c);
    assert [] + EndInserts(c) == EndInserts(c) && EndInserts(c) + [] == EndInserts(c);
    d := Fresh(v, attribs, ins);
    Inversion.NothingProducedIn(v, []);
    Inversion.OpsFromTextProduces(v, ins, attribs, [], "", [], []);
    assert c + [] == c && ins + "" == ins && d + [] == d;
    EndInsertsProduce(v, c, [], ins, d);
    FreshStyle(EMPTY_POOL, attribs, ins);
  }

  /**
    A splice leaves the lines in order unless it replaces the end of the text, from the middle of a line on, by
    something.
   */
  lemma {:induction false} SpliceStops(orig: string, start: nat, ndel: nat, ins: string, attribs: string)
    requires AttribText(attribs) && EndsInNewline(orig) && EndsInNewline(Spliced(orig, start, ndel, ins))
    ensures MakeSplice(orig, start, ndel, ins, attribs).Ok?
    ensures var cs := MakeSplice(orig, start, ndel, ins, attribs).value;
            StopsMidline(OpsOf(cs), Unpack(cs).bank, orig, "") <==>
            ins != "" && |orig| <= start + ndel && Midline(orig[..Min(start, |orig|)])
  {
    hide Unpack, Pack, Serialize, OpsOf, Run, Plain, Produces, AttribText, WellFormed, ApplyToText, StopsMidline,
         Midline, SpliceOps, Assemble, EndInserts, Consumed, Breaks;
    var (s, n) := Clamped(orig, start, ndel);
    var ops, r := SpliceOps(orig, s, n, ins, attribs), Spliced(orig, start, ndel, ins);
    SpliceApplies(orig, start, ndel, ins, attribs);
    SpliceProducesText(orig, s, n, ins, attribs);
    ClampedSplice(orig, orig, start, ndel, ins);
    Algebra.ProducesLines(Ignore(true), ops, ins, Plain(orig), Plain(r));
    var d := SpliceEnd(orig, s, n, ins, attribs);
    assert ins[|ins| - |ins|..] == ins;
    AssembledStops(ops, ins, orig, r, EMPTY_POOL, ins, d);
    if s + n == |orig| { assert orig[s + n..] == "" && r == orig[..s] + ins && r[..|r| - |ins|] == orig[..s]; }
  }

  /** An append puts its text behind the final newline, and a new text replaces the old one, in order. */
  lemma {:induction false} AppendInOrder(text: string, ins: string, attribs: string)
    requires AttribText(attribs) && EndsInNewline(text) && EndsInNewline(ins)
    ensures Orderly(MakeSplice(text, |text|, 0, ins, attribs), text, text + ins)
    ensures Orderly(MakeSplice(text, 0, |text|, ins, attribs), text, ins)
  {
    hide Unpack, OpsOf, AttribText, WellFormed, After, StopsMidline, MakeSplice, Spliced, EndsInNewline;
    AppendedText(text, ins);
    InOrder(text, |text|, 0, ins, attribs);
    InOrder(text, 0, |text|, ins, attribs);
  }

  /** The changeset leads from one text to another and leaves the lines in order. */
  ghost predicate Orderly(r: Result<string>, text: string, next: string) {
    && r.Ok? && WellFormed(r.value, text) && After(r.value, text) == next
    && !StopsMidline(OpsOf(r.value), Unpack(r.value).bank, text, "")
  }

  lemma {:induction false} InOrder(text: string, start: nat, ndel: nat, ins: string, attribs: string)
    requires AttribText(attribs) && EndsInNewline(text) && EndsInNewline(Spliced(text, start, ndel, ins))
    requires !Midline(text[..Min(start, |text|)])
    ensures Orderly(MakeSplice(text, start, ndel, ins, attribs), text, Spliced(text, start, ndel, ins))
  {
    hide Unpack, OpsOf, AttribText, WellFormed, ApplyToText, StopsMidline, MakeSplice, Spliced, EndsInNewline, Midline;
    SpliceApplies(text, start, ndel, ins, attribs);
    SpliceStops(text, start, ndel, ins, attribs);
  }

  lemma {:induction false} AppendedText(text: string, ins: string)
    requires EndsInNewline(text) && EndsInNewline(ins)
    ensures Spliced(text, |text|, 0, ins) == text + ins && EndsInNewline(text + ins) && !Midline(text[..|text|])
    ensures Spliced(text, 0, |text|, ins) == ins && !Midline(text[..0])
  {
    assert text[..|text|] == text && text[|text|..] == "" && text[..0] == "" && text + ins + "" == text + ins
           && "" + ins + "" == ins;
  }
}
