/**
  The canonical form of a changeset is determined by its meaning, and composition is associative.

  A document whose cells all carry different marks shows which of its characters a changeset keeps.
 */
module CanonicalForm {
  import opened Basics
  import opened Pools
  import opened Attributes
  import opened Ops
  import opened Syntax
  import opened Assemblers
  import Zip = Composition
  import opened Rebasing
  import opened Changesets
  import opened Algebra

  // ----- marked documents -----

  /** Every cell has a mark of its own. */
  ghost predicate Marked(d: Doc) {
    && (forall i :: 0 <= i < |d| ==> d[i].attrs != map[])
    && (forall i, j :: 0 <= i < j < |d| ==> d[i].attrs != d[j].attrs)
  }

  function Unary(n: nat): string { if n == 0 then "" else "i" + Unary(n - 1) }

  lemma {:induction false} UnaryLength(n: nat)
    ensures |Unary(n)| == n
  {
    if n > 0 { UnaryLength(n - 1); }
  }

  /** The text `s` with marks from number `i` on. */
  function Mark(s: string, i: nat): Doc {
    if s == [] then [] else [Cell(s[0], map["" := Unary(i)])] + Mark(s[1..], i + 1)
  }

  lemma {:induction false} MarkCells(s: string, i: nat)
    ensures |Mark(s, i)| == |s| && Text(Mark(s, i)) == s
    ensures forall k :: 0 <= k < |s| ==> Mark(s, i)[k].attrs == map["" := Unary(i + k)]
  {
    hide Unary, Text;
    MarkText(s, i);
    forall k | 0 <= k < |s| ensures Mark(s, i)[k].attrs == map["" := Unary(i + k)] { MarkAt(s, i, k); }
  }

  lemma {:induction false} MarkText(s: string, i: nat)
    ensures |Mark(s, i)| == |s| && Text(Mark(s, i)) == s
  {
    hide Unary;
    if s != [] {
      var rest := Mark(s[1..], i + 1);
      MarkText(s[1..], i + 1);
      assert Mark(s, i)[1..] == rest;
      CutAndJoin(s, 1);
    }
  }

  lemma {:induction false} MarkAt(s: string, i: nat, k: nat)
    requires k < |s|
    ensures |Mark(s, i)| == |s| && Mark(s, i)[k].attrs == map["" := Unary(i + k)]
    decreases k
  {
    hide Unary;
    MarkText(s, i);
    MarkText(s[1..], i + 1);
    if k > 0 { MarkAt(s[1..], i + 1, k - 1); }
  }

  lemma {:induction false} MarkMarked(s: string)
    ensures Marked(Mark(s, 0)) && Text(Mark(s, 0)) == s
  {
    MarkCells(s, 0);
    forall i, j | 0 <= i < j < |s| ensures Mark(s, 0)[i].attrs != Mark(s, 0)[j].attrs {
      UnaryLength(i);
      UnaryLength(j);
      assert map["" := Unary(i)][""] != map["" := Unary(j)][""];
    }
    forall i | 0 <= i < |s| ensures Mark(s, 0)[i].attrs != map[] {
      assert "" in map["" := Unary(i)];
    }
  }

  // ----- single steps -----

  function Units(c: OpCode, n: nat): (u: seq<OpCode>)
    ensures |u| == n && forall i :: 0 <= i < n ==> u[i] == c
  {
    if n == 0 then [] else [c] + Units(c, n - 1)
  }

  /** The operations character by character. */
  function Explode(ops: seq<Op>): seq<OpCode> {
    if ops == [] then [] else Units(ops[0].code, ops[0].chars) + Explode(ops[1..])
  }

  /** The steps `u` turn `d` into `r`; inserted cells carry no mark. */
  predicate Leads(u: seq<OpCode>, d: Doc, r: Doc) {
    if u == [] then r == d
    else match u[0]
      case Keep => d != [] && r != [] && r[0] == d[0] && Leads(u[1..], d[1..], r[1..])
      case Delete => d != [] && Leads(u[1..], d[1..], r)
      case Insert => r != [] && r[0].attrs == map[] && Leads(u[1..], d, r[1..])
      case Nop => false
  }

  /** The inserted characters. */
  function Inserted(u: seq<OpCode>, r: Doc): string {
    if u == [] || r == [] then ""
    else if u[0] == Insert then [r[0].c] + Inserted(u[1..], r[1..])
    else Inserted(u[1..], if u[0] == Keep then r[1..] else r)
  }

  lemma {:induction false} LeadsInsertOne(x: Cell, u: seq<OpCode>, d: Doc, r: Doc)
    requires Leads(u, d, r) && x.attrs == map[]
    ensures Leads([Insert] + u, d, [x] + r) && Inserted([Insert] + u, [x] + r) == [x.c] + Inserted(u, r)
  {
    var v, s := [Insert] + u, [x] + r;
    assert v[0] == Insert && s[0] == x && v[1..] == u && s[1..] == r;
  }

  lemma {:induction false} LeadsInsert(a: string, s: string, u: seq<OpCode>, d: Doc, r: Doc)
    requires Leads(u, d, r)
    ensures Leads(Units(Insert, |s|) + u, d, Fresh(Ignore(true), a, s) + r)
    ensures Inserted(Units(Insert, |s|) + u, Fresh(Ignore(true), a, s) + r) == s + Inserted(u, r)
  {
    hide Leads, Inserted;
    var us, xs := Units(Insert, |s|), Fresh(Ignore(true), a, s);
    if s == [] {
      assert us + u == u && xs + r == r && s + Inserted(u, r) == Inserted(u, r);
    } else {
      var vs, ys, cell := Units(Insert, |s| - 1), Fresh(Ignore(true), a, s[1..]), Cell(s[0], map[]);
      LeadsInsert(a, s[1..], u, d, r);
      LeadsInsertOne(cell, vs + u, d, ys + r);
      assert us == [Insert] + vs && xs == [cell] + ys;
      hide Units, Fresh;
      Associate([Insert], vs, u);
      Associate([cell], ys, r);
      Associate([s[0]], s[1..], Inserted(u, r));
      CutAndJoin(s, 1);
      assert s[..1] == [s[0]];
    }
  }

  lemma {:induction false} LeadsKeep(n: nat, u: seq<OpCode>, d: Doc, r: Doc)
    requires n <= |d| && Leads(u, d[n..], r)
    ensures Leads(Units(Keep, n) + u, d, d[..n] + r)
    ensures Inserted(Units(Keep, n) + u, d[..n] + r) == Inserted(u, r)
  {
    var v, x := Units(Keep, n) + u, d[..n] + r;
    if n == 0 {
      assert v == u && x == r;
    } else {
      assert d[1..][n - 1..] == d[n..];
      LeadsKeep(n - 1, u, d[1..], r);
      assert v[1..] == Units(Keep, n - 1) + u && x[1..] == d[1..][..n - 1] + r;
    }
  }

  lemma {:induction false} LeadsDelete(n: nat, u: seq<OpCode>, d: Doc, r: Doc)
    requires n <= |d| && Leads(u, d[n..], r)
    ensures Leads(Units(Delete, n) + u, d, r)
    ensures Inserted(Units(Delete, n) + u, r) == Inserted(u, r)
  {
    var v := Units(Delete, n) + u;
    if n == 0 {
      assert v == u;
    } else {
      assert d[1..][n - 1..] == d[n..];
      LeadsDelete(n - 1, u, d[1..], r);
      assert v[1..] == Units(Delete, n - 1) + u;
    }
  }

  /** What operations produce is what their single steps lead to. */
  lemma {:induction false} ProducesLeads(ops: seq<Op>, bank: string, d: Doc, r: Doc)
    requires Produces(Ignore(true), ops, bank, d, r)
    ensures Leads(Explode(ops), d, r) && Inserted(Explode(ops), r) == bank
  {
    hide Newlines, Clean, Text, Fresh, Restyle, Leads, Inserted, Units;
    if ops == [] {
      assert [] + d == d;
      LeadsNothing(d);
    } else {
      var op := ops[0];
      var e, r' := UnfoldProduces(Ignore(true), ops, bank, d, r);
      ProducesLeads(ops[1..], e.bank, e.doc, r');
      var u := Explode(ops[1..]);
      if op.code == Insert {
        LeadsInsert(op.attribs, bank[..op.chars], u, d, r');
        assert bank[..op.chars] + bank[op.chars..] == bank;
      } else if op.code == Keep {
        RestyleIgnored(true, op.attribs, d[..op.chars]);
        LeadsKeep(op.chars, u, d, r');
      } else {
        LeadsDelete(op.chars, u, d, r');
        assert [] + r' == r';
      }
    }
  }

  lemma {:induction false} LeadsNothing(d: Doc)
    ensures Leads([], d, d) && Inserted([], d) == ""
  {}

  // ----- the steps are determined by what they lead to -----

  /** No deletion right after an insertion, and no keep at the end. */
  predicate Ordered(u: seq<OpCode>) {
    && (forall i :: 0 < i < |u| ==> !(u[i - 1] == Insert && u[i] == Delete))
    && (u != [] ==> u[|u| - 1] != Keep)
  }

  /** Marked cells of the result come from the document. */
  lemma {:induction false} MarkedSource(u: seq<OpCode>, d: Doc, r: Doc, x: Cell)
    requires Leads(u, d, r) && x in r && x.attrs != map[]
    ensures x in d
  {
    if u != [] {
      var d' := if u[0] == Insert then d else d[1..];
      var r' := if u[0] == Delete then r else r[1..];
      if x in r' {
        MarkedSource(u[1..], d', r', x);
      } else {
        assert r == [r[0]] + r[1..];
      }
    }
  }

  /** The first cell of the document survives steps that start with insertions, or with none. */
  lemma {:induction false} FirstSurvives(u: seq<OpCode>, d: Doc, r: Doc)
    requires Leads(u, d, r) && Ordered(u) && d != [] && (u == [] || u[0] != Delete)
    ensures d[0] in r
  {
    if u != [] && u[0] == Insert {
      assert Ordered(u[1..]);
      assert |u| > 1 ==> u[1] != Delete;
      FirstSurvives(u[1..], d, r[1..]);
    }
  }

  lemma {:induction false} StepsUnique(u: seq<OpCode>, v: seq<OpCode>, d: Doc, r: Doc)
    requires Marked(d) && Leads(u, d, r) && Leads(v, d, r) && Ordered(u) && Ordered(v)
    ensures u == v
    decreases |u| + |v|
  {
    if u == [] && v == [] {
    } else if u == [] || (v != [] && v[0] == Delete && u[0] != Delete) {
      StepsClash(v, u, d, r);
    } else if v == [] || (u[0] == Delete && v[0] != Delete) {
      StepsClash(u, v, d, r);
    } else {
      assert u[0] == v[0];
      assert Ordered(u[1..]) && Ordered(v[1..]);
      assert Marked(if u[0] == Insert then d else d[1..]);
      StepsUnique(u[1..], v[1..], if u[0] == Insert then d else d[1..], if u[0] == Delete then r else r[1..]);
      hide Leads, Marked, Ordered;
      assert u == [u[0]] + u[1..] && v == [v[0]] + v[1..];
    }
  }

  /** Two different beginnings cannot lead to one result. */
  lemma {:induction false} StepsClash(u: seq<OpCode>, v: seq<OpCode>, d: Doc, r: Doc)
    requires Marked(d) && Leads(u, d, r) && Leads(v, d, r) && Ordered(u) && Ordered(v)
    requires u != [] && (v == [] || (u[0] == Delete && v[0] != Delete))
    ensures false
    decreases |u|
  {
    if u[0] == Delete {
      FirstSurvives(v, d, r);
      MarkedSource(u[1..], d[1..], r, d[0]);
    } else if u[0] == Keep {
      assert Ordered(u[1..]) && Marked(d[1..]) && u[1..] != [];
      StepsClash(u[1..], [], d[1..], r[1..]);
    }
  }

  // ----- the grouping of the steps is determined by the texts -----

  predicate NoAttribs(ops: seq<Op>) { forall i :: 0 <= i < |ops| ==> ops[i].attribs == "" }

  /** The text that operations with code `c` read next. */
  function Source(c: OpCode, bank: string, d: Doc): string { if c == Insert then bank else Text(d) }

  /** A first operation that runs strictly covers a clean part of its source. */
  lemma {:induction false} CoversClean(op: Op, bank: string, d: Doc)
    requires RunOp(Ignore(true), op, bank, d).Some?
    ensures op.chars <= |Source(op.code, bank, d)|
    ensures var s := Source(op.code, bank, d)[..op.chars]; op.lines == Newlines(s) && Clean(s)
    ensures var e := RunOp(Ignore(true), op, bank, d).value;
            Source(op.code, e.bank, e.doc) == Source(op.code, bank, d)[op.chars..]
  {
    hide Newlines, Clean, Text, Fresh, Restyle;
    if op.code != Insert { TextSplit(d, op.chars); }
  }

  lemma {:induction false} NoNewline(s: string, i: nat)
    requires i < |s| && Newlines(s) == 0
    ensures s[i] != '\n'
  {
    NewlinesBound(s);
  }

  lemma {:induction false} ExplodeAt(ops: seq<Op>, k: nat)
    requires ops != [] && k == ops[0].chars < |Explode(ops)|
    requires forall i :: 0 <= i < |ops| ==> ops[i].chars > 0
    ensures |ops| > 1 && ops[1].code == Explode(ops)[k]
    ensures Explode(ops)[k..] == Explode(ops[1..])
  {}

  /** The first operation of a canonical list is not shorter than that of another one with the same steps. */
  lemma {:induction false} HeadNotShorter(a: seq<Op>, b: seq<Op>, bank: string, d: Doc)
    requires Canonical(a) && Canonical(b) && NoAttribs(a) && NoAttribs(b) && Explode(a) == Explode(b)
    requires Run(Ignore(true), a, bank, d).Some? && Run(Ignore(true), b, bank, d).Some?
    requires a != [] && b != []
    ensures a[0].chars >= b[0].chars
  {
    if a[0].chars < b[0].chars {
      hide Newlines, Clean, RunOp;
      var n, m := a[0].chars, b[0].chars;
      var u := Explode(a);
      ExplodeHead(a);
      ExplodeHead(b);
      assert u[0] == a[0].code && forall i :: 0 <= i < m ==> u[i] == b[0].code;
      RunOfTwo(a, m);
      CoversClean(b[0], bank, d);
      CoversClean(a[0], bank, d);
      var e := RunOp(Ignore(true), a[0], bank, d).value;
      CoversClean(a[1], e.bank, e.doc);
      RunEndsPlain(n, a[1].chars, m, Source(b[0].code, bank, d));
    }
  }

  lemma {:induction false} ExplodeHead(ops: seq<Op>)
    requires ops != []
    ensures |Explode(ops)| >= ops[0].chars
    ensures forall i :: 0 <= i < ops[0].chars ==> Explode(ops)[i] == ops[0].code
  {}

  /** In a canonical list only two operations can stand in a run of one code: one with newlines, one without. */
  lemma {:induction false} RunOfTwo(a: seq<Op>, m: nat)
    requires Canonical(a) && NoAttribs(a) && a != []
    requires a[0].chars < m <= |Explode(a)| && forall i :: 0 <= i < m ==> Explode(a)[i] == a[0].code
    ensures |a| > 1 && a[1].code == a[0].code && a[0].lines > 0 && a[1].lines == 0
    ensures m <= a[0].chars + a[1].chars
  {
    hide Explode;
    var n := a[0].chars;
    ExplodeAt(a, n);
    assert MayFollow(a[0], a[1]);
    var k := a[1].chars;
    if m > n + k {
      assert Explode(a)[n..][k] == Explode(a)[n + k];
      ExplodeAt(a[1..], k);
    }
  }

  /** So an operation over such a run cannot end with a newline. */
  lemma {:induction false} RunEndsPlain(n: nat, k: nat, m: nat, t: string)
    requires n < m <= n + k <= |t| && Newlines(t[..n]) > 0 && Newlines(t[n..][..k]) == 0
    ensures !Clean(t[..m])
  {
    NewlinesSplit(t[..m], n);
    assert t[..m][..n] == t[..n];
    assert t[n..][..k][m - 1 - n] == t[m - 1];
    NoNewline(t[n..][..k], m - 1 - n);
  }

  lemma {:induction false} GroupingUnique(a: seq<Op>, b: seq<Op>, bank: string, d: Doc)
    requires Canonical(a) && Canonical(b) && NoAttribs(a) && NoAttribs(b) && Explode(a) == Explode(b)
    requires Run(Ignore(true), a, bank, d).Some? && Run(Ignore(true), b, bank, d).Some?
    ensures a == b
  {
    hide RunOp;
    if a == [] {
    } else {
      ExplodeHead(a);
      assert b != [];
      ExplodeHead(b);
      HeadNotShorter(a, b, bank, d);
      HeadNotShorter(b, a, bank, d);
      assert a[0].code == Explode(a)[0] == b[0].code;
      CoversClean(a[0], bank, d);
      CoversClean(b[0], bank, d);
      assert a[0] == b[0];
      assert Explode(a[1..]) == Explode(a)[a[0].chars..] == Explode(b)[a[0].chars..] == Explode(b[1..]);
      CanonicalTail(a);
      CanonicalTail(b);
      var e := RunOp(Ignore(true), a[0], bank, d).value;
      GroupingUnique(a[1..], b[1..], e.bank, e.doc);
      assert a == [a[0]] + a[1..] && b == [b[0]] + b[1..];
    }
  }

  lemma {:induction false} CanonicalTail(ops: seq<Op>)
    requires Canonical(ops) && ops != []
    ensures Canonical(ops[1..])
  {
    hide MayFollow;
    forall i | 0 < i < |ops[1..]| ensures MayFollow(ops[1..][i - 1], ops[1..][i]) {
      assert MayFollow(ops[i], ops[i + 1]);
    }
  }

  // ----- normal forms are determined by their meaning -----

  lemma {:induction false} NormalOrdered(ops: seq<Op>)
    requires Normal(ops) && NoAttribs(ops)
    ensures Ordered(Explode(ops))
  {
    if ops != [] {
      CanonicalTail(ops);
      assert Normal(ops[1..]);
      NormalOrdered(ops[1..]);
      var u, v := Units(ops[0].code, ops[0].chars), Explode(ops[1..]);
      if |ops| > 1 {
        assert MayFollow(ops[0], ops[1]);
        assert v[0] == ops[1].code by { ExplodeHead(ops[1..]); }
      } else {
        assert u + v == u;
      }
    }
  }

  /** Two attribute-free normal changesets with one meaning are one changeset. */
  lemma {:induction false} NormalFormUnique(a: seq<Op>, bankA: string, b: seq<Op>, bankB: string, d: Doc, r: Doc)
    requires Marked(d) && NoAttribs(a) && NoAttribs(b) && Normal(a) && Normal(b)
    requires Produces(Ignore(true), a, bankA, d, r) && Produces(Ignore(true), b, bankB, d, r)
    ensures a == b && bankA == bankB
  {
    hide RunOp, Explode, Marked, Ordered, Leads, Canonical;
    ProducesLeads(a, bankA, d, r);
    ProducesLeads(b, bankB, d, r);
    NormalOrdered(a);
    NormalOrdered(b);
    StepsUnique(Explode(a), Explode(b), d, r);
    GroupingUnique(a, b, bankA, d);
  }

  // ----- composition is associative -----

  lemma {:induction false} SliceNoAttribs(op1: Op, op2: Op, pool: Pool)
    requires op1.attribs == "" && op2.attribs == "" && Zip.Slicer(op1, op2, pool).Ok?
    ensures var s := Zip.Slicer(op1, op2, pool).value; s.out.attribs == "" && s.att.attribs == "" && s.cs.attribs == ""
  {}

  lemma {:induction false} ZipNoAttribs(ops1: seq<Op>, ops2: seq<Op>, bank1: string, bank2: string, pool: Pool)
    requires NoAttribs(ops1) && NoAttribs(ops2) && Zip.ComposeZip(ops1, ops2, bank1, bank2, pool).Ok?
    ensures NoAttribs(Zip.ComposeZip(ops1, ops2, bank1, bank2, pool).value.ops)
    decreases |ops1| + |ops2|
  {
    if !(ops1 == [] && ops2 == []) {
      var op1, op2 := Zip.First(ops1), Zip.First(ops2);
      var s := Zip.Slicer(op1, op2, pool).value;
      SliceNoAttribs(op1, op2, pool);
      BehindNoAttribs(s.att, ops1);
      BehindNoAttribs(s.cs, ops2);
      hide Zip.Slicer, Zip.Draw, NoAttribs;
      var skip := if op1.code == Insert && op2.code == Delete then Min(op1.chars, op2.chars) else 0;
      var d := Zip.Draw(s.out, op2, bank1[skip..], bank2).value;
      ZipNoAttribs(Zip.Behind(s.att, ops1), Zip.Behind(s.cs, ops2), d.bank1, d.bank2, s.pool);
      var z := Zip.ComposeZip(Zip.Behind(s.att, ops1), Zip.Behind(s.cs, ops2), d.bank1, d.bank2, s.pool).value;
      EmitNoAttribs(s.out, z.ops);
    } else {
      assert NoAttribs([]);
    }
  }

  lemma {:induction false} BehindNoAttribs(op: Op, ops: seq<Op>)
    requires op.attribs == "" && NoAttribs(ops)
    ensures NoAttribs(Zip.Behind(op, ops))
  {}

  lemma {:induction false} EmitNoAttribs(op: Op, ops: seq<Op>)
    requires op.attribs == "" && NoAttribs(ops)
    ensures NoAttribs(Zip.Emit(op) + ops)
  {}

  /** A well-formed changeset runs on every document with the same text. */
  lemma {:induction false} RunsOnDoc(cs: string, text: string, d: Doc) returns (d': Doc)
    requires WellFormed(cs, text) && Text(d) == text
    ensures Apply(Ignore(true), OpsOf(cs), Unpack(cs).bank, d) == Some(d') && Text(d') == After(cs, text)
  {
    hide Run, Unpack, CheckRep, Plain, ApplyToText;
    WellFormedProduces(cs, text);
    PlainText(text);
    PlainText(After(cs, text));
    SameText(Ignore(true), Ignore(true), OpsOf(cs), Unpack(cs).bank, Plain(text), d);
    var e := Run(Ignore(true), OpsOf(cs), Unpack(cs).bank, d).value;
    d' := e.out + e.doc;
    TextConcat(e.out, e.doc);
    var f := Run(Ignore(true), OpsOf(cs), Unpack(cs).bank, Plain(text)).value;
    TextConcat(f.out, f.doc);
  }

  /** What a composed attribute-free changeset is made of, and what it makes of a document. */
  lemma {:induction false} ComposedParts(cs1: string, cs2: string, pool: Pool, text: string, d: Doc, d1: Doc, d2: Doc)
    requires WellFormed(cs1, text) && WellFormed(cs2, After(cs1, text))
    requires NoAttribs(OpsOf(cs1)) && NoAttribs(OpsOf(cs2))
    requires Apply(Ignore(true), OpsOf(cs1), Unpack(cs1).bank, d) == Some(d1)
    requires Apply(Ignore(true), OpsOf(cs2), Unpack(cs2).bank, d1) == Some(d2)
    ensures Compose(cs1, cs2, pool).Ok?
    ensures var cs := Compose(cs1, cs2, pool).value.0;
            && WellFormed(cs, text) && After(cs, text) == After(cs2, After(cs1, text))
            && NoAttribs(OpsOf(cs)) && Normal(OpsOf(cs))
            && Produces(Ignore(true), OpsOf(cs), Unpack(cs).bank, d, d2)
            && cs == Pack(Unpack(cs1).oldLen, Unpack(cs2).newLen, Serialize(OpsOf(cs)), Unpack(cs).bank)
            && Unpack(cs).oldLen == Unpack(cs1).oldLen && Unpack(cs).newLen == Unpack(cs2).newLen
  {
    hide Run, Unpack, Deserialize, Plain, ApplyToText, Zip.ComposeZip, Assemble, Serialize, Pack, CheckRep, Canonical,
         Compose, AttribText;
    ComposeWellFormed(cs1, cs2, pool, text);
    WellFormedProduces(cs1, text);
    CheckRepRegular(cs1);
    CheckRepRegular(cs2);
    var z := ComposedProduces(Ignore(true), cs1, cs2, pool, d, d1, d2);
    ZipNoAttribs(OpsOf(cs1), OpsOf(cs2), Unpack(cs1).bank, Unpack(cs2).bank, pool);
    AssembleAttribs((_, a) => a == "", z.ops);
    NormalPrintable(Assemble(z.ops));
    PrintParse(Unpack(cs1).oldLen, Unpack(cs2).newLen, Assemble(z.ops), z.bank);
  }

  /** Composition is associative: both bracketings give the same changeset string. */
  lemma {:induction false} ComposeAssociative(cs1: string, cs2: string, cs3: string, pool: Pool, text: string)
    requires WellFormed(cs1, text) && WellFormed(cs2, After(cs1, text)) && WellFormed(cs3, After(cs2, After(cs1, text)))
    requires NoAttribs(OpsOf(cs1)) && NoAttribs(OpsOf(cs2)) && NoAttribs(OpsOf(cs3))
    ensures Compose(cs1, cs2, pool).Ok? && Compose(cs2, cs3, pool).Ok?
    ensures var l := Compose(Compose(cs1, cs2, pool).value.0, cs3, pool);
            var r := Compose(cs1, Compose(cs2, cs3, pool).value.0, pool);
            l.Ok? && r.Ok? && l.value.0 == r.value.0
  {
    hide Run, Unpack, WellFormed, Pack, Serialize, Compose, NoAttribs, Normal, Marked, OpsOf, After;
    MarkMarked(text);
    var d := Mark(text, 0);
    var d1 := RunsOnDoc(cs1, text, d);
    var d2 := RunsOnDoc(cs2, After(cs1, text), d1);
    var d3 := RunsOnDoc(cs3, After(cs2, After(cs1, text)), d2);
    ComposedParts(cs1, cs2, pool, text, d, d1, d2);
    ComposedParts(cs2, cs3, pool, After(cs1, text), d1, d2, d3);
    var c12, c23 := Compose(cs1, cs2, pool).value.0, Compose(cs2, cs3, pool).value.0;
    ComposedParts(c12, cs3, pool, text, d, d2, d3);
    ComposedParts(cs1, c23, pool, text, d, d1, d3);
    var l, r := Compose(c12, cs3, pool).value.0, Compose(cs1, c23, pool).value.0;
    NormalFormUnique(OpsOf(l), Unpack(l).bank, OpsOf(r), Unpack(r).bank, d, d3);
  }
}
