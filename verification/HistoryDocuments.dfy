/**
  Documents with attribute strings, read through a pool: a changeset does to what the strings mean what it does to the
  strings.
 */
module HistoryDocuments {
  import opened Basics
  import opened Pools
  import opened Attributes
  import opened Ops
  import opened Syntax
  import opened Changesets
  import opened Rebasing
  import opened Algebra
  import opened AttributedText
  import opened Lines
  import opened UndoAttributes
  import opened Inversion
  import opened InverseLaws
  import opened SentDocuments
  import Zip = Composition
  import opened Assemblers
  import opened TextMutation
  import Attributions
  import AttributionMutators

  /** The document with the attributes that its strings name in the pool. */
  function Meant(pool: Pool, d: Doc): (r: Doc)
    ensures |r| == |d| && Text(r) == Text(d)
  {
    if d == [] then [] else [MeantCell(pool, d[0])] + Meant(pool, d[1..])
  }

  function MeantCell(pool: Pool, x: Cell): Cell {
    Cell(x.c, if "" in x.attrs then FromString(x.attrs[""], pool) else map[])
  }

  /** Every cell carries an attribute string that the pool knows. */
  ghost predicate CellsKnown(d: Doc, pool: Pool) {
    forall i :: 0 <= i < |d| ==> "" in d[i].attrs && Resolved(d[i].attrs[""], pool)
  }

  lemma {:induction false} MeantConcat(pool: Pool, a: Doc, b: Doc)
    ensures Meant(pool, a + b) == Meant(pool, a) + Meant(pool, b)
    ensures CellsKnown(a + b, pool) <==> CellsKnown(a, pool) && CellsKnown(b, pool)
  {
    hide MeantCell, Text, Resolved;
    KnownConcat(pool, a, b);
    hide CellsKnown;
    if a == [] {
      assert a + b == b;
    } else {
      MeantConcat(pool, a[1..], b);
      assert (a + b)[0] == a[0] && (a + b)[1..] == a[1..] + b;
      Associate([MeantCell(pool, a[0])], Meant(pool, a[1..]), Meant(pool, b));
    }
  }

  lemma {:induction false} KnownConcat(pool: Pool, a: Doc, b: Doc)
    ensures CellsKnown(a + b, pool) <==> CellsKnown(a, pool) && CellsKnown(b, pool)
  {
    hide Resolved;
    if CellsKnown(a + b, pool) {
      forall i | 0 <= i < |a| ensures "" in a[i].attrs && Resolved(a[i].attrs[""], pool) { assert (a + b)[i] == a[i]; }
      forall i | 0 <= i < |b| ensures "" in b[i].attrs && Resolved(b[i].attrs[""], pool) {
        assert (a + b)[|a| + i] == b[i];
      }
    }
  }

  lemma {:induction false} MeantSlices(pool: Pool, d: Doc, n: nat)
    requires n <= |d|
    ensures Meant(pool, d[..n]) == Meant(pool, d)[..n] && Meant(pool, d[n..]) == Meant(pool, d)[n..]
    ensures CellsKnown(d, pool) ==> CellsKnown(d[..n], pool) && CellsKnown(d[n..], pool)
  {
    hide Meant, CellsKnown;
    CutAndJoin(d, n);
    MeantConcat(pool, d[..n], d[n..]);
    JoinAndCut(Meant(pool, d[..n]), Meant(pool, d[n..]));
  }

  /** A composed attribute string names what its two parts name. */
  lemma {:induction false} ComposedResolved(a1: string, a2: string, mutation: bool, pool: Pool)
    requires Good(pool) && Resolved(a1, pool) && Resolved(a2, pool)
    ensures Resolved(ComposeAttributes(a1, a2, mutation, pool).0, pool)
  {
    hide Resolved, AttribString;
    if !(a1 == "" && mutation) && a2 != "" {
      var e1, e2 := AttribsFromString(a1, pool), AttribsFromString(a2, pool);
      UpdateCovered(map[], e1, false, pool);
      UpdateCovered(Update(map[], e1, false), e2, !mutation, pool);
      NumbersResolved(Update(Update(map[], e1, false), e2, !mutation), pool);
    }
  }

  lemma {:induction false} MeantFresh(pool: Pool, a: string, s: string)
    ensures Meant(pool, Fresh(Verbatim(true, pool), a, s)) == Fresh(In(false, pool), a, s)
    ensures Resolved(a, pool) ==> CellsKnown(Fresh(Verbatim(true, pool), a, s), pool)
  {
    hide Resolved, FromString;
    if s != "" {
      var x, rest := Cell(s[0], map["" := a]), Fresh(Verbatim(true, pool), a, s[1..]);
      MeantFresh(pool, a, s[1..]);
      MeantConcat(pool, [x], rest);
      MeantOne(pool, x);
    }
  }

  lemma {:induction false} MeantOne(pool: Pool, x: Cell)
    ensures Meant(pool, [x]) == [MeantCell(pool, x)]
    ensures CellsKnown([x], pool) <==> "" in x.attrs && Resolved(x.attrs[""], pool)
  {
    hide Resolved, MeantCell;
    assert [x][0] == x && [x][1..] == [];
  }

  lemma {:induction false} MeantChange(pool: Pool, a: string, x: Cell)
    requires Good(pool) && Resolved(a, pool) && "" in x.attrs && Resolved(x.attrs[""], pool)
    ensures var y := Cell(x.c, Mutate(Verbatim(true, pool), x.attrs, a));
            && MeantCell(pool, y) == Cell(x.c, Mutate(In(false, pool), MeantCell(pool, x).attrs, a))
            && "" in y.attrs && Resolved(y.attrs[""], pool)
  {
    hide Resolved, FromString, UpdateFromString, ComposeAttributes, Good;
    ComposeAttributesMap(x.attrs[""], a, false, pool);
    ComposedResolved(x.attrs[""], a, false, pool);
  }

  lemma {:induction false} MeantRestyle(pool: Pool, a: string, d: Doc)
    requires Good(pool) && Resolved(a, pool) && CellsKnown(d, pool)
    ensures Meant(pool, Restyle(Verbatim(true, pool), a, d)) == Restyle(In(false, pool), a, Meant(pool, d))
    ensures CellsKnown(Restyle(Verbatim(true, pool), a, d), pool)
  {
    hide Resolved, Good, Mutate, MeantCell, Text;
    if d != [] {
      var y := Cell(d[0].c, Mutate(Verbatim(true, pool), d[0].attrs, a));
      var rest := Restyle(Verbatim(true, pool), a, d[1..]);
      assert CellsKnown(d[1..], pool);
      MeantRestyle(pool, a, d[1..]);
      MeantChange(pool, a, d[0]);
      MeantOne(pool, y);
      MeantConcat(pool, [y], rest);
      MeantFirst(pool, d);
      hide CellsKnown;
    }
  }

  lemma {:induction false} MeantFirst(pool: Pool, d: Doc)
    requires d != []
    ensures Meant(pool, d)[0] == MeantCell(pool, d[0]) && Meant(pool, d)[1..] == Meant(pool, d[1..])
    ensures Meant(pool, d)[0].c == d[0].c
  {}

  // ----- runs -----

  lemma {:induction false} MeantRunOp(pool: Pool, op: Op, bank: string, d: Doc)
    requires Good(pool) && Resolved(op.attribs, pool) && CellsKnown(d, pool)
    requires RunOp(Verbatim(true, pool), op, bank, d).Some?
    ensures var e := RunOp(Verbatim(true, pool), op, bank, d).value;
            && RunOp(In(false, pool), op, bank, Meant(pool, d)) ==
               Some(Effect(Meant(pool, e.out), e.bank, Meant(pool, e.doc)))
            && CellsKnown(e.out, pool) && CellsKnown(e.doc, pool)
  {
    hide Newlines, Clean, Text, Fresh, Restyle, Resolved, Good;
    var n := op.chars;
    if op.code == Insert {
      MeantFresh(pool, op.attribs, bank[..n]);
    } else {
      MeantSlices(pool, d, n);
      if op.code == Keep { MeantRestyle(pool, op.attribs, d[..n]); }
    }
    hide CellsKnown;
    assert CellsKnown([], pool) by { KnownNothing(pool); }
  }

  lemma {:induction false} KnownNothing(pool: Pool)
    ensures CellsKnown([], pool)
  {}

  /** A run on attribute strings is a run on what they mean. */
  lemma {:induction false} MeantRun(pool: Pool, ops: seq<Op>, bank: string, d: Doc)
    requires Good(pool) && OpsResolved(ops, pool) && CellsKnown(d, pool)
    requires Run(Verbatim(true, pool), ops, bank, d).Some?
    ensures var e := Run(Verbatim(true, pool), ops, bank, d).value;
            && Run(In(false, pool), ops, bank, Meant(pool, d)) ==
               Some(Effect(Meant(pool, e.out), e.bank, Meant(pool, e.doc)))
            && CellsKnown(e.out, pool) && CellsKnown(e.doc, pool)
    decreases |ops|
  {
    hide RunOp, Resolved, Good, CellsKnown, Meant;
    if ops == [] {
      KnownNothing(pool);
      assert Meant(pool, []) == [];
    } else {
      MeantRunOp(pool, ops[0], bank, d);
      var e := RunOp(Verbatim(true, pool), ops[0], bank, d).value;
      RunFirst(Verbatim(true, pool), ops, bank, d);
      RunFirst(In(false, pool), ops, bank, Meant(pool, d));
      MeantRun(pool, ops[1..], e.bank, e.doc);
      hide Run, OpsResolved;
      MeantConcat(pool, e.out, Run(Verbatim(true, pool), ops[1..], e.bank, e.doc).value.out);
    }
  }

  /** What a changeset does to attribute strings it does to what they mean. */
  lemma {:induction false} MeantAfter(pool: Pool, cs: string, d: Doc, d': Doc)
    requires Good(pool) && AttribsResolved(cs, pool) && CellsKnown(d, pool)
    requires AttributionMutators.AfterVerbatim(pool, cs, d) == Some(d')
    ensures AfterDoc(pool, cs, Meant(pool, d)) == Some(Meant(pool, d')) && CellsKnown(d', pool)
  {
    hide Run, Resolved, Good, CellsKnown, Meant, OpsOf, Unpack;
    MeantRun(pool, OpsOf(cs), Unpack(cs).bank, d);
    var e := Run(Verbatim(true, pool), OpsOf(cs), Unpack(cs).bank, d).value;
    MeantConcat(pool, e.out, e.doc);
  }

  // ----- larger pools, attribution lines -----

  lemma {:induction false} MeantLater(p: Pool, q: Pool, d: Doc)
    requires CellsKnown(d, p) && Extends(p, q)
    ensures CellsKnown(d, q) && Meant(q, d) == Meant(p, d)
  {
    hide Resolved, FromString, Text;
    forall i | 0 <= i < |d| ensures "" in d[i].attrs && Resolved(d[i].attrs[""], q) {
      MeaningExtends(d[i].attrs[""], p, q);
    }
    if d != [] {
      assert CellsKnown(d[1..], p);
      MeantLater(p, q, d[1..]);
      MeaningExtends(d[0].attrs[""], p, q);
    }
  }

  /** The cells of a document carry the attribute strings of its runs. */
  lemma {:induction false} RunsKnown(pool: Pool, att: seq<Op>, t: string, d: Doc)
    requires Attributions.Inserts(att) && Produces(Verbatim(true, pool), att, t, [], d)
    ensures CellsKnown(d, pool) <==> OpsResolved(att, pool)
    decreases |att|
  {
    hide Resolved, Text, Newlines, Clean, Fresh, Run;
    if att == [] {
      NothingProduced(Verbatim(true, pool), t, d);
    } else {
      var e, d' := UnfoldProduces(Verbatim(true, pool), att, t, [], d);
      assert Attributions.Inserts(att[1..]);
      RunsKnown(pool, att[1..], e.bank, d');
      KnownConcat(pool, e.out, d');
      FreshKnown(pool, att[0].attribs, t[..att[0].chars]);
      hide CellsKnown;
      FirstResolved(att, pool);
    }
  }

  lemma {:induction false} FirstResolved(ops: seq<Op>, pool: Pool)
    requires ops != []
    ensures OpsResolved(ops, pool) <==> Resolved(ops[0].attribs, pool) && OpsResolved(ops[1..], pool)
  {
    hide Resolved;
    if Resolved(ops[0].attribs, pool) && OpsResolved(ops[1..], pool) {
      forall i | 0 <= i < |ops| ensures Resolved(ops[i].attribs, pool) {
        if i > 0 { assert ops[i] == ops[1..][i - 1]; }
      }
    }
  }

  lemma {:induction false} FreshKnown(pool: Pool, a: string, s: string)
    requires s != ""
    ensures CellsKnown(Fresh(Verbatim(true, pool), a, s), pool) <==> Resolved(a, pool)
  {
    hide Resolved;
    MeantFresh(pool, a, s);
    assert Fresh(Verbatim(true, pool), a, s)[0].attrs == map["" := a];
  }

  /** The attribution lines name what the pool knows exactly if the cells do; and they produce what the cells mean. */
  lemma {:induction false} LinesKnown(pool: Pool, alines: seq<string>, lines: seq<string>, ls: seq<seq<Op>>, d: Doc)
    requires Attributions.LineAttributes(pool, alines, lines, ls, d)
    ensures NamedAttribution(alines, pool) <==> CellsKnown(d, pool)
    ensures Good(pool) && CellsKnown(d, pool) ==>
              Produces(In(false, pool), Flatten(alines), Join(lines), [], Meant(pool, d))
  {
    hide Resolved, Run, Good, Flatten, Join, CellsKnown, Attributions.LineAttributes, Attributions.Inserts, Meant;
    var att := Flatten(alines);
    AttributionMutators.FlattenLines(pool, alines, lines, ls, d);
    RunsKnown(pool, att, Join(lines), d);
    NamedResolved(att, pool);
    if Good(pool) && CellsKnown(d, pool) {
      KnownNothing(pool);
      MeantRun(pool, att, Join(lines), []);
      assert Meant(pool, []) == [];
      var e := Run(Verbatim(true, pool), att, Join(lines), []).value;
      MeantConcat(pool, e.out, e.doc);
    }
  }

  lemma {:induction false} NamedResolved(att: seq<Op>, pool: Pool)
    ensures RunsNamed(In(true, pool), att, pool) <==> OpsResolved(att, pool)
  {
    hide Resolved;
    if RunsNamed(In(true, pool), att, pool) {
      forall i | 0 <= i < |att| ensures Resolved(att[i].attribs, pool) {
        assert Named(In(true, pool), att[i].attribs, pool);
      }
    }
  }

  // ----- compositions -----

  lemma {:induction false} SliceResolved(op1: Op, op2: Op, pool: Pool)
    requires Good(pool) && Resolved(op1.attribs, pool) && Resolved(op2.attribs, pool)
    requires Zip.Slicer(op1, op2, pool).Ok?
    ensures var s := Zip.Slicer(op1, op2, pool).value;
            s.pool == pool && Resolved(s.out.attribs, pool) && Resolved(s.att.attribs, pool)
            && Resolved(s.cs.attribs, pool)
  {
    hide Resolved, ComposeAttributes, Good;
    ComposeAttributesMap(op1.attribs, op2.attribs, op1.code == Keep, pool);
    ComposedResolved(op1.attribs, op2.attribs, op1.code == Keep, pool);
  }

  lemma {:induction false} BehindResolved(op: Op, ops: seq<Op>, pool: Pool)
    requires Resolved(op.attribs, pool) && OpsResolved(ops, pool)
    ensures OpsResolved(Zip.Behind(op, ops), pool) && OpsResolved(Zip.Emit(op) + ops, pool)
  {
    hide Resolved;
  }

  lemma {:induction false} ComposedOpsResolved(ops1: seq<Op>, ops2: seq<Op>, bank1: string, bank2: string, pool: Pool)
    requires Good(pool) && OpsResolved(ops1, pool) && OpsResolved(ops2, pool)
    requires Zip.ComposeZip(ops1, ops2, bank1, bank2, pool).Ok?
    ensures OpsResolved(Zip.ComposeZip(ops1, ops2, bank1, bank2, pool).value.ops, pool)
    decreases |ops1| + |ops2|
  {
    hide Resolved, Good;
    if !(ops1 == [] && ops2 == []) {
      EmptyResolved(pool);
      var op1, op2 := Zip.First(ops1), Zip.First(ops2);
      var s := Zip.Slicer(op1, op2, pool).value;
      SliceResolved(op1, op2, pool);
      BehindResolved(s.att, ops1, pool);
      BehindResolved(s.cs, ops2, pool);
      hide Zip.Slicer, Zip.Draw, OpsResolved;
      var skip := if op1.code == Insert && op2.code == Delete then Min(op1.chars, op2.chars) else 0;
      var d := Zip.Draw(s.out, op2, bank1[skip..], bank2).value;
      ComposedOpsResolved(Zip.Behind(s.att, ops1), Zip.Behind(s.cs, ops2), d.bank1, d.bank2, pool);
      var z := Zip.ComposeZip(Zip.Behind(s.att, ops1), Zip.Behind(s.cs, ops2), d.bank1, d.bank2, pool).value;
      BehindResolved(s.out, z.ops, pool);
    }
  }

  /** The operations of a composition. */
  lemma {:induction false} ComposedOps(cs1: string, cs2: string, pool: Pool, text: string) returns (z: Zip.Composed)
    requires WellFormed(cs1, text) && WellFormed(cs2, After(cs1, text)) && Good(pool)
    ensures Zip.ComposeZip(OpsOf(cs1), OpsOf(cs2), Unpack(cs1).bank, Unpack(cs2).bank, pool) == Ok(z)
    ensures Compose(cs1, cs2, pool).Ok? && OpsOf(Compose(cs1, cs2, pool).value.0) == Assemble(z.ops)
  {
    hide Run, Unpack, Deserialize, Plain, ApplyToText, Zip.ComposeZip, Assemble, Serialize, Pack, CheckRep, Canonical,
         Compose, AttribText, Good, WellFormed;
    ComposeWellFormed(cs1, cs2, pool, text);
    Applicable(cs1, text);
    Applicable(cs2, After(cs1, text));
    var d := Plain(text);
    PlainText(text);
    AfterDocText(pool, cs1, d);
    var d1 := AfterDoc(pool, cs1, d).value;
    AfterDocText(pool, cs2, d1);
    z := ComposedProduces(In(false, pool), cs1, cs2, pool, d, d1, AfterDoc(pool, cs2, d1).value);
    NormalPrintable(Assemble(z.ops));
    PrintParse(Unpack(cs1).oldLen, Unpack(cs2).newLen, Assemble(z.ops), z.bank);
  }

  /**
    A composition does to a document with attributes what its two changesets do to it one after the other, and names
    only attributes that the pool knows, if they do.
   */
  lemma {:induction false} ComposedDocument(cs1: string, cs2: string, pool: Pool, text: string, d: Doc)
    requires WellFormed(cs1, text) && WellFormed(cs2, After(cs1, text)) && Text(d) == text && Good(pool)
    ensures Compose(cs1, cs2, pool).Ok? && Compose(cs1, cs2, pool).value.1 == pool && AfterDoc(pool, cs1, d).Some?
    ensures var cs := Compose(cs1, cs2, pool).value.0;
            && AfterDoc(pool, cs, d) == AfterDoc(pool, cs2, AfterDoc(pool, cs1, d).value)
            && (AttribsResolved(cs1, pool) && AttribsResolved(cs2, pool) ==> AttribsResolved(cs, pool))
  {
    hide Run, Unpack, Deserialize, Plain, ApplyToText, Zip.ComposeZip, Assemble, Serialize, Pack, CheckRep, Canonical,
         Compose, AttribText, OpsResolved, Resolved, Good, WellFormed;
    ComposeWellFormed(cs1, cs2, pool, text);
    Applicable(cs1, text);
    Applicable(cs2, After(cs1, text));
    AfterDocText(pool, cs1, d);
    var d1 := AfterDoc(pool, cs1, d).value;
    AfterDocText(pool, cs2, d1);
    var r := AfterDoc(pool, cs2, d1).value;
    var z := ComposedProduces(In(false, pool), cs1, cs2, pool, d, d1, r);
    NormalPrintable(Assemble(z.ops));
    PrintParse(Unpack(cs1).oldLen, Unpack(cs2).newLen, Assemble(z.ops), z.bank);
    if AttribsResolved(cs1, pool) && AttribsResolved(cs2, pool) {
      ChangeResolved(cs1, pool);
      ChangeResolved(cs2, pool);
      ComposedOpsResolved(OpsOf(cs1), OpsOf(cs2), Unpack(cs1).bank, Unpack(cs2).bank, pool);
      AssembleResolved(z.ops, pool);
      ChangeResolved(Compose(cs1, cs2, pool).value.0, pool);
    }
  }

  lemma {:induction false} ChangeResolved(cs: string, pool: Pool)
    ensures AttribsResolved(cs, pool) <==> OpsResolved(OpsOf(cs), pool)
  {
    hide Resolved;
  }

  /** What a well-formed changeset gives its callers. */
  lemma {:induction false} Applicable(cs: string, text: string)
    requires WellFormed(cs, text)
    ensures ApplyToText(cs, text).Ok? && Deserialize(Unpack(cs).ops).Ok?
    ensures Unpack(cs).oldLen == |text| && Unpack(cs).newLen == |After(cs, text)|
  {
    hide Run, Unpack, Deserialize, Plain, ApplyToText, CheckRep, ApplyOps;
    WellFormedFits(cs, text);
    WellFormedProduces(cs, text);
  }
}
