/**
  The changesets of a history on documents with attributes: moved to the pool that is sent with them, they mean what
  they meant before.
 */
module SentDocuments {
  import opened Basics
  import opened Pools
  import opened Attributes
  import opened Ops
  import opened Syntax
  import opened Assemblers
  import opened Changesets
  import opened Rebasing
  import opened Algebra
  import opened AttributedText
  import opened Lines
  import opened UndoAttributes
  import opened Inversion
  import opened InverseLaws
  import opened PoolMoves
  import opened LineReaders
  import Numerals

  // ----- one changeset, two pools -----

  lemma {:induction false} TextScans(a: string)
    requires AttribText(a)
    ensures Scan(a).1
    decreases |a|
  {
    if a != [] {
      var k := 1 + Numerals.DigitRun(a[1..]);
      TextScans(a[k..]);
    }
  }

  lemma {:induction false} AllKnown(nums: seq<nat>, pool: Pool)
    requires Lookup(nums, pool).Some?
    ensures KnownOnes(nums, pool) == Lookup(nums, pool).value
  {
    if nums != [] { AllKnown(nums[1..], pool); }
  }

  /** The attribute strings mean the same, each in its pool. */
  ghost predicate SameMeaning(a: string, p: Pool, b: string, q: Pool) {
    AttribsFromString(a, p) == AttribsFromString(b, q)
  }

  lemma {:induction false} FreshSame(p: Pool, q: Pool, a: string, b: string, s: string)
    requires SameMeaning(a, p, b, q)
    ensures Fresh(In(false, p), a, s) == Fresh(In(false, q), b, s)
  {
    if s != "" { FreshSame(p, q, a, b, s[1..]); }
  }

  lemma {:induction false} RestyleSame(p: Pool, q: Pool, a: string, b: string, d: Doc)
    requires SameMeaning(a, p, b, q)
    ensures Restyle(In(false, p), a, d) == Restyle(In(false, q), b, d)
  {
    if d != [] { RestyleSame(p, q, a, b, d[1..]); }
  }

  lemma {:induction false} RunSame(p: Pool, q: Pool, a: seq<Op>, b: seq<Op>, bank: string, d: Doc)
    requires |a| == |b| && forall i :: 0 <= i < |a| ==> a[i] == b[i].(attribs := a[i].attribs)
    requires forall i :: 0 <= i < |a| ==> SameMeaning(a[i].attribs, p, b[i].attribs, q)
    ensures Run(In(false, p), a, bank, d) == Run(In(false, q), b, bank, d)
    decreases |a|
  {
    hide Newlines, Text, Clean, Fresh, Restyle, SameMeaning;
    if a != [] {
      var n := a[0].chars;
      assert SameMeaning(a[0].attribs, p, b[0].attribs, q);
      if a[0].code == Insert {
        if n <= |bank| {
          FreshSame(p, q, a[0].attribs, b[0].attribs, bank[..n]);
          RunSame(p, q, a[1..], b[1..], bank[n..], d);
        }
      } else if n <= |d| {
        RestyleSame(p, q, a[0].attribs, b[0].attribs, d[..n]);
        RunSame(p, q, a[1..], b[1..], bank, d[n..]);
      }
    }
  }

  /** A changeset moved to another pool does the same to every document, attributes included. */
  lemma {:induction false} MoveKeepsDocument(cs: string, from: Pool, to: Pool, later: Pool, d: Doc)
    requires CheckRep(cs).Ok? && to.Consistent() && AttribsResolved(cs, from)
    requires Extends(MoveOpsToNewPool(cs, from, to).1, later)
    ensures AfterDoc(later, MoveOpsToNewPool(cs, from, to).0, d) == AfterDoc(from, cs, d)
  {
    hide CheckRep, Unpack, Deserialize, Run, MoveOpsToNewPool, KnownOnes, Scan, Extends, AttribText, Serialize, Normal,
         Resolved, AttribsFromString, OpsOf;
    MoveKeepsMeaning(cs, from, to);
    CheckRepRegular(cs);
    var (m, q) := MoveOpsToNewPool(cs, from, to);
    var a, b := OpsOf(cs), OpsOf(m);
    forall i | 0 <= i < |a| ensures SameMeaning(b[i].attribs, later, a[i].attribs, from) {
      assert Printable(a[i]);
      OneMoved(a[i].attribs, from, b[i].attribs, q, later);
    }
    RunSame(later, from, b, a, Unpack(cs).bank, d);
  }

  lemma {:induction false} OneMoved(a: string, from: Pool, b: string, q: Pool, later: Pool)
    requires AttribText(a) && Resolved(a, from) && Resolved(b, q) && Extends(q, later)
    requires AttribsFromString(b, q) == KnownOnes(Scan(a).0, from)
    ensures SameMeaning(b, later, a, from)
  {
    hide Scan, KnownOnes, Extends;
    TextScans(a);
    AllKnown(Scan(a).0, from);
    MeaningExtends(b, q, later);
  }

  // ----- the attributes of the undo -----

  predicate StretchesResolved(ss: seq<Stretch>, pool: Pool) {
    forall i :: 0 <= i < |ss| ==> Resolved(ss[i].attribs, pool)
  }

  predicate OpsResolved(ops: seq<Op>, pool: Pool) { forall i :: 0 <= i < |ops| ==> Resolved(ops[i].attribs, pool) }

  lemma {:induction false} ResolvedLater(ops: seq<Op>, p: Pool, q: Pool)
    requires OpsResolved(ops, p) && Extends(p, q)
    ensures OpsResolved(ops, q)
  {
    hide Resolved, Extends;
    forall i | 0 <= i < |ops| ensures Resolved(ops[i].attribs, q) { MeaningExtends(ops[i].attribs, p, q); }
  }

  lemma {:induction false} ResolvedConcat(a: seq<Op>, b: seq<Op>, pool: Pool)
    requires OpsResolved(a, pool) && OpsResolved(b, pool)
    ensures OpsResolved(a + b, pool)
  {
    hide Resolved;
  }

  lemma {:induction false} TakenResolved(att: seq<Op>, n: nat, pool: Pool)
    requires OpsResolved(att, pool)
    ensures StretchesResolved(TakeRuns(att, n).taken, pool) && OpsResolved(TakeRuns(att, n).rest, pool)
    decreases |att|
  {
    hide Resolved;
    if n > 0 && att != [] && n >= att[0].chars { TakenResolved(att[1..], n - att[0].chars, pool); }
  }

  lemma {:induction false} UndoDeleteResolved(ss: seq<Stretch>, text: string, pool: Pool)
    requires StretchesResolved(ss, pool)
    ensures OpsResolved(UndoDelete(ss, text), pool)
    decreases |ss|
  {
    hide Resolved;
    if ss != [] {
      var k := Min(ss[0].chars, |text|);
      UndoDeleteResolved(ss[1..], text[k..], pool);
    }
  }

  lemma {:induction false} UndoKeepResolved(ss: seq<Stretch>, change: AttribMap, pool: Pool, order: Order, n: nat)
    requires Good(pool) && Covers(pool, change) && Enumerates(order)
    ensures var (ops, q) := UndoKeep(ss, change, pool, order, n); OpsResolved(ops, q)
    decreases |ss|
  {
    hide Good, Back, Covers, Resolved, BackMap, Extends, UndoKeep, Enumerates;
    if ss == [] {
      UndoKeepEnds(change, pool, order, n);
    } else {
      UndoKeepStep(ss, change, pool, order, n);
      BackFacts(change, ss[0].attribs, pool, order, n);
      var (a, p) := Back(change, ss[0].attribs, pool, order, n);
      UndoKeepResolved(ss[1..], change, p, order, n + 1);
      UndoKeepPool(ss[1..], change, p, order, n + 1);
      var (ops, q) := UndoKeep(ss[1..], change, p, order, n + 1);
      MeaningExtends(a, p, q);
    }
  }

  /** The undo operations name attributes that the pool knows afterwards. */
  lemma {:induction false} UndoResolved(ops: seq<Op>, att: seq<Op>, text: string, pool: Pool, order: Order, n: nat)
    requires Good(pool) && Enumerates(order) && OpsResolved(att, pool)
    ensures var u := Undo(ops, att, text, pool, order, n); OpsResolved(u.ops, u.pool)
    decreases |ops|
  {
    hide Good, Covers, Resolved, Extends, UpdatePool, FromString, AttribsFromString, UndoDelete, UndoKeep, TakeRuns,
         Undo, Enumerates;
    if ops == [] {
      UndoNothing(att, text, pool, order, n);
    } else {
      var op := ops[0];
      UndoUnfold(ops, att, text, pool, order, n);
      var s := UndoOp(op, att, text, pool, order, n);
      StepResolves(op, att, text, pool, order, n);
      UndoResolved(ops[1..], s.att, s.text, s.pool, order, s.n);
      UndoPool(ops[1..], s.att, s.text, s.pool, order, s.n);
      var u := Undo(ops[1..], s.att, s.text, s.pool, order, s.n);
      ResolvedLater(s.ops, s.pool, u.pool);
      ResolvedConcat(s.ops, u.ops, u.pool);
    }
  }

  lemma {:induction false} StepResolves(op: Op, att: seq<Op>, text: string, pool: Pool, order: Order, n: nat)
    requires Good(pool) && Enumerates(order) && OpsResolved(att, pool)
    ensures var s := UndoOp(op, att, text, pool, order, n);
            Good(s.pool) && Extends(pool, s.pool) && OpsResolved(s.ops, s.pool) && OpsResolved(s.att, s.pool)
  {
    hide Good, Covers, Resolved, Extends, UpdatePool, FromString, AttribsFromString, UndoDelete, UndoKeep, TakeRuns,
         Enumerates;
    var k, r := Min(op.chars, |text|), TakeRuns(att, op.chars);
    TakenResolved(att, op.chars, pool);
    EmptyResolved(pool);
    ExtendsItself(pool);
    if op.code == Delete {
      UndoDeleteResolved(r.taken, text[..k], pool);
    } else if op.code == Keep && op.attribs != "" {
      ResolvedCovers(op.attribs, pool);
      UndoKeepPool(r.taken, FromString(op.attribs, pool), pool, order, n);
      UndoKeepResolved(r.taken, FromString(op.attribs, pool), pool, order, n);
      ResolvedLater(r.rest, pool, UndoKeep(r.taken, FromString(op.attribs, pool), pool, order, n).1);
    }
  }

  lemma {:induction false} AssembleResolved(ops: seq<Op>, pool: Pool)
    requires OpsResolved(ops, pool)
    ensures OpsResolved(Assemble(ops), pool)
  {
    hide Resolved, Assemble;
    EmptyResolved(pool);
    var p := (_: OpCode, a: string) => Resolved(a, pool);
    assert AllAttribs(p, ops);
    AssembleAttribs(p, ops);
    assert forall i :: 0 <= i < |Assemble(ops)| ==> p(Assemble(ops)[i].code, Assemble(ops)[i].attribs);
  }

  /** The inverse names attributes that the pool knows afterwards. */
  lemma {:induction false} InverseResolved(cs: string, lines: seq<string>, alines: seq<string>, pool: Pool,
          order: Order)
    requires WellFormed(cs, Join(lines)) && CoveredBy(alines, lines) && Enumerates(order) && Good(pool)
    requires NamedAttribution(alines, pool)
    ensures Inversion.Inverse(cs, lines, alines, pool, order).Ok?
    ensures var (inv, q) := Inversion.Inverse(cs, lines, alines, pool, order).value; AttribsResolved(inv, q)
  {
    hide WellFormed, OpsOf, Flatten, Join, Inversion.Inverse, Undo, Good, Enumerates, Resolved, Assemble, Unpack,
         CoveredBy, After, ApplyToText, CheckRep;
    InverseRestores(cs, lines, alines, pool, order);
    var att := Flatten(alines);
    forall i | 0 <= i < |att| ensures Resolved(att[i].attribs, pool) {
      assert Named(In(true, pool), att[i].attribs, pool);
    }
    var u := Undo(OpsOf(cs), att, Join(lines), pool, order, 0);
    UndoResolved(OpsOf(cs), att, Join(lines), pool, order, 0);
    AssembleResolved(u.ops, u.pool);
  }

  // ----- what is sent -----

  /** A larger pool reads a changeset as the pool did. */
  lemma {:induction false} LargerPool(cs: string, p: Pool, q: Pool, d: Doc)
    requires AttribsResolved(cs, p) && Extends(p, q)
    ensures AttribsResolved(cs, q) && AfterDoc(q, cs, d) == AfterDoc(p, cs, d)
  {
    hide OpsOf, Unpack, Run, Resolved, Extends, AttribsFromString;
    var ops := OpsOf(cs);
    forall i | 0 <= i < |ops| ensures Resolved(ops[i].attribs, q) && SameMeaning(ops[i].attribs, q, ops[i].attribs, p) {
      MeaningExtends(ops[i].attribs, p, q);
    }
    RunSame(q, p, ops, ops, Unpack(cs).bank, d);
  }

  /**
    A changeset and its inverse, both moved to the pool that is sent with them: read through that pool, the one does to
    the document what the changeset does, and the other undoes it as far as attributes can be taken back.
   */
  lemma {:induction false} AttributesSent(cs: string, lines: seq<string>, alines: seq<string>, pool: Pool,
          created: Pool, order: Order, d: Doc)
    requires WellFormed(cs, Join(lines)) && CoveredBy(alines, lines) && Enumerates(order)
    requires Good(pool) && AttribsResolved(cs, pool) && NamedAttribution(alines, pool) && created.Consistent()
    requires Produces(In(false, pool), Flatten(alines), Join(lines), [], d)
    ensures Inversion.Inverse(cs, lines, alines, pool, order).Ok? && AfterDoc(pool, cs, d).Some?
    ensures var (inv, p) := Inversion.Inverse(cs, lines, alines, pool, order).value;
            var (f, mid) := MoveOpsToNewPool(cs, p, created);
            && mid.Consistent()
            && var (b, q) := MoveOpsToNewPool(inv, p, mid);
               && AttribsResolved(f, q) && AttribsResolved(b, q)
               && AfterDoc(q, f, d) == AfterDoc(pool, cs, d)
               && AfterDoc(q, b, AfterDoc(pool, cs, d).value) == Some(Returned(In(true, p), OpsOf(cs), d))
    ensures var p := Inversion.Inverse(cs, lines, alines, pool, order).value.1;
            Returned(In(true, p), OpsOf(cs), d) == d <==> AllCanBeTakenBack(pool, OpsOf(cs), d)
  {
    hide WellFormed, OpsOf, Flatten, Join, Inversion.Inverse, Good, Enumerates, Unpack, CoveredBy, MoveOpsToNewPool,
         Run, AfterDoc, AttribsResolved, Extends, NamedAttribution, Returned, AllCanBeTakenBack, After, CheckRep, Text;
    var e := InverseAttributed(cs, lines, alines, pool, order);
    assert e == d;
    InverseResolved(cs, lines, alines, pool, order);
    InverseRestores(cs, lines, alines, pool, order);
    var (inv, p) := Inversion.Inverse(cs, lines, alines, pool, order).value;
    LargerPool(cs, pool, p, d);
    MovedBoth(cs, inv, p, created, d, AfterDoc(pool, cs, d).value) by { Accepted(cs, Join(lines)); }
  }

  lemma {:induction false} Accepted(cs: string, t: string)
    requires WellFormed(cs, t)
    ensures CheckRep(cs).Ok?
  {}

  /** What is moved names attributes that the new pool knows. */
  lemma {:induction false} MovedResolved(cs: string, from: Pool, to: Pool, later: Pool)
    requires CheckRep(cs).Ok? && to.Consistent() && Extends(MoveOpsToNewPool(cs, from, to).1, later)
    ensures AttribsResolved(MoveOpsToNewPool(cs, from, to).0, later)
  {
    hide CheckRep, Unpack, Deserialize, MoveOpsToNewPool, KnownOnes, Scan, Extends, AttribsFromString, OpsOf, Resolved;
    MoveKeepsMeaning(cs, from, to);
    var (m, q) := MoveOpsToNewPool(cs, from, to);
    var a, b := OpsOf(cs), OpsOf(m);
    forall i | 0 <= i < |b| ensures Resolved(b[i].attribs, later) {
      assert b[i] == a[i].(attribs := b[i].attribs);
      MeaningExtends(b[i].attribs, q, later);
    }
  }

  lemma {:induction false} MovedBoth(cs: string, inv: string, p: Pool, created: Pool, d: Doc, m: Doc)
    requires CheckRep(cs).Ok? && CheckRep(inv).Ok? && created.Consistent()
    requires AttribsResolved(cs, p) && AttribsResolved(inv, p)
    ensures var (f, mid) := MoveOpsToNewPool(cs, p, created);
            && mid.Consistent()
            && var (b, q) := MoveOpsToNewPool(inv, p, mid);
               && AttribsResolved(f, q) && AttribsResolved(b, q)
               && AfterDoc(q, f, d) == AfterDoc(p, cs, d) && AfterDoc(q, b, m) == AfterDoc(p, inv, m)
  {
    hide CheckRep, MoveOpsToNewPool, AfterDoc, AttribsResolved, Extends, OpsOf, Unpack, Deserialize, KnownOnes, Scan,
         AttribsFromString, Resolved;
    MoveKeepsMeaning(cs, p, created);
    var mid := MoveOpsToNewPool(cs, p, created).1;
    MoveKeepsMeaning(inv, p, mid);
    var q := MoveOpsToNewPool(inv, p, mid).1;
    ExtendsItself(q);
    MoveKeepsDocument(cs, p, created, q, d);
    MoveKeepsDocument(inv, p, mid, q, m);
    MovedResolved(cs, p, created, q);
    MovedResolved(inv, p, mid, q);
  }
}
