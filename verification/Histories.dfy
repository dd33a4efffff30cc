/**
  The history that is sent to a client: for each step its changeset and the one that undoes it, as the loop of
  lib/ws/PadMessageHandler.go builds them.
 */
module Histories {
  import opened Basics
  import opened Pools
  import opened Attributes
  import opened Ops
  import opened Syntax
  import opened Assemblers
  import opened Changesets
  import opened Lines
  import opened TextMutation
  import opened Inversion
  import opened InverseLaws
  import opened UndoAttributes
  import opened PoolMoves
  import opened Attributions
  import opened FinalNewlines
  import opened InverseOrder
  import opened SentDocuments
  import opened HistoryDocuments
  import opened AttributedText
  import opened Validation
  import AttributionEdits
  import AttributionMutators
  import AttributionLoops
  import Algebra
  import ZipLoops
  import LineReaders
  import Rebasing

  // ----- a changeset moved to another pool -----

  lemma {:induction false} SameShape(a: seq<Op>, b: seq<Op>, bank: string, text: string)
    requires |a| == |b| && forall i :: 0 <= i < |a| ==> a[i] == b[i].(attribs := a[i].attribs)
    ensures ApplyOps(a, bank, text) == ApplyOps(b, bank, text) && (Counted(a, bank) <==> Counted(b, bank))
    decreases |a|
  {
    hide Newlines;
    if a != [] {
      var n := a[0].chars;
      if a[0].code == Insert {
        if n <= |bank| { SameShape(a[1..], b[1..], bank[n..], text); }
      } else {
        if n <= |text| { SameShape(a[1..], b[1..], bank, text[n..]); }
        SameShape(a[1..], b[1..], bank, text);
      }
    }
  }

  /** Moving a changeset to another pool changes neither what it makes of a text nor that it passes the check. */
  lemma {:induction false} MoveKeepsText(cs: string, from: Pool, to: Pool, text: string)
    requires WellFormed(cs, text) && to.Consistent()
    ensures var (m, q) := MoveOpsToNewPool(cs, from, to);
            && q.Consistent() && Extends(to, q) && ApplyToText(m, text) == Ok(After(cs, text))
            && Deserialize(Unpack(m).ops).Ok? && Counted(OpsOf(m), Unpack(m).bank)
  {
    hide CheckRep, Unpack, Run, Plain, ApplyOps, FitsText, Counted, Deserialize, MoveOpsToNewPool, KnownOnes, Scan,
         AttribsFromString, Extends, After;
    MoveKeepsMeaning(cs, from, to);
    var (m, q) := MoveOpsToNewPool(cs, from, to);
    SameShape(OpsOf(m), OpsOf(cs), Unpack(cs).bank, text);
    WellFormedCounted(cs, text);
    AfterIs(cs, text);
    WellFormedFits(cs, text);
  }

  // ----- attribution lines cover their lines, under any pool -----

  lemma {:induction false} UnmarkedPlain(d: Doc)
    requires Unmarked(d)
    ensures d == Plain(Text(d))
  {
    if d != [] { UnmarkedPlain(d[1..]); }
  }

  lemma {:induction false} CoversPlainly(pool: Pool, ops: seq<Op>, line: string, d: Doc)
    requires LineCover(Verbatim(true, pool), ops, line, d)
    ensures Produces(Ignore(true), ops, line, [], Plain(line))
  {
    hide Run, RunsOk, Canonical, Unmarked, Plain;
    SameLength(Verbatim(true, pool), ops, line, d);
    SameText(Verbatim(true, pool), Ignore(true), ops, line, [], []);
    NothingAhead(ops, line);
    var e := Run(Ignore(true), ops, line, []).value;
    var f := Run(Verbatim(true, pool), ops, line, []).value;
    assert f.out + f.doc == d;
    TextConcat(f.out, f.doc);
    TextConcat(e.out, e.doc);
    assert e.out + [] == e.out;
    UnmarkedPlain(e.out);
  }

  lemma {:induction false} LinesCovered(pool: Pool, alines: seq<string>, lines: seq<string>, ls: seq<seq<Op>>, d: Doc)
    requires LineAttributes(pool, alines, lines, ls, d)
    ensures CoveredBy(alines, lines)
    decreases |lines|
  {
    hide Run, RunsOk, Canonical, Plain, Deserialize;
    if ls != [] {
      CoversPlainly(pool, ls[0], lines[0], d[..|lines[0]|]);
      forall i | 0 <= i < |ls[1..]| ensures Deserialize(alines[1..][i]) == Ok(ls[1..][i]) {
        assert alines[1..][i] == alines[i + 1];
      }
      LinesCovered(pool, alines[1..], lines[1..], ls[1..], d[|lines[0]|..]);
      forall i | 0 <= i < |lines| ensures CoversLine(alines[i], lines[i]) {
        if i > 0 { assert CoversLine(alines[1..][i - 1], lines[1..][i - 1]); }
      }
    }
  }

  // ----- one step of the history -----

  /** A changeset that keeps the end of a text ending with a newline leads to one, in the middle of no line. */
  lemma {:induction false} EndKept(cs: string, text: string)
    requires WellFormed(cs, text) && EndsInNewline(text) && KeepsEnd(OpsOf(cs), text)
    ensures EndsInNewline(After(cs, text)) && !StopsMidline(OpsOf(cs), Unpack(cs).bank, text, "")
  {
    hide CheckRep, Unpack, Run, Plain, ApplyOps, FitsText, OpsOf, KeepsEnd, StopsMidline, After, ApplyToText;
    WellFormedFits(cs, text);
    WellFormedProduces(cs, text);
    KeepsEndInOrder(OpsOf(cs), Unpack(cs).bank, text, "");
    var _ := MarkedRun(OpsOf(cs), Unpack(cs).bank, text, After(cs, text));
  }

  /**
    The inverse of a changeset leads back, and passes the round-trip check exactly when what the changeset deletes at
    the end of the document is not torn.
   */
  lemma {:induction false} InverseReturns(cs: string, lines: seq<string>, alines: seq<string>, pool: Pool, order: Order,
          v: Pool, d: Doc)
    requires WellFormed(cs, Join(lines)) && CoveredBy(alines, lines) && Enumerates(order)
    requires EndsInNewline(Join(lines)) && EndsInNewline(After(cs, Join(lines)))
    requires Produces(Verbatim(true, v), Flatten(alines), Join(lines), [], d)
    ensures Inverse(cs, lines, alines, pool, order).Ok?
    ensures var inv, text' := Inverse(cs, lines, alines, pool, order).value.0, After(cs, Join(lines));
            && WellFormed(inv, text') && After(inv, text') == Join(lines)
            && (Returns(inv, SplitTextLines(text'), lines) <==> !EndTorn(OpsOf(cs), d))
  {
    hide CheckRep, Unpack, Run, Plain, ApplyOps, FitsText, OpsOf, StopsMidline, After, ApplyToText, Inverse,
         Deserialize, Join, SplitTextLines, WellFormed, EndTorn, Flatten, Produces;
    var text := Join(lines);
    var text' := After(cs, text);
    InverseRestores(cs, lines, alines, pool, order);
    InverseStops(cs, lines, alines, pool, order, v, d);
    var inv := Inverse(cs, lines, alines, pool, order).value.0;
    WellFormedFits(inv, text');
    AfterIs(inv, text');
    JoinSplit(text');
  }

  lemma {:induction false} InversePool(cs: string, lines: seq<string>, alines: seq<string>, pool: Pool, order: Order)
    requires Good(pool) && Enumerates(order) && Inverse(cs, lines, alines, pool, order).Ok?
    ensures var q := Inverse(cs, lines, alines, pool, order).value.1; Good(q) && Extends(pool, q)
  {
    hide Unpack, Undo, Good, Extends, OpsOf, Flatten, Join, CheckRep, Pack, Serialize, Assemble, Deserialize;
    UndoPool(OpsOf(cs), Flatten(alines), Join(lines), pool, order, 0);
  }

  /** The text that a changeset leads to, as lines. */
  lemma {:induction false} LinesAfter(cs: string, lines: seq<string>, r: seq<string>)
    requires WellFormed(cs, Join(lines)) && EndsInNewline(After(cs, Join(lines)))
    requires ApplyOps(OpsOf(cs), Unpack(cs).bank, Join(lines)) == Ok(Join(r))
    ensures Join(r) == After(cs, Join(lines)) == Join(SplitTextLines(Join(r))) && AllFull(SplitTextLines(Join(r)))
  {
    hide CheckRep, Unpack, Run, Plain, ApplyOps, OpsOf, StopsMidline, After, ApplyToText, Join, SplitTextLines,
         WellFormed, AllFull;
    AfterIs(cs, Join(lines));
    SplitClean(Join(r));
    JoinSplit(Join(r));
  }

  /** What one step leaves: the lines, their attribution lines, the pools, and the two changesets to send. */
  datatype Sent = Sent(lines: seq<string>, alines: seq<string>, pool: Pool, created: Pool, forwards: string,
      backwards: string)

  /** The lines of a document, with attribution lines that give it its attributes. */
  ghost predicate Document(pool: Pool, alines: seq<string>, lines: seq<string>, ls: seq<seq<Op>>, d: Doc) {
    Good(pool) && AllFull(lines) && EndsInNewline(Join(lines)) && LineAttributes(pool, alines, lines, ls, d)
  }

  /**
    Read through the pool `apool`, `f` leads from `d` to `r`, as the changeset does, and `b` leads back as far as
    attributes can be taken back.
   */
  ghost predicate LeadsForthAndBack(apool: Pool, f: string, b: string, cs: string, p: Pool, q: Pool, d: Doc, r: Doc) {
    && AfterDoc(p, cs, d) == AfterDoc(apool, f, d) == Some(r)
    && AfterDoc(apool, b, r) == Some(Returned(In(true, q), OpsOf(cs), d))
    && (AfterDoc(apool, b, r) == Some(d) <==> AllCanBeTakenBack(p, OpsOf(cs), d))
  }

  /** What is sent does so for what the attribute strings of the two documents mean. */
  ghost predicate SendsAttributes(sent: Sent, cs: string, pool: Pool, d: Doc, d': Doc) {
    && NamedAttribution(sent.alines, sent.pool)
    && Algebra.AttribsResolved(sent.forwards, sent.created) && Algebra.AttribsResolved(sent.backwards, sent.created)
    && LeadsForthAndBack(sent.created, sent.forwards, sent.backwards, cs, pool, sent.pool, Meant(pool, d),
           Meant(sent.pool, d'))
  }

  /** The changeset stops in the middle of a line of the text. */
  predicate Disorders(cs: string, text: string) { StopsMidline(OpsOf(cs), Unpack(cs).bank, text, "") }

  /**
    One step: the document is changed, and the changeset and its inverse are checked and moved to the new pool. No call
    of the step fails. The lines are those of the new text, with an empty one behind them exactly if the changeset stops
    in the middle of a line. If it does not, there is one complaint exactly if it deletes an end of the document whose
    attributes change within a line, and none otherwise.
   */
  method HistoryStep(cs: string, lines: seq<string>, alines: seq<string>, pool: Pool, created: Pool, order: Order,
          ghost ls: seq<seq<Op>>, ghost d: Doc)
    returns (sent: Sent, complaints: nat, ghost ls': seq<seq<Op>>, ghost d': Doc)
    requires Document(pool, alines, lines, ls, d) && created.Consistent() && Enumerates(order)
    requires WellFormed(cs, Join(lines)) && EndsInNewline(After(cs, Join(lines)))
    ensures var text' := After(cs, Join(lines));
            && sent.lines == SplitTextLines(text') + Empty(Disorders(cs, Join(lines))) && Join(sent.lines) == text'
            && Document(sent.pool, sent.alines, SplitTextLines(text'), ls', d')
    ensures !Disorders(cs, Join(lines)) ==> complaints == One(EndBreaks(OpsOf(cs), d))
    ensures Extends(pool, sent.pool) && sent.created.Consistent()
    ensures AttributionMutators.AfterVerbatim(sent.pool, cs, d) == Some(d')
    ensures ApplyToText(sent.forwards, Join(lines)) == Ok(Join(sent.lines))
    ensures ApplyToText(sent.backwards, Join(sent.lines)) == Ok(Join(lines))
    ensures Extends(created, sent.created)
    ensures Algebra.AttribsResolved(cs, pool) && NamedAttribution(alines, pool) ==>
              SendsAttributes(sent, cs, pool, d, d')
  {
    hide CheckRep, Unpack, Run, Plain, ApplyOps, FitsText, OpsOf, KeepsEnd, StopsMidline, After, ApplyToText, Inverse,
         Deserialize, Join, SplitTextLines, WellFormed;
    hide Good, Extends, AllFull, LineList, LinesCover, Counted, CoveredBy, MoveOpsToNewPool, Enumerates,
         AttributionMutators.AfterVerbatim;
    ghost var text := Join(lines);
    StepReady(cs, lines, alines, pool, order, ls, d);
    var inverse := LineReaders.Inverse(cs, lines, alines, pool, order);
    var (backwards, p) := inverse.value;
    CoverAnyPool(pool, p, ls, lines, d);
    var alines', ls1 := AttributionMutators.MutateAttributionLines(cs, alines, p, lines, ls, d);
    ls', d' := ls1, AttributionMutators.AfterVerbatim(p, cs, d).value;
    var lines' := MutateTextLines(cs, lines);
    LinesAfter(cs, lines, lines'.value);
    var forwards2, backwards2, q;
    forwards2, backwards2, q, complaints := Publish(cs, backwards, p, created, lines, lines'.value);
    sent := Sent(lines'.value, alines'.value, p, q, forwards2, backwards2);
    StepComplaints(cs, text, d, lines'.value);
    if Algebra.AttribsResolved(cs, pool) && NamedAttribution(alines, pool) {
      StepAttributes(cs, lines, alines, pool, created, order, sent, ls, d, ls', d');
    }
  }

  lemma {:induction false} StepAttributes(cs: string, lines: seq<string>, alines: seq<string>, pool: Pool,
          created: Pool, order: Order, sent: Sent, ls: seq<seq<Op>>, d: Doc, ls': seq<seq<Op>>, d': Doc)
    requires Document(pool, alines, lines, ls, d) && created.Consistent() && Enumerates(order)
    requires WellFormed(cs, Join(lines)) && CoveredBy(alines, lines)
    requires Algebra.AttribsResolved(cs, pool) && NamedAttribution(alines, pool)
    requires Inverse(cs, lines, alines, pool, order).Ok? && Inverse(cs, lines, alines, pool, order).value.1 == sent.pool
    requires Good(sent.pool) && Extends(pool, sent.pool)
    requires var (f, mid) := MoveOpsToNewPool(cs, sent.pool, created);
             f == sent.forwards &&
             MoveOpsToNewPool(Inverse(cs, lines, alines, pool, order).value.0, sent.pool, mid) ==
             (sent.backwards, sent.created)
    requires AttributionMutators.AfterVerbatim(sent.pool, cs, d) == Some(d')
    requires LineAttributes(sent.pool, sent.alines, SplitTextLines(After(cs, Join(lines))), ls', d')
    ensures SendsAttributes(sent, cs, pool, d, d')
  {
    hide CheckRep, Unpack, OpsOf, After, Inverse, Join, SplitTextLines, WellFormed, Good, Extends, AllFull, CoveredBy,
         MoveOpsToNewPool, Enumerates, AttributionMutators.AfterVerbatim, LineAttributes, NamedAttribution, AfterDoc,
         Algebra.AttribsResolved, Flatten, Produces, Meant, Returned, AllCanBeTakenBack, CellsKnown;
    LinesKnown(pool, alines, lines, ls, d);
    AttributesSent(cs, lines, alines, pool, created, order, Meant(pool, d));
    LargerPool(cs, pool, sent.pool, Meant(pool, d));
    MeantLater(pool, sent.pool, d);
    MeantAfter(sent.pool, cs, d, d');
    LinesKnown(sent.pool, sent.alines, SplitTextLines(After(cs, Join(lines))), ls', d');
  }

  /** What the calls of one step ask for. */
  lemma {:induction false} StepReady(cs: string, lines: seq<string>, alines: seq<string>, pool: Pool, order: Order,
          ls: seq<seq<Op>>, d: Doc)
    requires Document(pool, alines, lines, ls, d) && Enumerates(order)
    requires WellFormed(cs, Join(lines)) && EndsInNewline(After(cs, Join(lines)))
    ensures LineList(lines) && CoveredBy(alines, lines) && Text(d) == Join(lines)
    ensures Deserialize(Unpack(cs).ops).Ok? && FitsText(OpsOf(cs), Unpack(cs).bank, Join(lines))
    ensures Inverse(cs, lines, alines, pool, order).Ok?
    ensures var (inv, q) := Inverse(cs, lines, alines, pool, order).value;
            && Good(q) && Extends(pool, q) && WellFormed(inv, After(cs, Join(lines)))
            && After(inv, After(cs, Join(lines))) == Join(lines)
            && (Returns(inv, SplitTextLines(After(cs, Join(lines))), lines) <==> !EndTorn(OpsOf(cs), d))
  {
    hide CheckRep, Unpack, Run, Plain, OpsOf, After, Inverse, Deserialize, Join, SplitTextLines, WellFormed, Good,
         Extends, AllFull, LineList, CoveredBy, Enumerates, EndTorn, Returns, FitsText, Flatten, Produces;
    AttributionEdits.FullIsList(lines);
    LinesCovered(pool, alines, lines, ls, d);
    AttributionMutators.FlattenLines(pool, alines, lines, ls, d);
    SameLength(Verbatim(true, pool), Flatten(alines), Join(lines), d);
    InverseReturns(cs, lines, alines, pool, order, pool, d);
    InversePool(cs, lines, alines, pool, order);
    WellFormedFits(cs, Join(lines));
  }

  /** Both changesets of a step are moved to the new pool and checked. */
  method Publish(cs: string, backwards: string, pool: Pool, created: Pool, preForward: seq<string>,
          postForward: seq<string>)
    returns (forwards2: string, backwards2: string, q: Pool, complaints: nat)
    requires WellFormed(cs, Join(preForward)) && Join(postForward) == After(cs, Join(preForward))
    requires WellFormed(backwards, Join(postForward)) && created.Consistent()
    requires AllFull(preForward) && LineList(postForward)
    ensures var (f, p) := MoveOpsToNewPool(cs, pool, created);
            f == forwards2 && MoveOpsToNewPool(backwards, pool, p) == (backwards2, q)
    ensures q.Consistent() && Extends(created, q)
    ensures ApplyToText(forwards2, Join(preForward)) == Ok(Join(postForward))
    ensures ApplyToText(backwards2, Join(postForward)) == Ok(After(backwards, Join(postForward)))
    ensures AllFull(postForward) ==> complaints == One(!Returns(backwards, postForward, preForward))
  {
    hide CheckRep, Unpack, Run, Plain, OpsOf, After, ApplyToText, Deserialize, Join, WellFormed, Counted, Returns,
         FitsText, MoveOpsToNewPool, AllFull, LineList;
    MoveKeepsText(cs, pool, created, Join(preForward));
    var (f, p) := MoveOpsToNewPool(cs, pool, created);
    MoveKeepsText(backwards, pool, p, Join(postForward));
    var (b, q') := MoveOpsToNewPool(backwards, pool, p);
    forwards2, backwards2, q := f, b, q';
    ExtendsTransitive(created, p, q);
    WellFormedFits(backwards, Join(postForward));
    complaints := Complaints(forwards2, backwards2, backwards, postForward, preForward);
  }

  lemma {:induction false} StepComplaints(cs: string, text: string, d: Doc, r: seq<string>)
    requires WellFormed(cs, text) && Text(d) == text && r == SplitTextLines(Join(r)) + Empty(Disorders(cs, text))
    ensures !Disorders(cs, text) ==>
            r == SplitTextLines(Join(r)) && (EndTorn(OpsOf(cs), d) <==> EndBreaks(OpsOf(cs), d))
  {
    hide CheckRep, Unpack, Run, Plain, OpsOf, StopsMidline, WellFormed, EndTorn, EndBreaks, Join, SplitTextLines, Text;
    if !Disorders(cs, text) {
      TornBreaks(cs, text, d);
      assert SplitTextLines(Join(r)) + [] == SplitTextLines(Join(r));
    }
  }

  /** One if it holds. */
  function One(b: bool): nat { if b then 1 else 0 }

  /** How many of the three checks of a step fail. */
  method Complaints(forwards2: string, backwards2: string, backwards: string, postForward: seq<string>,
          preForward: seq<string>)
    returns (n: nat)
    requires AllFull(preForward) && LineList(postForward)
    requires Deserialize(Unpack(backwards).ops).Ok? ==>
             FitsText(OpsOf(backwards), Unpack(backwards).bank, Join(postForward))
    ensures AllFull(postForward) ==>
              n == One(!(Deserialize(Unpack(forwards2).ops).Ok? && Counted(OpsOf(forwards2), Unpack(forwards2).bank)))
                   + One(!(Deserialize(Unpack(backwards2).ops).Ok?
                           && Counted(OpsOf(backwards2), Unpack(backwards2).bank)))
                   + One(!Returns(backwards, postForward, preForward))
  {
    hide Unpack, Deserialize, Counted, FitsText, AllFull, LineList, Join, Returns;
    n := 0;
    var ok := ValidateWellFormed(forwards2);
    if !ok {
      n := n + 1;
    }
    ok := ValidateWellFormed(backwards2);
    if !ok {
      n := n + 1;
    }
    ok := ValidateRoundTrip(backwards, postForward, preForward);
    if !ok {
      n := n + 1;
    }
  }

  // ----- the whole history -----

  /** The text after some changesets. */
  function TextAfterAll(changes: seq<string>, text: string): string
    decreases |changes|
  {
    if changes == [] then text else After(changes[|changes| - 1], TextAfterAll(changes[..|changes| - 1], text))
  }

  /** Each changeset is well-formed on the text that those before it lead to. */
  ghost predicate Sequel(changes: seq<string>, text: string) {
    forall i :: 0 <= i < |changes| ==> WellFormed(changes[i], TextAfterAll(changes[..i], text))
  }

  /** Each leads to a text that ends with a newline as well, and leaves the lines in order. */
  ghost predicate Course(changes: seq<string>, text: string) {
    && Sequel(changes, text)
    && forall i :: 0 <= i < |changes| ==>
         && EndsInNewline(After(changes[i], TextAfterAll(changes[..i], text)))
         && !Disorders(changes[i], TextAfterAll(changes[..i], text))
  }

  /** Each keeps the end of the text. */
  predicate EndsKept(changes: seq<string>, text: string) {
    forall i :: 0 <= i < |changes| ==> KeepsEnd(OpsOf(changes[i]), TextAfterAll(changes[..i], text))
  }

  lemma {:induction false} SequelNext(changes: seq<string>, text: string, i: nat)
    requires Sequel(changes, text) && i < |changes|
    ensures TextAfterAll(changes[..i + 1], text) == After(changes[i], TextAfterAll(changes[..i], text))
    ensures WellFormed(changes[i], TextAfterAll(changes[..i], text))
  {
    hide After, WellFormed;
    assert changes[..i + 1][..i] == changes[..i];
  }

  /** Every changeset names attributes that the pool knows. */
  ghost predicate AllResolved(changes: seq<string>, pool: Pool) {
    forall i :: 0 <= i < |changes| ==> Algebra.AttribsResolved(changes[i], pool)
  }

  lemma {:induction false} EachResolved(changes: seq<string>, i: nat, pool: Pool)
    requires AllResolved(changes, pool) && i < |changes|
    ensures Algebra.AttribsResolved(changes[i], pool)
  {}

  /** The document after some changesets, read through the pool. */
  function DocAfterAll(pool: Pool, changes: seq<string>, d: Doc): Option<Doc>
    decreases |changes|
  {
    if changes == [] then Some(d)
    else match DocAfterAll(pool, changes[..|changes| - 1], d)
      case None => None
      case Some(e) => AfterDoc(pool, changes[|changes| - 1], e)
  }

  /**
    The composition of changes is one change that leads to the text, and to the document with attributes, that they lead
    to one after the other. If each of them keeps the end of its text, so does their composition.
   */
  method ComposePadChangesets(changesets: seq<string>, pool: Pool, ghost text: string, ghost d: Doc)
    returns (r: Result<(string, Pool)>)
    requires changesets != [] && Sequel(changesets, text) && Text(d) == text
    ensures r.Ok? && WellFormed(r.value.0, text) && After(r.value.0, text) == TextAfterAll(changesets, text)
    ensures EndsInNewline(text) && EndsKept(changesets, text) ==>
              KeepsEnd(OpsOf(r.value.0), text) && !Disorders(r.value.0, text)
    ensures Good(pool) ==>
              r.value.1 == pool && DocAfterAll(pool, changesets, d).Some?
              && AfterDoc(pool, r.value.0, d) == DocAfterAll(pool, changesets, d)
    ensures Good(pool) && AllResolved(changesets, pool) ==> Algebra.AttribsResolved(r.value.0, pool)
  {
    hide CheckRep, Unpack, Run, Plain, OpsOf, KeepsEnd, After, ApplyToText, WellFormed, Algebra.Compose, Sequel,
         EndsInNewline, StopsMidline, Good, AfterDoc, Text, AllResolved, Algebra.AttribsResolved;
    SequelNext(changesets, text, 0);
    assert changesets[..0] == [];
    var start, p := changesets[0], pool;
    ghost var kept := EndsInNewline(text) && EndsKept(changesets, text);
    ghost var good, known := Good(pool), AllResolved(changesets, pool);
    if good { FirstDocument(changesets, pool, text, d); }
    if known { EachResolved(changesets, 0, pool); }
    for i := 1 to |changesets|
      invariant WellFormed(start, text) && After(start, text) == TextAfterAll(changesets[..i], text)
      invariant kept ==> KeepsEnd(OpsOf(start), text)
      invariant good ==> p == pool && AfterDoc(pool, start, d) == DocAfterAll(pool, changesets[..i], d)
                         && DocAfterAll(pool, changesets[..i], d).Some?
      invariant good && known ==> Algebra.AttribsResolved(start, pool)
    {
      SequelNext(changesets, text, i);
      if known { EachResolved(changesets, i, pool); }
      if good { NextDocument(changesets, pool, text, d, i, start); }
      Algebra.ComposeWellFormed(start, changesets[i], p, text);
      if kept {
        NotEmpty(text);
        ComposeKeepsEnd(start, changesets[i], p, text);
      }
      AfterIs(changesets[i], After(start, text));
      var c := ZipLoops.Compose(start, changesets[i], p);
      AfterIs(c.value.0, text);
      start, p := c.value.0, c.value.1;
    }
    assert changesets[..|changesets|] == changesets;
    r := Ok((start, p));
    if kept { EndKept(start, text); }
  }

  lemma {:induction false} FirstDocument(changes: seq<string>, pool: Pool, text: string, d: Doc)
    requires changes != [] && WellFormed(changes[0], text) && Text(d) == text
    ensures DocAfterAll(pool, changes[..1], d) == AfterDoc(pool, changes[0], d) && AfterDoc(pool, changes[0], d).Some?
  {
    hide WellFormed, AfterDoc, After, ApplyToText, Text;
    Applicable(changes[0], text);
    AfterDocText(pool, changes[0], d);
    assert changes[..1][..0] == [] && DocAfterAll(pool, [], d) == Some(d);
  }

  lemma {:induction false} NextDocument(changes: seq<string>, pool: Pool, text: string, d: Doc, i: nat, start: string)
    requires 0 < i < |changes| && Good(pool) && Text(d) == text && WellFormed(start, text)
    requires WellFormed(changes[i], After(start, text)) && After(start, text) == TextAfterAll(changes[..i], text)
    requires AfterDoc(pool, start, d) == DocAfterAll(pool, changes[..i], d) && AfterDoc(pool, start, d).Some?
    ensures Algebra.Compose(start, changes[i], pool).Ok? && Algebra.Compose(start, changes[i], pool).value.1 == pool
    ensures var cs := Algebra.Compose(start, changes[i], pool).value.0;
            && AfterDoc(pool, cs, d) == DocAfterAll(pool, changes[..i + 1], d) && AfterDoc(pool, cs, d).Some?
            && (Algebra.AttribsResolved(start, pool) && Algebra.AttribsResolved(changes[i], pool) ==>
                Algebra.AttribsResolved(cs, pool))
  {
    hide WellFormed, AfterDoc, After, ApplyToText, Text, Algebra.Compose, Good, Algebra.AttribsResolved, TextAfterAll;
    ComposedDocument(start, changes[i], pool, text, d);
    assert changes[..i + 1][..i] == changes[..i];
    Applicable(changes[i], After(start, text));
    Applicable(start, text);
    AfterDocText(pool, start, d);
    AfterDocText(pool, changes[i], AfterDoc(pool, start, d).value);
  }

  lemma {:induction false} NotEmpty(text: string)
    requires EndsInNewline(text)
    ensures text != ""
  {}

  /** The lines of a pad and its attribution lines, from its text and its attribution. */
  method GetPadLines(attribs: string, text: string, ghost pool: Pool, ghost ops: seq<Op>, ghost d: Doc)
    returns (lines: seq<string>, alines: Result<seq<string>>, ghost ls: seq<seq<Op>>)
    requires Good(pool) && GivesAttributes(pool, attribs, ops, text, d) && EndsInNewline(text)
    ensures alines.Ok? && Document(pool, alines.value, lines, ls, d) && Join(lines) == text
  {
    hide Good, LinesCover, Join, SplitTextLines, AllFull, Produces, Attributions.Inserts,
         Attributions.SplitAttributionLines, Canonical, Serialize, Deserialize, MergeAll;
    ls := SplitJoinAttribution(pool, attribs, ops, text, d);
    alines := AttributionLoops.SplitAttributionLines(attribs, text);
    lines := SplitTextLines(text);
    JoinSplit(text);
  }

  /** How many steps delete an end of their document whose attributes change within a line. */
  function BreakingSteps(changes: seq<string>, docs: seq<Doc>): nat
    requires |changes| <= |docs|
  {
    if changes == [] then 0
    else
      var l := |changes| - 1;
      BreakingSteps(changes[..l], docs) + One(EndBreaks(OpsOf(changes[l]), docs[l]))
  }

  lemma {:induction false} BreakingNext(changes: seq<string>, docs: seq<Doc>, d: Doc)
    requires |changes| <= |docs|
    ensures BreakingSteps(changes, docs + [d]) == BreakingSteps(changes, docs)
    decreases |changes|
  {
    hide OpsOf, EndBreaks;
    if changes != [] { BreakingNext(changes[..|changes| - 1], docs, d); }
  }

  /** Step by step, the one changeset leads from each text to the next, and the other one back. */
  ghost predicate Sends(changes: seq<string>, forwards: seq<string>, backwards: seq<string>, text: string) {
    && |forwards| == |backwards| == |changes|
    && forall i :: 0 <= i < |changes| ==>
         && ApplyToText(forwards[i], TextAfterAll(changes[..i], text)) == Ok(TextAfterAll(changes[..i + 1], text))
         && ApplyToText(backwards[i], TextAfterAll(changes[..i + 1], text)) == Ok(TextAfterAll(changes[..i], text))
  }

  /** The documents of a history, from one to the next, under the pools of its steps. */
  ghost predicate Develops(changes: seq<string>, docs: seq<Doc>, pools: seq<Pool>) {
    && |docs| == |pools| == |changes| + 1
    && forall i :: 0 <= i < |changes| ==>
         Extends(pools[i], pools[i + 1])
         && AttributionMutators.AfterVerbatim(pools[i + 1], changes[i], docs[i]) == Some(docs[i + 1])
  }

  /** Read through the pool `apool`, the changesets lead from each document to the next and back. */
  ghost predicate SendsDocuments(changes: seq<string>, forwards: seq<string>, backwards: seq<string>, apool: Pool,
          docs: seq<Doc>, pools: seq<Pool>)
  {
    && |forwards| == |backwards| == |changes| && |docs| == |pools| == |changes| + 1
    && AllResolved(forwards, apool) && AllResolved(backwards, apool)
    && forall i :: 0 <= i < |changes| ==>
         LeadsForthAndBack(apool, forwards[i], backwards[i], changes[i], pools[i], pools[i + 1],
             Meant(pools[i], docs[i]), Meant(pools[i + 1], docs[i + 1]))
  }

  /** The history of some changes: of their texts, of the documents and, if the attributes are known, of both. */
  ghost predicate Built(changes: seq<string>, text: string, forwards: seq<string>, backwards: seq<string>, apool: Pool,
          docs: seq<Doc>, pools: seq<Pool>, known: bool)
  {
    && Sends(changes, forwards, backwards, text) && Develops(changes, docs, pools)
    && (known ==> SendsDocuments(changes, forwards, backwards, apool, docs, pools))
  }

  /**
    The history of any course of changes is built without an error: step by step, the changeset sent leads from each
    text to the next, and the one sent beside it leads back. So they do with the attributes, read through the pool that
    is sent, if the pad's pool knows those of the changes and of the first document: forth exactly, and back as far as
    attributes can be taken back. At the end, the lines are those of the last text, with attribution lines that give it
    the attributes of the last document. The only complaints are those about ends that are deleted and change their
    attributes within a line.
   */
  method ChangesetInfo(composed: seq<string>, lines0: seq<string>, alines0: seq<string>, pool0: Pool, order: Order,
          ghost ls0: seq<seq<Op>>, ghost d0: Doc)
    returns (forwards: seq<string>, backwards: seq<string>, apool: Pool, complaints: nat, lines: seq<string>,
          alines: seq<string>, ghost docs: seq<Doc>, ghost pools: seq<Pool>, ghost ls: seq<seq<Op>>)
    requires Document(pool0, alines0, lines0, ls0, d0) && Enumerates(order) && Course(composed, Join(lines0))
    ensures Sends(composed, forwards, backwards, Join(lines0))
    ensures Develops(composed, docs, pools) && docs[0] == d0 && pools[0] == pool0
    ensures Document(pools[|composed|], alines, lines, ls, docs[|composed|])
            && Join(lines) == TextAfterAll(composed, Join(lines0))
    ensures AllResolved(composed, pool0) && NamedAttribution(alines0, pool0) ==>
              SendsDocuments(composed, forwards, backwards, apool, docs, pools)
    ensures complaints == BreakingSteps(composed, docs)
  {
    hide WellFormed, After, Join, Enumerates, Document, Sends, Develops, BreakingSteps, Course, Disorders, EndBreaks,
         AttributionMutators.AfterVerbatim, Extends, TextAfterAll, ApplyToText, SplitTextLines, SendsDocuments,
         AllResolved, NamedAttribution, SendsAttributes;
    hide Built, Sequel, EndsInNewline, Algebra.AttribsResolved;
    forwards, backwards, complaints := [], [], 0;
    lines, alines := lines0, alines0;
    var pool := pool0;
    apool := EMPTY_POOL;
    ghost var known := AllResolved(composed, pool0) && NamedAttribution(alines0, pool0);
    ghost var text := Join(lines0);
    ls, docs, pools := ls0, [d0], [pool0];
    assert composed[..0] == [];
    HistoryStarts(text, d0, pool0, known);
    for i := 0 to |composed|
      invariant |docs| == |pools| == i + 1 && docs[0] == d0 && pools[0] == pool0 && pools[i] == pool
      invariant Document(pool, alines, lines, ls, docs[i]) && apool.Consistent()
      invariant Join(lines) == TextAfterAll(composed[..i], text)
      invariant known ==> AllResolved(composed, pool) && NamedAttribution(alines, pool)
      invariant Built(composed[..i], text, forwards, backwards, apool, docs, pools, known)
      invariant complaints == BreakingSteps(composed[..i], docs)
    {
      CourseNext(composed, text, i);
      if known { EachResolved(composed, i, pool); }
      var sent, n, ls', d' := HistoryStep(composed[i], lines, alines, pool, apool, order, ls, docs[i]);
      InOrderLines(After(composed[i], TextAfterAll(composed[..i], text)), sent.lines);
      BuiltNext(composed, text, forwards, backwards, apool, docs, pools, known, i, sent, d');
      complaints := complaints + n;
      forwards, backwards := forwards + [sent.forwards], backwards + [sent.backwards];
      lines, alines, pool, apool := sent.lines, sent.alines, sent.pool, sent.created;
      ls, docs, pools := ls', docs + [d'], pools + [pool];
    }
    assert composed[..|composed|] == composed;
    BuiltAll(composed, text, forwards, backwards, apool, docs, pools, known);
  }

  lemma {:induction false} HistoryStarts(text: string, d: Doc, pool: Pool, known: bool)
    ensures TextAfterAll([], text) == text && Built([], text, [], [], EMPTY_POOL, [d], [pool], known)
    ensures BreakingSteps([], [d]) == 0
  {}

  lemma {:induction false} BuiltAll(changes: seq<string>, text: string, forwards: seq<string>, backwards: seq<string>,
          apool: Pool, docs: seq<Doc>, pools: seq<Pool>, known: bool)
    requires Built(changes, text, forwards, backwards, apool, docs, pools, known)
    ensures Sends(changes, forwards, backwards, text) && Develops(changes, docs, pools)
    ensures known ==> SendsDocuments(changes, forwards, backwards, apool, docs, pools)
  {
    hide Sends, Develops, SendsDocuments;
  }

  lemma {:induction false} BuiltNext(changes: seq<string>, text: string, forwards: seq<string>, backwards: seq<string>,
          apool: Pool, docs: seq<Doc>, pools: seq<Pool>, known: bool, i: nat, sent: Sent, d: Doc)
    requires i < |changes| && |docs| == |pools| == i + 1
    requires Built(changes[..i], text, forwards, backwards, apool, docs, pools, known)
    requires Extends(pools[i], sent.pool) && Extends(apool, sent.created)
    requires AttributionMutators.AfterVerbatim(sent.pool, changes[i], docs[i]) == Some(d)
    requires ApplyToText(sent.forwards, TextAfterAll(changes[..i], text)) == Ok(TextAfterAll(changes[..i + 1], text))
    requires ApplyToText(sent.backwards, TextAfterAll(changes[..i + 1], text)) == Ok(TextAfterAll(changes[..i], text))
    requires known ==> AllResolved(changes, pools[i]) && SendsAttributes(sent, changes[i], pools[i], docs[i], d)
    ensures Built(changes[..i + 1], text, forwards + [sent.forwards], backwards + [sent.backwards], sent.created,
                docs + [d], pools + [sent.pool], known)
    ensures BreakingSteps(changes[..i + 1], docs + [d]) ==
            BreakingSteps(changes[..i], docs) + One(EndBreaks(OpsOf(changes[i]), docs[i]))
    ensures known ==> AllResolved(changes, sent.pool) && NamedAttribution(sent.alines, sent.pool)
  {
    hide Sends, Develops, SendsDocuments, AllResolved, Extends, AttributionMutators.AfterVerbatim, ApplyToText,
         TextAfterAll, BreakingSteps, EndBreaks, OpsOf, LeadsForthAndBack, NamedAttribution, Algebra.AttribsResolved;
    SendsNext(changes, forwards, backwards, text, i, sent.forwards, sent.backwards);
    DevelopsNext(changes, docs, pools, i, d, sent.pool);
    if known { DocumentsNext(changes, forwards, backwards, apool, docs, pools, i, sent, d); }
  }

  lemma {:induction false} InOrderLines(t: string, lines: seq<string>)
    requires lines == SplitTextLines(t) + Empty(false)
    ensures lines == SplitTextLines(t)
  {}

  lemma {:induction false} CourseNext(changes: seq<string>, text: string, i: nat)
    requires Course(changes, text) && i < |changes|
    ensures var t := TextAfterAll(changes[..i], text);
            && TextAfterAll(changes[..i + 1], text) == After(changes[i], t)
            && WellFormed(changes[i], t) && EndsInNewline(After(changes[i], t)) && !Disorders(changes[i], t)
  {
    hide After, WellFormed, Disorders;
    SequelNext(changes, text, i);
  }

  lemma {:induction false} SendsNext(changes: seq<string>, forwards: seq<string>, backwards: seq<string>, text: string,
          i: nat, f: string, b: string)
    requires i < |changes| && Sends(changes[..i], forwards, backwards, text)
    requires ApplyToText(f, TextAfterAll(changes[..i], text)) == Ok(TextAfterAll(changes[..i + 1], text))
    requires ApplyToText(b, TextAfterAll(changes[..i + 1], text)) == Ok(TextAfterAll(changes[..i], text))
    ensures Sends(changes[..i + 1], forwards + [f], backwards + [b], text)
  {
    hide TextAfterAll, ApplyToText;
    forall k | 0 <= k <= i
      ensures ApplyToText((forwards + [f])[k], TextAfterAll(changes[..i + 1][..k], text)) ==
              Ok(TextAfterAll(changes[..i + 1][..k + 1], text))
      ensures ApplyToText((backwards + [b])[k], TextAfterAll(changes[..i + 1][..k + 1], text)) ==
              Ok(TextAfterAll(changes[..i + 1][..k], text))
    {
      assert changes[..i + 1][..k] == changes[..k] && changes[..i + 1][..k + 1] == changes[..k + 1];
      if k < i { assert changes[..i][..k] == changes[..k] && changes[..i][..k + 1] == changes[..k + 1]; }
    }
  }

  lemma {:induction false} DevelopsNext(changes: seq<string>, docs: seq<Doc>, pools: seq<Pool>, i: nat, d: Doc, p: Pool)
    requires i < |changes| && Develops(changes[..i], docs, pools) && Extends(pools[i], p)
    requires AttributionMutators.AfterVerbatim(p, changes[i], docs[i]) == Some(d)
    ensures Develops(changes[..i + 1], docs + [d], pools + [p])
    ensures BreakingSteps(changes[..i + 1], docs + [d]) ==
            BreakingSteps(changes[..i], docs) + One(EndBreaks(OpsOf(changes[i]), docs[i]))
  {
    hide Extends, AttributionMutators.AfterVerbatim, OpsOf, EndBreaks;
    assert changes[..i + 1][..i] == changes[..i];
    BreakingNext(changes[..i], docs, d);
  }

  /** What leads forth and back does so through every larger pool. */
  lemma {:induction false} LeadsLater(apool: Pool, later: Pool, f: string, b: string, cs: string, p: Pool, q: Pool,
          d: Doc, r: Doc)
    requires LeadsForthAndBack(apool, f, b, cs, p, q, d, r) && Extends(apool, later)
    requires Algebra.AttribsResolved(f, apool) && Algebra.AttribsResolved(b, apool)
    ensures LeadsForthAndBack(later, f, b, cs, p, q, d, r)
  {
    hide AfterDoc, Extends, Algebra.AttribsResolved, OpsOf, Returned, AllCanBeTakenBack;
    LargerPool(f, apool, later, d);
    LargerPool(b, apool, later, r);
  }

  lemma {:induction false} ResolvedOneMore(changes: seq<string>, cs: string, p: Pool, q: Pool)
    requires AllResolved(changes, p) && Extends(p, q) && Algebra.AttribsResolved(cs, q)
    ensures AllResolved(changes + [cs], q)
  {
    hide Algebra.AttribsResolved;
    ResolvedLonger(changes, p, q);
  }

  lemma {:induction false} DocumentsNext(changes: seq<string>, forwards: seq<string>, backwards: seq<string>,
          apool: Pool, docs: seq<Doc>, pools: seq<Pool>, i: nat, sent: Sent, d: Doc)
    requires i < |changes| && SendsDocuments(changes[..i], forwards, backwards, apool, docs, pools)
    requires AllResolved(changes, pools[i]) && Extends(pools[i], sent.pool) && Extends(apool, sent.created)
    requires SendsAttributes(sent, changes[i], pools[i], docs[i], d)
    ensures SendsDocuments(changes[..i + 1], forwards + [sent.forwards], backwards + [sent.backwards], sent.created,
                docs + [d], pools + [sent.pool])
    ensures AllResolved(changes, sent.pool)
  {
    hide Algebra.AttribsResolved, Extends, AllResolved, Meant, LeadsForthAndBack, NamedAttribution;
    ResolvedOneMore(forwards, sent.forwards, apool, sent.created);
    ResolvedOneMore(backwards, sent.backwards, apool, sent.created);
    assert AllResolved(changes, sent.pool) by { ResolvedLonger(changes, pools[i], sent.pool); }
    var fs, bs, ds, ps := forwards + [sent.forwards], backwards + [sent.backwards], docs + [d], pools + [sent.pool];
    forall k | 0 <= k <= i
      ensures LeadsForthAndBack(sent.created, fs[k], bs[k], changes[..i + 1][k], ps[k], ps[k + 1],
                  Meant(ps[k], ds[k]), Meant(ps[k + 1], ds[k + 1]))
    {
      if k < i {
        assert changes[..i][k] == changes[..i + 1][k];
        EachResolved(forwards, k, apool);
        EachResolved(backwards, k, apool);
        LeadsLater(apool, sent.created, fs[k], bs[k], changes[k], ps[k], ps[k + 1], Meant(ps[k], ds[k]),
            Meant(ps[k + 1], ds[k + 1]));
      }
    }
  }

  lemma {:induction false} ResolvedLonger(changes: seq<string>, p: Pool, q: Pool)
    requires AllResolved(changes, p) && Extends(p, q)
    ensures AllResolved(changes, q)
  {
    hide Algebra.AttribsResolved, Extends;
    forall i | 0 <= i < |changes| ensures Algebra.AttribsResolved(changes[i], q) { LargerPool(changes[i], p, q, []); }
  }
}
