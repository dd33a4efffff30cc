/** What Inverse promises: the undo changeset is accepted and restores the text and its attributes. */
module InverseLaws {
  import opened Basics
  import opened Pools
  import opened Attributes
  import opened UndoAttributes
  import opened Ops
  import opened Syntax
  import opened Assemblers
  import opened Rebasing
  import opened Changesets
  import opened AttributedText
  import opened Builders
  import opened Lines
  import opened Algebra
  import opened Inversion

  // ----- attribution lines -----

  function LineOps(aline: string): seq<Op> {
    match Deserialize(aline) case Ok(ops) => ops case Err(_) => []
  }

  /** The attribution line `aline` covers the line exactly. */
  ghost predicate CoversLine(aline: string, line: string) {
    && Deserialize(aline).Ok? && RunsOk(LineOps(aline))
    && Produces(Ignore(true), LineOps(aline), line, [], Plain(line))
  }

  ghost predicate CoveredBy(alines: seq<string>, lines: seq<string>) {
    |alines| == |lines| && forall i :: 0 <= i < |lines| ==> CoversLine(alines[i], lines[i])
  }

  /** Insertions into nothing leave alone what stands behind their bank. */
  lemma {:induction false} MoreBank(sem: AttrSem, ops: seq<Op>, bank: string, more: string)
    requires Run(sem, ops, bank, []).Some?
    ensures var e := Run(sem, ops, bank, []).value; Run(sem, ops, bank + more, []) == Some(e.(bank := e.bank + more))
    decreases |ops|
  {
    hide RunOp;
    if ops != [] {
      StepMoreBank(sem, ops[0], bank, more);
      NothingBehind(sem, ops[0], bank);
      MoreBank(sem, ops[1..], RunOp(sem, ops[0], bank, []).value.bank, more);
    }
  }

  lemma {:induction false} StepMoreBank(sem: AttrSem, op: Op, bank: string, more: string)
    requires RunOp(sem, op, bank, []).Some?
    ensures var e := RunOp(sem, op, bank, []).value; RunOp(sem, op, bank + more, []) == Some(e.(bank := e.bank + more))
  {
    hide Newlines, Fresh, Restyle, Text, Clean;
    if op.code == Insert {
      assert (bank + more)[..op.chars] == bank[..op.chars] && (bank + more)[op.chars..] == bank[op.chars..] + more;
    }
  }

  lemma {:induction false} NothingBehind(sem: AttrSem, op: Op, bank: string)
    requires RunOp(sem, op, bank, []).Some?
    ensures RunOp(sem, op, bank, []).value.doc == []
  {}

  lemma {:induction false} RunsConcat(sem: AttrSem, a: seq<Op>, b: seq<Op>, s: string, t: string, d: Doc, e: Doc)
    requires Produces(sem, a, s, [], d) && Produces(sem, b, t, [], e)
    ensures Produces(sem, a + b, s + t, [], d + e)
  {
    hide Run;
    RunConcat(sem, a, b, s + t, []);
    MoreBank(sem, a, s, t);
    InsertedText(sem, a, s);
    var x, y := Run(sem, a, s, []).value, Run(sem, b, t, []).value;
    assert x.bank + t == t && x.out + x.doc == x.out;
    assert x.out + y.out + y.doc == x.out + (y.out + y.doc);
  }

  lemma {:induction false} FlattenCovers(alines: seq<string>, lines: seq<string>)
    requires CoveredBy(alines, lines)
    ensures RunsOk(Flatten(alines)) && Produces(Ignore(true), Flatten(alines), Join(lines), [], Plain(Join(lines)))
    decreases |lines|
  {
    hide Run, Produces, RunsOk, Plain, Deserialize;
    if lines == [] {
      assert Plain("") == [] && RunsOk([]) && Produces(Ignore(true), [], "", [], []) by { NoRuns(); }
    } else {
      assert CoversLine(alines[0], lines[0]);
      forall i | 0 <= i < |lines[1..]| ensures CoversLine(alines[1..][i], lines[1..][i]) {
        assert CoversLine(alines[i + 1], lines[i + 1]);
      }
      FlattenCovers(alines[1..], lines[1..]);
      RunsConcat(Ignore(true), LineOps(alines[0]), Flatten(alines[1..]), lines[0], Join(lines[1..]), Plain(lines[0]),
          Plain(Join(lines[1..])));
      PlainConcat(lines[0], Join(lines[1..]));
      RunsOkConcat(LineOps(alines[0]), Flatten(alines[1..]));
    }
  }

  lemma {:induction false} NoRuns()
    ensures Plain("") == [] && RunsOk([]) && Produces(Ignore(true), [], "", [], [])
  {}

  lemma {:induction false} RunsOkConcat(a: seq<Op>, b: seq<Op>)
    requires RunsOk(a) && RunsOk(b)
    ensures RunsOk(a + b)
  {}

  // ----- the undo operations can be printed -----

  lemma {:induction false} FlattenAttribText(alines: seq<string>)
    ensures AllAttribText(Flatten(alines))
  {
    hide AttribText, Deserialize;
    if alines != [] {
      FlattenAttribText(alines[1..]);
      if Deserialize(alines[0]).Ok? {
        ParsedPrintable(alines[0]);
        PrintableParts(LineOps(alines[0]));
      }
    }
  }

  predicate AllStretchText(ss: seq<Stretch>) { forall i :: 0 <= i < |ss| ==> AttribText(ss[i].attribs) }

  lemma {:induction false} TakenAttribText(att: seq<Op>, n: nat)
    requires AllAttribText(att)
    ensures AllStretchText(TakeRuns(att, n).taken) && AllAttribText(TakeRuns(att, n).rest)
    decreases |att|
  {
    hide AttribText;
    if n > 0 && att != [] && n >= att[0].chars { TakenAttribText(att[1..], n - att[0].chars); }
  }

  lemma {:induction false} UndoKeepAttribText(ss: seq<Stretch>, change: AttribMap, pool: Pool, order: Order, n: nat)
    ensures AllAttribText(UndoKeep(ss, change, pool, order, n).0)
    decreases |ss|
  {
    hide AttribText, UpdatePool, PutKeys, AttribsFromString, BackMap, FromString, Numbers, SortedKeys, Encode;
    if ss != [] {
      var p := UpdatePool(AttribsFromString(ss[0].attribs, pool), false, pool);
      var m := BackMap(change, FromString(ss[0].attribs, pool));
      var q := PutKeys(order(n, change), m, p);
      EncodeAttribText(Numbers(m, SortedKeys(m, q, 0), q));
      UndoKeepAttribText(ss[1..], change, q, order, n + 1);
    }
  }

  lemma {:induction false} UndoDeleteAttribText(ss: seq<Stretch>, t: string)
    requires AllStretchText(ss)
    ensures AllAttribText(UndoDelete(ss, t))
    decreases |ss|
  {
    hide AttribText, Newlines, LinesEnd;
    if ss != [] { UndoDeleteAttribText(ss[1..], t[Min(ss[0].chars, |t|)..]); }
  }

  lemma {:induction false} UndoAttribText(ops: seq<Op>, att: seq<Op>, text: string, pool: Pool, order: Order, n: nat)
    requires AllAttribText(att)
    ensures AllAttribText(Undo(ops, att, text, pool, order, n).ops)
    decreases |ops|
  {
    hide AttribText, TakeRuns, UndoKeep, UndoDelete, UpdatePool, FromString, AttribsFromString;
    if ops != [] {
      var op, r := ops[0], TakeRuns(att, ops[0].chars);
      var k := Min(op.chars, |text|);
      EmptyAttribText();
      TakenAttribText(att, op.chars);
      if op.code == Insert || op.code == Nop {
        UndoAttribText(ops[1..], att, text, pool, order, n);
      } else if op.code == Delete || op.attribs == "" {
        UndoAttribText(ops[1..], r.rest, text[k..], pool, order, n);
        UndoDeleteAttribText(r.taken, text[..k]);
      } else {
        var p, change := UpdatePool(AttribsFromString(op.attribs, pool), false, pool), FromString(op.attribs, pool);
        UndoKeepAttribText(r.taken, change, p, order, n);
        UndoAttribText(ops[1..], r.rest, text[k..], UndoKeep(r.taken, change, p, order, n).1, order, n + |r.taken|);
      }
    }
  }

  // ----- the inverse law -----

  /** The undo operations, before they are assembled, restore the text. */
  lemma {:induction false} UndoRestores(cs: string, lines: seq<string>, alines: seq<string>, pool: Pool, order: Order)
    requires WellFormed(cs, Join(lines)) && CoveredBy(alines, lines) && Enumerates(order)
    ensures var u := Undo(OpsOf(cs), Flatten(alines), Join(lines), pool, order, 0);
            Produces(Ignore(true), u.ops, u.bank, Plain(After(cs, Join(lines))), Plain(Join(lines)))
  {
    hide Unpack, Deserialize, Undo, Run, RunsOk, Plain, OpsOf, After, Flatten, Join, CheckRep;
    var text, att := Join(lines), Flatten(alines);
    FlattenCovers(alines, lines);
    IgnoredNamed(Ignore(true), att, pool);
    WellFormedProduces(cs, text);
    Undoes(Ignore(true), OpsOf(cs), Unpack(cs).bank, att, text, Plain(text), Plain(After(cs, text)), pool, order, 0);
    ReturnedIgnored(true, OpsOf(cs), Plain(text));
  }

  /**
    Undo: for a well-formed changeset on the joined lines, with attribution lines that cover them, Inverse succeeds;
    its result passes CheckRep, fits the changed text, and restores the text.
   */
  lemma {:induction false} InverseRestores(cs: string, lines: seq<string>, alines: seq<string>, pool: Pool,
          order: Order)
    requires WellFormed(cs, Join(lines)) && CoveredBy(alines, lines) && Enumerates(order)
    ensures Inverse(cs, lines, alines, pool, order).Ok?
    ensures var inv := Inverse(cs, lines, alines, pool, order).value.0;
            && CheckRep(inv).Ok? && WellFormed(inv, After(cs, Join(lines)))
            && ApplyToText(inv, After(cs, Join(lines))) == Ok(Join(lines))
            && Inverse(cs, lines, alines, pool, order).value == Unchecked(cs, lines, alines, pool, order)
            && OpsOf(inv) == Assemble(Undo(OpsOf(cs), Flatten(alines), Join(lines), pool, order, 0).ops)
            && Unpack(inv).bank == Undo(OpsOf(cs), Flatten(alines), Join(lines), pool, order, 0).bank
  {
    hide Unpack, Deserialize, Undo, Assemble, AttribText, Pack, Serialize, ApplyToText, Run, RunsOk, Plain, Canonical,
         OpsOf, Normal, After, LengthChange, AllAttribText, Strip, Flatten, Join;
    hide ApplyOps, CheckOps;
    var text := Join(lines);
    var m := After(cs, text);
    assert Deserialize(Unpack(cs).ops).Ok? && Unpack(cs).newLen == |m| by {
      WellFormedProduces(cs, text);
      CheckRepRegular(cs);
    }
    var att := Flatten(alines);
    var u := Undo(OpsOf(cs), att, text, pool, order, 0);
    UndoRestores(cs, lines, alines, pool, order);
    StripProduces(Ignore(true), u.ops, u.bank, Plain(m), Plain(text));
    FlattenAttribText(alines);
    UndoAttribText(OpsOf(cs), att, text, pool, order, 0);
    RebasedWellFormed(u.ops, u.bank, m, text);
    var inv := Pack(|m|, |m| + LengthChange(u.ops), Serialize(Assemble(u.ops)), u.bank);
    assert CheckRep(inv) == Ok(inv) by { AcceptedAsIs(inv); }
  }

  lemma {:induction false} AcceptedAsIs(cs: string)
    requires CheckRep(cs).Ok?
    ensures CheckRep(cs) == Ok(cs)
  {
    hide OldPosTooLarge, BankTooShort, WrongNewlines, UnfinishedLine, NewLenTooLarge, UnknownOpcode, WrongNewLen,
         BankLeft, NotCanonical;
    hide Unpack, Deserialize, CheckOps, Pack, Serialize, Assemble;
  }

  // ----- the inverse law on attributed documents -----

  /** Two readings that agree on an attribute string. */
  ghost predicate Agree(s1: AttrSem, s2: AttrSem, a: string) {
    Presence(s1, a) == Presence(s2, a) && forall m :: Mutate(s1, m, a) == Mutate(s2, m, a)
  }

  lemma {:induction false} FreshAgree(s1: AttrSem, s2: AttrSem, a: string, t: string)
    requires Agree(s1, s2, a)
    ensures Fresh(s1, a, t) == Fresh(s2, a, t)
  {
    hide Presence, Mutate;
    if t != "" { FreshAgree(s1, s2, a, t[1..]); }
  }

  lemma {:induction false} RestyleAgree(s1: AttrSem, s2: AttrSem, a: string, d: Doc)
    requires Agree(s1, s2, a)
    ensures Restyle(s1, a, d) == Restyle(s2, a, d)
  {
    hide Presence, Mutate;
    if d != [] { RestyleAgree(s1, s2, a, d[1..]); }
  }

  lemma {:induction false} RunAgree(s1: AttrSem, s2: AttrSem, ops: seq<Op>, bank: string, doc: Doc)
    requires Run(s1, ops, bank, doc).Some? && (s2.strict ==> s1.strict)
    requires forall i :: 0 <= i < |ops| ==> Agree(s1, s2, ops[i].attribs)
    ensures Run(s2, ops, bank, doc) == Run(s1, ops, bank, doc)
    decreases |ops|
  {
    hide RunOp, Agree;
    if ops != [] {
      assert Agree(s1, s2, ops[0].attribs);
      RunFirst(s1, ops, bank, doc);
      RunFirst(s2, ops, bank, doc);
      RunOpAgree(s1, s2, ops[0], bank, doc);
      var e := RunOp(s1, ops[0], bank, doc).value;
      RunAgree(s1, s2, ops[1..], e.bank, e.doc);
      hide Run;
    }
  }

  lemma {:induction false} RunOpAgree(s1: AttrSem, s2: AttrSem, op: Op, bank: string, doc: Doc)
    requires RunOp(s1, op, bank, doc).Some? && (s2.strict ==> s1.strict) && Agree(s1, s2, op.attribs)
    ensures RunOp(s2, op, bank, doc) == RunOp(s1, op, bank, doc)
  {
    hide Newlines, Text, Clean, Fresh, Restyle, Agree;
    if op.code == Insert {
      FreshAgree(s1, s2, op.attribs, bank[..op.chars]);
    } else if op.code == Keep {
      RestyleAgree(s1, s2, op.attribs, doc[..op.chars]);
    }
  }

  lemma {:induction false} PoolsAgree(b1: bool, b2: bool, p: Pool, q: Pool, a: string)
    requires p == q || (Extends(p, q) && Resolved(a, p))
    ensures Agree(In(b1, p), In(b2, q), a)
  {
    hide Extends, Resolved;
    if p != q { MeaningExtends(a, p, q); }
  }

  /** The pool knows the attributes of the attribution. */
  ghost predicate NamedAttribution(alines: seq<string>, pool: Pool) {
    RunsNamed(In(true, pool), Flatten(alines), pool)
  }

  /**
    Undo with attributes: on the document that the lines and attribution lines stand for, doing the changeset and
    then its inverse, read through the pool that Inverse leaves, restores every character with its attributes exactly
    when the changeset changes no key of a character that has the empty value for it.
   */
  lemma {:induction false} InverseAttributed(cs: string, lines: seq<string>, alines: seq<string>, pool: Pool,
          order: Order)
    returns (d: Doc)
    requires WellFormed(cs, Join(lines)) && CoveredBy(alines, lines) && Enumerates(order)
    requires Good(pool) && AttribsResolved(cs, pool) && NamedAttribution(alines, pool)
    ensures Text(d) == Join(lines) && Produces(In(false, pool), Flatten(alines), Join(lines), [], d)
    ensures Inverse(cs, lines, alines, pool, order).Ok? && AfterDoc(pool, cs, d).Some?
    ensures var (inv, p) := Inverse(cs, lines, alines, pool, order).value;
            && Good(p) && Extends(pool, p)
            && AfterDoc(p, inv, AfterDoc(pool, cs, d).value) == Some(Returned(In(true, p), OpsOf(cs), d))
            && (AfterDoc(p, inv, AfterDoc(pool, cs, d).value) == Some(d) <==> AllCanBeTakenBack(pool, OpsOf(cs), d))
  {
    hide Unpack, Deserialize, Undo, Assemble, AttribText, Run, RunsOk, Plain, Canonical, OpsOf, Normal, After, Flatten,
         Join, CheckRep, WellFormed;
    hide Inverse, Good, Extends, Resolved, Text, Unchecked, Returned, AllCanBeTakenBack;
    var text, att, ops, bank := Join(lines), Flatten(alines), OpsOf(cs), Unpack(cs).bank;
    InverseRestores(cs, lines, alines, pool, order);
    FlattenCovers(alines, lines);
    var u := Undo(ops, att, text, pool, order, 0);
    var q := u.pool;
    assert Inverse(cs, lines, alines, pool, order).value.1 == q by { UncheckedPool(cs, lines, alines, pool, order); }
    UndoPool(ops, att, text, pool, order, 0);
    d := ReadDoc(att, text, pool, q);
    var m := ChangedDoc(cs, text, d, pool, q);
    forall i | 0 <= i < |att| ensures Named(In(true, q), att[i].attribs, pool) {
      assert Named(In(true, pool), att[i].attribs, pool);
    }
    ExtendsItself(q);
    Undoes(In(true, q), ops, bank, att, text, d, m, pool, order, 0);
    var r := Returned(In(true, q), ops, d);
    StripProduces(In(true, q), u.ops, u.bank, m, r);
    AssembleProduces(In(true, q), u.ops, u.bank, m, r);
    var inv := Inverse(cs, lines, alines, pool, order).value.0;
    LaxProduces(q, OpsOf(inv), Unpack(inv).bank, m, r);
    ReturnedSame(In(true, q), ops, d);
    TakenBackInPools(ops, d, pool, q);
  }

  lemma {:induction false} TakenBackInPools(ops: seq<Op>, d: Doc, p: Pool, q: Pool)
    requires Extends(p, q) && forall i :: 0 <= i < |ops| ==> Resolved(ops[i].attribs, p)
    ensures AllCanBeTakenBack(p, ops, d) <==> AllCanBeTakenBack(q, ops, d)
    decreases |ops|
  {
    hide Extends, Resolved, FromString, CanTakeBack;
    if ops != [] {
      MeaningExtends(ops[0].attribs, p, q);
      var k := Min(ops[0].chars, |d|);
      forall i | 0 <= i < |ops[1..]| ensures Resolved(ops[1..][i].attribs, p) { assert ops[1..][i] == ops[i + 1]; }
      TakenBackInPools(ops[1..], if ops[0].code == Keep || ops[0].code == Delete then d[k..] else d, p, q);
    }
  }

  lemma {:induction false} UncheckedPool(cs: string, lines: seq<string>, alines: seq<string>, pool: Pool, order: Order)
    ensures Unchecked(cs, lines, alines, pool, order).1 ==
            Undo(OpsOf(cs), Flatten(alines), Join(lines), pool, order, 0).pool
  {}

  lemma {:induction false} LaxProduces(q: Pool, ops: seq<Op>, bank: string, m: Doc, d: Doc)
    requires Produces(In(true, q), ops, bank, m, d)
    ensures Apply(In(false, q), ops, bank, m) == Some(d)
  {
    hide Run, Agree;
    forall i | 0 <= i < |ops| ensures Agree(In(true, q), In(false, q), ops[i].attribs) {
      PoolsAgree(true, false, q, q, ops[i].attribs);
    }
    RunAgree(In(true, q), In(false, q), ops, bank, m);
  }

  /** The document that an attribution and a text stand for, in a pool and in a larger one. */
  lemma {:induction false} ReadDoc(att: seq<Op>, text: string, pool: Pool, q: Pool) returns (d: Doc)
    requires Produces(Ignore(true), att, text, [], Plain(text)) && RunsNamed(In(true, pool), att, pool)
             && Extends(pool, q)
    ensures Text(d) == text
    ensures Produces(In(false, pool), att, text, [], d) && Produces(In(true, q), att, text, [], d)
  {
    hide Run, Agree, Plain, Extends, Resolved, FromString, Text;
    SameText(Ignore(true), In(true, pool), att, text, [], []);
    var e := Run(In(true, pool), att, text, []).value;
    d := e.out + e.doc;
    forall i | 0 <= i < |att|
      ensures Agree(In(true, pool), In(false, pool), att[i].attribs)
              && Agree(In(true, pool), In(true, q), att[i].attribs)
    {
      assert Named(In(true, pool), att[i].attribs, pool);
      PoolsAgree(true, false, pool, pool, att[i].attribs);
      PoolsAgree(true, true, pool, q, att[i].attribs);
    }
    RunAgree(In(true, pool), In(false, pool), att, text, []);
    RunAgree(In(true, pool), In(true, q), att, text, []);
    SameLength(In(true, pool), att, text, d);
  }

  /** What the changeset makes of the document, in a pool and in a larger one. */
  lemma {:induction false} ChangedDoc(cs: string, text: string, d: Doc, pool: Pool, q: Pool) returns (m: Doc)
    requires WellFormed(cs, text) && Text(d) == text && AttribsResolved(cs, pool) && Extends(pool, q)
    ensures AfterDoc(pool, cs, d) == Some(m) && Produces(In(true, q), OpsOf(cs), Unpack(cs).bank, d, m)
  {
    hide Run, Agree, Plain, Extends, Resolved, FromString, Text, CheckRep, Unpack, Deserialize, OpsOf;
    var ops, bank := OpsOf(cs), Unpack(cs).bank;
    PlainText(text);
    SameText(Ignore(true), In(true, pool), ops, bank, Plain(text), d);
    WellFormedProduces(cs, text);
    var e := Run(In(true, pool), ops, bank, d).value;
    m := e.out + e.doc;
    forall i | 0 <= i < |ops|
      ensures Agree(In(true, pool), In(false, pool), ops[i].attribs)
              && Agree(In(true, pool), In(true, q), ops[i].attribs)
    {
      PoolsAgree(true, false, pool, pool, ops[i].attribs);
      PoolsAgree(true, true, pool, q, ops[i].attribs);
    }
    RunAgree(In(true, pool), In(false, pool), ops, bank, d);
    RunAgree(In(true, pool), In(true, q), ops, bank, d);
  }
}
