/**
  When undoing a changeset leaves the lines of a text in order: what the changeset deletes at the end of the text comes
  back run by run.
 */
module InverseOrder {
  import opened Basics
  import opened Pools
  import opened Attributes
  import opened Ops
  import opened Syntax
  import opened Assemblers
  import opened Changesets
  import opened Lines
  import opened TextMutation
  import opened UndoAttributes
  import opened Inversion
  import opened InverseLaws
  import opened Attributions
  import opened FinalNewlines
  import opened LineOrder
  import opened LineReaders
  import opened Builders
  import CanonicalForm
  import Rebasing
  import Algebra

  // ----- the undo operations at the end -----

  /** Operations without characters can be left out. */
  lemma {:induction false} EndInsertsProduce(sem: AttrSem, a: seq<Op>, b: seq<Op>, t: string, d: Doc)
    requires OnlyInserts(a) && Produces(sem, a + b, t, [], d)
    ensures Produces(sem, EndInserts(a) + b, t, [], d)
    decreases |a|
  {
    hide Run, Newlines, Fresh, HasKeep;
    if a == [] {
      assert [] + b == b && a + b == b;
    } else {
      var op := a[0];
      assert a + b == [op] + (a[1..] + b);
      NoKeepsHere(a[1..]);
      var e, d' := UnfoldProduces(sem, a + b, t, [], d);
      EndInsertsProduce(sem, a[1..], b, e.bank, d');
      if op.chars == 0 {
        assert [] + EndInserts(a[1..]) == EndInserts(a[1..]);
        assert t[0..] == t && e.out == [] && d == [] + d';
      } else {
        ProducesInsert(sem, op, t[..op.chars], EndInserts(a[1..]) + b, e.bank, [], d');
        assert [op] + (EndInserts(a[1..]) + b) == EndInserts(a) + b;
        assert t[..op.chars] + t[op.chars..] == t;
      }
    }
  }

  lemma {:induction false} NoKeepsHere(ops: seq<Op>)
    requires OnlyInserts(ops)
    ensures !HasKeep(ops) && Consumed(ops) == 0
  {
    if ops != [] { NoKeepsHere(ops[1..]); }
  }

  lemma {:induction false} OnlyKeeps(ss: seq<Stretch>, change: AttribMap, pool: Pool, order: Order, n: nat)
    ensures var u := UndoKeep(ss, change, pool, order, n).0;
            EndInserts(u) == [] && Consumed(u) == Length(ss) && (Length(ss) > 0 ==> HasKeep(u))
    decreases |ss|
  {
    hide Back, UndoKeep, HasKeep;
    if ss == [] {
      UndoKeepEnds(change, pool, order, n);
    } else {
      UndoKeepStep(ss, change, pool, order, n);
      var (a, p) := Back(change, ss[0].attribs, pool, order, n);
      OnlyKeeps(ss[1..], change, p, order, n + 1);
      var op, rest := Op(Keep, ss[0].chars, if ss[0].endsLine then 1 else 0, a),
          UndoKeep(ss[1..], change, p, order, n + 1).0;
      assert ([op] + rest)[1..] == rest && [] + EndInserts(rest) == EndInserts(rest);
      HasKeepFirst([op] + rest);
    }
  }

  /** The undo operations at the end bring back exactly what was deleted behind the last character kept. */
  ghost predicate EndUndone(v: AttrSem, ops: seq<Op>, u: Undone, text: string, d: Doc, m: string, pre: string) {
    var k, e := Consumed(ops), DeletedEnd(ops);
    && e <= k <= |text| == |d|
    && (HasKeep(u.ops) <==> HasKeep(ops)) && (!HasKeep(ops) ==> e == k && pre == "")
    && Produces(v, EndInserts(u.ops), text[k - e..k], [], d[k - e..k]) && u.bank == pre + text[k - e..k]
    && Consumed(u.ops) + |text| == |m| + k
  }

  lemma {:induction false} NothingUndone(v: AttrSem, bank: string, text: string, d: Doc, pool: Pool)
    requires |text| == |d|
    ensures ApplyOps([], bank, text) == Ok(text) && EndUndone(v, [], Undone([], "", pool), text, d, text, "")
  {
    assert text[0..0] == "" && d[0..0] == [] && EndInserts([]) == [] && "" + "" == "";
    NothingProducedIn(v, []);
  }

  /** One operation more, in front. */
  lemma {:induction false} EndFirst(ops: seq<Op>)
    requires ops != [] && ops[0].chars > 0
    ensures HasKeep(ops) <==> ops[0].code == Keep || HasKeep(ops[1..])
    ensures Consumed(ops) == (if ops[0].code == Insert then 0 else ops[0].chars) + Consumed(ops[1..])
    ensures DeletedEnd(ops) ==
            (if ops[0].code == Delete && !HasKeep(ops[1..]) then ops[0].chars else 0) + DeletedEnd(ops[1..])
  {
    hide HasKeep;
    HasKeepFirst(ops);
  }

  lemma {:induction false} KeepUndone(v: AttrSem, ops: seq<Op>, keeps: seq<Op>, u: Undone, text: string, d: Doc,
          m: string, pre: string)
    requires ops != [] && ops[0].code == Keep && 0 < ops[0].chars <= |text| == |d|
    requires HasKeep(keeps) && EndInserts(keeps) == [] && Consumed(keeps) == ops[0].chars
    requires EndUndone(v, ops[1..], u, text[ops[0].chars..], d[ops[0].chars..], m, pre)
    ensures EndUndone(v, ops, Undone(keeps + u.ops, "" + u.bank, u.pool), text, d, text[..ops[0].chars] + m, pre)
  {
    hide HasKeep, EndInserts, Consumed, DeletedEnd, Produces;
    var c, k, e := ops[0].chars, Consumed(ops[1..]), DeletedEnd(ops[1..]);
    EndFirst(ops);
    HasKeepConcat(keeps, u.ops);
    EndInsertsConcat(keeps, u.ops);
    CountsConcat(keeps, u.ops);
    SliceBehind(text, c, k - e, k);
    SliceBehind(d, c, k - e, k);
    assert [] + EndInserts(u.ops) == EndInserts(u.ops) && "" + u.bank == u.bank;
  }

  lemma {:induction false} SliceBehind<T>(s: seq<T>, c: nat, i: nat, j: nat)
    requires c <= |s| && i <= j <= |s| - c
    ensures s[c..][i..j] == s[c + i..c + j]
  {}

  lemma {:induction false} InsertUndone(v: AttrSem, ops: seq<Op>, del: Op, u: Undone, text: string, d: Doc, m: string,
          w: string, pre: string)
    requires ops != [] && ops[0].code == Insert && ops[0].chars > 0 && |w| == ops[0].chars
    requires del.code == Delete && del.chars == ops[0].chars
    requires EndUndone(v, ops[1..], u, text, d, m, pre)
    ensures EndUndone(v, ops, Undone([del] + u.ops, "" + u.bank, u.pool), text, d, w + m, pre)
  {
    hide HasKeep, EndInserts, DeletedEnd, Produces;
    EndFirst(ops);
    HasKeepConcat([del], u.ops);
    EndInsertsConcat([del], u.ops);
    EndInsertsOne(del);
    assert ([del] + u.ops)[1..] == u.ops;
    assert [] + EndInserts(u.ops) == EndInserts(u.ops) && "" + u.bank == u.bank;
  }

  lemma {:induction false} DeleteUndone(v: AttrSem, ops: seq<Op>, ss: seq<Stretch>, u: Undone, text: string, d: Doc,
          m: string, pre: string)
    returns (pre': string)
    requires ops != [] && ops[0].code == Delete && 0 < ops[0].chars <= |text| == |d|
    requires var c := ops[0].chars; Stretches(v, ss, text[..c], d[..c])
    requires EndUndone(v, ops[1..], u, text[ops[0].chars..], d[ops[0].chars..], m, pre)
    ensures var c := ops[0].chars;
            EndUndone(v, ops, Undone(UndoDelete(ss, text[..c]) + u.ops, text[..c] + u.bank, u.pool), text, d, m, pre')
  {
    hide HasKeep, EndInserts, Consumed, DeletedEnd, Produces, UndoDelete, Stretches;
    var c, k, e := ops[0].chars, Consumed(ops[1..]), DeletedEnd(ops[1..]);
    var ins := UndoDelete(ss, text[..c]);
    EndFirst(ops);
    UndoDeleteInserts(ss, text[..c]);
    NoKeepsHere(ins);
    HasKeepConcat(ins, u.ops);
    EndInsertsConcat(ins, u.ops);
    CountsConcat(ins, u.ops);
    SliceBehind(text, c, k - e, k);
    SliceBehind(d, c, k - e, k);
    if HasKeep(u.ops) {
      pre' := text[..c] + pre;
      JoinEmpty(EndInserts(u.ops));
      Associate(text[..c], pre, text[c + k - e..c + k]);
    } else {
      pre' := "";
      UndoDeleteProduces(v, ss, text[..c], d[..c], EndInserts(u.ops), text[c..c + k], [], d[c..c + k]);
      EndInsertsProduce(v, ins, EndInserts(u.ops), text[..c] + text[c..c + k], d[..c] + d[c..c + k]);
      JoinSlices(text, c, k);
      JoinSlices(d, c, k);
      JoinEmpty(text[c..c + k]);
      JoinEmpty(text[0..c + k]);
    }
  }

  lemma {:induction false} JoinEmpty<T>(s: seq<T>)
    ensures [] + s == s
  {}

  lemma {:induction false} JoinSlices<T>(s: seq<T>, c: nat, k: nat)
    requires c + k <= |s|
    ensures s[..c] + s[c..c + k] == s[0..c + k]
  {}

  lemma {:induction false} UndoEnd(v: AttrSem, ops: seq<Op>, bank: string, att: seq<Op>, text: string, d: Doc,
          pool: Pool, order: Order, n: nat)
    returns (pre: string)
    requires v.strict && FitsText(ops, bank, text) && Rebasing.Positive(ops) && RunsOk(att)
    requires Produces(v, att, text, [], d)
    ensures ApplyOps(ops, bank, text).Ok?
    ensures EndUndone(v, ops, Undo(ops, att, text, pool, order, n), text, d, ApplyOps(ops, bank, text).value, pre)
    decreases |ops|
  {
    hide FitsText, ApplyOps, Undo, Run, EndUndone, RunsOk, Newlines, Clean, UndoKeep, UndoDelete, UpdatePool,
         FromString, AttribsFromString, TakeRuns, HasKeep, EndInserts, Produces;
    FitsApplies(ops, bank, text);
    SameLength(v, att, text, d);
    if ops == [] {
      UndoNothing(att, text, pool, order, n);
      pre := "";
      NothingUndone(v, bank, text, d, pool);
    } else {
      var op, m := ops[0], ApplyOps(ops, bank, text).value;
      FitsStep(ops, bank, text, "", m) by { assert "" + m == m; }
      assert (op.code == Insert ==> op.chars <= |bank|) && (op.code != Insert ==> op.chars <= |text|)
             && op.code != Nop by { FirstFits(op, bank, text); }
      UndoUnfold(ops, att, text, pool, order, n);
      var s := UndoOp(op, att, text, pool, order, n);
      var k, r := op.chars, TakeRuns(att, op.chars);
      var u := Undo(ops[1..], s.att, s.text, s.pool, order, s.n);
      var m' := ApplyOps(ops[1..], BankAfter(op, bank), s.text).value;
      assert "" + Wrote(op, bank, text) == Wrote(op, bank, text) && Wrote(op, bank, text) + m' == m;
      if op.code == Insert {
        pre := UndoEnd(v, ops[1..], bank[k..], att, text, d, s.pool, order, s.n);
        InsertUndone(v, ops, s.ops[0], u, text, d, m', bank[..k], pre);
      } else {
        TakeRunsCovers(v, att, k, text, d);
        pre := UndoEnd(v, ops[1..], bank, r.rest, text[k..], d[k..], s.pool, order, s.n);
        if op.code == Delete {
          assert m == m' by { assert "" + m' == m'; }
          pre := DeleteUndone(v, ops, r.taken, u, text, d, m', pre);
        } else {
          assert HasKeep(s.ops) && EndInserts(s.ops) == [] && Consumed(s.ops) == k by {
            if op.attribs == "" {
              EndInsertsOne(s.ops[0]);
              assert s.ops[1..] == [];
            } else {
              ProducedChars(v, att, text, d);
              TakenLength(att, k);
              OnlyKeeps(r.taken, FromString(op.attribs, pool),
                  UpdatePool(AttribsFromString(op.attribs, pool), false, pool), order, n);
            }
          }
          KeepUndone(v, ops, s.ops, u, text, d, m', pre);
        }
      }
    }
  }

  lemma {:induction false} FirstFits(op: Op, bank: string, text: string)
    requires FitsFirst(op, bank, text)
    ensures (op.code == Insert ==> op.chars <= |bank|) && (op.code != Insert ==> op.chars <= |text|) && op.code != Nop
  {
    assert [op][0] == op;
  }

  // ----- the law -----

  /**
    What the operations delete at the end of a document is torn: the text is used up, and what is deleted behind the
    last character kept begins in the middle of a line or changes its attributes within one.
   */
  predicate EndTorn(ops: seq<Op>, d: Doc) {
    var n := DeletedEnd(ops);
    Consumed(ops) == |d| && n <= |d| && Torn(Text(d), n, d[|d| - n..])
  }

  /**
    The inverse of a changeset stops in the middle of a line, and so leaves an empty line behind, exactly when what the
    changeset deletes at the end of the document is torn: it comes back run by run.
   */
  lemma {:induction false} InverseStops(cs: string, lines: seq<string>, alines: seq<string>, pool: Pool, order: Order,
          v: Pool, d: Doc)
    requires WellFormed(cs, Join(lines)) && CoveredBy(alines, lines) && Enumerates(order)
    requires EndsInNewline(Join(lines)) && EndsInNewline(After(cs, Join(lines)))
    requires Produces(Verbatim(true, v), Flatten(alines), Join(lines), [], d)
    ensures Inversion.Inverse(cs, lines, alines, pool, order).Ok?
    ensures var inv := Inversion.Inverse(cs, lines, alines, pool, order).value.0;
            StopsMidline(OpsOf(inv), Unpack(inv).bank, After(cs, Join(lines)), "") <==> EndTorn(OpsOf(cs), d)
  {
    hide Unpack, Undo, Assemble, ApplyToText, Run, RunsOk, Plain, OpsOf, After, Flatten, Join, FitsText, ApplyOps,
         Inversion.Inverse, StopsMidline, WellFormed, CoveredBy, Produces, EndTorn, Unchecked, CheckRep;
    var text := Join(lines);
    InverseRestores(cs, lines, alines, pool, order);
    UndoRestores(cs, lines, alines, pool, order);
    WellFormedFits(cs, text);
    ChangePositive(cs);
    FlattenCovers(alines, lines);
    AfterIs(cs, text);
    UndoStops(OpsOf(cs), Unpack(cs).bank, Flatten(alines), text, After(cs, text), v, d, pool, order);
  }

  /** The same for the operations, which the assembler puts in order. */
  lemma {:induction false} UndoStops(ops: seq<Op>, bank: string, att: seq<Op>, text: string, m: string, v: Pool, d: Doc,
          pool: Pool, order: Order)
    requires FitsText(ops, bank, text) && ApplyOps(ops, bank, text) == Ok(m) && Rebasing.Positive(ops) && RunsOk(att)
    requires EndsInNewline(text) && EndsInNewline(m) && Produces(Verbatim(true, v), att, text, [], d)
    requires var u := Undo(ops, att, text, pool, order, 0); Produces(Ignore(true), u.ops, u.bank, Plain(m), Plain(text))
    ensures var u := Undo(ops, att, text, pool, order, 0);
            StopsMidline(Assemble(u.ops), u.bank, m, "") <==> EndTorn(ops, d)
  {
    hide Undo, Assemble, Run, RunsOk, Plain, FitsText, ApplyOps, StopsMidline, Torn, Consumed, DeletedEnd, EndInserts,
         HasKeep, Produces;
    SameLength(Verbatim(true, v), att, text, d);
    var u := Undo(ops, att, text, pool, order, 0);
    var pre := UndoEnd(Verbatim(true, v), ops, bank, att, text, d, pool, order, 0);
    var k, e := Consumed(ops), DeletedEnd(ops);
    Algebra.ProducesLines(Ignore(true), u.ops, u.bank, Plain(m), Plain(text));
    AssembledStops(u.ops, u.bank, m, text, v, text[k - e..k], d[k - e..k]);
    assert |text[k - e..k]| == e;
    if k == |d| { assert d[k - e..k] == d[|d| - e..]; }
  }

  lemma {:induction false} ChangePositive(cs: string)
    requires exists t :: WellFormed(cs, t)
    ensures Rebasing.Positive(OpsOf(cs))
  {
    hide CheckRep, Unpack, OpsOf, Serialize, AllPrintable, LengthChange, InsertsFit, Pack, Canonical, Run, Plain;
    CheckRepRegular(cs);
    Algebra.CanonicalPositive(OpsOf(cs));
  }

  // ----- where the changeset itself leaves the lines in order -----

  /** Behind the last character kept, deletions come first. */
  lemma {:induction false} InsertsLast(ops: seq<Op>)
    requires Canonical(ops) && !HasKeep(ops) && ops != [] && ops[0].code == Insert
    ensures DeletedEnd(ops) == 0
  {
    hide HasKeep, Canonical;
    HasKeepFirst(ops);
    if ops[1..] != [] {
      CanonicalNext(ops);
      HasKeepFirst(ops[1..]);
      FirstPositive(ops[1..]);
      InsertsLast(ops[1..]);
    }
  }

  lemma {:induction false} CanonicalNext(ops: seq<Op>)
    requires Canonical(ops) && |ops| > 1
    ensures Canonical(ops[1..]) && ops[1].code != Nop
    ensures ops[0].code == Insert && ops[1].code != Keep ==> ops[1].code == Insert
  {
    CanonicalForm.CanonicalTail(ops);
    assert MayFollow(ops[0], ops[1]);
    assert ops[1].code in {Keep, Delete, Insert};
  }

  /** Where nothing is kept any more, what is written does not change until the text is used up. */
  lemma {:induction false} DeletesRest(ops: seq<Op>, bank: string, text: string, written: string)
    requires Canonical(ops) && FitsText(ops, bank, text) && !StopsMidline(ops, bank, text, written)
    requires !HasKeep(ops) && Consumed(ops) == |text| && DeletedEnd(ops) > 0
    ensures DeletedEnd(ops) == |text| && !Midline(written)
    decreases |ops|
  {
    hide Newlines, Clean, HasKeep, Canonical, Midline;
    var op, c := ops[0], ops[0].chars;
    FirstPositive(ops);
    HasKeepFirst(ops);
    AllDeleted(ops);
    if op.code == Insert {
      InsertsLast(ops);
    } else {
      CanonicalForm.CanonicalTail(ops);
      assert Wrote(op, bank, text) == "" && written + "" == written;
      if DeletedEnd(ops[1..]) > 0 {
        DeletesRest(ops[1..], bank, text[c..], written);
      } else {
        AllDeleted(ops[1..]);
        assert !StopsMidline(ops[1..], bank, "", written);
      }
    }
  }

  /** Operations that do not stop in the middle of a line delete no end that begins in the middle of one. */
  lemma {:induction false} DeletesWhole(ops: seq<Op>, bank: string, text: string, written: string, before: string)
    requires Canonical(ops) && FitsText(ops, bank, text) && !StopsMidline(ops, bank, text, written)
    requires HasKeep(ops) || (Midline(before) <==> Midline(written))
    requires Consumed(ops) == |text| && DeletedEnd(ops) > 0
    ensures DeletedEnd(ops) <= |text| && !Midline(before + text[..|text| - DeletedEnd(ops)])
    decreases |ops|
  {
    hide Newlines, Clean, HasKeep, Canonical, MayFollow, Midline, StopsMidline;
    var op, c, n := ops[0], ops[0].chars, DeletedEnd(ops);
    if !HasKeep(ops) {
      DeletesRest(ops, bank, text, written);
      assert text[..0] == "" && before + "" == before;
    } else {
      FirstPositive(ops);
      HasKeepFirst(ops);
      CanonicalForm.CanonicalTail(ops);
      StopsLater(ops, bank, text, written);
      var w := written + Wrote(op, bank, text);
      if op.code == Insert {
        DeletesWhole(ops[1..], bank[c..], text, w, before);
      } else {
        SameEnd(before, written, text[..c]);
        DeletesWhole(ops[1..], bank, text[c..], w, before + text[..c]);
        TextBefore(before, text, c, |text| - n);
      }
    }
  }

  lemma {:induction false} StopsLater(ops: seq<Op>, bank: string, text: string, written: string)
    requires ops != [] && !StopsMidline(ops, bank, text, written)
    ensures var op := ops[0];
            !StopsMidline(ops[1..], BankAfter(op, bank), TextAfter(op, text), written + Wrote(op, bank, text))
  {}

  lemma {:induction false} TextBefore(a: string, t: string, c: nat, i: nat)
    requires c <= i <= |t|
    ensures a + t[..c] + t[c..][..i - c] == a + t[..i]
  {
    assert t[..c] + t[c..][..i - c] == t[..i];
  }

  lemma {:induction false} FirstPositive(ops: seq<Op>)
    requires Canonical(ops) && ops != []
    ensures ops[0].chars > 0 && ops[0].code != Nop
  {}

  lemma {:induction false} SameEnd(a: string, b: string, t: string)
    requires t != ""
    ensures Midline(a + t) <==> Midline(b + t)
  {
    assert (a + t)[|a + t| - 1] == t[|t| - 1] == (b + t)[|b + t| - 1];
  }

  lemma {:induction false} AllDeleted(ops: seq<Op>)
    requires !HasKeep(ops) && Canonical(ops)
    ensures DeletedEnd(ops) == Consumed(ops)
  {
    hide HasKeep, MayFollow;
    if ops != [] {
      HasKeepFirst(ops);
      CanonicalForm.CanonicalTail(ops);
      AllDeleted(ops[1..]);
    }
  }

  /** What the operations delete at the end of the document changes its attributes within a line. */
  predicate EndBreaks(ops: seq<Op>, d: Doc) {
    var n := DeletedEnd(ops);
    Consumed(ops) == |d| && n <= |d| && Breaks(d[|d| - n..])
  }

  /** Where the changeset itself leaves the lines in order, only a change of attributes within a line can tear them. */
  lemma {:induction false} TornBreaks(cs: string, text: string, d: Doc)
    requires WellFormed(cs, text) && Text(d) == text && !StopsMidline(OpsOf(cs), Unpack(cs).bank, text, "")
    ensures EndTorn(OpsOf(cs), d) <==> EndBreaks(OpsOf(cs), d)
  {
    hide OpsOf, StopsMidline, Consumed, DeletedEnd, Breaks, Midline, Text, WellFormed;
    if Consumed(OpsOf(cs)) == |text| && DeletedEnd(OpsOf(cs)) > 0 { WholeEnd(cs, text); }
    NoBreaks(d[|d|..]);
  }

  lemma {:induction false} WholeEnd(cs: string, text: string)
    requires WellFormed(cs, text) && !StopsMidline(OpsOf(cs), Unpack(cs).bank, text, "")
    requires Consumed(OpsOf(cs)) == |text| && DeletedEnd(OpsOf(cs)) > 0
    ensures DeletedEnd(OpsOf(cs)) <= |text| && !Midline(text[..|text| - DeletedEnd(OpsOf(cs))])
  {
    hide Unpack, CheckRep, Run, Plain, OpsOf, FitsText, StopsMidline, Consumed, DeletedEnd, Midline, Canonical,
         AllPrintable, InsertsFit, LengthChange, Pack, Serialize, HasKeep;
    WellFormedFits(cs, text);
    CheckRepRegular(cs);
    var ops := OpsOf(cs);
    DeletesWhole(ops, Unpack(cs).bank, text, "", "");
    assert "" + text[..|text| - DeletedEnd(ops)] == text[..|text| - DeletedEnd(ops)];
  }
}
