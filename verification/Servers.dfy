/**
  A client's change at the server, which rebases it over the revisions that came in between: the loop of
  lib/ws/PadMessageHandler.go, beside the client that takes over the same revisions past its pending change.
 */
module Servers {
  import opened Basics
  import opened Pools
  import opened Attributes
  import opened Ops
  import opened Syntax
  import opened Assemblers
  import opened Rebasing
  import opened Changesets
  import opened Algebra
  import opened Clients
  import opened Splices
  import opened InsertionOrder
  import ZipLoops

  /** A revision of the pad: its changeset, and its author if it has one. */
  datatype Revision = Revision(changeset: string, author: Option<string>)

  /** What a client sends: its changeset in the pad's pool, and its author. */
  datatype Sent = Sent(changeset: string, author: string)

  /** The changeset that does nothing to a text of length `n`. */
  function Identity(n: nat): string { Pack(n, n, "", "") }

  /** The revision is the very change that was sent: it came in before. */
  predicate Resent(sent: Sent, rev: Revision) { rev.changeset == sent.changeset && rev.author == Some(sent.author) }

  /** What is rebased over a revision: nothing at all is left to do of a change that came in before. */
  function LeftToDo(sent: Sent, rev: Revision, cs: string): string {
    if Resent(sent, rev) then Identity(Unpack(sent.changeset).oldLen) else cs
  }

  /** `cs` rebased over the revisions, one after the other. */
  function Rebase(revs: seq<Revision>, sent: Sent, cs: string, pool: Pool, order: Order): Result<string>
    decreases |revs|
  {
    if revs == [] then Ok(cs)
    else match Follow(revs[0].changeset, LeftToDo(sent, revs[0], cs), Setting(false, pool, order))
      case Err(e) => Err(e)
      case Ok(f) => Rebase(revs[1..], sent, f, pool, order)
  }

  /** The text of a client with the pending change `cs` once it has taken over the revisions past it. */
  function CaughtUp(revs: seq<Revision>, cs: string, text: string, pool: Pool, o1: Order, o2: Order): string
    decreases |revs|
  {
    if revs == [] then text
    else
      var (c, s) := MeantTransformX(cs, revs[0].changeset, pool, o1, o2);
      CaughtUp(revs[1..], c, After(s, text), pool, o1, o2)
  }

  /** Revisions that lead from one text to the next, with attributes that the pool knows. */
  ghost predicate Chain(revs: seq<Revision>, pool: Pool, t: string, r: string)
    decreases |revs|
  {
    hide CheckRep, Run, Unpack;
    if revs == [] then t == r
    else
      var cs := revs[0].changeset;
      WellFormed(cs, t) && AttribsResolved(cs, pool) && Chain(revs[1..], pool, After(cs, t), r)
  }

  /** The rebase succeeds, and its result leads from one text to another. */
  ghost predicate EndsAt(r: Result<string>, head: string, text: string) { r.Ok? && Leads(r.value, head, text) }

  /**
    Client and server meet: a change made on an old revision and rebased by the server to its head leads there to
    exactly the text that the client has once it has taken over the same revisions past its change.
   */
  lemma {:induction false} ClientMeetsServer(revs: seq<Revision>, sent: Sent, cs: string, pool: Pool, o1: Order,
          o2: Order, t: string, text: string, head: string)
    requires forall i :: 0 <= i < |revs| ==>
             !(revs[i].changeset == sent.changeset && revs[i].author == Some(sent.author))
    requires Ready(pool, o1, o2) && AttribsResolved(cs, pool)
    requires Leads(cs, t, text) && Chain(revs, pool, t, head)
    ensures EndsAt(Rebase(revs, sent, cs, pool, o1), head, CaughtUp(revs, cs, text, pool, o1, o2))
    decreases |revs|
  {
    hide WellFormed, Follow, After, AttribsResolved, Ready;
    if revs != [] {
      var rev := revs[0].changeset;
      var r := SquareLeads(cs, rev, pool, o1, o2, t, text, After(rev, t));
      var (c, s) := MeantTransformX(cs, rev, pool, o1, o2);
      assert !Resent(sent, revs[0]);
      ClientMeetsServer(revs[1..], sent, c, pool, o1, o2, After(rev, t), r, head);
    }
  }

  /**
    Who comes first: a text that was put in by a revision stands before the one that a client puts in at the same place
    without knowing of it, unless only the later one is to come first or only the earlier one begins with a newline.
   */
  lemma {:induction false} RevisionComesFirst(t: string, k: nat, x: string, y: string, a: string, b: string,
          rev: Revision, sent: Sent, pool: Pool, order: Order)
    requires k <= |t| && x != "" && y != "" && AttribText(a) && AttribText(b) && Resolved(a, pool) && Resolved(b, pool)
    requires MakeSplice(t, k, 0, x, a) == Ok(rev.changeset) && MakeSplice(t, k, 0, y, b) == Ok(sent.changeset)
    requires !(rev.changeset == sent.changeset && rev.author == Some(sent.author))
    ensures Rebase([rev], sent, sent.changeset, pool, order).Ok?
    ensures After(Rebase([rev], sent, sent.changeset, pool, order).value, t[..k] + x + t[k..]) ==
            if (InsertFirst(b, pool) && !InsertFirst(a, pool))
               || (InsertFirst(a, pool) == InsertFirst(b, pool) && x[0] == '\n' && y[0] != '\n')
            then t[..k] + y + x + t[k..] else t[..k] + x + y + t[k..]
  {
    hide MakeSplice, Follow, After, InsertFirst, AttribText, Resolved;
    SplicesMeet(t, k, x, y, a, b, Setting(false, pool, order));
    assert [rev][1..] == [];
  }

  // ----- a change that was sent before -----

  /** A change that has nothing to do. */
  ghost predicate Idle(cs: string, t: string) { WellFormed(cs, t) && OpsOf(cs) == [] }

  lemma {:induction false} IdentityIdle(t: string)
    ensures Idle(Identity(|t|), t)
  {
    hide Pack, Unpack, CheckRep, Run, Plain, ApplyToText, Serialize;
    assert Produces(Ignore(true), [], "", Plain(t), Plain(t)) by { NothingRuns(Plain(t)); }
    ProducedWellFormed([], "", t, t);
    assert Serialize([]) == "" by { NothingPrinted(); }
  }

  lemma {:induction false} NothingRuns(d: Doc)
    ensures Produces(Ignore(true), [], "", d, d)
  {
    assert [] + d == d;
  }

  lemma {:induction false} NothingPrinted()
    ensures Serialize([]) == ""
  {}

  lemma {:induction false} IdleBank(cs: string, t: string)
    requires Idle(cs, t)
    ensures Unpack(cs).bank == "" && After(cs, t) == t && AttribsResolved(cs, EMPTY_POOL)
    ensures forall pool :: AttribsResolved(cs, pool)
  {
    hide Pack, Unpack, CheckRep, Run, Plain, Serialize, Normal, AllPrintable, LengthChange, Deserialize;
    CheckRepRegular(cs);
    assert ApplyOps([], Unpack(cs).bank, t) == Ok(t);
  }

  /** A change with nothing to do stays one over every revision. */
  lemma {:induction false} IdleFollows(cs: string, rev: string, pool: Pool, o1: Order, o2: Order, t: string)
    requires Ready(pool, o1, o2) && Idle(cs, t) && WellFormed(rev, t) && AttribsResolved(rev, pool)
    ensures Follow(rev, cs, Setting(false, pool, o1)).Ok?
    ensures Idle(Follow(rev, cs, Setting(false, pool, o1)).value, After(rev, t))
  {
    hide Unpack, CheckRep, Run, Plain, Follow, FollowZip, Assemble, AttribsResolved, After, ApplyToText, Strip;
    IdleBank(cs, t);
    WellFormedProduces(rev, t);
    var c := Setting(false, pool, o1);
    FollowSound(rev, cs, c, Setting(true, pool, o2), t);
    NothingFollows(Ignore(true), OpsOf(rev), Unpack(rev).bank, c, 0, Plain(t), Plain(After(rev, t)));
    var ops := FollowZip(OpsOf(rev), [], Unpack(rev).bank, "", c, 0).value;
    AssembleStrip(ops);
    NothingAssembled();
  }

  lemma {:induction false} NothingAssembled()
    ensures Assemble([]) == []
  {
    AppendNothing();
  }

  lemma {:induction false} IdleRebases(revs: seq<Revision>, sent: Sent, cs: string, pool: Pool, o1: Order, o2: Order,
          t: string, head: string)
    requires Ready(pool, o1, o2) && Idle(cs, t) && Chain(revs, pool, t, head)
    ensures Rebase(revs, sent, cs, pool, o1).Ok? && Idle(Rebase(revs, sent, cs, pool, o1).value, head)
    decreases |revs|
  {
    hide Idle, Follow, After, AttribsResolved, Ready, Resent, WellFormed;
    if revs != [] {
      var rev := revs[0].changeset;
      var next := LeftToDo(sent, revs[0], cs);
      if Resent(sent, revs[0]) { ResentIdle(sent, revs[0], t); }
      IdleFollows(next, rev, pool, o1, o2, t);
      IdleRebases(revs[1..], sent, Follow(rev, next, Setting(false, pool, o1)).value, pool, o1, o2, After(rev, t),
          head);
    }
  }

  lemma {:induction false} ResentIdle(sent: Sent, rev: Revision, t: string)
    requires Resent(sent, rev) && WellFormed(rev.changeset, t)
    ensures Idle(Identity(Unpack(sent.changeset).oldLen), t)
  {
    hide Unpack, CheckRep, Run, Plain, Idle;
    IdentityIdle(t);
  }

  /**
    A change that is among the revisions already is not made twice: what the server rebases it to does nothing to
    the head.
   */
  lemma {:induction false} ResentChangesNothing(revs: seq<Revision>, sent: Sent, cs: string, pool: Pool, o1: Order,
          o2: Order, t: string, text: string, head: string)
    requires Ready(pool, o1, o2) && AttribsResolved(cs, pool)
    requires Leads(cs, t, text) && Chain(revs, pool, t, head)
    requires exists i :: 0 <= i < |revs| && revs[i].changeset == sent.changeset && revs[i].author == Some(sent.author)
    ensures Rebase(revs, sent, cs, pool, o1).Ok? && Idle(Rebase(revs, sent, cs, pool, o1).value, head)
    ensures After(Rebase(revs, sent, cs, pool, o1).value, head) == head
    decreases |revs|
  {
    hide WellFormed, Follow, After, AttribsResolved, Ready, Idle;
    var rev := revs[0].changeset;
    if Resent(sent, revs[0]) {
      var next := LeftToDo(sent, revs[0], cs);
      ResentIdle(sent, revs[0], t);
      IdleFollows(next, rev, pool, o1, o2, t);
      IdleRebases(revs[1..], sent, Follow(rev, next, Setting(false, pool, o1)).value, pool, o1, o2, After(rev, t),
          head);
    } else {
      var r := SquareLeads(cs, rev, pool, o1, o2, t, text, After(rev, t));
      var c := MeantTransformX(cs, rev, pool, o1, o2).0;
      var i :| 0 <= i < |revs| && revs[i].changeset == sent.changeset && revs[i].author == Some(sent.author);
      assert revs[1..][i - 1] == revs[i];
      ResentChangesNothing(revs[1..], sent, c, pool, o1, o2, After(rev, t), r, head);
    }
    IdleBank(Rebase(revs, sent, cs, pool, o1).value, head);
  }

  /** One of the revisions has the same changeset and the same author. */
  ghost predicate CameBefore(sent: Sent, revs: seq<Revision>) {
    exists i :: 0 <= i < |revs| && revs[i].changeset == sent.changeset && revs[i].author == Some(sent.author)
  }

  lemma {:induction false} RebasedToHead(revs: seq<Revision>, sent: Sent, pool: Pool, order: Order, o2: Order,
          t: string,
          text: string, head: string)
    ensures Ready(pool, order, o2) && AttribsResolved(sent.changeset, pool) && Leads(sent.changeset, t, text)
            && Chain(revs, pool, t, head) ==>
              EndsAt(Rebase(revs, sent, sent.changeset, pool, order), head,
                  if CameBefore(sent, revs) then head
                  else CaughtUp(revs, sent.changeset, text, pool, order, o2))
  {
    hide Rebase, WellFormed, After, Chain, CaughtUp, AttribsResolved, Ready;
    if Ready(pool, order, o2) && AttribsResolved(sent.changeset, pool) && Leads(sent.changeset, t, text)
       && Chain(revs, pool, t, head) {
      if CameBefore(sent, revs) {
        ResentChangesNothing(revs, sent, sent.changeset, pool, order, o2, t, text, head);
      } else {
        ClientMeetsServer(revs, sent, sent.changeset, pool, order, o2, t, text, head);
      }
    }
  }

  /**
    The loop of the server. A change that is not among the revisions ends at the head as the client has it, and one
    that is does nothing there.
   */
  method RebaseToHead(revs: seq<Revision>, sent: Sent, pool: Pool, order: Order, ghost o2: Order, ghost t: string,
          ghost text: string, ghost head: string)
    returns (r: Result<string>)
    ensures r == Rebase(revs, sent, sent.changeset, pool, order)
    ensures Ready(pool, order, o2) && AttribsResolved(sent.changeset, pool) && Leads(sent.changeset, t, text)
            && Chain(revs, pool, t, head) ==>
              EndsAt(r, head,
                  if CameBefore(sent, revs) then head
                  else CaughtUp(revs, sent.changeset, text, pool, order, o2))
  {
    hide Follow, Unpack, WellFormed, After, Chain, CaughtUp, Leads, AttribsResolved, Ready;
    var rebased := sent.changeset;
    assert revs[0..] == revs;
    for i := 0 to |revs|
      invariant Rebase(revs[i..], sent, rebased, pool, order) == Rebase(revs, sent, sent.changeset, pool, order)
    {
      assert revs[i..][1..] == revs[i + 1..];
      var rev := revs[i];
      if rev.changeset == sent.changeset && rev.author.Some? && rev.author.value == sent.author {
        rebased := Identity(Unpack(sent.changeset).oldLen);
      }
      var f := ZipLoops.Follow(rev.changeset, rebased, Setting(false, pool, order));
      if f.Err? {
        RebasedToHead(revs, sent, pool, order, o2, t, text, head);
        return f;
      }
      rebased := f.value;
    }
    r := Ok(rebased);
    RebasedToHead(revs, sent, pool, order, o2, t, text, head);
  }
}
