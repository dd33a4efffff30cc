/**
  The pad client of lib/cli/cli.go, on plain text: its changes wait in `outgoing` until the change `inFlight`
  is accepted, while the server's changes come in. Each step is one atomic transition.
 */
module Clients {
  import opened Basics
  import opened Numerals
  import opened Pools
  import opened Attributes
  import opened Ops
  import opened Syntax
  import opened Assemblers
  import Zip = Composition
  import opened Rebasing
  import opened Changesets
  import opened Algebra
  import opened Builders
  import opened Splices
  import CanonicalForm

  datatype PadChangeset = PadChangeset(changeset: string, baseRev: int)

  /** The state of a client. */
  datatype Client = Client(text: string, baseRev: int, inFlight: Option<PadChangeset>, outgoing: Option<PadChangeset>,
      pool: Pool)

  /** What happens to a client: text is appended, or a message of the server arrives. */
  datatype Event =
    | Append(appended: string)
    | NewChanges(newRev: int, changeset: string)
    | AcceptCommit(acceptedRev: int)

  // ----- the steps -----

  /** Queues a change, if there is one, and sends what is queued when nothing is in flight. */
  function SendMessage(c: Client, msg: Option<PadChangeset>): Client {
    var queued :=
      if msg.None? then Some(c)
      else if c.outgoing.None? then Some(c.(outgoing := msg))
      else if msg.value.baseRev != c.outgoing.value.baseRev then None
      else match Compose(c.outgoing.value.changeset, msg.value.changeset, c.pool)
        case Err(_) => None
        case Ok((cs, p)) => Some(c.(outgoing := Some(c.outgoing.value.(changeset := cs)), pool := p));
    match queued
    case None => c
    case Some(d) => if d.inFlight.None? && d.outgoing.Some? then d.(inFlight := d.outgoing, outgoing := None) else d
  }

  /** The text that is really appended: it ends with a newline. */
  function Terminated(text: string): string { if EndsInNewline(text) then text else text + "\n" }

  function DoAppend(c: Client, text: string): Client {
    if text == "" || (text == "\n" && EndsInNewline(c.text)) then c
    else match MakeSplice(c.text, |c.text|, 0, Terminated(text), "")
      case Err(_) => c
      case Ok(cs) =>
        var u := Unpack(cs);
        var packed := Pack(u.oldLen, u.newLen, u.ops, u.bank);
        if u.oldLen != |c.text| then c
        else match ApplyToText(packed, c.text)
          case Err(_) => c
          case Ok(t) => SendMessage(c.(text := t), Some(PadChangeset(packed, c.baseRev)))
  }

  /**
    The square of a pending change and a server change as it is written: the second Follow reads the new client
    change.
   */
  function TransformX(client: string, server: string, pool: Pool, o1: Order, o2: Order): (string, string) {
    var c := match Follow(server, client, Setting(false, pool, o1)) case Ok(f) => f case Err(_) => client;
    var s := match Follow(c, server, Setting(true, pool, o2)) case Ok(f) => f case Err(_) => server;
    (c, s)
  }

  /** The square as it is meant: both Follows read the old pair. */
  function MeantTransformX(client: string, server: string, pool: Pool, o1: Order, o2: Order): (string, string) {
    var c := match Follow(server, client, Setting(false, pool, o1)) case Ok(f) => f case Err(_) => client;
    var s := match Follow(client, server, Setting(true, pool, o2)) case Ok(f) => f case Err(_) => server;
    (c, s)
  }

  type Square = (string, string, Pool, Order, Order) -> (string, string)

  /** A pending change and the server's change passed through a square. */
  function Transformed(square: Square, pending: Option<PadChangeset>, server: string, pool: Pool, o1: Order,
          o2: Order): (Option<PadChangeset>, string)
  {
    match pending
    case None => (None, server)
    case Some(p) =>
      var (c, s) := square(p.changeset, server, pool, o1, o2);
      (Some(p.(changeset := c)), s)
  }

  /**
    The change of the server is taken over, past the pending changes; `lengths` says whether local length is
    checked.
   */
  function TakeChange(square: Square, lengths: bool, c: Client, newRev: int, cs: string, o1: Order, o2: Order): Client {
    if newRev <= c.baseRev || newRev - 1 != c.baseRev then c
    else if lengths && |c.text| != Unpack(cs).oldLen then c
    else
      var (inFlight, s1) := Transformed(square, c.inFlight, cs, c.pool, o1, o2);
      var (outgoing, s2) := Transformed(square, c.outgoing, s1, c.pool, o1, o2);
      var d := c.(inFlight := inFlight,
          outgoing := match outgoing case Some(p) => Some(p.(baseRev := newRev)) case None => None);
      match ApplyToText(s2, c.text)
      case Err(_) => d
      case Ok(t) => d.(text := t, baseRev := newRev)
  }

  function DoNewChanges(c: Client, newRev: int, cs: string, o1: Order, o2: Order): Client {
    TakeChange(TransformX, true, c, newRev, cs, o1, o2)
  }

  function DoAcceptCommit(c: Client, newRev: int): Client {
    if newRev <= c.baseRev || newRev - 1 != c.baseRev then c
    else
      var outgoing := match c.outgoing case Some(p) => Some(p.(baseRev := newRev)) case None => None;
      SendMessage(c.(baseRev := newRev, inFlight := None, outgoing := outgoing), None)
  }

  function Next(c: Client, e: Event, o1: Order, o2: Order): Client {
    match e
    case Append(text) => DoAppend(c, text)
    case NewChanges(newRev, cs) => DoNewChanges(c, newRev, cs, o1, o2)
    case AcceptCommit(newRev) => DoAcceptCommit(c, newRev)
  }

  function RunEvents(c: Client, events: seq<Event>, o1: Order, o2: Order): Client
    decreases |events|
  {
    if events == [] then c else RunEvents(Next(c, events[0], o1, o2), events[1..], o1, o2)
  }

  // ----- changesets without attributes -----

  predicate PlainChange(cs: string) { CanonicalForm.NoAttribs(OpsOf(cs)) }

  lemma {:induction false} PlainResolved(cs: string, pool: Pool)
    requires PlainChange(cs)
    ensures AttribsResolved(cs, pool)
  {
    assert Resolved("", pool);
  }

  lemma {:induction false} AssemblePlain(ops: seq<Op>)
    requires CanonicalForm.NoAttribs(ops)
    ensures CanonicalForm.NoAttribs(Assemble(ops))
  {
    hide Assemble;
    AssembleAttribs((_, a) => a == "", ops);
  }

  lemma {:induction false} StepPlain(op1: Op, op2: Op, bank1: string, bank2: string, c: Setting, n: nat)
    requires op2.attribs == "" && Step(op1, op2, bank1, bank2, c, n).Ok?
    ensures var s := Step(op1, op2, bank1, bank2, c, n).value; s.out.attribs == "" && s.op2.attribs == ""
  {
    hide FirstGoes, Scan, Lookup;
  }

  /** A change without attributes has none once it is rebased, whatever it is rebased over. */
  lemma {:induction false} FollowPlain(ops1: seq<Op>, ops2: seq<Op>, bank1: string, bank2: string, c: Setting, n: nat)
    requires CanonicalForm.NoAttribs(ops2) && FollowZip(ops1, ops2, bank1, bank2, c, n).Ok?
    ensures CanonicalForm.NoAttribs(FollowZip(ops1, ops2, bank1, bank2, c, n).value)
    decreases |ops1| + |ops2|
  {
    hide Step;
    if !(ops1 == [] && ops2 == []) {
      var op1, op2 := Zip.First(ops1), Zip.First(ops2);
      var s := Step(op1, op2, bank1, bank2, c, n).value;
      StepPlain(op1, op2, bank1, bank2, c, n);
      FollowPlain(Zip.Behind(s.op1, ops1), Zip.Behind(s.op2, ops2), bank1[s.skip1..], bank2[s.skip2..], c, n + 1);
    }
  }

  // ----- the invariant -----

  /** The revisions of the server: its texts, and the changes between them. */
  datatype Server = Server(texts: seq<string>, changes: seq<string>)

  ghost predicate Consistent(s: Server) {
    && |s.texts| == |s.changes| + 1
    && forall i :: 0 <= i < |s.changes| ==> Leads(s.changes[i], s.texts[i], s.texts[i + 1])
  }

  /** `cs` is a well-formed change that leads from one text to another. */
  ghost predicate Leads(cs: string, t: string, r: string) { WellFormed(cs, t) && After(cs, t) == r }

  /** The changes of the client itself have no attributes. */
  ghost predicate Pending(p: Option<PadChangeset>, t: string, r: string) {
    match p case None => t == r case Some(c) => Leads(c.changeset, t, r) && PlainChange(c.changeset)
  }

  /** The text that the server will have once the change in flight is accepted. */
  function Mid(s: Server, c: Client): string
    requires 0 <= c.baseRev < |s.texts|
  {
    match c.inFlight case None => s.texts[c.baseRev] case Some(p) => After(p.changeset, s.texts[c.baseRev])
  }

  /** The client's text is the server's text at its base revision with the changes in flight and queued made on it. */
  ghost predicate InSync(s: Server, c: Client) {
    hide Leads, After;
    && 0 <= c.baseRev < |s.texts|
    && (c.outgoing.Some? ==> c.inFlight.Some? && c.outgoing.value.baseRev == c.baseRev)
    && Pending(c.inFlight, s.texts[c.baseRev], Mid(s, c)) && Pending(c.outgoing, Mid(s, c), c.text)
  }

  /** Every pending change makes the text longer. */
  ghost predicate Grows(s: Server, c: Client) {
    && 0 <= c.baseRev < |s.texts|
    && (c.inFlight.Some? ==> |s.texts[c.baseRev]| < |Mid(s, c)|)
    && (c.outgoing.Some? ==> |Mid(s, c)| < |c.text|)
  }

  /** What is sent to the server names the revision that it is made on. */
  predicate SentOnBase(c: Client) { c.inFlight.Some? ==> c.inFlight.value.baseRev == c.baseRev }

  ghost predicate Safe(s: Server, c: Client) { Grows(s, c) && InSync(s, c) && SentOnBase(c) }

  /** A message of the server tells of one of its revisions; it accepts only what is in flight. */
  ghost predicate Genuine(s: Server, c: Client, e: Event) {
    && 0 <= c.baseRev < |s.texts| == |s.changes| + 1
    && match e
       case Append(_) => true
       case NewChanges(newRev, cs) => newRev < |s.texts| && (newRev > 0 ==> cs == s.changes[newRev - 1])
       case AcceptCommit(newRev) =>
         newRev < |s.texts| && (newRev == c.baseRev + 1 ==> c.inFlight.Some? && s.texts[newRev] == Mid(s, c))
  }

  // ----- appending -----

  lemma {:induction false} Repacked(cs: string)
    requires CheckRep(cs).Ok?
    ensures var u := Unpack(cs); Pack(u.oldLen, u.newLen, u.ops, u.bank) == cs
  {
    hide Unpack, Pack, Serialize, Deserialize, CheckRep, Normal;
    CheckRepRegular(cs);
    PrintParse(Unpack(cs).oldLen, Unpack(cs).newLen, OpsOf(cs), Unpack(cs).bank);
  }

  /** The changeset of an append. */
  lemma {:induction false} AppendChange(text: string, ins: string)
    ensures MakeSplice(text, |text|, 0, ins, "").Ok?
    ensures var cs := MakeSplice(text, |text|, 0, ins, "").value;
            && Leads(cs, text, text + ins) && PlainChange(cs) && ApplyToText(cs, text) == Ok(text + ins)
            && Unpack(cs).oldLen == |text|
            && Pack(Unpack(cs).oldLen, Unpack(cs).newLen, Unpack(cs).ops, Unpack(cs).bank) == cs
  {
    hide Unpack, Pack, Serialize, Deserialize, CheckRep, Normal, MakeSplice, ApplyToText, Run, Plain, OpsFromText,
         Assemble;
    SpliceApplies(text, |text|, 0, ins, "") by { EmptyAttribText(); }
    var cs := MakeSplice(text, |text|, 0, ins, "").value;
    Repacked(cs);
    assert text[..|text|] + ins + text[|text|..] == text + ins;
    OpsFromTextPlain(Keep, text[..|text|]);
    OpsFromTextPlain(Delete, text[|text|..|text| + 0]);
    OpsFromTextPlain(Insert, ins);
    AssemblePlain(SpliceOps(text, |text|, 0, ins, ""));
  }

  lemma {:induction false} OpsFromTextPlain(code: OpCode, t: string)
    ensures CanonicalForm.NoAttribs(OpsFromText(code, t, ""))
  {
    hide LinesEnd;
  }

  /** Composing queued changes keeps them a change without attributes. */
  lemma {:induction false} ComposeLeads(cs1: string, cs2: string, pool: Pool, t: string, m: string, r: string)
    requires Leads(cs1, t, m) && Leads(cs2, m, r) && PlainChange(cs1) && PlainChange(cs2)
    ensures Compose(cs1, cs2, pool).Ok?
    ensures var cs := Compose(cs1, cs2, pool).value.0; Leads(cs, t, r) && PlainChange(cs)
  {
    hide Unpack, CheckRep, Run, Plain, OpsOf, Zip.ComposeZip, Assemble, Compose;
    ComposeWellFormed(cs1, cs2, pool, t);
    CanonicalForm.ZipNoAttribs(OpsOf(cs1), OpsOf(cs2), Unpack(cs1).bank, Unpack(cs2).bank, pool);
    AssemblePlain(Zip.ComposeZip(OpsOf(cs1), OpsOf(cs2), Unpack(cs1).bank, Unpack(cs2).bank, pool).value.ops);
  }

  lemma {:induction false} AppendSafe(s: Server, c: Client, text: string)
    requires Safe(s, c)
    ensures Safe(s, DoAppend(c, text)) && DoAppend(c, text).baseRev == c.baseRev
    ensures DoAppend(c, text).text ==
            if text == "" || (text == "\n" && EndsInNewline(c.text)) then c.text
            else c.text + text + (if EndsInNewline(text) then "" else "\n")
  {
    hide Unpack, Pack, MakeSplice, ApplyToText, Compose, Leads, PlainChange;
    if !(text == "" || (text == "\n" && EndsInNewline(c.text))) {
      var ins := Terminated(text);
      AppendChange(c.text, ins);
      var cs := MakeSplice(c.text, |c.text|, 0, ins, "").value;
      QueueSafe(s, c, cs, c.text + ins);
    }
  }

  /** Queuing a change that leads to the new local text. */
  lemma {:induction false} QueueSafe(s: Server, c: Client, cs: string, t: string)
    requires Safe(s, c) && Leads(cs, c.text, t) && PlainChange(cs) && |c.text| < |t|
    ensures var d := SendMessage(c.(text := t), Some(PadChangeset(cs, c.baseRev)));
            Safe(s, d) && d.baseRev == c.baseRev && d.text == t
  {
    hide Unpack, Compose, WellFormed, PlainChange, After;
    if c.outgoing.Some? {
      var q := c.outgoing.value.changeset;
      ComposeLeads(q, cs, c.pool, Mid(s, c), c.text, t);
    }
  }

  // ----- messages of the server -----

  lemma {:induction false} LeadsApplies(cs: string, t: string, r: string)
    requires Leads(cs, t, r)
    ensures Unpack(cs).oldLen == |t| && ApplyToText(cs, t) == Ok(r)
  {
    hide Unpack, CheckRep, Run, Plain, PlainChange, ApplyToText;
    WellFormedProduces(cs, t);
  }

  /** While a change is pending, the length check turns every change of the server away; transformX is never reached. */
  lemma {:induction false} PendingTurnsAway(s: Server, c: Client, newRev: int, cs: string, o1: Order, o2: Order)
    requires Consistent(s) && Safe(s, c) && Genuine(s, c, NewChanges(newRev, cs)) && c.inFlight.Some?
    ensures newRev == c.baseRev + 1 ==> |c.text| != Unpack(cs).oldLen
    ensures DoNewChanges(c, newRev, cs, o1, o2) == c
  {
    hide Unpack, Leads, After, ApplyToText, Transformed, PlainChange;
    if newRev == c.baseRev + 1 {
      assert Leads(s.changes[c.baseRev], s.texts[c.baseRev], s.texts[newRev]);
      LeadsApplies(cs, s.texts[c.baseRev], s.texts[newRev]);
    }
  }

  lemma {:induction false} NewChangesSafe(s: Server, c: Client, newRev: int, cs: string, o1: Order, o2: Order)
    requires Consistent(s) && Safe(s, c) && Genuine(s, c, NewChanges(newRev, cs))
    ensures var d := DoNewChanges(c, newRev, cs, o1, o2);
            Safe(s, d) && d == if newRev == c.baseRev + 1 && c.inFlight.None?
                               then c.(text := s.texts[newRev], baseRev := newRev) else c
  {
    hide Unpack, Leads, After, ApplyToText, TransformX;
    if c.inFlight.Some? {
      PendingTurnsAway(s, c, newRev, cs, o1, o2);
    } else if newRev == c.baseRev + 1 {
      assert Leads(s.changes[c.baseRev], s.texts[c.baseRev], s.texts[newRev]);
      LeadsApplies(cs, c.text, s.texts[newRev]);
    }
  }

  lemma {:induction false} AcceptSafe(s: Server, c: Client, newRev: int)
    requires Consistent(s) && Safe(s, c) && Genuine(s, c, AcceptCommit(newRev))
    ensures var d := DoAcceptCommit(c, newRev);
            Safe(s, d) && d ==
            if newRev != c.baseRev + 1 then c
            else c.(baseRev := newRev, outgoing := None,
                inFlight := match c.outgoing
                            case None => None
                            case Some(p) => Some(PadChangeset(p.changeset, newRev)))
  {
    hide WellFormed, PlainChange, Compose, ApplyToText;
  }

  /** Every step keeps the client safe; the base revision rises by one or stays. */
  lemma {:induction false} StepSafe(s: Server, c: Client, e: Event, o1: Order, o2: Order)
    requires Consistent(s) && Safe(s, c) && Genuine(s, c, e)
    ensures Safe(s, Next(c, e, o1, o2))
    ensures Next(c, e, o1, o2).baseRev == c.baseRev || Next(c, e, o1, o2).baseRev == c.baseRev + 1
  {
    hide Safe, DoAppend, DoNewChanges, DoAcceptCommit, Consistent;
    match e
    case Append(text) => AppendSafe(s, c, text);
    case NewChanges(newRev, cs) => NewChangesSafe(s, c, newRev, cs, o1, o2);
    case AcceptCommit(newRev) => AcceptSafe(s, c, newRev);
  }

  /** Every event of a run is genuine when it happens. */
  ghost predicate GenuineRun(s: Server, c: Client, events: seq<Event>, o1: Order, o2: Order)
    decreases |events|
  {
    events == [] || (Genuine(s, c, events[0]) && GenuineRun(s, Next(c, events[0], o1, o2), events[1..], o1, o2))
  }

  /**
    Safety over whole runs: whatever is appended and whatever genuine messages arrive, the client's text is the server's
    text at its base revision with the change in flight and the queued one made on it.
   */
  lemma {:induction false} RunSafe(s: Server, c: Client, events: seq<Event>, o1: Order, o2: Order)
    requires Consistent(s) && Safe(s, c) && GenuineRun(s, c, events, o1, o2)
    ensures var d := RunEvents(c, events, o1, o2);
            Safe(s, d) && c.baseRev <= d.baseRev <= c.baseRev + |events|
    decreases |events|
  {
    hide Safe, Next, Consistent;
    if events != [] {
      StepSafe(s, c, events[0], o1, o2);
      RunSafe(s, Next(c, events[0], o1, o2), events[1..], o1, o2);
    }
  }

  // ----- the square of transformX -----

  /** A pool and orders in which concurrent changes can be rebased. */
  ghost predicate Ready(pool: Pool, o1: Order, o2: Order) { Good(pool) && Enumerates(o1) && Enumerates(o2) }

  /**
    The meant square: both changes are rebased over each other, and both ways round lead to the same text. Attributes
    that the pool knows stay known, and a change without attributes stays one.
   */
  lemma {:induction false} SquareLeads(client: string, server: string, pool: Pool, o1: Order, o2: Order, t: string,
          t1: string, t2: string)
    returns (r: string)
    requires Ready(pool, o1, o2) && AttribsResolved(client, pool) && AttribsResolved(server, pool)
    requires Leads(client, t, t1) && Leads(server, t, t2)
    ensures Follow(server, client, Setting(false, pool, o1)).Ok?
    ensures var (c, s) := MeantTransformX(client, server, pool, o1, o2);
            && Leads(c, t2, r) && Leads(s, t1, r)
            && AttribsResolved(c, pool) && AttribsResolved(s, pool) && (PlainChange(client) ==> PlainChange(c))
  {
    hide Unpack, CheckRep, Run, Plain, OpsOf, Follow, FollowZip, Assemble, WellFormed, AttribsResolved, After,
         CanonicalForm.NoAttribs;
    var a, b := Setting(false, pool, o1), Setting(true, pool, o2);
    FollowSound(server, client, a, b, t);
    var f1, f2 := Follow(server, client, a).value, Follow(client, server, b).value;
    FollowResolved(f1, server, client, a);
    FollowResolved(f2, client, server, b);
    if PlainChange(client) {
      FollowPlain(OpsOf(server), OpsOf(client), Unpack(server).bank, Unpack(client).bank, a, 0);
      AssemblePlain(FollowZip(OpsOf(server), OpsOf(client), Unpack(server).bank, Unpack(client).bank, a, 0).value);
    }
    r := After(f1, t2);
    assert After(f1, t2) == After(f2, t1) by { SameAfter(f1, t2, f2, t1); }
  }

  lemma {:induction false} SameAfter(f1: string, t1: string, f2: string, t2: string)
    requires ApplyToText(f1, t1) == ApplyToText(f2, t2)
    ensures After(f1, t1) == After(f2, t2)
  {}

  /** A change of the server passes a pending change through the meant square. */
  lemma {:induction false} TransformedPending(p: Option<PadChangeset>, server: string, pool: Pool, o1: Order, o2: Order,
          t: string, t1: string, t2: string)
    returns (r: string)
    requires Ready(pool, o1, o2) && AttribsResolved(server, pool) && Pending(p, t, t1) && Leads(server, t, t2)
    ensures var (q, s) := Transformed(MeantTransformX, p, server, pool, o1, o2);
            Pending(q, t2, r) && Leads(s, t1, r) && AttribsResolved(s, pool)
  {
    hide Leads, MeantTransformX, PlainChange, AttribsResolved, Ready;
    if p.Some? {
      PlainResolved(p.value.changeset, pool);
      r := SquareLeads(p.value.changeset, server, pool, o1, o2, t, t1, t2);
    } else {
      r := t2;
    }
  }

  /**
    With the square as it is meant, and without the check on the local length, a change of the server is taken over
    past any pending changes: the base revision rises by one and the invariant holds.
   */
  lemma {:induction false} MeantSquareSafe(s: Server, c: Client, cs: string, o1: Order, o2: Order)
    requires Consistent(s) && InSync(s, c) && c.baseRev < |s.changes| && cs == s.changes[c.baseRev]
    requires Ready(c.pool, o1, o2) && AttribsResolved(cs, c.pool)
    ensures var d := TakeChange(MeantTransformX, false, c, c.baseRev + 1, cs, o1, o2);
            InSync(s, d) && d.baseRev == c.baseRev + 1
  {
    hide Unpack, MeantTransformX, PlainChange, WellFormed, Transformed, AttribsResolved, Ready;
    var t0, mid, t2 := s.texts[c.baseRev], Mid(s, c), s.texts[c.baseRev + 1];
    assert Leads(cs, t0, t2);
    var mid' := TransformedPending(c.inFlight, cs, c.pool, o1, o2, t0, mid, t2);
    var (inFlight, s1) := Transformed(MeantTransformX, c.inFlight, cs, c.pool, o1, o2);
    var t' := TransformedPending(c.outgoing, s1, c.pool, o1, o2, mid, c.text, mid');
    var (outgoing, s2) := Transformed(MeantTransformX, c.outgoing, s1, c.pool, o1, o2);
    assert ApplyToText(s2, c.text) == Ok(t') by { WellFormedProduces(s2, c.text); }
    SameKind(MeantTransformX, c.inFlight, cs, c.pool, o1, o2);
    SameKind(MeantTransformX, c.outgoing, s1, c.pool, o1, o2);
  }

  lemma {:induction false} SameKind(square: Square, p: Option<PadChangeset>, server: string, pool: Pool, o1: Order,
          o2: Order)
    ensures Transformed(square, p, server, pool, o1, o2).0.Some? <==> p.Some?
  {}

  /** What a step leaves of an operation: the operation itself, a shorter keep or deletion, or nothing. */
  predicate Leftover(op: Op, left: Op, skip: nat) {
    if left.code == Nop then skip == if op.code == Insert then op.chars else 0
    else skip == 0 && left.code == op.code && left.attribs == op.attribs && left.chars > 0
         && (op.code == Insert ==> left == op)
  }

  lemma {:induction false} StepSucceeds(op1: Op, op2: Op, bank1: string, bank2: string, c: Setting, n: nat)
    requires !(op1.code == Nop && op2.code == Nop)
    requires (op1.code != Nop ==> op1.chars > 0) && (op2.code != Nop ==> op2.chars > 0)
    requires (op1.code == Insert ==> op1.chars <= |bank1|) && (op2.code == Insert ==> op2.chars <= |bank2|)
    requires Resolved(op1.attribs, c.pool) && Resolved(op2.attribs, c.pool)
    ensures var r := Step(op1, op2, bank1, bank2, c, n);
            r.Ok? && Leftover(op1, r.value.op1, r.value.skip1) && Leftover(op2, r.value.op2, r.value.skip2)
  {
    hide Scan, Encode, Numbers, InsertFirst, Lookup;
  }

  /** The operations of one side: coded, not empty, with known attributes and insertions that fit the bank. */
  predicate Side(ops: seq<Op>, bank: string, pool: Pool) {
    && InsertsFit(ops, bank)
    && forall i :: 0 <= i < |ops| ==> ops[i].code != Nop && ops[i].chars > 0 && Resolved(ops[i].attribs, pool)
  }

  lemma {:induction false} FirstOfSide(ops: seq<Op>, bank: string, pool: Pool)
    requires Side(ops, bank, pool)
    ensures var op := Zip.First(ops);
            && (op.code == Nop <==> ops == []) && (op.code != Nop ==> op.chars > 0)
            && (op.code == Insert ==> op.chars <= |bank|) && Resolved(op.attribs, pool)
  {
    hide Newlines, Clean, Resolved;
    EmptyResolved(pool);
  }

  lemma {:induction false} LeftoverFits(ops: seq<Op>, bank: string, left: Op, skip: nat, pool: Pool)
    requires Side(ops, bank, pool) && Leftover(Zip.First(ops), left, skip)
    requires skip <= |bank| && (ops == [] ==> left.code == Nop)
    ensures Side(Zip.Behind(left, ops), bank[skip..], pool)
  {
    hide Newlines, Clean, Resolved;
    assert bank[0..] == bank;
    var rest := Zip.Behind(left, ops);
    if left.code != Nop { assert rest[1..] == ops[1..]; } else { assert rest == if ops == [] then [] else ops[1..]; }
  }

  /** Where the insertions fit their banks and the attributes are known, the zip of Follow does not fail. */
  lemma {:induction false} ZipSucceeds(ops1: seq<Op>, ops2: seq<Op>, bank1: string, bank2: string, c: Setting, n: nat)
    requires Side(ops1, bank1, c.pool) && Side(ops2, bank2, c.pool)
    ensures FollowZip(ops1, ops2, bank1, bank2, c, n).Ok?
    decreases |ops1| + |ops2|
  {
    hide Step, Resolved, Side, Leftover, Zip.First, Zip.Behind;
    if !(ops1 == [] && ops2 == []) {
      var op1, op2 := Zip.First(ops1), Zip.First(ops2);
      FirstOfSide(ops1, bank1, c.pool);
      FirstOfSide(ops2, bank2, c.pool);
      StepSucceeds(op1, op2, bank1, bank2, c, n);
      var s := Step(op1, op2, bank1, bank2, c, n).value;
      StepShrinks(ops1, ops2, s, bank1, bank2, c, n);
      LeftoverFits(ops1, bank1, s.op1, s.skip1, c.pool);
      LeftoverFits(ops2, bank2, s.op2, s.skip2, c.pool);
      ZipSucceeds(Zip.Behind(s.op1, ops1), Zip.Behind(s.op2, ops2), bank1[s.skip1..], bank2[s.skip2..], c, n + 1);
    }
  }

  lemma {:induction false} StepShrinks(ops1: seq<Op>, ops2: seq<Op>, s: Move, bank1: string, bank2: string, c: Setting,
          n: nat)
    requires !(ops1 == [] && ops2 == []) && Step(Zip.First(ops1), Zip.First(ops2), bank1, bank2, c, n) == Ok(s)
    ensures |Zip.Behind(s.op1, ops1)| + |Zip.Behind(s.op2, ops2)| < |ops1| + |ops2|
    ensures (ops1 == [] ==> s.op1.code == Nop) && (ops2 == [] ==> s.op2.code == Nop)
  {
    hide Step;
  }

  lemma {:induction false} WellFormedSide(cs: string, text: string, pool: Pool)
    requires WellFormed(cs, text) && AttribsResolved(cs, pool)
    ensures Side(OpsOf(cs), Unpack(cs).bank, pool)
  {
    hide CheckRep, Run, Plain, OpsOf, Unpack, Deserialize, Serialize, Pack, Resolved, InsertsFit, LengthChange,
         AttribText;
    CheckRepRegular(cs);
    forall i | 0 <= i < |OpsOf(cs)| ensures OpsOf(cs)[i].code != Nop { assert Printable(OpsOf(cs)[i]); }
  }

  /**
    The square as it is written: the second Follow fails exactly when the server's change alters the length of the
    text. Then the server's change stays as it was, although the client's change is already rebased.
   */
  lemma {:induction false} WrittenSquareFails(client: string, server: string, pool: Pool, o1: Order, o2: Order,
          t: string, t1: string, t2: string)
    requires Ready(pool, o1, o2) && AttribsResolved(client, pool) && AttribsResolved(server, pool)
    requires Leads(client, t, t1) && Leads(server, t, t2)
    ensures var (c, s) := TransformX(client, server, pool, o1, o2);
            && c == MeantTransformX(client, server, pool, o1, o2).0
            && (Follow(c, server, Setting(true, pool, o2)).Err? <==> |t2| != |t|)
            && (|t2| != |t| ==> s == server && (|t1| != |t| ==> ApplyToText(s, t1).Err?))
  {
    hide CheckRep, Run, Plain, OpsOf, FollowZip, PlainChange, Unpack, Deserialize, Serialize, Pack, AttribsResolved,
         Resolved, InsertsFit, Ready;
    var r := SquareLeads(client, server, pool, o1, o2, t, t1, t2);
    WellFormedProduces(server, t);
    var c := MeantTransformX(client, server, pool, o1, o2).0;
    WellFormedSide(c, t2, pool);
    WellFormedSide(server, t, pool);
    CheckRepRegular(c);
    CheckRepRegular(server);
    ZipSucceeds(OpsOf(c), OpsOf(server), Unpack(c).bank, Unpack(server).bank, Setting(true, pool, o2), 0);
    assert Unpack(c).oldLen == |t2| && Unpack(server).oldLen == |t|;
  }

  /** A character put in front of a newline. */
  lemma {:induction false} OneInsertion(c: char) returns (cs: string)
    requires c != '\n'
    ensures cs == "Z:1>1+1$" + [c] && Leads(cs, "\n", [c, '\n']) && PlainChange(cs)
  {
    hide Pack, Serialize, Unpack, CheckRep, Run, Plain, OpsOf, ApplyToText, Normal;
    var op, bank, t, r := Op(Insert, 1, 0, ""), [c], "\n", [c, '\n'];
    RunOneInsertion(c);
    EmptyAttribText();
    NormalInsertion();
    ProducedWellFormed([op], bank, t, r);
    cs := Pack(|t|, |r|, Serialize([op]), bank);
    PackedInsertion(bank);
  }

  lemma {:induction false} PackedInsertion(bank: string)
    ensures Pack(1, 2, Serialize([Op(Insert, 1, 0, "")]), bank) == "Z:1>1+1$" + bank
  {
    var ops := [Op(Insert, 1, 0, "")];
    assert NumToString(1) == "1" && ops[1..] == [];
    assert Serialize(ops) == "+1";
  }

  lemma {:induction false} NormalInsertion()
    ensures Normal([Op(Insert, 1, 0, "")])
  {}

  lemma {:induction false} RunOneInsertion(c: char)
    requires c != '\n'
    ensures Produces(Ignore(true), [Op(Insert, 1, 0, "")], [c], Plain("\n"), Plain([c, '\n']))
  {
    hide Plain, Fresh;
    var op, bank, t := Op(Insert, 1, 0, ""), [c], "\n";
    assert bank[..1] == bank && bank[1..] == [] && [op][1..] == [];
    FreshIsPlain(true, "", bank);
    PlainConcat(bank, t);
    assert bank + t == [c, '\n'] && Plain(bank) + [] == Plain(bank);
    assert Run(Ignore(true), [], [], Plain(t)) == Some(Effect([], [], Plain(t)));
    assert Newlines(bank[1..]) == 0 && Newlines(bank) == 0;
    assert Clean(bank);
    assert RunOp(Ignore(true), op, bank, Plain(t)) == Some(Effect(Plain(bank), [], Plain(t)));
  }

  /** Two concurrent insertions before a newline, for which the square as it is written fails. */
  lemma {:induction false} WrittenSquareExample(pool: Pool, o1: Order, o2: Order)
    requires Ready(pool, o1, o2)
    ensures Leads("Z:1>1+1$a", "\n", "a\n") && Leads("Z:1>1+1$b", "\n", "b\n")
    ensures TransformX("Z:1>1+1$a", "Z:1>1+1$b", pool, o1, o2).1 == "Z:1>1+1$b"
    ensures ApplyToText("Z:1>1+1$b", "a\n").Err?
  {
    hide *;
    var client := OneInsertion('a');
    var server := OneInsertion('b');
    assert client == "Z:1>1+1$a" && server == "Z:1>1+1$b";
    PlainResolved(client, pool);
    PlainResolved(server, pool);
    assert "a\n" == ['a', '\n'] && "b\n" == ['b', '\n'] && |['b', '\n']| == 2 && |['a', '\n']| == 2 && |"\n"| == 1;
    WrittenSquareFails(client, server, pool, o1, o2, "\n", ['a', '\n'], ['b', '\n']);
  }

  // ----- the client object -----

  /** A connected pad. */
  class Pad {
    var atext: string
    var apool: Pool
    var baseRev: int
    var inFlight: Option<PadChangeset>
    var outgoing: Option<PadChangeset>

    function State(): Client
      reads this
    {
      Client(atext, baseRev, inFlight, outgoing, apool)
    }

    constructor (text: string, rev: int, pool: Pool)
      ensures State() == Client(text, rev, None, None, pool)
    {
      atext, apool, baseRev := text, pool, rev;
      inFlight, outgoing := None, None;
    }

    method Send(optMsg: Option<PadChangeset>)
      modifies this
      ensures State() == SendMessage(old(State()), optMsg)
    {
      hide Algebra.Compose;
      if optMsg.Some? {
        if outgoing.Some? {
          if optMsg.value.baseRev != outgoing.value.baseRev {
            return;
          }
          var composed := Algebra.Compose(outgoing.value.changeset, optMsg.value.changeset, apool);
          if composed.Err? {
            return;
          }
          outgoing := Some(outgoing.value.(changeset := composed.value.0));
          apool := composed.value.1;
        } else {
          outgoing := optMsg;
        }
      }
      if inFlight.None? && outgoing.Some? {
        inFlight := outgoing;
        outgoing := None;
      }
    }

    method Append(text: string)
      modifies this
      ensures State() == DoAppend(old(State()), text)
    {
      hide Unpack, Pack, MakeSplice, ApplyToText, Algebra.Compose, Safe, EndsInNewline;
      if |text| == 0 {
        return;
      }
      if text == "\n" && EndsInNewline(atext) {
        return;
      }
      var ins := if EndsInNewline(text) then text else text + "\n";
      var start := |atext|;
      var newChangeset := MakeSplice(atext, start, 0, ins, "");
      if newChangeset.Err? {
        return;
      }
      var unpacked := Unpack(newChangeset.value);
      var packed := Pack(unpacked.oldLen, unpacked.newLen, unpacked.ops, unpacked.bank);
      if unpacked.oldLen != start {
        return;
      }
      var newText := ApplyToText(packed, atext);
      if newText.Err? {
        return;
      }
      atext := newText.value;
      Send(Some(PadChangeset(packed, baseRev)));
    }

    method NewChanges(newRev: int, cs: string, o1: Order, o2: Order)
      modifies this
      ensures State() == DoNewChanges(old(State()), newRev, cs, o1, o2)
    {
      hide Unpack, ApplyToText, TransformX;
      if newRev <= baseRev {
        return;
      }
      if newRev - 1 != baseRev {
        return;
      }
      var server := cs;
      if |atext| != Unpack(server).oldLen {
        return;
      }
      if inFlight.Some? {
        var (c, t) := TransformX(inFlight.value.changeset, server, apool, o1, o2);
        inFlight, server := Some(inFlight.value.(changeset := c)), t;
      }
      if outgoing.Some? {
        var (c, t) := TransformX(outgoing.value.changeset, server, apool, o1, o2);
        outgoing, server := Some(PadChangeset(c, newRev)), t;
      }
      var text := ApplyToText(server, atext);
      if text.Err? {
        return;
      }
      atext := text.value;
      baseRev := newRev;
    }

    method AcceptCommit(newRev: int)
      modifies this
      ensures State() == DoAcceptCommit(old(State()), newRev)
    {
      hide Algebra.Compose;
      if newRev <= baseRev {
        return;
      }
      if newRev - 1 != baseRev {
        return;
      }
      baseRev := newRev;
      inFlight := None;
      if outgoing.Some? {
        outgoing := Some(outgoing.value.(baseRev := newRev));
      }
      Send(None);
    }

    /** Any genuine message or append keeps the pad in step with the server. */
    method Handle(e: Event, o1: Order, o2: Order, ghost s: Server)
      requires Consistent(s) && Safe(s, State()) && Genuine(s, State(), e)
      modifies this
      ensures Safe(s, State()) && State() == Next(old(State()), e, o1, o2)
      ensures baseRev == old(baseRev) || baseRev == old(baseRev) + 1
    {
      hide DoAppend, DoNewChanges, DoAcceptCommit, Safe, Consistent, Genuine;
      StepSafe(s, State(), e, o1, o2);
      match e
      case Append(text) => Append(text);
      case NewChanges(newRev, cs) => NewChanges(newRev, cs, o1, o2);
      case AcceptCommit(newRev) => AcceptCommit(newRev);
    }
  }
}
