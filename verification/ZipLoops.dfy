/**
  The zip loop over two lists of operations, as Compose, Follow and ApplyToAttribution of lib/changeset/changeset.go
  run it.
 */
module ZipLoops {
  import opened Basics
  import opened Pools
  import opened Attributes
  import opened Ops
  import opened Syntax
  import opened Assemblers
  import opened AssemblerObjects
  import opened StringIterators
  import Zip = Composition
  import opened Rebasing
  import opened Changesets
  import Algebra
  import AttributedText

  // ----- the operations of one side -----

  class OpIterator {
    const ops: seq<Op>
    var next: nat

    ghost predicate Valid()
      reads this
    {
      next <= |ops|
    }

    ghost function Rest(): seq<Op>
      requires Valid()
      reads this
    {
      ops[next..]
    }

    constructor (ops: seq<Op>)
      ensures Valid() && Rest() == ops
    {
      this.ops := ops;
      next := 0;
    }

    method Next() returns (op: Op, done: bool)
      requires Valid()
      modifies this
      ensures Valid() && done == (old(Rest()) == [])
      ensures !done ==> old(Rest()) == [op] + Rest()
      ensures done ==> Rest() == [] && op == NO_OP
    {
      if next >= |ops| {
        return NO_OP, true;
      }
      assert ops[next..] == [ops[next]] + ops[next + 1..];
      op := ops[next];
      next := next + 1;
      done := false;
    }
  }

  predicate Coded(ops: seq<Op>) { forall i :: 0 <= i < |ops| ==> ops[i].code != Nop }

  /** The operations still to do: the current one, if it is not used up, and the rest. */
  function Left(op: Op, rest: seq<Op>): seq<Op> { (if op.code == Nop then [] else [op]) + rest }

  /** Makes the next operation of a side the current one when the current one is used up. */
  method Fetch(it: OpIterator, op: Op, done: bool) returns (op': Op, done': bool)
    requires it.Valid() && Coded(it.Rest()) && (done ==> it.Rest() == [] && op.code == Nop)
    modifies it
    ensures it.Valid() && Coded(it.Rest()) && (done' ==> it.Rest() == [] && op'.code == Nop)
    ensures op' == Zip.First(Left(op, old(it.Rest())))
    ensures Left(op', it.Rest()) == Left(op, old(it.Rest()))
    ensures it.Rest() == if Left(op, old(it.Rest())) == [] then [] else Left(op, old(it.Rest()))[1..]
  {
    op', done' := op, done;
    assert [] + it.Rest() == it.Rest();
    if !done && op.code == Nop {
      op', done' := it.Next();
    }
    if done' {
      op' := NO_OP;
    }
  }

  /** The current operations of both sides. */
  class Zipper {
    const it1: OpIterator
    const it2: OpIterator
    var op1: Op
    var done1: bool
    var op2: Op
    var done2: bool

    ghost predicate Valid()
      reads this, it1, it2
    {
      && it1 != it2 && it1.Valid() && it2.Valid() && Coded(it1.Rest()) && Coded(it2.Rest())
      && (done1 ==> it1.Rest() == [] && op1.code == Nop)
      && (done2 ==> it2.Rest() == [] && op2.code == Nop)
    }

    /** The operations still to do on the two sides. */
    ghost function Ops1(): seq<Op>
      requires Valid()
      reads this, it1, it2
    {
      Left(op1, it1.Rest())
    }

    ghost function Ops2(): seq<Op>
      requires Valid()
      reads this, it1, it2
    {
      Left(op2, it2.Rest())
    }

    ghost function Repr(): set<object> { {this, it1, it2} }

    constructor (ops1: seq<Op>, ops2: seq<Op>)
      requires Coded(ops1) && Coded(ops2)
      ensures Valid() && fresh(Repr()) && Ops1() == ops1 && Ops2() == ops2
    {
      var i1 := new OpIterator(ops1);
      var i2 := new OpIterator(ops2);
      LeftStart(ops1);
      LeftStart(ops2);
      it1, it2 := i1, i2;
      var o1, d1 := i1.Next();
      var o2, d2 := i2.Next();
      op1, done1, op2, done2 := o1, d1, o2, d2;
    }

    /** The current operations are the first ones to do. */
    ghost predicate Fetched()
      requires Valid()
      reads this, it1, it2
    {
      && op1 == Zip.First(Ops1()) && it1.Rest() == (if Ops1() == [] then [] else Ops1()[1..])
      && op2 == Zip.First(Ops2()) && it2.Rest() == (if Ops2() == [] then [] else Ops2()[1..])
    }

    /** Makes the next operations the current ones where these are used up. */
    method FetchBoth()
      requires Valid()
      modifies Repr()
      ensures Valid() && Fetched() && Ops1() == old(Ops1()) && Ops2() == old(Ops2())
    {
      hide Coded, Zip.First, Left;
      if done1 && done2 {
        DoneLeft(op1);
        DoneLeft(op2);
        op1, op2 := NO_OP, NO_OP;
        DoneLeft(op1);
        return;
      }
      op1, done1 := Fetch(it1, op1, done1);
      op2, done2 := Fetch(it2, op2, done2);
    }

    method More() returns (more: bool)
      requires Valid() && Fetched()
      ensures more == !(Ops1() == [] && Ops2() == [])
    {
      hide Coded, Zip.First, Left;
      LeftEmpty(op1, it1.Rest(), Ops1());
      LeftEmpty(op2, it2.Rest(), Ops2());
      more := !(op1.code == Nop && op2.code == Nop);
    }

    /** What is left of the current operations becomes current. */
    method Put(a: Op, b: Op)
      requires Valid() && Fetched() && (Ops1() == [] ==> a.code == Nop) && (Ops2() == [] ==> b.code == Nop)
      modifies this
      ensures Valid() && Ops1() == Zip.Behind(a, old(Ops1())) && Ops2() == Zip.Behind(b, old(Ops2()))
    {
      hide Coded, Left, Zip.Behind, Zip.First;
      BehindLeft(a, Ops1(), it1.Rest());
      BehindLeft(b, Ops2(), it2.Rest());
      NoneLeft(op1, it1.Rest());
      NoneLeft(op2, it2.Rest());
      op1, op2 := a, b;
    }

    /** Goes on to the next round: what is left of the current operations, or the next ones. */
    method Advance(a: Op, b: Op)
      requires Valid() && Fetched() && (Ops1() == [] ==> a.code == Nop) && (Ops2() == [] ==> b.code == Nop)
      modifies Repr()
      ensures Valid() && Fetched() && Ops1() == Zip.Behind(a, old(Ops1())) && Ops2() == Zip.Behind(b, old(Ops2()))
    {
      hide Coded, Left, Zip.Behind, Zip.First;
      Put(a, b);
      FetchBoth();
    }
  }

  lemma {:induction false} BehindLeft(a: Op, l: seq<Op>, rest: seq<Op>)
    requires rest == if l == [] then [] else l[1..]
    ensures Left(a, rest) == Zip.Behind(a, l)
  {}

  lemma {:induction false} NoneLeft(op: Op, rest: seq<Op>)
    ensures op.code == Nop && rest == [] ==> Left(op, rest) == []
  {}

  lemma {:induction false} DoneLeft(op: Op)
    ensures op.code == Nop ==> Left(op, []) == []
    ensures Zip.First([]) == NO_OP
  {}

  lemma {:induction false} LeftStart(ops: seq<Op>)
    requires Coded(ops)
    ensures Left(NO_OP, ops) == ops
    ensures ops != [] ==> Left(ops[0], ops[1..]) == ops && Coded(ops[1..])
  {}

  lemma {:induction false} LeftEmpty(op: Op, rest: seq<Op>, l: seq<Op>)
    requires l == Left(op, rest) && rest == if l == [] then [] else l[1..]
    ensures op.code == Nop <==> l == []
  {}

  // ----- composing -----

  function Extended(ops: seq<Op>, bank: string, r: Result<Zip.Composed>): Result<Zip.Composed> {
    match r case Err(e) => Err(e) case Ok(z) => Ok(Zip.Composed(ops + z.ops, bank + z.bank, z.pool))
  }

  /** What one call of the callback of Compose writes and leaves. */
  datatype Composing = Composing(s: Zip.Slice, d: Zip.Drawn)

  function ComposeOp(op1: Op, op2: Op, bank1: string, bank2: string, pool: Pool): Result<Composing> {
    var skip := if op1.code == Insert && op2.code == Delete then Min(op1.chars, op2.chars) else 0;
    if skip > |bank1| then Err("not enough characters remaining")
    else match Zip.Slicer(op1, op2, pool)
      case Err(e) => Err(e)
      case Ok(s) =>
        match Zip.Draw(s.out, op2, bank1[skip..], bank2)
        case Err(e) => Err(e)
        case Ok(d) => Ok(Composing(s, d))
  }

  lemma {:induction false} ComposeUnfold(ops1: seq<Op>, ops2: seq<Op>, bank1: string, bank2: string, pool: Pool,
          ops: seq<Op>, bank: string)
    requires !(ops1 == [] && ops2 == [])
    ensures var r := Extended(ops, bank, Zip.ComposeZip(ops1, ops2, bank1, bank2, pool));
            match ComposeOp(Zip.First(ops1), Zip.First(ops2), bank1, bank2, pool)
            case Err(e) => r == Err(e)
            case Ok(c) => r == Extended(ops + Zip.Emit(c.s.out), bank + c.d.piece,
                                        Zip.ComposeZip(Zip.Behind(c.s.att, ops1), Zip.Behind(c.s.cs, ops2), c.d.bank1,
                                            c.d.bank2, c.s.pool))
  {
    hide Zip.Slicer, Zip.Emit;
    match ComposeOp(Zip.First(ops1), Zip.First(ops2), bank1, bank2, pool)
    case Err(_) =>
    case Ok(c) =>
      var z := Zip.ComposeZip(Zip.Behind(c.s.att, ops1), Zip.Behind(c.s.cs, ops2), c.d.bank1, c.d.bank2, c.s.pool);
      if z.Ok? {
        assert ops + (Zip.Emit(c.s.out) + z.value.ops) == ops + Zip.Emit(c.s.out) + z.value.ops;
        assert bank + (c.d.piece + z.value.bank) == bank + c.d.piece + z.value.bank;
      }
  }

  /** One step of the slicer: what it writes, and what it leaves of its two operations. */
  method SlicerZipperFunc(attOp: Op, csOp: Op, pool: Pool) returns (r: Result<Zip.Slice>)
    ensures r == Zip.Slicer(attOp, csOp, pool)
  {
    hide ComposeAttributes;
    var opOut, att, cs, p := NO_OP, attOp, csOp, pool;
    if attOp.code == Nop {
      opOut := csOp;
      cs := cs.(code := Nop);
    } else if csOp.code == Nop || attOp.code == Delete {
      opOut := attOp;
      att := att.(code := Nop);
    } else if csOp.code == Insert {
      opOut := csOp;
      cs := cs.(code := Nop);
    } else {
      if attOp.chars < attOp.lines || csOp.chars < csOp.lines {
        return Err("op has more characters than lines");
      }
      var condition := attOp.lines == csOp.lines;
      if attOp.chars < csOp.chars {
        condition := attOp.lines <= csOp.lines;
      } else if attOp.chars > csOp.chars {
        condition := attOp.lines >= csOp.lines;
      }
      if !condition {
        return Err("line count mismatch when composing changesets A*B; ");
      }
      if attOp.code == Insert {
        opOut := opOut.(code := if csOp.code == Delete then Nop else Insert);
      } else {
        opOut := opOut.(code := if csOp.code == Delete then Delete else Keep);
      }
      var attribs := csOp.attribs;
      if csOp.code != Delete {
        var composed := ComposeAttributes(attOp.attribs, csOp.attribs, attOp.code == Keep, pool);
        attribs, p := composed.0, composed.1;
      }
      if attOp.chars > csOp.chars {
        opOut := Op(opOut.code, csOp.chars, csOp.lines, attribs);
        att := att.(chars := att.chars - csOp.chars, lines := att.lines - csOp.lines);
        cs := cs.(code := Nop);
      } else {
        opOut := Op(opOut.code, attOp.chars, attOp.lines, attribs);
        cs := cs.(chars := cs.chars - attOp.chars, lines := cs.lines - attOp.lines);
        if cs.chars == 0 {
          cs := cs.(code := Nop);
        }
        att := att.(code := Nop);
      }
    }
    r := Ok(Zip.Slice(opOut, att, cs, p));
  }

  /** The callback of Compose. */
  method ComposeStep(op1: Op, op2: Op, bankIter1: StringIterator, bankIter2: StringIterator, pool: Pool)
    returns (r: Result<(Zip.Slice, string)>)
    requires bankIter1.Valid() && bankIter2.Valid() && bankIter1 != bankIter2
    modifies bankIter1, bankIter2
    ensures bankIter1.Valid() && bankIter2.Valid()
    ensures var c := ComposeOp(op1, op2, old(bankIter1.Rest()), old(bankIter2.Rest()), pool);
            if c.Err? then r == Err(c.error)
            else r == Ok((c.value.s, c.value.d.piece)) && bankIter1.Rest() == c.value.d.bank1
                 && bankIter2.Rest() == c.value.d.bank2
  {
    hide Zip.Slicer, Newlines;
    ghost var bank := bankIter1.Rest();
    assert bank[0..] == bank;
    if op1.code == Insert && op2.code == Delete {
      var ok := bankIter1.Skip(Min(op1.chars, op2.chars));
      if !ok {
        return Err("not enough characters remaining");
      }
    }
    var s := SlicerZipperFunc(op1, op2, pool);
    if s.Err? {
      return Err(s.error);
    }
    var piece := Ok("");
    if s.value.out.code == Insert {
      if op2.code == Insert {
        piece := bankIter2.Take(s.value.out.chars);
      } else {
        piece := bankIter1.Take(s.value.out.chars);
      }
      if piece.Err? {
        return Err(piece.error);
      }
    }
    r := Ok((s.value, piece.value));
  }

  /** What the zip of Compose returns: the operations assembled and printed, the bank, and the pool. */
  function Printed(r: Result<Zip.Composed>): Result<(string, string, Pool)> {
    match r case Err(e) => Err(e) case Ok(z) => Ok((Serialize(Assemble(z.ops)), z.bank, z.pool))
  }

  lemma {:induction false} SliceLeft(s: Zip.Slice, ops1: seq<Op>, ops2: seq<Op>, pool: Pool)
    requires !(ops1 == [] && ops2 == []) && Zip.Slicer(Zip.First(ops1), Zip.First(ops2), pool) == Ok(s)
    ensures |Zip.Behind(s.att, ops1)| + |Zip.Behind(s.cs, ops2)| < |ops1| + |ops2|
    ensures (ops1 == [] ==> s.att.code == Nop) && (ops2 == [] ==> s.cs.code == Nop)
  {
    hide Zip.Slicer;
  }

  lemma {:induction false} ComposeDone(bank1: string, bank2: string, pool: Pool)
    ensures Zip.ComposeZip([], [], bank1, bank2, pool) == Ok(Zip.Composed([], "", pool))
  {}

  lemma {:induction false} ExtendedByNothing(r: Result<Zip.Composed>)
    ensures Extended([], "", r) == r
  {
    if r.Ok? { assert [] + r.value.ops == r.value.ops && "" + r.value.bank == r.value.bank; }
  }

  lemma {:induction false} ExtendedWithNothing(ops: seq<Op>, bank: string, pool: Pool)
    ensures Extended(ops, bank, Ok(Zip.Composed([], "", pool))) == Ok(Zip.Composed(ops, bank, pool))
  {
    assert ops + [] == ops && bank + "" == bank;
  }

  lemma {:induction false} ComposedSlice(op1: Op, op2: Op, bank1: string, bank2: string, pool: Pool)
    ensures ComposeOp(op1, op2, bank1, bank2, pool).Ok? ==>
            Zip.Slicer(op1, op2, pool) == Ok(ComposeOp(op1, op2, bank1, bank2, pool).value.s)
  {
    hide Zip.Slicer;
  }

  lemma {:induction false} AppendOut(ops: seq<Op>, out: Op)
    ensures AppendAll(NEW_SMART, ops + Zip.Emit(out)) ==
            if out.code == Nop then AppendAll(NEW_SMART, ops) else SmartAppend(AppendAll(NEW_SMART, ops), out)
    ensures out.code == Nop ==> ops + Zip.Emit(out) == ops
  {
    hide SmartAppend;
    if out.code == Nop {
      assert ops + [] == ops;
    } else {
      assert (ops + [out])[..|ops|] == ops;
    }
  }

  /** Writes an operation, if there is one. */
  method Write(assem: SmartOpAssembler, out: Op, ghost written: seq<Op>)
    requires assem.Valid() && assem.State() == AppendAll(NEW_SMART, written)
    modifies assem.Repr()
    ensures assem.Valid() && assem.State() == AppendAll(NEW_SMART, written + Zip.Emit(out))
  {
    hide AppendAll, Zip.Emit, SmartAppend;
    AppendOut(written, out);
    if out.code != Nop {
      assem.Append(out);
    }
  }

  /** Ends a round: writes its operation and goes on to the next operations. */
  method EndRound(zip: Zipper, assem: SmartOpAssembler, out: Op, a: Op, b: Op, ghost written: seq<Op>)
    returns (more: bool)
    requires zip.Valid() && zip.Fetched() && (zip.Ops1() == [] ==> a.code == Nop)
             && (zip.Ops2() == [] ==> b.code == Nop)
    requires assem.Valid() && assem.State() == AppendAll(NEW_SMART, written)
    modifies zip.Repr(), assem.Repr()
    ensures zip.Valid() && zip.Fetched()
    ensures zip.Ops1() == Zip.Behind(a, old(zip.Ops1())) && zip.Ops2() == Zip.Behind(b, old(zip.Ops2()))
    ensures assem.Valid() && assem.State() == AppendAll(NEW_SMART, written + Zip.Emit(out))
    ensures more == !(zip.Ops1() == [] && zip.Ops2() == [])
  {
    hide Newlines, Zip.Emit, AppendAll, Zip.First, Zip.Behind, Left, SmartAppend, Coded, Serialize;
    Write(assem, out, written);
    zip.Advance(a, b);
    more := zip.More();
  }

  /** All rounds: the bank and the pool at the end; the operations are in the assembler. */
  method ComposeRounds(zip: Zipper, assem: SmartOpAssembler, bankIter1: StringIterator, bankIter2: StringIterator,
          pool: Pool)
    returns (r: Result<(string, Pool)>)
    requires zip.Valid() && zip.Fetched() && bankIter1.Valid() && bankIter2.Valid() && bankIter1 != bankIter2
    requires assem.Valid() && assem.State() == AppendAll(NEW_SMART, [])
    modifies zip.Repr(), assem.Repr(), bankIter1, bankIter2
    ensures assem.Valid()
    ensures var z := Zip.ComposeZip(old(zip.Ops1()), old(zip.Ops2()), old(bankIter1.Rest()), old(bankIter2.Rest()),
            pool);
            if z.Err? then r == Err(z.error)
                else r == Ok((z.value.bank, z.value.pool)) && assem.State() == AppendAll(NEW_SMART, z.value.ops)
  {
    hide Zipper.Valid, Zipper.Ops1, Zipper.Ops2, SmartOpAssembler.State, SmartOpAssembler.Valid, StringIterator.Rest,
         StringIterator.Valid;
    hide Newlines, Zip.ComposeZip, ComposeOp, Zip.Slicer, Zip.Emit, Serialize, AppendAll, Zip.First, Zip.Behind, Left,
         Extended, SmartAppend, Coded;
    ghost var all := Zip.ComposeZip(zip.Ops1(), zip.Ops2(), bankIter1.Rest(), bankIter2.Rest(), pool);
    ghost var written: seq<Op> := [];
    var p, bank := pool, "";
    ExtendedByNothing(all);
    var more := zip.More();
    while more
      invariant zip.Valid() && zip.Fetched() && more == !(zip.Ops1() == [] && zip.Ops2() == [])
      invariant bankIter1.Valid() && bankIter2.Valid() && assem.Valid()
                && assem.State() == AppendAll(NEW_SMART, written)
      invariant Extended(written, bank,
                Zip.ComposeZip(zip.Ops1(), zip.Ops2(), bankIter1.Rest(), bankIter2.Rest(), p)) == all
      decreases |zip.Ops1()| + |zip.Ops2()|
    {
      ComposeUnfold(zip.Ops1(), zip.Ops2(), bankIter1.Rest(), bankIter2.Rest(), p, written, bank);
      ComposedSlice(zip.op1, zip.op2, bankIter1.Rest(), bankIter2.Rest(), p);
      var c := ComposeStep(zip.op1, zip.op2, bankIter1, bankIter2, p);
      if c.Err? {
        return Err(c.error);
      }
      var (s, piece) := c.value;
      SliceLeft(s, zip.Ops1(), zip.Ops2(), p);
      more := EndRound(zip, assem, s.out, s.att, s.cs, written);
      written := written + Zip.Emit(s.out);
      bank, p := bank + piece, s.pool;
    }
    ComposeDone(bankIter1.Rest(), bankIter2.Rest(), p);
    ExtendedWithNothing(written, bank, p);
    r := Ok((bank, p));
  }

  /** The zip of Compose: the operations printed, the bank and the pool. */
  method ZipCompose(ops1: seq<Op>, ops2: seq<Op>, bankIter1: StringIterator, bankIter2: StringIterator, pool: Pool)
    returns (r: Result<(string, string, Pool)>)
    requires Coded(ops1) && Coded(ops2) && bankIter1.Valid() && bankIter2.Valid() && bankIter1 != bankIter2
    modifies bankIter1, bankIter2
    ensures r == Printed(Zip.ComposeZip(ops1, ops2, old(bankIter1.Rest()), old(bankIter2.Rest()), pool))
  {
    hide Newlines, Zip.ComposeZip, Serialize, AppendAll, Assembled, Assemblers.EndDocument, Zip.First, Zip.Behind, Left,
         SmartAppend, Coded;
    var assem := new SmartOpAssembler();
    var zip := new Zipper(ops1, ops2);
    AppendNothing();
    zip.FetchBoth();
    var z := ComposeRounds(zip, assem, bankIter1, bankIter2, pool);
    if z.Err? {
      return Err(z.error);
    }
    assem.EndDocument();
    var newOps := assem.String();
    r := Ok((newOps, z.value.0, z.value.1));
  }

  lemma {:induction false} ParsedCoded(s: string)
    requires Deserialize(s).Ok?
    ensures Coded(Deserialize(s).value)
  {
    hide Deserialize, AttribText;
    ParsedPrintable(s);
    var ops := Deserialize(s).value;
    forall i | 0 <= i < |ops| ensures ops[i].code != Nop { assert Printable(ops[i]); }
  }

  /** The changeset that does `cs1` and then `cs2`, and the pool afterwards. */
  method Compose(cs1: string, cs2: string, pool: Pool) returns (r: Result<(string, Pool)>)
    ensures r == Algebra.Compose(cs1, cs2, pool)
  {
    hide Newlines, Zip.ComposeZip, Serialize, Assemble, Unpack, Deserialize, Pack, Coded;
    var unpacked1, unpacked2 := Unpack(cs1), Unpack(cs2);
    if unpacked1.newLen != unpacked2.oldLen {
      return Err("mismatched lengths in compose");
    }
    var bankIter1 := new StringIterator(unpacked1.bank);
    var bankIter2 := new StringIterator(unpacked2.bank);
    var ops1 := Deserialize(unpacked1.ops);
    if ops1.Err? {
      return Err(ops1.error);
    }
    var ops2 := Deserialize(unpacked2.ops);
    if ops2.Err? {
      return Err(ops2.error);
    }
    ParsedCoded(unpacked1.ops);
    ParsedCoded(unpacked2.ops);
    var z := ZipCompose(ops1.value, ops2.value, bankIter1, bankIter2, pool);
    if z.Err? {
      return Err(z.error);
    }
    var (newOps, bank, p) := z.value;
    r := Ok((Pack(unpacked1.oldLen, unpacked2.newLen, newOps, bank), p));
  }

  // ----- applying to an attribution -----

  function Appended(ops: seq<Op>, r: Result<(seq<Op>, Pool)>): Result<(seq<Op>, Pool)> {
    match r case Err(e) => Err(e) case Ok((rest, p)) => Ok((ops + rest, p))
  }

  lemma {:induction false} AttribUnfold(ops1: seq<Op>, ops2: seq<Op>, pool: Pool, ops: seq<Op>)
    requires !(ops1 == [] && ops2 == [])
    ensures var r := Appended(ops, AttributedText.AttribZip(ops1, ops2, pool));
            match Zip.Slicer(Zip.First(ops1), Zip.First(ops2), pool)
            case Err(e) => r == Err(e)
            case Ok(s) => r == Appended(ops + Zip.Emit(s.out),
                 AttributedText.AttribZip(Zip.Behind(s.att, ops1), Zip.Behind(s.cs, ops2), s.pool))
  {
    hide Zip.Slicer, Zip.Emit;
    match Zip.Slicer(Zip.First(ops1), Zip.First(ops2), pool)
    case Err(_) =>
    case Ok(s) =>
      var z := AttributedText.AttribZip(Zip.Behind(s.att, ops1), Zip.Behind(s.cs, ops2), s.pool);
      if z.Ok? { assert ops + (Zip.Emit(s.out) + z.value.0) == ops + Zip.Emit(s.out) + z.value.0; }
  }

  lemma {:induction false} AttribEnds(ops: seq<Op>, pool: Pool)
    ensures Appended(ops, AttributedText.AttribZip([], [], pool)) == Ok((ops, pool))
  {
    assert ops + [] == ops;
  }

  lemma {:induction false} AppendedToNothing(r: Result<(seq<Op>, Pool)>)
    ensures Appended([], r) == r
  {
    if r.Ok? { assert [] + r.value.0 == r.value.0; }
  }

  /** All rounds of the zip of ApplyToAttribution. */
  method AttribRounds(zip: Zipper, assem: SmartOpAssembler, pool: Pool) returns (r: Result<Pool>)
    requires zip.Valid() && zip.Fetched() && assem.Valid() && assem.State() == AppendAll(NEW_SMART, [])
    modifies zip.Repr(), assem.Repr()
    ensures assem.Valid()
    ensures var z := AttributedText.AttribZip(old(zip.Ops1()), old(zip.Ops2()), pool);
            if z.Err? then r == Err(z.error) else r == Ok(z.value.1) && assem.State() == AppendAll(NEW_SMART, z.value.0)
  {
    hide Zipper.Valid, Zipper.Ops1, Zipper.Ops2, SmartOpAssembler.State, SmartOpAssembler.Valid, StringIterator.Rest,
         StringIterator.Valid;
    hide Newlines, AttributedText.AttribZip, Zip.Slicer, Zip.Emit, Serialize, AppendAll, Zip.First, Zip.Behind, Left,
         Appended, SmartAppend, Coded;
    ghost var all := AttributedText.AttribZip(zip.Ops1(), zip.Ops2(), pool);
    ghost var written: seq<Op> := [];
    var p := pool;
    AppendedToNothing(all);
    var more := zip.More();
    while more
      invariant zip.Valid() && zip.Fetched() && more == !(zip.Ops1() == [] && zip.Ops2() == [])
      invariant assem.Valid() && assem.State() == AppendAll(NEW_SMART, written)
      invariant Appended(written, AttributedText.AttribZip(zip.Ops1(), zip.Ops2(), p)) == all
      decreases |zip.Ops1()| + |zip.Ops2()|
    {
      AttribUnfold(zip.Ops1(), zip.Ops2(), p, written);
      var s := SlicerZipperFunc(zip.op1, zip.op2, p);
      if s.Err? {
        return Err(s.error);
      }
      SliceLeft(s.value, zip.Ops1(), zip.Ops2(), p);
      more := EndRound(zip, assem, s.value.out, s.value.att, s.value.cs, written);
      written := written + Zip.Emit(s.value.out);
      p := s.value.pool;
    }
    AttribEnds(written, p);
    r := Ok(p);
  }

  /** Changes an attribution by a changeset. */
  method ApplyToAttribution(cs: string, attribs: string, pool: Pool) returns (r: Result<(string, Pool)>)
    ensures r == AttributedText.ApplyToAttribution(cs, attribs, pool)
  {
    hide Newlines, AttributedText.AttribZip, Serialize, AppendAll, Assembled, Assemblers.EndDocument, Zip.First,
         Zip.Behind, Left, SmartAppend, Coded, Unpack, Deserialize;
    var unpacked := Unpack(cs);
    var ops1 := Deserialize(attribs);
    if ops1.Err? {
      return Err(ops1.error);
    }
    var ops2 := Deserialize(unpacked.ops);
    if ops2.Err? {
      return Err(ops2.error);
    }
    ParsedCoded(attribs);
    ParsedCoded(unpacked.ops);
    var assem := new SmartOpAssembler();
    var zip := new Zipper(ops1.value, ops2.value);
    AppendNothing();
    zip.FetchBoth();
    var p := AttribRounds(zip, assem, pool);
    if p.Err? {
      return Err(p.error);
    }
    assem.EndDocument();
    var newOps := assem.String();
    r := Ok((newOps, p.value));
  }

  // ----- rebasing -----

  function Followed(ops: seq<Op>, r: Result<seq<Op>>): Result<seq<Op>> {
    match r case Err(e) => Err(e) case Ok(rest) => Ok(ops + rest)
  }

  lemma {:induction false} FollowUnfold(ops1: seq<Op>, ops2: seq<Op>, bank1: string, bank2: string, c: Setting, n: nat,
          ops: seq<Op>)
    requires !(ops1 == [] && ops2 == [])
    ensures var r := Followed(ops, FollowZip(ops1, ops2, bank1, bank2, c, n));
            match Step(Zip.First(ops1), Zip.First(ops2), bank1, bank2, c, n)
            case Err(e) => r == Err(e)
            case Ok(s) => r == Followed(ops + Zip.Emit(s.out),
                                        FollowZip(Zip.Behind(s.op1, ops1), Zip.Behind(s.op2, ops2), bank1[s.skip1..],
                                            bank2[s.skip2..], c, n + 1))
  {
    hide Step, Zip.Emit;
    match Step(Zip.First(ops1), Zip.First(ops2), bank1, bank2, c, n)
    case Err(_) =>
    case Ok(s) =>
      var z := FollowZip(Zip.Behind(s.op1, ops1), Zip.Behind(s.op2, ops2), bank1[s.skip1..], bank2[s.skip2..], c,
          n + 1);
      if z.Ok? { assert ops + (Zip.Emit(s.out) + z.value) == ops + Zip.Emit(s.out) + z.value; }
  }

  lemma {:induction false} FollowEnds(ops: seq<Op>, bank1: string, bank2: string, c: Setting, n: nat)
    ensures Followed(ops, FollowZip([], [], bank1, bank2, c, n)) == Ok(ops)
  {
    assert ops + [] == ops;
  }

  lemma {:induction false} FollowedByNothing(r: Result<seq<Op>>)
    ensures Followed([], r) == r
  {
    if r.Ok? { assert [] + r.value == r.value; }
  }

  lemma {:induction false} MoveLeft(s: Move, ops1: seq<Op>, ops2: seq<Op>, bank1: string, bank2: string, c: Setting,
          n: nat)
    requires !(ops1 == [] && ops2 == []) && Step(Zip.First(ops1), Zip.First(ops2), bank1, bank2, c, n) == Ok(s)
    ensures |Zip.Behind(s.op1, ops1)| + |Zip.Behind(s.op2, ops2)| < |ops1| + |ops2|
    ensures (ops1 == [] ==> s.op1.code == Nop) && (ops2 == [] ==> s.op2.code == Nop)
    ensures s.skip1 <= |bank1| && s.skip2 <= |bank2|
  {
    hide Step;
  }

  lemma {:induction false} ChangeOfOut(ops: seq<Op>, out: Op)
    ensures LengthChange(ops + Zip.Emit(out)) ==
            LengthChange(ops) + (if out.code == Insert then out.chars else if out.code ==
                Delete then 0 - out.chars else 0)
  {
    if out.code == Nop {
      assert ops + [] == ops;
    } else {
      LengthChangeConcat(ops, [out]);
    }
  }

  /** Which of two insertions, or of an insertion and something else, is done first. */
  method WhichToDo(op1: Op, op2: Op, chars1: StringIterator, chars2: StringIterator, c: Setting)
    returns (r: Result<bool>)
    requires chars1.Valid() && chars2.Valid()
    ensures r == FirstGoes(op1, op2, chars1.Rest(), chars2.Rest(), c.reverse, c.pool)
  {
    hide InsertFirst, Newlines;
    if op2.code != Insert {
      return Ok(true);
    } else if op1.code != Insert {
      return Ok(false);
    }
    var firstChar1 := chars1.Peek(1);
    if firstChar1.Err? {
      return Err(firstChar1.error);
    }
    var firstChar2 := chars2.Peek(1);
    if firstChar2.Err? {
      return Err(firstChar2.error);
    }
    var insertFirst1, insertFirst2 := InsertFirst(op1.attribs, c.pool), InsertFirst(op2.attribs, c.pool);
    var whichToDo := 1;
    if insertFirst1 && !insertFirst2 {
      whichToDo := 1;
    } else if insertFirst2 && !insertFirst1 {
      whichToDo := 2;
    } else if firstChar1.value == "\n" && firstChar2.value != "\n" {
      whichToDo := 2;
    } else if firstChar1.value != "\n" && firstChar2.value == "\n" {
      whichToDo := 1;
    } else if c.reverse {
      whichToDo := 2;
    }
    r := Ok(whichToDo == 1);
  }

  /** The callback of Follow where neither operation inserts: deletions and keeps of the same old text meet. */
  method MeetOps(op1: Op, op2: Op, c: Setting, n: nat) returns (r: Result<Move>)
    requires op1.code != Insert && op2.code != Insert
    ensures r == Step(op1, op2, "", "", c, n)
  {
    hide FollowAttributes, FirstGoes;
    var opOut, a, b := NO_OP, op1, op2;
    if op1.code == Delete {
      if op2.code == Nop {
        a := a.(code := Nop);
      } else if op1.chars <= op2.chars {
        b := b.(chars := b.chars - a.chars, lines := b.lines - a.lines);
        a := a.(code := Nop);
        if b.chars == 0 {
          b := b.(code := Nop);
        }
      } else {
        a := a.(chars := a.chars - b.chars, lines := a.lines - b.lines);
        b := b.(code := Nop);
      }
    } else if op2.code == Delete {
      opOut := op2;
      if op1.code == Nop {
        b := b.(code := Nop);
      } else if op2.chars <= op1.chars {
        a := a.(chars := a.chars - b.chars, lines := a.lines - b.lines);
        b := b.(code := Nop);
        if a.chars == 0 {
          a := a.(code := Nop);
        }
      } else {
        opOut := opOut.(chars := a.chars, lines := a.lines);
        b := b.(chars := b.chars - a.chars, lines := b.lines - a.lines);
        a := a.(code := Nop);
      }
    } else if op1.code == Nop {
      opOut := op2;
      b := b.(code := Nop);
    } else if op2.code == Nop {
      a := a.(code := Nop);
    } else {
      var attribs := FollowAttributes(op1.attribs, op2.attribs, c.pool, c.order, n);
      if attribs.Err? {
        return Err(attribs.error);
      }
      if op1.chars <= op2.chars {
        opOut := Op(Keep, op1.chars, op1.lines, attribs.value);
        b := b.(chars := b.chars - a.chars, lines := b.lines - a.lines);
        a := a.(code := Nop);
        if b.chars == 0 {
          b := b.(code := Nop);
        }
      } else {
        opOut := Op(Keep, op2.chars, op2.lines, attribs.value);
        a := a.(chars := a.chars - b.chars, lines := a.lines - b.lines);
        b := b.(code := Nop);
      }
    }
    r := Ok(Move(opOut, a, b, 0, 0));
  }

  lemma {:induction false} MetOps(op1: Op, op2: Op, bank1: string, bank2: string, c: Setting, n: nat)
    requires op1.code != Insert && op2.code != Insert
    ensures Step(op1, op2, bank1, bank2, c, n) == Step(op1, op2, "", "", c, n)
    ensures var r := Step(op1, op2, "", "", c, n); r.Ok? ==> r.value.skip1 == 0 && r.value.skip2 == 0
  {
    hide FollowAttributes, FirstGoes;
  }

  /** The callback of Follow. */
  method FollowStep(op1: Op, op2: Op, chars1: StringIterator, chars2: StringIterator, c: Setting, n: nat)
    returns (r: Result<Move>)
    requires chars1.Valid() && chars2.Valid() && chars1 != chars2
    modifies chars1, chars2
    ensures chars1.Valid() && chars2.Valid()
    ensures r == Step(op1, op2, old(chars1.Rest()), old(chars2.Rest()), c, n)
    ensures r.Ok? ==>
              && chars1.Rest() == old(chars1.Rest())[r.value.skip1..]
              && chars2.Rest() == old(chars2.Rest())[r.value.skip2..]
  {
    hide FollowAttributes, FirstGoes, Newlines, StringIterator.Rest;
    ghost var rest1, rest2 := chars1.Rest(), chars2.Rest();
    assert rest1[0..] == rest1 && rest2[0..] == rest2;
    if op1.code == Insert || op2.code == Insert {
      var first := WhichToDo(op1, op2, chars1, chars2, c);
      if first.Err? {
        return Err(first.error);
      }
      var ok := true;
      if first.value {
        ok := chars1.Skip(op1.chars);
        r := Ok(Move(Op(Keep, op1.chars, op1.lines, ""), op1.(code := Nop), op2, op1.chars, 0));
      } else {
        ok := chars2.Skip(op2.chars);
        r := Ok(Move(op2, op1, op2.(code := Nop), 0, op2.chars));
      }
      if !ok {
        r := Err("not enough characters remaining");
      }
    } else {
      MetOps(op1, op2, rest1, rest2, c, n);
      r := MeetOps(op1, op2, c, n);
    }
  }

  /**
    All rounds of the zip of Follow: how far the operations move in the old text, and how many characters they
    leave.
   */
  method FollowRounds(zip: Zipper, assem: SmartOpAssembler, chars1: StringIterator, chars2: StringIterator, c: Setting)
    returns (r: Result<(int, int)>)
    requires zip.Valid() && zip.Fetched() && chars1.Valid() && chars2.Valid() && chars1 != chars2
    requires assem.Valid() && assem.State() == AppendAll(NEW_SMART, [])
    modifies zip.Repr(), assem.Repr(), chars1, chars2
    ensures assem.Valid()
    ensures var z := FollowZip(old(zip.Ops1()), old(zip.Ops2()), old(chars1.Rest()), old(chars2.Rest()), c, 0);
            if z.Err? then r == Err(z.error)
            else r.Ok? && r.value.1 - r.value.0 == LengthChange(z.value)
                 && assem.State() == AppendAll(NEW_SMART, z.value)
  {
    hide Newlines, FollowZip, Step, Zip.Emit, Serialize, AppendAll, Zip.First, Zip.Behind, Left, Followed, SmartAppend,
         Coded, LengthChange;
    hide Zipper.Valid, Zipper.Ops1, Zipper.Ops2, SmartOpAssembler.State, SmartOpAssembler.Valid, StringIterator.Rest,
         StringIterator.Valid;
    ghost var all := FollowZip(zip.Ops1(), zip.Ops2(), chars1.Rest(), chars2.Rest(), c, 0);
    ghost var written: seq<Op> := [];
    var n, oldPos, newLen := 0, 0, 0;
    FollowedByNothing(all);
    NoChange();
    var more := zip.More();
    while more
      invariant zip.Valid() && zip.Fetched() && more == !(zip.Ops1() == [] && zip.Ops2() == [])
      invariant chars1.Valid() && chars2.Valid() && assem.Valid() && assem.State() == AppendAll(NEW_SMART, written)
      invariant n >= 0 && newLen - oldPos == LengthChange(written)
      invariant Followed(written, FollowZip(zip.Ops1(), zip.Ops2(), chars1.Rest(), chars2.Rest(), c, n)) == all
      decreases |zip.Ops1()| + |zip.Ops2()|
    {
      ghost var b1, b2 := chars1.Rest(), chars2.Rest();
      FollowUnfold(zip.Ops1(), zip.Ops2(), b1, b2, c, n, written);
      var m := FollowStep(zip.op1, zip.op2, chars1, chars2, c, n);
      if m.Err? {
        return Err(m.error);
      }
      var s := m.value;
      MoveLeft(s, zip.Ops1(), zip.Ops2(), b1, b2, c, n);
      ChangeOfOut(written, s.out);
      if s.out.code == Keep || s.out.code == Delete {
        oldPos := oldPos + s.out.chars;
      }
      if s.out.code == Keep || s.out.code == Insert {
        newLen := newLen + s.out.chars;
      }
      more := EndRound(zip, assem, s.out, s.op1, s.op2, written);
      written := written + Zip.Emit(s.out);
      n := n + 1;
    }
    FollowEnds(written, chars1.Rest(), chars2.Rest(), c, n);
    r := Ok((oldPos, newLen));
  }

  lemma {:induction false} NoChange()
    ensures LengthChange([]) == 0
  {}

  /** Ends the document and returns everything written. */
  method Finish(assem: SmartOpAssembler, ghost written: seq<Op>) returns (s: string)
    requires assem.Valid() && assem.State() == AppendAll(NEW_SMART, written)
    modifies assem.Repr()
    ensures s == Serialize(Assemble(written))
  {
    hide Serialize, AppendAll, Assembled, Assemblers.EndDocument;
    assem.EndDocument();
    s := assem.String();
  }

  /** The zip of Follow over two lists of operations: the operations it writes, and their length change. */
  method FollowLists(ops1: seq<Op>, ops2: seq<Op>, bank1: string, bank2: string, c: Setting)
    returns (r: Result<(string, int)>)
    requires Coded(ops1) && Coded(ops2)
    ensures var z := FollowZip(ops1, ops2, bank1, bank2, c, 0);
            if z.Err? then r == Err(z.error) else r == Ok((Serialize(Assemble(z.value)), LengthChange(z.value)))
  {
    hide Newlines, FollowZip, Serialize, AppendAll, Assemble, Zip.First, Zip.Behind, Left, SmartAppend, Coded,
         LengthChange;
    hide Zipper.Fetched, Zipper.Valid, Zipper.Ops1, Zipper.Ops2, SmartOpAssembler.State, SmartOpAssembler.Valid,
         StringIterator.Rest, StringIterator.Valid;
    var chars1 := new StringIterator(bank1);
    var chars2 := new StringIterator(bank2);
    var assem := new SmartOpAssembler();
    AppendNothing();
    var zip := new Zipper(ops1, ops2);
    zip.FetchBoth();
    var lengths := FollowRounds(zip, assem, chars1, chars2, c);
    if lengths.Err? {
      return Err(lengths.error);
    }
    var newOps := Finish(assem, FollowZip(ops1, ops2, bank1, bank2, c, 0).value);
    r := Ok((newOps, lengths.value.1 - lengths.value.0));
  }

  /** `cs2` rebased so that it can be done after `cs1`. */
  method Follow(cs1: string, cs2: string, c: Setting) returns (r: Result<string>)
    ensures r == Algebra.Follow(cs1, cs2, c)
  {
    hide Newlines, FollowZip, Serialize, Assemble, Coded, Unpack, Deserialize, Pack, LengthChange;
    var unpacked1, unpacked2 := Unpack(cs1), Unpack(cs2);
    if unpacked1.oldLen != unpacked2.oldLen {
      return Err("mismatched lengths in Follow");
    }
    var oldLen := unpacked1.newLen;
    var ops1 := Deserialize(unpacked1.ops);
    if ops1.Err? {
      return Err(ops1.error);
    }
    var ops2 := Deserialize(unpacked2.ops);
    if ops2.Err? {
      return Err(ops2.error);
    }
    ParsedCoded(unpacked1.ops);
    ParsedCoded(unpacked2.ops);
    var written := FollowLists(ops1.value, ops2.value, unpacked1.bank, unpacked2.bank, c);
    if written.Err? {
      return Err(written.error);
    }
    r := Ok(Pack(oldLen, oldLen + written.value.1, written.value.0, unpacked2.bank));
  }
}
