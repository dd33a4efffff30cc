/** Subattribution of lib/changeset/changeset.go as it runs: two loops over the runs, with an assembler. */
module SubattributionLoops {
  import opened Basics
  import opened Pools
  import opened Ops
  import opened Syntax
  import opened Assemblers
  import opened AssemblerObjects
  import opened Subattributions
  import Zip = Composition
  import ZipLoops

  /** What is written before, in front of what a slicing writes. */
  function Behind(written: seq<Op>, r: Result<Sliced>): Result<Sliced> {
    match r case Err(e) => Err(e) case Ok(s) => Ok(s.(out := written + s.out))
  }

  lemma {:induction false} SliceUnfold(att: seq<Op>, cs: Op, written: seq<Op>)
    requires att != [] && cs.code != Nop
    ensures var r := Behind(written, DoCsOp(att, cs));
            match Zip.Slicer(att[0], Counting(cs, att[0]), EMPTY_POOL)
            case Err(e) => r == Err(e)
            case Ok(s) =>
              && r == Behind(written + Zip.Emit(s.out), DoCsOp(Zip.Behind(s.att, att), s.cs))
              && (|Zip.Behind(s.att, att)| < |att| || (|Zip.Behind(s.att, att)| == |att| && s.cs.code == Nop))
  {
    hide Zip.Slicer, Zip.Emit;
    match Zip.Slicer(att[0], Counting(cs, att[0]), EMPTY_POOL)
    case Err(_) =>
    case Ok(s) =>
      var z := DoCsOp(Zip.Behind(s.att, att), s.cs);
      if z.Ok? { assert written + (Zip.Emit(s.out) + z.value.out) == written + Zip.Emit(s.out) + z.value.out; }
  }

  lemma {:induction false} SliceEnds(att: seq<Op>, cs: Op, written: seq<Op>)
    requires att == [] || cs.code == Nop
    ensures Behind(written, DoCsOp(att, cs)) == Ok(Sliced(written, att, cs))
  {
    assert written + [] == written;
  }

  /** The next run becomes the current one. */
  lemma {:induction false} NextRun(ops: seq<Op>, idx: nat, attOp: Op)
    requires ZipLoops.Coded(ops) && idx < |ops| && attOp.code == Nop
    ensures ZipLoops.Left(ops[idx], ops[idx + 1..]) == ZipLoops.Left(attOp, ops[idx..])
  {}

  lemma {:induction false} CurrentRun(ops: seq<Op>, idx: nat, attOp: Op, left: Op)
    requires idx <= |ops| && attOp.code != Nop
    ensures var att := ZipLoops.Left(attOp, ops[idx..]);
            att != [] && att[0] == attOp && ZipLoops.Left(left, ops[idx..]) == Zip.Behind(left, att)
  {
    var att := ZipLoops.Left(attOp, ops[idx..]);
    assert att[1..] == ops[idx..];
  }

  lemma {:induction false} NoRun(ops: seq<Op>, idx: nat, attOp: Op)
    requires idx <= |ops| && ZipLoops.Coded(ops)
    ensures ZipLoops.Left(attOp, ops[idx..]) == [] <==> attOp.code == Nop && idx == |ops|
  {}

  /** The loop that slices runs by one operation and hands what is written to the assembler. */
  method SliceRuns(ops: seq<Op>, idx0: nat, attOp0: Op, csOp0: Op, assem: SmartOpAssembler, ghost before: seq<Op>)
    returns (idx: nat, attOp: Op, csOp: Op, error: Option<string>)
    requires idx0 <= |ops| && ZipLoops.Coded(ops)
    requires assem.Valid() && assem.State() == AppendAll(NEW_SMART, before)
    modifies assem.Repr()
    ensures assem.Valid() && idx <= |ops|
    ensures var r := SliceBy(ZipLoops.Left(attOp0, ops[idx0..]), csOp0);
            if r.Err? then error == Some(r.error)
            else && error == None && ZipLoops.Left(attOp, ops[idx..]) == r.value.att && csOp == r.value.cs
                 && assem.State() == AppendAll(NEW_SMART, before + r.value.out)
  {
    hide Zip.Slicer, AppendAll, SmartAppend, DoCsOp, Zip.Emit, Zip.Behind, ZipLoops.Left, Behind,
         SmartOpAssembler.Valid, SmartOpAssembler.State;
    idx, attOp, csOp, error := idx0, attOp0, csOp0, None;
    if csOp.chars == 0 {
      assert before + [] == before;
      return;
    }
    ghost var all := DoCsOp(ZipLoops.Left(attOp, ops[idx..]), csOp);
    ghost var written := before;
    while csOp.code != Nop && (attOp.code != Nop || idx < |ops|)
      invariant idx <= |ops| && assem.Valid() && assem.State() == AppendAll(NEW_SMART, written)
      invariant Behind(written, DoCsOp(ZipLoops.Left(attOp, ops[idx..]), csOp)) == Behind(before, all)
      decreases |ZipLoops.Left(attOp, ops[idx..])|, if csOp.code == Nop then 0 else 1
    {
      if attOp.code == Nop {
        NextRun(ops, idx, attOp);
        attOp := ops[idx];
        idx := idx + 1;
      }
      ghost var att := ZipLoops.Left(attOp, ops[idx..]);
      CurrentRun(ops, idx, attOp, attOp);
      SliceUnfold(att, csOp, written);
      if csOp.chars >= attOp.chars && attOp.lines > 0 && csOp.lines <= 0 {
        csOp := csOp.(lines := csOp.lines + 1);
      }
      var s := ZipLoops.SlicerZipperFunc(attOp, csOp, EMPTY_POOL);
      if s.Err? {
        BehindErr(before, all);
        error := Some(s.error);
        return;
      }
      ZipLoops.Write(assem, s.value.out, written);
      written := written + Zip.Emit(s.value.out);
      CurrentRun(ops, idx, attOp, s.value.att);
      attOp, csOp := s.value.att, s.value.cs;
    }
    NoRun(ops, idx, attOp);
    SliceEnds(ZipLoops.Left(attOp, ops[idx..]), csOp, written);
    BehindOk(before, all);
  }

  lemma {:induction false} BehindErr(before: seq<Op>, r: Result<Sliced>)
    ensures Behind(before, r).Err? ==> r == Behind(before, r)
  {}

  lemma {:induction false} BehindOk(before: seq<Op>, r: Result<Sliced>)
    ensures Behind(before, r).Ok? ==>
              r.Ok? && Behind(before, r).value == r.value.(out := before + r.value.out)
  {}

  /** The part of an attribution between two places. */
  method Subattribution(astr: string, start: nat, optEnd: Option<int>) returns (r: Result<string>)
    ensures r == Subattributions.Subattribution(astr, start, optEnd)
  {
    hide AppendAll, Assembled, SliceBy, Serialize, Deserialize, SmartOpAssembler.Valid, SmartOpAssembler.State;
    var parsed := Deserialize(astr);
    if parsed.Err? {
      return Err(parsed.error);
    }
    var ops := parsed.value;
    ZipLoops.ParsedCoded(astr);
    var assem := new SmartOpAssembler();
    AppendNothing();
    StartRuns(ops);
    var idx, attOp, csOp, error := SliceRuns(ops, 0, NO_OP, Op(Delete, start, 0, ""), assem, []);
    if error.Some? {
      return Err(error.value);
    }
    ghost var written := SliceBy(ops, Op(Delete, start, 0, "")).value.out;
    assert [] + written == written;
    if optEnd.None? {
      ghost var rest := ZipLoops.Left(attOp, ops[idx..]);
      AppendRest(ops, idx, attOp, assem, written);
    } else {
      if optEnd.value < start {
        return Err("optEnd < start");
      }
      idx, attOp, csOp, error := SliceRuns(ops, idx, attOp, Op(Keep, optEnd.value - start, csOp.lines, ""), assem,
          written);
      if error.Some? {
        return Err(error.value);
      }
    }
    var s := assem.String();
    r := Ok(s);
  }

  lemma {:induction false} StartRuns(ops: seq<Op>)
    ensures ZipLoops.Left(NO_OP, ops[0..]) == ops
  {
    assert ops[0..] == ops && [] + ops == ops;
  }

  /** All runs that are left go to the assembler. */
  method AppendRest(ops: seq<Op>, idx0: nat, attOp: Op, assem: SmartOpAssembler, ghost before: seq<Op>)
    requires idx0 <= |ops| && ZipLoops.Coded(ops) && assem.Valid() && assem.State() == AppendAll(NEW_SMART, before)
    modifies assem.Repr()
    ensures assem.Valid() && assem.State() == AppendAll(NEW_SMART, before + ZipLoops.Left(attOp, ops[idx0..]))
  {
    hide AppendAll, SmartOpAssembler.Valid, SmartOpAssembler.State, SmartAppend;
    ZipLoops.Write(assem, attOp, before);
    ghost var written := before + Zip.Emit(attOp);
    assert written + ops[idx0..idx0] == written;
    for idx := idx0 to |ops|
      invariant assem.Valid() && assem.State() == AppendAll(NEW_SMART, written + ops[idx0..idx])
    {
      ghost var w := written + ops[idx0..idx];
      ZipLoops.AppendOut(w, ops[idx]);
      assem.Append(ops[idx]);
      assert Zip.Emit(ops[idx]) == [ops[idx]] && w + [ops[idx]] == written + ops[idx0..idx + 1];
    }
    assert ops[idx0..|ops|] == ops[idx0..];
    assert written + ops[idx0..] == before + ZipLoops.Left(attOp, ops[idx0..]);
  }
}
