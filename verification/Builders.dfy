/** Building a changeset operation by operation: lib/changeset/Builder.go. */
module Builders {
  import opened Basics
  import opened Ops
  import opened Syntax
  import opened Assemblers
  import opened AssemblerObjects

  /** The index just behind the last newline of `t`. */
  function LinesEnd(t: string): (k: nat)
    ensures k <= |t| && Newlines(t[..k]) == Newlines(t) && (k > 0 ==> EndsInNewline(t[..k])) && Newlines(t[k..]) == 0
  {
    if t == "" then 0
    else if EndsInNewline(t) then (assert t[..|t|] == t; |t|)
    else
      var t' := t[..|t| - 1];
      assert t == t' + [t[|t| - 1]];
      NewlinesConcat(t', [t[|t| - 1]]);
      var k := LinesEnd(t');
      assert t'[..k] == t[..k] && t'[k..] + [t[|t| - 1]] == t[k..];
      NewlinesConcat(t'[k..], [t[|t| - 1]]);
      k
  }

  /** The operations for a text: its whole lines, and what stands behind the last newline. */
  function OpsFromText(code: OpCode, text: string, attribs: string): seq<Op> {
    var k := LinesEnd(text);
    if k == 0 then [Op(code, |text|, 0, attribs)]
    else [Op(code, k, Newlines(text), attribs), Op(code, |text| - k, 0, attribs)]
  }

  class Builder {
    const oldLen: int
    const assem: SmartOpAssembler
    var o: Op
    var charBank: string
    // the operations handed to the assembler
    ghost var ops: seq<Op>

    ghost function Repr(): set<object> { {this} + assem.Repr() }

    ghost predicate Valid()
      reads this, assem, assem.minusAssem, assem.plusAssem, assem.keepAssem
    {
      assem.Valid() && assem.State() == AppendAll(NEW_SMART, ops)
    }

    constructor (oldLen: int)
      ensures Valid() && fresh(Repr()) && this.oldLen == oldLen && ops == [] && charBank == ""
    {
      this.oldLen := oldLen;
      assem := new SmartOpAssembler();
      o, charBank, ops := NO_OP, "", [];
    }

    method Put(op: Op)
      requires Valid()
      modifies assem.Repr(), `ops
      ensures Valid() && ops == old(ops) + [op]
    {
      assert (ops + [op])[..|ops|] == ops;
      assem.Append(op);
      ops := ops + [op];
    }

    method Keep(n: nat, l: int, attribs: string)
      requires Valid()
      modifies Repr()
      ensures Valid() && ops == old(ops) + [Op(OpCode.Keep, n, if l > 0 then l else 0, attribs)]
              && charBank == old(charBank)
    {
      o := Op(OpCode.Keep, n, if l > 0 then l else 0, attribs);
      Put(o);
    }

    method Insert(text: string, attribs: string)
      requires Valid()
      modifies Repr()
      ensures Valid() && ops == old(ops) + OpsFromText(OpCode.Insert, text, attribs) && charBank == old(charBank) + text
    {
      hide AppendAll, OpsFromText, SmartAppend, Serialize;
      var put := OpsFromText(OpCode.Insert, text, attribs);
      assert put[..0] == [] && ops + [] == ops;
      for i := 0 to |put|
        invariant Valid() && ops == old(ops) + put[..i]
        invariant charBank == old(charBank)
      {
        assert put[..i + 1] == put[..i] + [put[i]];
        Put(put[i]);
      }
      assert put[..|put|] == put;
      charBank := charBank + text;
    }

    method Remove(n: nat, l: int)
      requires Valid()
      modifies Repr()
      ensures Valid() && ops == old(ops) + [Op(Delete, n, if l > 0 then l else 0, "")] && charBank == old(charBank)
    {
      o := Op(Delete, n, if l > 0 then l else 0, "");
      Put(o);
    }

    /** The changeset built; the plain keep at its end stays implicit. */
    method ToString() returns (s: string)
      requires Valid()
      modifies Repr()
      ensures s == Pack(oldLen, oldLen + LengthChange(old(ops)), Serialize(Assemble(old(ops))), old(charBank))
    {
      hide AppendAll, LengthChange, Serialize, SmartAppend, Pack, Assembled;
      SmartChange(ops);
      assem.EndDocument();
      var newLen := oldLen + assem.lengthChange;
      var opStr := assem.String();
      s := Pack(oldLen, newLen, opStr, charBank);
    }
  }
}
