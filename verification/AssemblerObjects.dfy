/**
  The assembler objects, which write operations as a string step by step:
  lib/changeset/MergingOpAssembler.go and lib/changeset/SmartOpAssembler.go.
 */
module AssemblerObjects {
  import opened Basics
  import opened Ops
  import opened Syntax
  import opened Assemblers

  lemma {:induction false} SerializeOne(ops: seq<Op>, op: Op)
    ensures Serialize(ops + [op]) == Serialize(ops) + OpToString(op)
  {
    hide OpToString;
    SerializeConcat(ops, [op]);
    assert [op][1..] == [] && OpToString(op) + "" == OpToString(op);
  }

  class MergingOpAssembler {
    var serialized: string
    var bufOp: Op
    var bufOpAdditionalCharsAfterNewline: nat
    // the operations printed so far
    ghost var done: seq<Op>

    ghost predicate Valid()
      reads this
    {
      serialized == Serialize(done)
    }

    ghost function State(): Merger
      reads this
    {
      Merger(done, bufOp, bufOpAdditionalCharsAfterNewline)
    }

    constructor ()
      ensures Valid() && State() == NEW_MERGER
    {
      serialized, bufOp, bufOpAdditionalCharsAfterNewline, done := "", NO_OP, 0, [];
    }

    method Write(op: Op)
      requires Valid()
      modifies `serialized, `done
      ensures Valid() && done == old(done) + [op]
    {
      SerializeOne(done, op);
      serialized := serialized + OpToString(op);
      done := done + [op];
    }

    method Flush(isEndDocument: bool)
      requires Valid()
      modifies this
      ensures Valid() && State() == Assemblers.Flush(old(State()), isEndDocument)
    {
      if bufOp.code == Nop {
        return;
      }
      if isEndDocument && bufOp.code == Keep && bufOp.attribs == "" {
        // a plain keep at the end stays implicit
      } else {
        Write(bufOp);
        if bufOpAdditionalCharsAfterNewline != 0 {
          bufOp := bufOp.(chars := bufOpAdditionalCharsAfterNewline, lines := 0);
          Write(bufOp);
          bufOpAdditionalCharsAfterNewline := 0;
        }
      }
      bufOp := bufOp.(code := Nop);
    }

    method Append(op: Op)
      requires Valid()
      modifies this
      ensures Valid() && State() == MergeAppend(old(State()), op)
    {
      if op.chars <= 0 {
        return;
      }
      if bufOp.code == op.code && bufOp.attribs == op.attribs {
        if op.lines > 0 {
          bufOp := bufOp.(chars := bufOp.chars + bufOpAdditionalCharsAfterNewline + op.chars,
              lines := bufOp.lines + op.lines);
          bufOpAdditionalCharsAfterNewline := 0;
        } else if bufOp.lines == 0 {
          bufOp := bufOp.(chars := bufOp.chars + op.chars);
        } else {
          bufOpAdditionalCharsAfterNewline := bufOpAdditionalCharsAfterNewline + op.chars;
        }
      } else {
        Flush(false);
        bufOp := op;
      }
    }

    method EndDocument()
      requires Valid()
      modifies this
      ensures Valid() && State() == Assemblers.Flush(old(State()), true)
    {
      Flush(true);
    }

    /** Flushes, and returns everything written. */
    method String() returns (s: string)
      requires Valid()
      modifies this
      ensures Valid() && State() == Assemblers.Flush(old(State()), false)
      ensures s == Serialize(Merged(old(State())))
    {
      assert bufOp.code == Nop ==> done + [] == done;
      Flush(false);
      s := serialized;
    }

    method Clear()
      requires Valid()
      modifies this
      ensures Valid() && State() == NEW_MERGER
    {
      serialized, done := "", [];
      bufOp := NO_OP;
      bufOpAdditionalCharsAfterNewline := 0;
    }
  }

  class SmartOpAssembler {
    const minusAssem: MergingOpAssembler
    const plusAssem: MergingOpAssembler
    const keepAssem: MergingOpAssembler
    var assem: string
    var lastOpcode: OpCode
    var lengthChange: int
    ghost var done: seq<Op>

    ghost predicate Valid()
      reads this, minusAssem, plusAssem, keepAssem
    {
      && minusAssem != plusAssem && plusAssem != keepAssem && minusAssem != keepAssem
      && minusAssem.Valid() && plusAssem.Valid() && keepAssem.Valid()
      && assem == Serialize(done)
    }

    ghost function State(): Smart
      reads this, minusAssem, plusAssem, keepAssem
    {
      Smart(done, minusAssem.State(), plusAssem.State(), keepAssem.State(), lastOpcode, lengthChange)
    }

    ghost function Repr(): set<object> { {this, minusAssem, plusAssem, keepAssem} }

    constructor ()
      ensures Valid() && State() == NEW_SMART && fresh(Repr())
    {
      minusAssem := new MergingOpAssembler();
      plusAssem := new MergingOpAssembler();
      keepAssem := new MergingOpAssembler();
      assem, lastOpcode, lengthChange, done := "", Nop, 0, [];
    }

    method FlushKeeps()
      requires Valid()
      modifies `assem, `done, keepAssem
      ensures Valid() && State() == Assemblers.FlushKeeps(old(State()))
    {
      SerializeConcat(done, Merged(keepAssem.State()));
      done := done + Merged(keepAssem.State());
      var s := keepAssem.String();
      assem := assem + s;
      keepAssem.Clear();
    }

    method FlushPlusMinus()
      requires Valid()
      modifies `assem, `done, minusAssem, plusAssem
      ensures Valid() && State() == Assemblers.FlushPlusMinus(old(State()))
    {
      ghost var minus, plus := Merged(minusAssem.State()), Merged(plusAssem.State());
      SerializeConcat(done, minus);
      SerializeConcat(done + minus, plus);
      done := done + minus + plus;
      var s := minusAssem.String();
      assem := assem + s;
      minusAssem.Clear();
      s := plusAssem.String();
      assem := assem + s;
      plusAssem.Clear();
    }

    method Append(op: Op)
      requires Valid()
      modifies Repr()
      ensures Valid() && State() == SmartAppend(old(State()), op)
    {
      hide Serialize, MergeAppend, Merged;
      if op.code == Nop || op.chars == 0 {
        return;
      }
      if op.code == Delete {
        if lastOpcode == Keep {
          FlushKeeps();
        }
        minusAssem.Append(op);
        lengthChange := lengthChange - op.chars;
      } else if op.code == Insert {
        if lastOpcode == Keep {
          FlushKeeps();
        }
        plusAssem.Append(op);
        lengthChange := lengthChange + op.chars;
      } else {
        if lastOpcode != Keep {
          FlushPlusMinus();
        }
        keepAssem.Append(op);
      }
      lastOpcode := op.code;
    }

    /** Flushes, and returns everything written. */
    method String() returns (s: string)
      requires Valid()
      modifies Repr()
      ensures Valid() && s == Serialize(Assembled(old(State()))) && lengthChange == old(lengthChange)
    {
      hide Serialize, Merged;
      FlushPlusMinus();
      FlushKeeps();
      s := assem;
    }

    method Clear()
      requires Valid()
      modifies Repr()
      ensures Valid() && State() == NEW_SMART.(last := old(lastOpcode))
    {
      minusAssem.Clear();
      plusAssem.Clear();
      keepAssem.Clear();
      assem, done := "", [];
      lengthChange := 0;
    }

    method EndDocument()
      requires Valid()
      modifies keepAssem
      ensures Valid() && State() == Assemblers.EndDocument(old(State()))
    {
      keepAssem.EndDocument();
    }
  }
}
