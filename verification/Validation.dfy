/** The checks of lib/changeset/validate.go. */
module Validation {
  import opened Basics
  import opened Ops
  import opened Syntax
  import opened Assemblers
  import opened Changesets
  import opened TextMutation
  import Lines

  /**
    Insertions count the newlines of their part of the bank and use it up, and no operation has more lines than
    characters.
   */
  predicate Counted(ops: seq<Op>, bank: string) {
    if ops == [] then bank == ""
    else
      && ops[0].lines <= ops[0].chars
      && if ops[0].code == Insert
         then ops[0].chars <= |bank| && ops[0].lines == Newlines(bank[..ops[0].chars])
              && Counted(ops[1..], bank[ops[0].chars..])
         else Counted(ops[1..], bank)
  }

  lemma {:induction false} CountedNext(ops: seq<Op>, bank: string, i: nat, pos: nat)
    requires i < |ops| && pos <= |bank|
    ensures Counted(ops[i..], bank[pos..]) <==>
            && ops[i].lines <= ops[i].chars
            && if ops[i].code == Insert
               then pos + ops[i].chars <= |bank| && ops[i].lines == Newlines(bank[pos..pos + ops[i].chars])
                    && Counted(ops[i + 1..], bank[pos + ops[i].chars..])
               else Counted(ops[i + 1..], bank[pos..])
  {
    hide Newlines;
    assert ops[i..][1..] == ops[i + 1..];
    if pos + ops[i].chars <= |bank| {
      assert bank[pos..][..ops[i].chars] == bank[pos..pos + ops[i].chars]
             && bank[pos..][ops[i].chars..] == bank[pos + ops[i].chars..];
    }
  }

  /** Counts the newlines of a text. */
  method CountNewlines(s: string) returns (nls: nat)
    ensures nls == Newlines(s)
  {
    nls := 0;
    assert s[..0] == "";
    for i := 0 to |s|
      invariant nls == Newlines(s[..i])
    {
      assert s[..i + 1] == s[..i] + [s[i]];
      NewlinesConcat(s[..i], [s[i]]);
      assert Newlines([s[i]]) == if s[i] == '\n' then 1 else 0;
      if s[i] == '\n' {
        nls := nls + 1;
      }
    }
    assert s[..|s|] == s;
  }

  /** Checks what can be checked of a changeset without its text. */
  method ValidateWellFormed(cs: string) returns (ok: bool)
    ensures ok <==> Deserialize(Unpack(cs).ops).Ok? && Counted(Deserialize(Unpack(cs).ops).value, Unpack(cs).bank)
  {
    hide Newlines, Counted, Unpack, Deserialize;
    var unpacked := Unpack(cs);
    var parsed := Deserialize(unpacked.ops);
    if parsed.Err? {
      return false;
    }
    var ops, bank := parsed.value, unpacked.bank;
    var bankPos := 0;
    assert ops[0..] == ops && bank[0..] == bank;
    for i := 0 to |ops|
      invariant 0 <= bankPos <= |bank|
      invariant Counted(ops[i..], bank[bankPos..]) <==> Counted(ops, bank)
    {
      CountedNext(ops, bank, i, bankPos);
      if ops[i].chars < ops[i].lines {
        return false;
      }
      if ops[i].code == Insert {
        if bankPos + ops[i].chars > |bank| {
          return false;
        }
        var nls := CountNewlines(bank[bankPos..bankPos + ops[i].chars]);
        if nls != ops[i].lines {
          return false;
        }
        bankPos := bankPos + ops[i].chars;
      }
    }
    NothingCounted(bank[bankPos..]);
    assert ops[|ops|..] == [];
    ok := bankPos == |bank|;
  }

  lemma {:induction false} NothingCounted(bank: string)
    ensures Counted([], bank) <==> bank == ""
  {}

  /** A changeset that CheckRep accepts and that fits some text passes the check. */
  lemma {:induction false} WellFormedCounted(cs: string, text: string)
    requires WellFormed(cs, text)
    ensures Deserialize(Unpack(cs).ops).Ok? && Counted(OpsOf(cs), Unpack(cs).bank)
  {
    hide CheckRep, Unpack, Run, Plain, ApplyOps, FitsText, Counted, Deserialize, Normal, AllPrintable, LengthChange,
         InsertsFit;
    CheckRepRegular(cs);
    WellFormedFits(cs, text);
    FittingCounted(OpsOf(cs), Unpack(cs).bank, text);
  }

  lemma {:induction false} FittingCounted(ops: seq<Op>, bank: string, text: string)
    requires FitsText(ops, bank, text) && InsertsFit(ops, bank)
    ensures Counted(ops, bank)
    decreases |ops|
  {
    hide Newlines, Clean;
    if ops != [] {
      var n := ops[0].chars;
      if ops[0].code == Insert {
        NewlinesBound(bank[..n]);
        FittingCounted(ops[1..], bank[n..], text);
      } else {
        NewlinesBound(text[..n]);
        FittingCounted(ops[1..], bank, text[n..]);
      }
    }
  }

  /** Whether two lists of lines are the same, line by line. */
  method SameLines(result: seq<string>, expected: seq<string>) returns (ok: bool)
    ensures ok <==> result == expected
  {
    if |result| != |expected| {
      return false;
    }
    for i := 0 to |expected|
      invariant result[..i] == expected[..i]
    {
      if result[i] != expected[i] {
        return false;
      }
      assert result[..i + 1] == result[..i] + [result[i]] && expected[..i + 1] == expected[..i] + [expected[i]];
    }
    assert result[..|result|] == result && expected[..|expected|] == expected;
    ok := true;
  }

  /** Exactly when changing the lines `post` by `backward` gives the lines `pre`. */
  ghost predicate Returns(backward: string, post: seq<string>, pre: seq<string>) {
    var ops, bank := OpsOf(backward), Unpack(backward).bank;
    && Deserialize(Unpack(backward).ops).Ok? && ApplyOps(ops, bank, Lines.Join(post)) == Ok(Lines.Join(pre))
    && !(StopsMidline(ops, bank, Lines.Join(post), "") && EndsInNewline(Lines.Join(pre)))
  }

  /** Checks that `backward` takes the lines after a change back to the lines before it. */
  method ValidateRoundTrip(backward: string, postForward: seq<string>, preForward: seq<string>) returns (ok: bool)
    requires Lines.LineList(postForward)
    requires Deserialize(Unpack(backward).ops).Ok? ==>
             FitsText(OpsOf(backward), Unpack(backward).bank, Lines.Join(postForward))
    ensures Lines.AllFull(postForward) && Lines.AllFull(preForward) ==>
            (ok <==> Returns(backward, postForward, preForward))
  {
    hide Unpack, Deserialize, Lines.LineList, Lines.AllFull, FitsText, ApplyOps, StopsMidline, Lines.Join,
         Lines.SplitTextLines, OpsOf;
    var result := MutateTextLines(backward, postForward);
    if result.Err? {
      return false;
    }
    if Lines.AllFull(preForward) { Lines.SplitJoin(preForward); }
    ok := SameLines(result.value, preForward);
  }
}
