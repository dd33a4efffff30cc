/** Printing and parsing of operations and changesets, lib/changeset/Op.go and lib/changeset/changeset.go. */
module Syntax {
  import opened Basics
  import opened Numerals
  import opened Ops

  function CodeText(c: OpCode): string {
    match c case Keep => "=" case Delete => "-" case Insert => "+" case Nop => ""
  }

  function IntToString(n: int): string { if n < 0 then "-" + NumToString(-n) else NumToString(n) }

  function OpToString(op: Op): string {
    op.attribs + (if op.lines == 0 then "" else "|" + IntToString(op.lines)) + CodeText(op.code) + NumToString(op.chars)
  }

  function Serialize(ops: seq<Op>): string {
    if ops == [] then "" else OpToString(ops[0]) + Serialize(ops[1..])
  }

  lemma {:induction false} SerializeConcat(a: seq<Op>, b: seq<Op>)
    ensures Serialize(a + b) == Serialize(a) + Serialize(b)
  {
    if a == [] {
      assert a + b == b;
    } else {
      assert (a + b)[1..] == a[1..] + b;
      SerializeConcat(a[1..], b);
    }
  }

  // ----- parsing -----

  /** The length of the longest prefix of `s` of the form "*n*n...". */
  function AttribRun(s: string): (k: nat)
    ensures k <= |s|
    decreases |s|
  {
    if s != [] && s[0] == '*' && DigitRun(s[1..]) > 0
    then var k := 1 + DigitRun(s[1..]); k + AttribRun(s[k..])
    else 0
  }

  /** The op code and the length at the start of `s`. */
  function ParseTail(s: string, lines: int, attribs: string): (r: Option<(Op, string)>)
    ensures r.Some? ==> |r.value.1| < |s|
  {
    if s == [] || s[0] !in "-+=" then None
    else
      var n := DigitRun(s[1..]);
      if n == 0 then None
      else
        var code := if s[0] == '=' then Keep else if s[0] == '-' then Delete else Insert;
        Some((Op(code, ParseNum(s[1..][..n]), lines, attribs), s[1..][n..]))
  }

  /** The optional newline count at the start of `s`, and what follows it. */
  function ParseLines(s: string): (r: (int, string))
    ensures |r.1| <= |s|
  {
    var k := if s != [] && s[0] == '|' then DigitRun(s[1..]) else 0;
    if k > 0 then (ParseNum(s[1..][..k]), s[1..][k..]) else (0, s)
  }

  /** One operation at the start of `s`, and the text after it. */
  function ParseOp(s: string): (r: Option<(Op, string)>)
    ensures r.Some? ==> |r.value.1| < |s|
  {
    var i := AttribRun(s);
    var (lines, tail) := ParseLines(s[i..]);
    ParseTail(tail, lines, s[..i])
  }

  /** All operations of `s`; "$" and newlines between them are passed over. */
  function Deserialize(s: string): Result<seq<Op>>
    decreases |s|
  {
    if s == [] then Ok([])
    else match ParseOp(s)
      case Some((op, rest)) =>
        (match Deserialize(rest)
         case Err(e) => Err(e)
         case Ok(ops) => Ok([op] + ops))
      case None =>
        if s[0] == '$' || s[0] == '\n' then Deserialize(s[1..]) else Err("invalid op string")
  }

  // ----- printed operations are read back -----

  /** An attribute string of the form "*n*n...". */
  predicate AttribText(a: string) { AttribRun(a) == |a| }

  predicate Printable(op: Op) { op.code != Nop && op.lines >= 0 && AttribText(op.attribs) }

  lemma {:induction false} FirstAttrib(a: string) returns (c: string, d: string)
    requires AttribText(a) && a != []
    ensures a == ['*'] + c + d && c != [] && AllDigits(c) && AttribText(d) && (d == [] || d[0] == '*')
  {
    var k := DigitRun(a[1..]);
    c, d := a[1..][..k], a[1 + k..];
    assert a[0] == '*' && a[1..] == c + d;
  }

  lemma {:induction false} AttribRunNext(c: string, t: string)
    requires c != [] && AllDigits(c) && (t == [] || !IsDigit(t[0]))
    ensures AttribRun(['*'] + c + t) == 1 + |c| + AttribRun(t)
  {
    var s := ['*'] + c + t;
    RunOfNumeral(c, t);
    hide DigitRun;
    assert s[1..] == c + t && s[1 + |c|..] == t;
  }

  lemma {:induction false} Regroup(a: string, b: string, c: string, d: string)
    ensures a + b + c + d == a + b + (c + d)
  {}

  lemma {:induction false} AttribRunStops(a: string, b: string)
    requires AttribText(a)
    requires b == [] || (b[0] != '*' && !IsDigit(b[0]))
    ensures AttribRun(a + b) == |a|
    decreases |a|
  {
    if a == [] {
      assert a + b == b;
    } else {
      var c, d := FirstAttrib(a);
      AttribRunStops(d, b);
      hide DigitRun, AttribRun;
      Regroup(['*'], c, d, b);
      AttribRunNext(c, d + b);
    }
  }

  lemma {:induction false} ParsePrintedTail(op: Op, rest: string)
    requires Printable(op)
    requires rest == [] || !IsDigit(rest[0])
    ensures var tail := CodeText(op.code) + NumToString(op.chars) + rest;
            tail[0] in "-+=" && ParseTail(tail, op.lines, op.attribs) == Some((op, rest))
  {
    hide NumToString, ParseNum, DigitRun, AttribRun;
    RunOfNumeral(NumToString(op.chars), rest);
    ParsePrinted(op.chars);
    var tail := CodeText(op.code) + NumToString(op.chars) + rest;
    assert tail[1..] == NumToString(op.chars) + rest;
  }

  lemma {:induction false} ParsePrintedLines(lines: nat, tail: string)
    requires tail != [] && tail[0] in "-+="
    ensures var s := (if lines == 0 then "" else "|" + IntToString(lines)) + tail;
            s[0] in "|-+=" && ParseLines(s) == (lines, tail)
  {
    hide NumToString, ParseNum, DigitRun;
    if lines == 0 {
      assert "" + tail == tail;
    } else {
      var l := NumToString(lines);
      assert ("|" + l + tail)[1..] == l + tail;
      RunOfNumeral(l, tail);
      ParsePrinted(lines);
    }
  }

  lemma {:induction false} ParsePrintedOp(op: Op, rest: string)
    requires Printable(op)
    requires rest == [] || !IsDigit(rest[0])
    ensures ParseOp(OpToString(op) + rest) == Some((op, rest))
  {
    hide NumToString, ParseTail, ParseLines, AttribRun, IntToString;
    ParsePrintedTail(op, rest);
    var tail := CodeText(op.code) + NumToString(op.chars) + rest;
    ParsePrintedLines(op.lines, tail);
    var s := (if op.lines == 0 then "" else "|" + IntToString(op.lines)) + tail;
    AttribRunStops(op.attribs, s);
    assert OpToString(op) + rest == op.attribs + s;
    assert (op.attribs + s)[|op.attribs|..] == s && (op.attribs + s)[..|op.attribs|] == op.attribs;
  }

  ghost predicate AllPrintable(ops: seq<Op>) { forall i :: 0 <= i < |ops| ==> Printable(ops[i]) }

  lemma {:induction false} SerializedStart(ops: seq<Op>)
    requires AllPrintable(ops)
    ensures Serialize(ops) == [] || !IsDigit(Serialize(ops)[0])
  {
    if ops != [] {
      var op := ops[0];
      assert AttribText(op.attribs);
      assert op.attribs != [] ==> op.attribs[0] == '*';
    }
  }

  lemma {:induction false} HeadAndTail(ops: seq<Op>)
    requires ops != []
    ensures ops == [ops[0]] + ops[1..]
  {}

  lemma {:induction false} ReadFirst(op: Op, rest: seq<Op>, s: string)
    requires ParseOp(s) == Some((op, Serialize(rest))) && Deserialize(Serialize(rest)) == Ok(rest)
    ensures Deserialize(s) == Ok([op] + rest)
  {
    hide ParseOp, Serialize;
  }

  /** The printed form of a list of operations is read back as the list. */
  lemma {:induction false} DeserializeSerialize(ops: seq<Op>)
    requires AllPrintable(ops)
    ensures Deserialize(Serialize(ops)) == Ok(ops)
  {
    if ops != [] {
      var op, rest := ops[0], ops[1..];
      assert Printable(op) && AllPrintable(rest);
      assert Serialize(ops) == OpToString(op) + Serialize(rest);
      hide OpToString, ParseOp, Printable, Serialize, Deserialize;
      SerializedStart(rest);
      ParsePrintedOp(op, Serialize(rest));
      DeserializeSerialize(rest);
      ReadFirst(op, rest, Serialize(ops));
      HeadAndTail(ops);
    }
  }

  /** Operations read from a string can be printed. */
  lemma {:induction false} ParsedPrintable(s: string)
    requires Deserialize(s).Ok?
    ensures AllPrintable(Deserialize(s).value)
    decreases |s|
  {
    if s != [] {
      match ParseOp(s)
      case Some((op, rest)) =>
        AttribRunIdempotent(s);
        ParsedPrintable(rest);
      case None =>
        ParsedPrintable(s[1..]);
    }
  }

  lemma {:induction false} RunOfRun(s: string, d: nat, k: nat)
    requires 1 + d + k <= |s|
    ensures s[..1 + d + k][1..] == s[1..][..d] + s[1 + d..][..k]
    ensures s[..1 + d + k][1 + d..] == s[1 + d..][..k]
  {}

  lemma {:induction false} AttribRunIdempotent(s: string)
    ensures AttribText(s[..AttribRun(s)])
    decreases |s|
  {
    if AttribRun(s) > 0 {
      var d := DigitRun(s[1..]);
      var a := s[..AttribRun(s)];
      AttribRunIdempotent(s[1 + d..]);
      var k := AttribRun(s[1 + d..]);
      var b := s[1 + d..][..k];
      assert AttribRun(s) == 1 + d + k;
      RunOfRun(s, d, k);
      assert a[1..] == s[1..][..d] + b;
      assert a[1 + d..] == b;
      assert b != [] ==> b[0] == '*';
      RunOfNumeral(s[1..][..d], b);
    }
  }
  // ----- exactly what is read -----

  /** An operation as it may be written: leading zeros are allowed, and the newline count may be left out if it is 0. */
  function Spelling(op: Op, l: string, n: string): string {
    op.attribs + ((if l == "" then "" else "|" + l) + (CodeText(op.code) + n))
  }

  predicate SpelledBy(op: Op, l: string, n: string) {
    && AttribText(op.attribs) && op.code != Nop
    && AllDigits(l) && AllDigits(n) && n != "" && ParseNum(l) == op.lines && ParseNum(n) == op.chars
  }

  /** `s` spells the operations one after the other, with nothing but "$" and newlines between them. */
  ghost predicate Reads(s: string, ops: seq<Op>)
    decreases |s|
  {
    if s == "" then ops == []
    else if s[0] == '$' || s[0] == '\n' then Reads(s[1..], ops)
    else
      && ops != []
      && exists l, n ::
           && SpelledBy(ops[0], l, n) && Spelling(ops[0], l, n) <= s
           && Reads(s[|Spelling(ops[0], l, n)|..], ops[1..])
  }

  lemma {:induction false} TailSpelled(op: Op, n: string, rest: string)
    requires op.code != Nop && AllDigits(n) && n != "" && ParseNum(n) == op.chars
    requires rest == [] || !IsDigit(rest[0])
    ensures var tail := CodeText(op.code) + n + rest;
            tail[0] in "-+=" && ParseTail(tail, op.lines, op.attribs) == Some((op, rest))
  {
    hide ParseNum, DigitRun;
    RunOfNumeral(n, rest);
    assert (CodeText(op.code) + n + rest)[1..] == n + rest;
  }

  lemma {:induction false} LinesSpelled(l: string, tail: string)
    requires tail != [] && tail[0] in "-+=" && AllDigits(l)
    ensures var s := (if l == "" then "" else "|" + l) + tail;
            s[0] in "|-+=" && ParseLines(s) == (ParseNum(l), tail)
  {
    hide DigitRun;
    if l == "" {
      assert "" + tail == tail;
    } else {
      assert ("|" + l + tail)[1..] == l + tail;
      RunOfNumeral(l, tail);
    }
  }

  lemma {:induction false} ParseSpelled(op: Op, l: string, n: string, rest: string)
    requires SpelledBy(op, l, n) && (rest == [] || !IsDigit(rest[0]))
    ensures ParseOp(Spelling(op, l, n) + rest) == Some((op, rest))
  {
    hide ParseTail, ParseLines, AttribRun, ParseNum;
    TailSpelled(op, n, rest);
    var tail := CodeText(op.code) + n + rest;
    LinesSpelled(l, tail);
    var s := (if l == "" then "" else "|" + l) + tail;
    AttribRunStops(op.attribs, s);
    assert Spelling(op, l, n) + rest == op.attribs + s;
    assert (op.attribs + s)[|op.attribs|..] == s && (op.attribs + s)[..|op.attribs|] == op.attribs;
  }

  lemma {:induction false} ParsedSpelling(s: string) returns (l: string, n: string)
    requires ParseOp(s).Some?
    ensures var (op, rest) := ParseOp(s).value;
            SpelledBy(op, l, n) && s == Spelling(op, l, n) + rest && (rest == [] || !IsDigit(rest[0]))
  {
    hide AttribRun, ParseLines, ParseTail, ParseNum;
    var (op, rest) := ParseOp(s).value;
    var i := AttribRun(s);
    AttribRunIdempotent(s);
    l := LinesParsed(s[i..]);
    n := TailParsed(ParseLines(s[i..]).1, ParseLines(s[i..]).0, s[..i]);
    CutAndJoin(s, i);
    var bar := if l == "" then "" else "|" + l;
    Associate(bar, CodeText(op.code) + n, rest);
    Associate(s[..i], bar + (CodeText(op.code) + n), rest);
  }

  lemma {:induction false} TailParsed(s: string, lines: int, attribs: string) returns (n: string)
    requires ParseTail(s, lines, attribs).Some?
    ensures var (op, rest) := ParseTail(s, lines, attribs).value;
            && op.code != Nop && op.lines == lines && op.attribs == attribs
            && AllDigits(n) && n != "" && ParseNum(n) == op.chars && s == CodeText(op.code) + n + rest
            && (rest == [] || !IsDigit(rest[0]))
  {
    hide ParseNum, DigitRun;
    var k := DigitRun(s[1..]);
    n := s[1..][..k];
    CutAndJoin(s[1..], k);
    assert s == [s[0]] + s[1..];
  }

  lemma {:induction false} LinesParsed(s: string) returns (l: string)
    ensures AllDigits(l) && ParseNum(l) == ParseLines(s).0 && s == (if l == "" then "" else "|" + l) + ParseLines(s).1
  {
    var k := if s != [] && s[0] == '|' then DigitRun(s[1..]) else 0;
    l := if k > 0 then s[1..][..k] else "";
    if k > 0 { assert s == "|" + (s[1..][..k] + s[1..][k..]); } else { assert "" + s == s; }
  }

  lemma {:induction false} ReadsStart(s: string, ops: seq<Op>)
    requires Reads(s, ops)
    ensures s == [] || !IsDigit(s[0])
  {
    if s != "" && s[0] != '$' && s[0] != '\n' {
      var l, n :| SpelledBy(ops[0], l, n) && Spelling(ops[0], l, n) <= s;
      SpellingStart(ops[0], l, n);
    }
  }

  lemma {:induction false} SpellingStart(op: Op, l: string, n: string)
    requires SpelledBy(op, l, n)
    ensures var p := Spelling(op, l, n); p != "" && p[0] in "*|-+="
  {
    if op.attribs != "" { var _, _ := FirstAttrib(op.attribs); }
  }

  /** A string is read as some operations exactly if it spells them. */
  lemma {:induction false} DeserializeReads(s: string, ops: seq<Op>)
    ensures Deserialize(s) == Ok(ops) <==> Reads(s, ops)
    decreases |s|, 1
  {
    hide ParseOp, Spelling, SpelledBy;
    if s != "" {
      if s[0] == '$' || s[0] == '\n' {
        NoOpHere(s);
        DeserializeReads(s[1..], ops);
      } else if ops != [] {
        if Deserialize(s) == Ok(ops) { DeserializedReads(s, ops); }
        if Reads(s, ops) { ReadsDeserialized(s, ops); }
      }
    }
  }

  lemma {:induction false} NoOpHere(s: string)
    requires s != "" && s[0] !in "*|-+="
    ensures ParseOp(s) == None
  {
    hide DigitRun, ParseNum;
  }

  lemma {:induction false} DeserializedReads(s: string, ops: seq<Op>)
    requires s != "" && s[0] != '$' && s[0] != '\n' && ops != [] && Deserialize(s) == Ok(ops)
    ensures Reads(s, ops)
    decreases |s|, 0
  {
    var (op, rest) := ParseOp(s).value;
    var l, n := ParsedSpelling(s);
    hide ParseOp, Spelling, SpelledBy;
    assert ops[0] == op && ops[1..] == Deserialize(rest).value;
    DeserializeReads(rest, ops[1..]);
    assert s[|Spelling(op, l, n)|..] == rest && s[..|Spelling(op, l, n)|] == Spelling(op, l, n);
  }

  lemma {:induction false} ReadsDeserialized(s: string, ops: seq<Op>)
    requires s != "" && s[0] != '$' && s[0] != '\n' && Reads(s, ops)
    ensures Deserialize(s) == Ok(ops)
    decreases |s|, 0
  {
    hide ParseOp, Spelling, SpelledBy;
    var l, n :| SpelledBy(ops[0], l, n) && Spelling(ops[0], l, n) <= s
      && Reads(s[|Spelling(ops[0], l, n)|..], ops[1..]);
    var p, rest := Spelling(ops[0], l, n), s[|Spelling(ops[0], l, n)|..];
    SpellingStart(ops[0], l, n);
    ReadsStart(rest, ops[1..]);
    ParseSpelled(ops[0], l, n, rest);
    assert s[..|p|] == p;
    CutAndJoin(s, |p|);
    DeserializeReads(rest, ops[1..]);
    assert ops == [ops[0]] + ops[1..];
  }

  // ----- changesets -----

  /** A changeset string taken apart: two lengths, the operations and the character bank. */
  datatype Changeset = Changeset(oldLen: nat, newLen: int, ops: string, bank: string)

  function Pack(oldLen: int, newLen: int, ops: string, bank: string): string {
    "Z:" + IntToString(oldLen)
    + (if newLen >= oldLen then ">" + NumToString(newLen - oldLen) else "<" + NumToString(oldLen - newLen))
    + ops + "$" + bank
  }

  /** A slice with its bounds moved into the text. */
  function RuneSlice(s: string, start: int, end: int): string {
    var i := if start < 0 then 0 else if start > |s| then |s| else start;
    var j := if end < i then i else if end > |s| then |s| else end;
    s[i..j]
  }

  /** The index of the first occurrence of `c`, or -1. */
  function RuneIndex(s: string, c: char): (i: int)
    ensures -1 <= i < |s|
    ensures i >= 0 ==> s[i] == c && c !in s[..i]
    ensures i == -1 ==> c !in s
  {
    if s == [] then -1
    else if s[0] == c then 0
    else
      var i := RuneIndex(s[1..], c);
      assert i >= 0 ==> s[..i + 1] == [s[0]] + s[1..][..i];
      if i == -1 then -1 else i + 1
  }

  /** The sign and the length change at the start of `s`, applied to `oldLen`; `start` characters precede it. */
  function HeaderChange(s: string, oldLen: nat, start: nat): (nat, int, nat) {
    if s == [] || s[0] !in "><" then (0, 0, 0)
    else
      var j := DigitRun(s[1..]);
      if j == 0 then (0, 0, 0)
      else
        var diff := ParseNum(s[1..][..j]);
        (oldLen, if s[0] == '>' then oldLen + diff else oldLen - diff, start + 1 + j)
  }

  /** Old length, new length and length of the header; a string without a header counts as 0, 0, 0. */
  function Header(cs: string): (nat, int, nat) {
    if !("Z:" <= cs) then (0, 0, 0)
    else
      var k := DigitRun(cs[2..]);
      if k == 0 then (0, 0, 0)
      else HeaderChange(cs[2..][k..], ParseNum(cs[2..][..k]), 2 + k)
  }

  function Unpack(cs: string): Changeset {
    var (oldLen, newLen, start) := Header(cs);
    var i := RuneIndex(cs, '$');
    var end := if i < 0 then |cs| else i;
    Changeset(oldLen, newLen, RuneSlice(cs, start, end), RuneSlice(cs, end + 1, |cs|))
  }

  lemma {:induction false} IndexAfter(a: string, c: char, b: string)
    requires c !in a
    ensures RuneIndex(a + [c] + b, c) == |a|
  {
    if a == [] {
      assert a + [c] + b == [c] + b;
    } else {
      assert (a + [c] + b)[1..] == a[1..] + [c] + b;
      IndexAfter(a[1..], c, b);
    }
  }

  lemma {:induction false} HeaderChangePacked(oldLen: nat, newLen: int, tail: string, start: nat)
    requires tail == [] || !IsDigit(tail[0])
    ensures var b := NumToString(if newLen >= oldLen then newLen - oldLen else oldLen - newLen);
            HeaderChange((if newLen >= oldLen then ">" else "<") + b + tail, oldLen, start) ==
            (oldLen, newLen, start + 1 + |b|)
  {
    hide NumToString, ParseNum, DigitRun;
    var diff := if newLen >= oldLen then newLen - oldLen else oldLen - newLen;
    var sign := if newLen >= oldLen then ">" else "<";
    var b := NumToString(diff);
    assert (sign + b + tail)[1..] == b + tail;
    RunOfNumeral(b, tail);
    ParsePrinted(diff);
  }

  lemma {:induction false} PackedTail(oldLen: nat, newLen: int, ops: string, bank: string, b: string)
    requires b == NumToString(if newLen >= oldLen then newLen - oldLen else oldLen - newLen)
    ensures var cs := Pack(oldLen, newLen, ops, bank);
            |cs| > 2 && cs[..2] == "Z:" && cs[2..] ==
                NumToString(oldLen) + ((if newLen >= oldLen then ">" else "<") + b + (ops + "$" + bank))
  {
    hide NumToString;
  }

  lemma {:induction false} HeaderPacked(oldLen: nat, newLen: int, ops: string, bank: string)
    requires ops == [] || !IsDigit(ops[0])
    ensures var h := |NumToString(oldLen)|
            + |NumToString(if newLen >= oldLen then newLen - oldLen else oldLen - newLen)|;
            Header(Pack(oldLen, newLen, ops, bank)) == (oldLen, newLen, 3 + h)
  {
    hide NumToString, ParseNum, DigitRun, HeaderChange;
    var cs := Pack(oldLen, newLen, ops, bank);
    var a, b := NumToString(oldLen), NumToString(if newLen >= oldLen then newLen - oldLen else oldLen - newLen);
    var change := (if newLen >= oldLen then ">" else "<") + b + (ops + "$" + bank);
    PackedTail(oldLen, newLen, ops, bank, b);
    hide Pack;
    RunOfNumeral(a, change);
    ParsePrinted(oldLen);
    HeaderChangePacked(oldLen, newLen, ops + "$" + bank, 2 + |a|);
  }

  lemma {:induction false} UnpackParts(head: string, ops: string, bank: string, oldLen: nat, newLen: int)
    requires '$' !in head && '$' !in ops
    requires Header(head + ops + "$" + bank) == (oldLen, newLen, |head|)
    ensures Unpack(head + ops + "$" + bank) == Changeset(oldLen, newLen, ops, bank)
  {
    hide Header, RuneIndex;
    var cs := head + ops + "$" + bank;
    IndexAfter(head + ops, '$', bank);
    assert cs == (head + ops) + ['$'] + bank;
    assert cs[|head|..|head| + |ops|] == ops && cs[|head| + |ops| + 1..|cs|] == bank;
  }

  /** Packing and unpacking give back the parts, whatever the bank holds. */
  lemma {:induction false} UnpackPack(oldLen: nat, newLen: int, ops: string, bank: string)
    requires ops == [] || !IsDigit(ops[0])
    requires '$' !in ops
    ensures Unpack(Pack(oldLen, newLen, ops, bank)) == Changeset(oldLen, newLen, ops, bank)
  {
    hide NumToString, Header, Unpack;
    HeaderPacked(oldLen, newLen, ops, bank);
    var diff := if newLen >= oldLen then newLen - oldLen else oldLen - newLen;
    var head := "Z:" + NumToString(oldLen) + (if newLen >= oldLen then ">" else "<") + NumToString(diff);
    assert Pack(oldLen, newLen, ops, bank) == head + ops + "$" + bank;
    NoDollar(NumToString(oldLen));
    NoDollar(NumToString(diff));
    UnpackParts(head, ops, bank, oldLen, newLen);
  }

  lemma {:induction false} NoDollar(s: string)
    requires AllDigits(s)
    ensures '$' !in s
  {
    forall i | 0 <= i < |s| ensures s[i] != '$' { assert IsDigit(s[i]); }
  }

  lemma {:induction false} AttribTextChars(a: string)
    requires AttribText(a)
    ensures '$' !in a
    decreases |a|
  {
    if a != [] {
      var d := DigitRun(a[1..]);
      AttribTextChars(a[1 + d..]);
      NoDollar(a[1..][..d]);
      assert a == [a[0]] + a[1..][..d] + a[1 + d..];
    }
  }

  lemma {:induction false} SerializedChars(ops: seq<Op>)
    requires AllPrintable(ops)
    ensures '$' !in Serialize(ops)
  {
    if ops != [] {
      hide NumToString, AttribRun;
      var op := ops[0];
      assert Printable(op);
      AttribTextChars(op.attribs);
      NoDollar(NumToString(op.chars));
      NoDollar(NumToString(op.lines));
      SerializedChars(ops[1..]);
    }
  }

  /** A changeset printed from its parts gives back its lengths, its operations and its bank. */
  lemma {:induction false} PrintParse(oldLen: nat, newLen: int, ops: seq<Op>, bank: string)
    requires AllPrintable(ops)
    ensures Unpack(Pack(oldLen, newLen, Serialize(ops), bank)) == Changeset(oldLen, newLen, Serialize(ops), bank)
    ensures Deserialize(Serialize(ops)) == Ok(ops)
  {
    SerializedStart(ops);
    SerializedChars(ops);
    UnpackPack(oldLen, newLen, Serialize(ops), bank);
    DeserializeSerialize(ops);
  }
}
