/** Rewriting a changeset for another attribute pool: MoveOpsToNewPool of lib/changeset/changeset.go. */
module PoolMoves {
  import opened Basics
  import opened Numerals
  import opened Pools
  import opened Attributes
  import opened UndoAttributes
  import opened Ops
  import opened Syntax
  import opened Assemblers
  import opened Rebasing
  import opened Changesets
  import Algebra

  // ----- the operation -----

  /** Every "*n" is replaced by the number of its attribute in `to`; an unknown one is dropped. */
  function MoveText(s: string, from: Pool, to: Pool): (string, Pool)
    decreases |s|
  {
    if s == "" then ("", to)
    else
      var k := DigitRun(s[1..]);
      if s[0] == '*' && k > 0 then
        var num := ParseNum(s[1..][..k]);
        if num in from.numToAttrib then
          var (p, n) := to.Put(from.numToAttrib[num]);
          var (r, q) := MoveText(s[1 + k..], from, p);
          ("*" + IntToString(n) + r, q)
        else MoveText(s[1 + k..], from, to)
      else
        var (r, q) := MoveText(s[1..], from, to);
        ([s[0]] + r, q)
  }

  /** The changeset with its references moved, and the new pool; what follows the first "$" is left alone. */
  function MoveOpsToNewPool(cs: string, from: Pool, to: Pool): (string, Pool) {
    var i := RuneIndex(cs, '$');
    var dollarPos := if i < 0 then |cs| else i;
    var (r, q) := MoveText(cs[..dollarPos], from, to);
    (r + cs[dollarPos..], q)
  }

  // ----- on attribute numbers and operations -----

  function MoveNums(nums: seq<nat>, from: Pool, to: Pool): (r: (seq<nat>, Pool))
    requires to.Consistent()
    ensures r.1.Consistent()
    decreases |nums|
  {
    if nums == [] then ([], to)
    else if nums[0] in from.numToAttrib then
      var (p, n) := to.Put(from.numToAttrib[nums[0]]);
      var (r, q) := MoveNums(nums[1..], from, p);
      ([n] + r, q)
    else MoveNums(nums[1..], from, to)
  }

  function MoveAttribs(a: string, from: Pool, to: Pool): (r: (string, Pool))
    requires to.Consistent()
    ensures r.1.Consistent()
  {
    var (nums, p) := MoveNums(Scan(a).0, from, to);
    (Encode(nums), p)
  }

  function MoveOps(ops: seq<Op>, from: Pool, to: Pool): (r: (seq<Op>, Pool))
    requires to.Consistent()
    ensures |r.0| == |ops| && r.1.Consistent()
    decreases |ops|
  {
    if ops == [] then ([], to)
    else
      var (a, p) := MoveAttribs(ops[0].attribs, from, to);
      var (rest, q) := MoveOps(ops[1..], from, p);
      ([ops[0].(attribs := a)] + rest, q)
  }

  /** Text without references is left alone. */
  lemma {:induction false} MovePlain(t: string, rest: string, from: Pool, to: Pool)
    requires '*' !in t
    ensures MoveText(t + rest, from, to) == (t + MoveText(rest, from, to).0, MoveText(rest, from, to).1)
    decreases |t|
  {
    hide DigitRun, ParseNum, IntToString;
    if t == "" {
      assert t + rest == rest && "" + MoveText(rest, from, to).0 == MoveText(rest, from, to).0;
    } else {
      assert (t + rest)[1..] == t[1..] + rest && t[0] in t;
      MovePlain(t[1..], rest, from, to);
      assert [t[0]] + (t[1..] + MoveText(rest, from, to).0) == t + MoveText(rest, from, to).0;
    }
  }

  /** One reference, with its numeral, before other text. */
  lemma {:induction false} MoveOneRef(digits: string, tail: string, from: Pool, to: Pool)
    requires digits != "" && AllDigits(digits) && (tail == "" || !IsDigit(tail[0]))
    ensures var num := ParseNum(digits);
            MoveText("*" + digits + tail, from, to) ==
            if num in from.numToAttrib then
              var (p, n) := to.Put(from.numToAttrib[num]);
              ("*" + IntToString(n) + MoveText(tail, from, p).0, MoveText(tail, from, p).1)
            else MoveText(tail, from, to)
  {
    hide ParseNum, NumToString, IntToString;
    var s := "*" + digits + tail;
    assert s[1..] == digits + tail;
    RunOfNumeral(digits, tail);
    assert s[1 + |digits|..] == tail;
  }

  lemma {:induction false} MoveAttribsCons(digits: string, tail: string, from: Pool, to: Pool)
    requires digits != "" && AllDigits(digits) && (tail == "" || tail[0] == '*') && to.Consistent()
    ensures var num := ParseNum(digits);
            MoveAttribs("*" + digits + tail, from, to) ==
            if num in from.numToAttrib then
              var (p, n) := to.Put(from.numToAttrib[num]);
              ("*" + NumToString(n) + MoveAttribs(tail, from, p).0, MoveAttribs(tail, from, p).1)
            else MoveAttribs(tail, from, to)
  {
    hide ParseNum, NumToString;
    var s := "*" + digits + tail;
    assert s[1..] == digits + tail;
    RunOfNumeral(digits, tail);
    assert s[1 + |digits|..] == tail;
    var num := ParseNum(digits);
    assert Scan(s).0 == [num] + Scan(tail).0 && ([num] + Scan(tail).0)[1..] == Scan(tail).0;
    if num in from.numToAttrib {
      var (p, n) := to.Put(from.numToAttrib[num]);
      var ns := MoveNums(Scan(tail).0, from, p).0;
      assert ([n] + ns)[1..] == ns;
    }
  }

  lemma {:induction false} NoRefs(from: Pool, to: Pool)
    requires to.Consistent()
    ensures MoveAttribs("", from, to) == ("", to)
  {}

  /** The references of an attribute string are moved number by number. */
  lemma {:induction false} MoveRefs(a: string, rest: string, from: Pool, to: Pool)
    requires AttribText(a) && to.Consistent() && (rest == "" || !IsDigit(rest[0]))
    ensures var (b, p) := MoveAttribs(a, from, to);
            MoveText(a + rest, from, to) == (b + MoveText(rest, from, p).0, MoveText(rest, from, p).1)
    decreases |a|
  {
    hide ParseNum, NumToString, MoveText, AttribText, MoveAttribs, DigitRun, AllDigits;
    if a == "" {
      assert a + rest == rest && "" + MoveText(rest, from, to).0 == MoveText(rest, from, to).0;
      NoRefs(from, to);
    } else {
      TailText(a);
      var k := DigitRun(a[1..]);
      var digits, tail := a[1..][..k], a[1 + k..];
      assert a == "*" + digits + tail && a + rest == "*" + digits + (tail + rest);
      MoveOneRef(digits, tail + rest, from, to);
      MoveAttribsCons(digits, tail, from, to);
      var num := ParseNum(digits);
      if num in from.numToAttrib {
        var (p, n) := to.Put(from.numToAttrib[num]);
        MoveRefs(tail, rest, from, p);
        var (b, q) := MoveAttribs(tail, from, p);
        assert "*" + NumToString(n) + (b + MoveText(rest, from, q).0) ==
               ("*" + NumToString(n) + b) + MoveText(rest, from, q).0;
      } else {
        MoveRefs(tail, rest, from, to);
      }
    }
  }

  lemma {:induction false} TailText(a: string)
    requires AttribText(a) && a != ""
    ensures a[0] == '*' && DigitRun(a[1..]) > 0 && AttribText(a[1 + DigitRun(a[1..])..])
    ensures var tail := a[1 + DigitRun(a[1..])..]; tail == "" || tail[0] == '*'
  {}

  /** What follows the attributes in a printed operation. */
  function OpTail(op: Op): string {
    (if op.lines == 0 then "" else "|" + IntToString(op.lines)) + CodeText(op.code) + NumToString(op.chars)
  }

  lemma {:induction false} OpTailChars(op: Op)
    requires op.lines >= 0 && op.code != Nop
    ensures '*' !in OpTail(op) && OpTail(op) != "" && !IsDigit(OpTail(op)[0])
    ensures OpToString(op) == op.attribs + OpTail(op)
  {
    hide NumToString;
    NoStar(NumToString(op.lines));
    NoStar(NumToString(op.chars));
  }

  lemma {:induction false} NoStar(s: string)
    requires AllDigits(s)
    ensures '*' !in s
  {
    forall i | 0 <= i < |s| ensures s[i] != '*' { assert IsDigit(s[i]); }
  }

  /** Printed operations are moved operation by operation. */
  lemma {:induction false} MovePrinted(ops: seq<Op>, from: Pool, to: Pool)
    requires AllPrintable(ops) && to.Consistent()
    ensures MoveText(Serialize(ops), from, to) == (Serialize(MoveOps(ops, from, to).0), MoveOps(ops, from, to).1)
    decreases |ops|
  {
    hide MoveText, MoveAttribs, NumToString, AttribText, OpTail, OpToString;
    if ops == [] {
      assert MoveText("", from, to) == ("", to) by { MoveNothing(from, to); }
    } else {
      var op := ops[0];
      assert Printable(op);
      var (a, p) := MoveAttribs(op.attribs, from, to);
      var rest := Serialize(ops[1..]);
      OpTailChars(op);
      MovePrinted(ops[1..], from, p);
      MovePlain(OpTail(op), rest, from, p);
      MoveRefs(op.attribs, OpTail(op) + rest, from, to);
      assert Serialize(ops) == op.attribs + (OpTail(op) + rest);
      var moved := op.(attribs := a);
      OpTailChars(moved);
      assert OpTail(moved) == OpTail(op) by { SameTail(op, a); }
      var rest' := Serialize(MoveOps(ops[1..], from, p).0);
      var all := MoveOps(ops, from, to).0;
      assert all[0] == moved && all[1..] == MoveOps(ops[1..], from, p).0;
      assert Serialize(all) == OpToString(moved) + rest';
      assert a + (OpTail(op) + rest') == a + OpTail(op) + rest';
    }
  }

  lemma {:induction false} MoveNothing(from: Pool, to: Pool)
    ensures MoveText("", from, to) == ("", to)
  {}

  lemma {:induction false} SameTail(op: Op, a: string)
    ensures OpTail(op.(attribs := a)) == OpTail(op)
  {}

  // ----- whole changesets -----

  /** A packed changeset is moved in its operations only: lengths and bank stay as they are. */
  lemma {:induction false} MovePacked(oldLen: nat, newLen: int, ops: seq<Op>, bank: string, from: Pool, to: Pool)
    requires AllPrintable(ops) && to.Consistent()
    ensures var (moved, q) := MoveOps(ops, from, to);
            MoveOpsToNewPool(Pack(oldLen, newLen, Serialize(ops), bank), from, to) ==
                (Pack(oldLen, newLen, Serialize(moved), bank), q)
  {
    hide MoveText, NumToString, Serialize, MoveOps, AllPrintable, RuneIndex;
    var diff := if newLen >= oldLen then newLen - oldLen else oldLen - newLen;
    var head := "Z:" + NumToString(oldLen) + (if newLen >= oldLen then ">" else "<") + NumToString(diff);
    var cs := Pack(oldLen, newLen, Serialize(ops), bank);
    assert cs == (head + Serialize(ops)) + ['$'] + bank;
    NoDollar(NumToString(oldLen));
    NoDollar(NumToString(diff));
    NoStar(NumToString(oldLen));
    NoStar(NumToString(diff));
    SerializedChars(ops);
    IndexAfter(head + Serialize(ops), '$', bank);
    var k := |head + Serialize(ops)|;
    assert cs[..k] == head + Serialize(ops) && cs[k..] == ['$'] + bank;
    MovePlain(head, Serialize(ops), from, to);
    MovePrinted(ops, from, to);
    var moved := Serialize(MoveOps(ops, from, to).0);
    assert head + moved + (['$'] + bank) == Pack(oldLen, newLen, moved, bank);
  }

  lemma {:induction false} MovedPrintable(ops: seq<Op>, from: Pool, to: Pool)
    requires AllPrintable(ops) && to.Consistent()
    ensures AllPrintable(MoveOps(ops, from, to).0)
    decreases |ops|
  {
    hide MoveNums, Encode, AttribText;
    if ops != [] {
      var p := MoveAttribs(ops[0].attribs, from, to).1;
      assert Printable(ops[0]);
      forall i | 0 <= i < |ops[1..]| ensures Printable(ops[1..][i]) { assert Printable(ops[i + 1]); }
      MovedPrintable(ops[1..], from, p);
      Algebra.EncodeAttribText(MoveNums(Scan(ops[0].attribs).0, from, to).0);
    }
  }

  /** The attributes of those numbers that the pool knows. */
  function KnownOnes(nums: seq<nat>, pool: Pool): seq<Attribute> {
    if nums == [] then []
    else (if nums[0] in pool.numToAttrib then [pool.numToAttrib[nums[0]]] else []) + KnownOnes(nums[1..], pool)
  }

  lemma {:induction false} PutGrows(p: Pool, a: Attribute)
    requires p.Consistent()
    ensures p.Put(a).0.Consistent() && Extends(p, p.Put(a).0)
  {}

  /** Moved numbers name, in the new pool, the attributes that the old numbers named. */
  lemma {:induction false} MoveNumsMeaning(nums: seq<nat>, from: Pool, to: Pool)
    requires to.Consistent()
    ensures var (r, q) := MoveNums(nums, from, to);
            Extends(to, q) && Lookup(r, q) == Some(KnownOnes(nums, from))
    decreases |nums|
  {
    hide Extends;
    if nums == [] {
      ExtendsItself(to);
    } else if nums[0] in from.numToAttrib {
      var (p, n) := to.Put(from.numToAttrib[nums[0]]);
      PutGrows(to, from.numToAttrib[nums[0]]);
      MoveNumsMeaning(nums[1..], from, p);
      var (r, q) := MoveNums(nums[1..], from, p);
      ExtendsTransitive(to, p, q);
      KnownStays(n, p, q);
      assert ([n] + r)[1..] == r;
    } else {
      MoveNumsMeaning(nums[1..], from, to);
      assert [] + KnownOnes(nums[1..], from) == KnownOnes(nums[1..], from);
    }
  }

  lemma {:induction false} KnownStays(n: int, p: Pool, q: Pool)
    requires Extends(p, q) && n in p.numToAttrib
    ensures n in q.numToAttrib && q.numToAttrib[n] == p.numToAttrib[n]
  {}

  lemma {:induction false} MoveOpsGrows(ops: seq<Op>, from: Pool, to: Pool)
    requires to.Consistent()
    ensures Extends(to, MoveOps(ops, from, to).1)
    decreases |ops|
  {
    hide Extends, MoveNums, Encode;
    if ops == [] {
      ExtendsItself(to);
    } else {
      MoveNumsMeaning(Scan(ops[0].attribs).0, from, to);
      var p := MoveAttribs(ops[0].attribs, from, to).1;
      MoveOpsGrows(ops[1..], from, p);
      ExtendsTransitive(to, p, MoveOps(ops, from, to).1);
    }
  }

  lemma {:induction false} MoveOpsFirst(ops: seq<Op>, from: Pool, to: Pool)
    requires to.Consistent() && ops != []
    ensures var (moved, q) := MoveOps(ops, from, to);
            var (rest, q') := MoveOps(ops[1..], from, MoveAttribs(ops[0].attribs, from, to).1);
            && moved == [ops[0].(attribs := MoveAttribs(ops[0].attribs, from, to).0)] + rest && q == q'
  {
    hide MoveAttribs;
  }

  lemma {:induction false} MovedFirstMeaning(ops: seq<Op>, from: Pool, to: Pool)
    requires to.Consistent() && ops != []
    ensures var (moved, q) := MoveOps(ops, from, to);
            && AttribsFromString(moved[0].attribs, q) == KnownOnes(Scan(ops[0].attribs).0, from)
            && Resolved(moved[0].attribs, q)
  {
    hide MoveNums, KnownOnes, Extends, Encode, MoveOps, Scan;
    MoveOpsFirst(ops, from, to);
    var nums := Scan(ops[0].attribs).0;
    var (r, p) := MoveNums(nums, from, to);
    MoveNumsMeaning(nums, from, to);
    ScanEncode(r);
    MoveOpsGrows(ops[1..], from, p);
    LookupExtends(r, p, MoveOps(ops, from, to).1);
  }

  /**
    What a moved operation means: the same code, length and lines, and in the new pool exactly the attributes that its
    known references named in the old one.
   */
  lemma {:induction false} MoveOpsMeaning(ops: seq<Op>, from: Pool, to: Pool, i: nat)
    requires to.Consistent() && i < |ops|
    ensures var (moved, q) := MoveOps(ops, from, to);
            && moved[i] == ops[i].(attribs := moved[i].attribs) && Resolved(moved[i].attribs, q)
            && AttribsFromString(moved[i].attribs, q) == KnownOnes(Scan(ops[i].attribs).0, from)
    decreases |ops|
  {
    hide MoveOps, MoveAttribs, KnownOnes, Extends, Scan, AttribsFromString, Resolved;
    MoveOpsFirst(ops, from, to);
    if i == 0 {
      MovedFirstMeaning(ops, from, to);
    } else {
      MoveOpsMeaning(ops[1..], from, MoveAttribs(ops[0].attribs, from, to).1, i - 1);
    }
  }

  /**
    Moving a changeset that CheckRep accepts into a consistent pool keeps its meaning: lengths and bank are the same,
    and every operation covers the same text with the attributes that its known references name.
   */
  lemma {:induction false} MoveKeepsMeaning(cs: string, from: Pool, to: Pool)
    requires CheckRep(cs).Ok? && to.Consistent()
    ensures var (m, q) := MoveOpsToNewPool(cs, from, to);
            && q.Consistent() && Extends(to, q)
            && Unpack(m).oldLen == Unpack(cs).oldLen && Unpack(m).newLen == Unpack(cs).newLen
            && Unpack(m).bank == Unpack(cs).bank
            && Deserialize(Unpack(m).ops) == Ok(OpsOf(m)) && |OpsOf(m)| == |OpsOf(cs)|
            && forall i :: 0 <= i < |OpsOf(cs)| ==>
                 && OpsOf(m)[i] == OpsOf(cs)[i].(attribs := OpsOf(m)[i].attribs) && Resolved(OpsOf(m)[i].attribs, q)
                 && AttribsFromString(OpsOf(m)[i].attribs, q) == KnownOnes(Scan(OpsOf(cs)[i].attribs).0, from)
  {
    hide CheckRep, Unpack, Pack, Serialize, Deserialize, Normal, MoveText, MoveOps, AllPrintable, KnownOnes, Scan,
         AttribsFromString, Extends, MoveOpsToNewPool, Resolved;
    CheckRepRegular(cs);
    var u, ops := Unpack(cs), OpsOf(cs);
    MovePacked(u.oldLen, u.newLen, ops, u.bank, from, to);
    MovedPrintable(ops, from, to);
    var (moved, q) := MoveOps(ops, from, to);
    PrintParse(u.oldLen, u.newLen, moved, u.bank);
    MoveOpsGrows(ops, from, to);
    forall i | 0 <= i < |ops|
      ensures moved[i] == ops[i].(attribs := moved[i].attribs) && Resolved(moved[i].attribs, q)
              && AttribsFromString(moved[i].attribs, q) == KnownOnes(Scan(ops[i].attribs).0, from)
    {
      MoveOpsMeaning(ops, from, to, i);
    }
  }

  // ----- there and back -----

  /** Those numbers that the pool knows. */
  /** An operation names the attribute. */
  ghost predicate NamedBy(ops: seq<Op>, from: Pool, a: Attribute) {
    exists i :: 0 <= i < |ops| && NamedIn(Scan(ops[i].attribs).0, from, a)
  }

  ghost predicate NamedIn(nums: seq<nat>, from: Pool, a: Attribute) {
    exists n :: n in nums && n in from.numToAttrib && from.numToAttrib[n] == a
  }

  lemma {:induction false} MoveNumsAdds(nums: seq<nat>, from: Pool, to: Pool, a: Attribute)
    requires to.Consistent() && a in MoveNums(nums, from, to).1.attribToNum
    ensures a in to.attribToNum || NamedIn(nums, from, a)
    decreases |nums|
  {
    if nums != [] {
      var p := if nums[0] in from.numToAttrib then to.Put(from.numToAttrib[nums[0]]).0 else to;
      MoveNumsAdds(nums[1..], from, p, a);
      assert forall n :: n in nums[1..] ==> n in nums;
      if a in p.attribToNum && a !in to.attribToNum { assert nums[0] in nums && from.numToAttrib[nums[0]] == a; }
    }
  }

  lemma {:induction false} MoveOpsAdds(ops: seq<Op>, from: Pool, to: Pool, a: Attribute)
    requires to.Consistent() && a in MoveOps(ops, from, to).1.attribToNum
    ensures a in to.attribToNum || NamedBy(ops, from, a)
    decreases |ops|
  {
    hide MoveNums, Encode, NamedIn, Scan;
    if ops != [] {
      var p := MoveAttribs(ops[0].attribs, from, to).1;
      MoveOpsAdds(ops[1..], from, p, a);
      if a in p.attribToNum {
        MoveNumsAdds(Scan(ops[0].attribs).0, from, to, a);
      } else {
        var i :| 0 <= i < |ops[1..]| && NamedIn(Scan(ops[1..][i].attribs).0, from, a);
        assert ops[1..][i] == ops[i + 1];
      }
    }
  }

  /** The new pool holds what it held before and what the changeset names, and nothing else. */
  lemma {:induction false} MoveAddsNamed(cs: string, from: Pool, to: Pool, a: Attribute)
    requires CheckRep(cs).Ok? && to.Consistent()
    ensures a in MoveOpsToNewPool(cs, from, to).1.attribToNum ==> a in to.attribToNum || NamedBy(OpsOf(cs), from, a)
  {
    hide CheckRep, Unpack, Pack, Serialize, Deserialize, Normal, MoveText, MoveOps, AllPrintable, MoveOpsToNewPool,
         NamedBy;
    CheckRepRegular(cs);
    var u, ops := Unpack(cs), OpsOf(cs);
    MovePacked(u.oldLen, u.newLen, ops, u.bank, from, to);
    if a in MoveOps(ops, from, to).1.attribToNum { MoveOpsAdds(ops, from, to, a); }
  }

  function KnownNums(nums: seq<nat>, pool: Pool): seq<nat> {
    if nums == [] then []
    else (if nums[0] in pool.numToAttrib then [nums[0]] else []) + KnownNums(nums[1..], pool)
  }

  lemma {:induction false} KnownNumsAll(nums: seq<nat>, pool: Pool)
    ensures KnownNums(nums, pool) == nums <==> Lookup(nums, pool).Some?
    ensures |KnownNums(nums, pool)| <= |nums|
  {
    if nums != [] {
      KnownNumsAll(nums[1..], pool);
      assert nums == [nums[0]] + nums[1..];
      if KnownNums(nums, pool) == nums && nums[0] in pool.numToAttrib {
        assert KnownNums(nums[1..], pool) == KnownNums(nums, pool)[1..];
      }
    }
  }

  /** Numbers moved to another pool and back are the known ones, and the first pool does not change. */
  lemma {:induction false} BackNums(nums: seq<nat>, p: Pool, via: Pool, q: Pool)
    requires p.Consistent() && via.Consistent() && Extends(MoveNums(nums, p, via).1, q)
    ensures MoveNums(MoveNums(nums, p, via).0, q, p) == (KnownNums(nums, p), p)
    decreases |nums|
  {
    hide Extends;
    if nums != [] {
      if nums[0] in p.numToAttrib {
        var a := p.numToAttrib[nums[0]];
        var (v, n) := via.Put(a);
        BackNums(nums[1..], p, v, q);
        MoveNumsMeaning(nums[1..], p, v);
        var (r, v') := MoveNums(nums[1..], p, v);
        KnownStays(n, v, v');
        KnownStays(n, v', q);
        assert p.Put(a) == (p, nums[0]);
        assert ([n] + r)[1..] == r;
      } else {
        BackNums(nums[1..], p, via, q);
        assert [] + KnownNums(nums[1..], p) == KnownNums(nums[1..], p);
      }
    }
  }

  /** The operation with only its known references, written plainly. */
  function Cleaned(op: Op, p: Pool): Op { op.(attribs := Encode(KnownNums(Scan(op.attribs).0, p))) }

  function CleanedAll(ops: seq<Op>, p: Pool): seq<Op> {
    if ops == [] then [] else [Cleaned(ops[0], p)] + CleanedAll(ops[1..], p)
  }

  lemma {:induction false} BackOps(ops: seq<Op>, p: Pool, via: Pool, q: Pool)
    requires p.Consistent() && via.Consistent() && Extends(MoveOps(ops, p, via).1, q)
    ensures MoveOps(MoveOps(ops, p, via).0, q, p) == (CleanedAll(ops, p), p)
    decreases |ops|
  {
    hide Extends, MoveNums, KnownNums, Encode, Scan;
    if ops != [] {
      var nums := Scan(ops[0].attribs).0;
      var (r, v) := MoveNums(nums, p, via);
      MoveOpsGrows(ops[1..], p, v);
      ExtendsTransitive(v, MoveOps(ops[1..], p, v).1, q);
      BackNums(nums, p, via, q);
      ScanEncode(r);
      BackOps(ops[1..], p, v, q);
      var moved := MoveOps(ops, p, via).0;
      assert moved[1..] == MoveOps(ops[1..], p, v).0;
    }
  }

  /** The references of an operation are known and written without leading zeros. */
  predicate PlainRefs(op: Op, p: Pool) { Resolved(op.attribs, p) && op.attribs == Encode(Scan(op.attribs).0) }

  lemma {:induction false} CleanedSame(op: Op, p: Pool)
    ensures Cleaned(op, p) == op <==> PlainRefs(op, p)
  {
    hide KnownNums, Encode, Scan, Lookup;
    var nums := Scan(op.attribs).0;
    KnownNumsAll(nums, p);
    ScanEncode(KnownNums(nums, p));
  }

  lemma {:induction false} CleanedAllSame(ops: seq<Op>, p: Pool)
    ensures CleanedAll(ops, p) == ops <==> forall i :: 0 <= i < |ops| ==> PlainRefs(ops[i], p)
    ensures |CleanedAll(ops, p)| == |ops|
  {
    hide Cleaned, PlainRefs;
    if ops != [] {
      CleanedSame(ops[0], p);
      CleanedAllSame(ops[1..], p);
      var all := CleanedAll(ops, p);
      assert all[0] == Cleaned(ops[0], p) && all[1..] == CleanedAll(ops[1..], p);
      assert all == ops <==> all[0] == ops[0] && all[1..] == ops[1..];
      if forall i :: 0 <= i < |ops[1..]| ==> PlainRefs(ops[1..][i], p) {
        forall i | 1 <= i < |ops| ensures PlainRefs(ops[i], p) { assert PlainRefs(ops[1..][i - 1], p); }
      }
    }
  }

  /**
    Moving a changeset to another pool, such as a fresh one for the wire, and back to its own: that pool does not
    change, and the changeset is the same just when its references are known and written without leading zeros.
   */
  lemma {:induction false} ThereAndBack(cs: string, p: Pool, via: Pool)
    requires CheckRep(cs).Ok? && p.Consistent() && via.Consistent()
    ensures var (m, q) := MoveOpsToNewPool(cs, p, via);
            var (b, p') := MoveOpsToNewPool(m, q, p);
            p' == p && (b == cs <==> forall i :: 0 <= i < |OpsOf(cs)| ==> PlainRefs(OpsOf(cs)[i], p))
  {
    hide CheckRep, Unpack, Pack, Serialize, Deserialize, Normal, MoveText, MoveOps, AllPrintable, Extends,
         MoveOpsToNewPool, CleanedAll, PlainRefs;
    CheckRepRegular(cs);
    var u, ops := Unpack(cs), OpsOf(cs);
    var (moved, q) := MoveOps(ops, p, via);
    MovePacked(u.oldLen, u.newLen, ops, u.bank, p, via);
    MovedPrintable(ops, p, via);
    MovePacked(u.oldLen, u.newLen, moved, u.bank, q, p);
    ExtendsItself(q);
    BackOps(ops, p, via, q);
    MovedPrintable(moved, q, p);
    PrintParse(u.oldLen, u.newLen, CleanedAll(ops, p), u.bank);
    CleanedAllSame(ops, p);
  }
}
