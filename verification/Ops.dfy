/**
  Changeset operations and their meaning.

  A document is a sequence of cells: a character with its attribute map. An
  operation list reads a document from the left, taking inserted characters from
  a bank, and what it leaves of the document is kept.
 */
module Ops {
  import opened Basics
  import opened Pools
  import opened Attributes

  /** The op codes "", "=", "-" and "+". */
  datatype OpCode = Nop | Keep | Delete | Insert

  datatype Op = Op(code: OpCode, chars: nat, lines: int, attribs: string)

  const NO_OP := Op(Nop, 0, 0, "")

  datatype Cell = Cell(c: char, attrs: map<string, string>)
  type Doc = seq<Cell>

  /**
    How operations are read. Attribute strings are ignored, or read through a pool as attribute maps, or
    taken verbatim: then a cell carries the attribute string of its run, under the key "".
    In a strict reading an operation over several lines must also end with a newline.
   */
  datatype AttrSem = Ignore(strict: bool) | In(strict: bool, pool: Pool) | Verbatim(strict: bool, pool: Pool)

  /** The newline count `lines` of an operation fits the text `s` that it covers. */
  predicate Fits(sem: AttrSem, lines: int, s: string) { lines == Newlines(s) && (sem.strict ==> Clean(s)) }

  /** The attributes of a character inserted with attribute string `a`. */
  function Presence(sem: AttrSem, a: string): map<string, string> {
    match sem
    case Ignore(_) => map[]
    case In(_, pool) => FromString(a, pool)
    case Verbatim(_, _) => map["" := a]
  }

  /** The attributes `m` of a kept character after a change by attribute string `a`. */
  function Mutate(sem: AttrSem, m: map<string, string>, a: string): map<string, string> {
    match sem
    case Ignore(_) => m
    case In(_, pool) => UpdateFromString(m, a, true, pool)
    case Verbatim(_, pool) => if "" in m then m["" := ComposeAttributes(m[""], a, false, pool).0] else m
  }

  function Text(d: Doc): (s: string)
    ensures |s| == |d|
  {
    if d == [] then [] else [d[0].c] + Text(d[1..])
  }

  function Fresh(sem: AttrSem, a: string, s: string): (d: Doc)
    ensures |d| == |s| && Text(d) == s
  {
    if s == [] then [] else [Cell(s[0], Presence(sem, a))] + Fresh(sem, a, s[1..])
  }

  function Restyle(sem: AttrSem, a: string, d: Doc): (r: Doc)
    ensures |r| == |d| && Text(r) == Text(d)
  {
    if d == [] then [] else [Cell(d[0].c, Mutate(sem, d[0].attrs, a))] + Restyle(sem, a, d[1..])
  }

  /** What running operations wrote, and what they left of the bank and of the document. */
  datatype Effect = Effect(out: Doc, bank: string, doc: Doc)

  function RunOp(sem: AttrSem, op: Op, bank: string, doc: Doc): (r: Option<Effect>)
  {
    match op.code
    case Insert =>
      if op.chars <= |bank| && Fits(sem, op.lines, bank[..op.chars])
      then Some(Effect(Fresh(sem, op.attribs, bank[..op.chars]), bank[op.chars..], doc)) else None
    case Delete =>
      if op.chars <= |doc| && Fits(sem, op.lines, Text(doc[..op.chars]))
      then Some(Effect([], bank, doc[op.chars..])) else None
    case Keep =>
      if op.chars <= |doc| && Fits(sem, op.lines, Text(doc[..op.chars]))
      then Some(Effect(Restyle(sem, op.attribs, doc[..op.chars]), bank, doc[op.chars..])) else None
    case Nop => None
  }

  function Run(sem: AttrSem, ops: seq<Op>, bank: string, doc: Doc): (r: Option<Effect>)
  {
    if ops == [] then Some(Effect([], bank, doc))
    else match RunOp(sem, ops[0], bank, doc)
      case None => None
      case Some(e) =>
        match Run(sem, ops[1..], e.bank, e.doc)
        case None => None
        case Some(f) => Some(Effect(e.out + f.out, f.bank, f.doc))
  }

  lemma {:induction false} RunFirst(sem: AttrSem, ops: seq<Op>, bank: string, doc: Doc)
    requires ops != []
    ensures var e := RunOp(sem, ops[0], bank, doc);
            Run(sem, ops, bank, doc) ==
            if e.None? || Run(sem, ops[1..], e.value.bank, e.value.doc).None? then None
            else var f := Run(sem, ops[1..], e.value.bank, e.value.doc).value;
                 Some(Effect(e.value.out + f.out, f.bank, f.doc))
  {
    hide RunOp;
  }

  /** The document after `ops`; the part the operations do not reach is kept. */
  function Apply(sem: AttrSem, ops: seq<Op>, bank: string, doc: Doc): (r: Option<Doc>) {
    match Run(sem, ops, bank, doc)
    case None => None
    case Some(e) => Some(e.out + e.doc)
  }

  /** `ops` turn `doc` into `r` and use up the bank exactly. */
  ghost predicate Produces(sem: AttrSem, ops: seq<Op>, bank: string, doc: Doc, r: Doc) {
    match Run(sem, ops, bank, doc)
    case None => false
    case Some(e) => e.out + e.doc == r && e.bank == []
  }

  lemma {:induction false} RunCons(sem: AttrSem, op: Op, rest: seq<Op>, bank: string, doc: Doc)
    ensures Run(sem, [op] + rest, bank, doc) ==
            match RunOp(sem, op, bank, doc)
            case None => None
            case Some(e) =>
              match Run(sem, rest, e.bank, e.doc)
              case None => None
              case Some(f) => Some(Effect(e.out + f.out, f.bank, f.doc))
  {
    assert ([op] + rest)[1..] == rest;
  }

  /** Running a concatenation runs the first list, then the second on what is left. */
  lemma {:induction false} RunConcat(sem: AttrSem, a: seq<Op>, b: seq<Op>, bank: string, doc: Doc)
    ensures Run(sem, a + b, bank, doc) ==
            match Run(sem, a, bank, doc)
            case None => None
            case Some(e) =>
              match Run(sem, b, e.bank, e.doc)
              case None => None
              case Some(f) => Some(Effect(e.out + f.out, f.bank, f.doc))
  {
    hide RunOp;
    if a == [] {
      assert a + b == b;
      match Run(sem, b, bank, doc)
      case None =>
      case Some(f) => assert [] + f.out == f.out;
    } else {
      assert a + b == [a[0]] + (a[1..] + b);
      RunCons(sem, a[0], a[1..] + b, bank, doc);
      match RunOp(sem, a[0], bank, doc)
      case None =>
      case Some(e) =>
        RunConcat(sem, a[1..], b, e.bank, e.doc);
        match Run(sem, a[1..], e.bank, e.doc)
        case None =>
        case Some(f) =>
          match Run(sem, b, f.bank, f.doc)
          case None =>
          case Some(g) => assert e.out + (f.out + g.out) == e.out + f.out + g.out;
    }
  }

  /** `op` cut to its first `k` characters, holding `l` newlines. */
  function Head(op: Op, k: nat, l: int): Op { op.(chars := k, lines := l) }

  /** What is left of `op` once `Head(op, k, l)` is done. */
  function Rest(op: Op, k: nat, l: int): seq<Op>
    requires k <= op.chars
  {
    if op.chars == k then [] else [op.(chars := op.chars - k, lines := op.lines - l)]
  }

  /** The text that `op` passes over. */
  function Segment(op: Op, bank: string, doc: Doc): string {
    if op.code == Insert then bank[..Min(op.chars, |bank|)] else Text(doc[..Min(op.chars, |doc|)])
  }

  /** The first `k` characters of it. */
  function Cut(op: Op, k: nat, bank: string, doc: Doc): string {
    Segment(op, bank, doc)[..Min(k, |Segment(op, bank, doc)|)]
  }

  lemma {:induction false} FreshSplit(sem: AttrSem, a: string, s: string, k: nat)
    requires k <= |s|
    ensures Fresh(sem, a, s) == Fresh(sem, a, s[..k]) + Fresh(sem, a, s[k..])
  {
    hide Presence, Text;
    if k > 0 {
      assert s[..k][1..] == s[1..][..k - 1];
      FreshSplit(sem, a, s[1..], k - 1);
    }
  }

  lemma {:induction false} TextSplit(d: Doc, k: nat)
    requires k <= |d|
    ensures Text(d[..k]) == Text(d)[..k] && Text(d[k..]) == Text(d)[k..]
  {
    if k > 0 {
      assert d[..k][1..] == d[1..][..k - 1];
      TextSplit(d[1..], k - 1);
    }
  }

  lemma {:induction false} RestyleSplit(sem: AttrSem, a: string, d: Doc, k: nat)
    requires k <= |d|
    ensures Restyle(sem, a, d) == Restyle(sem, a, d[..k]) + Restyle(sem, a, d[k..])
  {
    hide Mutate, Text;
    if k > 0 {
      assert d[..k][1..] == d[1..][..k - 1] && d[..k][0] == d[0] && d[1..][k - 1..] == d[k..];
      RestyleSplit(sem, a, d[1..], k - 1);
    }
  }

  lemma {:induction false} SliceSlice<T>(s: seq<T>, n: nat, k: nat)
    requires k <= n <= |s|
    ensures s[..n][..k] == s[..k] && s[..n][k..] == s[k..][..n - k] && s[k..][n - k..] == s[n..]
  {}

  /** A step that succeeds can be cut anywhere, with the newlines shared out accordingly. */
  lemma {:induction false} SplitOp(sem: AttrSem, op: Op, k: nat, bank: string, doc: Doc) returns (l: nat, e: Effect)
    requires RunOp(sem, op, bank, doc).Some?
    requires k <= op.chars && (sem.strict ==> Clean(Cut(op, k, bank, doc)))
    ensures l == Newlines(Cut(op, k, bank, doc))
    ensures l <= op.lines && (k == op.chars ==> l == op.lines)
    ensures RunOp(sem, Head(op, k, l), bank, doc) == Some(e)
    ensures k < op.chars ==>
              var f := RunOp(sem, Rest(op, k, l)[0], e.bank, e.doc);
              f.Some? && RunOp(sem, op, bank, doc).value == Effect(e.out + f.value.out, f.value.bank, f.value.doc)
  {
    hide Newlines, Text, Fresh, Restyle, Clean;
    var s, n := Segment(op, bank, doc), op.chars;
    NewlinesSplit(s, k);
    if sem.strict && k < n { CleanRest(s, k); }
    l := Newlines(s[..k]);
    if k == n {
      assert s[..k] == s;
    } else if op.code == Insert {
      SliceSlice(bank, n, k);
      FreshSplit(sem, op.attribs, bank[..n], k);
    } else {
      SliceSlice(doc, n, k);
      RestyleSplit(sem, op.attribs, doc[..n], k);
      TextSplit(doc[..n], k);
    }
    e := RunOp(sem, Head(op, k, l), bank, doc).value;
  }

  /** The same for a list: cutting its first operation in two leaves its effect alone. */
  lemma {:induction false} SplitHead(sem: AttrSem, op: Op, k: nat, tail: seq<Op>, bank: string, doc: Doc)
    returns (l: nat, e: Effect, f: Effect)
    requires Run(sem, [op] + tail, bank, doc).Some?
    requires k <= op.chars && (sem.strict ==> Clean(Cut(op, k, bank, doc)))
    ensures l == Newlines(Cut(op, k, bank, doc))
    ensures l <= op.lines && (k == op.chars ==> l == op.lines)
    ensures RunOp(sem, Head(op, k, l), bank, doc) == Some(e)
    ensures Run(sem, Rest(op, k, l) + tail, e.bank, e.doc) == Some(f)
    ensures Run(sem, [op] + tail, bank, doc) == Some(Effect(e.out + f.out, f.bank, f.doc))
  {
    hide RunOp, Cut, Clean;
    RunCons(sem, op, tail, bank, doc);
    l, e := SplitOp(sem, op, k, bank, doc);
    if k == op.chars {
      assert Rest(op, k, l) + tail == tail;
      f := Run(sem, tail, e.bank, e.doc).value;
    } else {
      var op' := Rest(op, k, l)[0];
      RunCons(sem, op', tail, e.bank, e.doc);
      var h := RunOp(sem, op', e.bank, e.doc).value;
      var g := Run(sem, tail, h.bank, h.doc).value;
      f := Effect(h.out + g.out, g.bank, g.doc);
      assert e.out + (h.out + g.out) == e.out + h.out + g.out;
    }
  }

  /** The first `k` characters of the first operation, and the document the others make of the rest. */
  lemma {:induction false} SplitApply(sem: AttrSem, ops: seq<Op>, k: nat, bank: string, doc: Doc, r: Doc)
    returns (l: nat, e: Effect, r': Doc)
    requires ops != [] && Apply(sem, ops, bank, doc) == Some(r)
    requires k <= ops[0].chars && (sem.strict ==> Clean(Cut(ops[0], k, bank, doc)))
    ensures l == Newlines(Cut(ops[0], k, bank, doc))
    ensures l <= ops[0].lines && (k == ops[0].chars ==> l == ops[0].lines)
    ensures RunOp(sem, Head(ops[0], k, l), bank, doc) == Some(e)
    ensures Apply(sem, Rest(ops[0], k, l) + ops[1..], e.bank, e.doc) == Some(r')
    ensures r == e.out + r'
  {
    hide RunOp, Run, Newlines, Cut, Clean;
    assert [ops[0]] + ops[1..] == ops;
    var f;
    l, e, f := SplitHead(sem, ops[0], k, ops[1..], bank, doc);
    r' := f.out + f.doc;
    assert e.out + f.out + f.doc == e.out + r';
  }

  /** The first operation, and the document the others make of the rest. */
  lemma {:induction false} UnfoldApply(sem: AttrSem, ops: seq<Op>, bank: string, doc: Doc, r: Doc)
    returns (e: Effect, r': Doc)
    requires ops != [] && Apply(sem, ops, bank, doc) == Some(r)
    ensures RunOp(sem, ops[0], bank, doc) == Some(e)
    ensures Apply(sem, ops[1..], e.bank, e.doc) == Some(r')
    ensures r == e.out + r'
  {
    hide RunOp;
    e := RunOp(sem, ops[0], bank, doc).value;
    var f := Run(sem, ops[1..], e.bank, e.doc).value;
    r' := f.out + f.doc;
    assert e.out + f.out + f.doc == e.out + r';
  }

  /** The same two lemmas for lists that use up their bank. */
  lemma {:induction false} SplitProduces(sem: AttrSem, ops: seq<Op>, k: nat, bank: string, doc: Doc, r: Doc)
    returns (l: nat, e: Effect, r': Doc)
    requires ops != [] && Produces(sem, ops, bank, doc, r)
    requires k <= ops[0].chars && (sem.strict ==> Clean(Cut(ops[0], k, bank, doc)))
    ensures l == Newlines(Cut(ops[0], k, bank, doc))
    ensures l <= ops[0].lines && (k == ops[0].chars ==> l == ops[0].lines)
    ensures RunOp(sem, Head(ops[0], k, l), bank, doc) == Some(e)
    ensures Produces(sem, Rest(ops[0], k, l) + ops[1..], e.bank, e.doc, r')
    ensures r == e.out + r'
  {
    hide RunOp, Run, Newlines, Cut, Clean;
    assert [ops[0]] + ops[1..] == ops;
    var f;
    l, e, f := SplitHead(sem, ops[0], k, ops[1..], bank, doc);
    r' := f.out + f.doc;
    assert e.out + f.out + f.doc == e.out + r';
  }

  lemma {:induction false} UnfoldProduces(sem: AttrSem, ops: seq<Op>, bank: string, doc: Doc, r: Doc)
    returns (e: Effect, r': Doc)
    requires ops != [] && Produces(sem, ops, bank, doc, r)
    ensures RunOp(sem, ops[0], bank, doc) == Some(e)
    ensures Produces(sem, ops[1..], e.bank, e.doc, r')
    ensures r == e.out + r'
  {
    hide RunOp;
    e := RunOp(sem, ops[0], bank, doc).value;
    var f := Run(sem, ops[1..], e.bank, e.doc).value;
    r' := f.out + f.doc;
    assert e.out + f.out + f.doc == e.out + r';
  }

  // ----- keeps that change nothing -----

  predicate PlainKeep(op: Op) { op.code == Keep && op.attribs == "" }

  /** `ops` without the plain keeps at its end. */
  function Strip(ops: seq<Op>): seq<Op> {
    if ops == [] then []
    else if PlainKeep(ops[0]) && Strip(ops[1..]) == [] then []
    else [ops[0]] + Strip(ops[1..])
  }

  lemma {:induction false} RestylePlain(sem: AttrSem, d: Doc)
    ensures Restyle(sem, "", d) == d
  {
    if d != [] {
      RestylePlain(sem, d[1..]);
      var m := d[0].attrs;
      if sem.Verbatim? && "" in m { assert m["" := m[""]] == m; }
    }
  }

  lemma {:induction false} PlainKeepIsNothing(sem: AttrSem, op: Op, bank: string, doc: Doc, r: Doc)
    requires PlainKeep(op) && Produces(sem, [op], bank, doc, r)
    ensures r == doc && bank == ""
  {
    hide Newlines, Text, Restyle;
    assert [op] + [] == [op];
    RunCons(sem, op, [], bank, doc);
    RestylePlain(sem, doc[..op.chars]);
    assert doc[..op.chars] + [] + doc[op.chars..] == doc;
  }

  /** The plain keeps at the end can be left implicit. */
  lemma {:induction false} StripProduces(sem: AttrSem, ops: seq<Op>, bank: string, doc: Doc, r: Doc)
    requires Produces(sem, ops, bank, doc, r)
    ensures Produces(sem, Strip(ops), bank, doc, r)
  {
    hide RunOp, PlainKeep;
    if ops != [] {
      var e, r' := UnfoldProduces(sem, ops, bank, doc, r);
      StripProduces(sem, ops[1..], e.bank, e.doc, r');
      RunCons(sem, ops[0], Strip(ops[1..]), bank, doc);
      var f := Run(sem, Strip(ops[1..]), e.bank, e.doc).value;
      assert e.out + f.out + f.doc == e.out + r';
      if Strip(ops) == [] {
        assert [ops[0]] + Strip(ops[1..]) == [ops[0]];
        PlainKeepIsNothing(sem, ops[0], bank, doc, r);
        assert [] + doc == doc;
      }
    }
  }

  /** Putting an operation before a stripped list. */
  lemma {:induction false} StripCons(sem: AttrSem, op: Op, ops: seq<Op>, bank: string, doc: Doc, r: Doc)
    requires Produces(sem, [op] + Strip(ops), bank, doc, r)
    ensures Produces(sem, Strip([op] + ops), bank, doc, r)
  {
    hide RunOp;
    assert ([op] + ops)[1..] == ops;
    if PlainKeep(op) && Strip(ops) == [] {
      assert [op] + Strip(ops) == [op];
      PlainKeepIsNothing(sem, op, bank, doc, r);
      assert [] + doc == doc;
    }
  }

  // ----- writing down operations one by one -----

  lemma {:induction false} ProducesInsert(sem: AttrSem, op: Op, piece: string, ops: seq<Op>, bank: string, doc: Doc,
          r: Doc)
    requires op.code == Insert && op.chars == |piece| && Fits(sem, op.lines, piece)
    requires Produces(sem, ops, bank, doc, r)
    ensures Produces(sem, [op] + ops, piece + bank, doc, Fresh(sem, op.attribs, piece) + r)
  {
    hide Newlines, Fresh, Run;
    RunCons(sem, op, ops, piece + bank, doc);
    assert (piece + bank)[..|piece|] == piece && (piece + bank)[|piece|..] == bank;
    var e := Run(sem, ops, bank, doc).value;
    assert Fresh(sem, op.attribs, piece) + e.out + e.doc == Fresh(sem, op.attribs, piece) + (e.out + e.doc);
  }

  lemma {:induction false} ProducesKeep(sem: AttrSem, op: Op, ops: seq<Op>, bank: string, doc: Doc, r: Doc)
    requires op.code == Keep && op.chars <= |doc| && Fits(sem, op.lines, Text(doc[..op.chars]))
    requires Produces(sem, ops, bank, doc[op.chars..], r)
    ensures Produces(sem, [op] + ops, bank, doc, Restyle(sem, op.attribs, doc[..op.chars]) + r)
  {
    hide Newlines, Text, Restyle, Run;
    RunCons(sem, op, ops, bank, doc);
    var e, x := Run(sem, ops, bank, doc[op.chars..]).value, Restyle(sem, op.attribs, doc[..op.chars]);
    assert x + e.out + e.doc == x + (e.out + e.doc);
  }

  lemma {:induction false} ProducesDelete(sem: AttrSem, op: Op, ops: seq<Op>, bank: string, doc: Doc, r: Doc)
    requires op.code == Delete && op.chars <= |doc| && Fits(sem, op.lines, Text(doc[..op.chars]))
    requires Produces(sem, ops, bank, doc[op.chars..], r)
    ensures Produces(sem, [op] + ops, bank, doc, r)
  {
    hide Newlines, Text, Run;
    RunCons(sem, op, ops, bank, doc);
    var e := Run(sem, ops, bank, doc[op.chars..]).value;
    assert [] + e.out == e.out;
  }

  // ----- the same for lists whose plain keeps at the end are left implicit -----

  lemma {:induction false} EmitInsert(sem: AttrSem, op: Op, piece: string, ops: seq<Op>, bank: string, doc: Doc, r: Doc)
    requires op.code == Insert && op.chars == |piece| && Fits(sem, op.lines, piece)
    requires Produces(sem, Strip(ops), bank, doc, r)
    ensures Produces(sem, Strip([op] + ops), piece + bank, doc, Fresh(sem, op.attribs, piece) + r)
  {
    hide Produces;
    ProducesInsert(sem, op, piece, Strip(ops), bank, doc, r);
    StripCons(sem, op, ops, piece + bank, doc, Fresh(sem, op.attribs, piece) + r);
  }

  lemma {:induction false} EmitKeep(sem: AttrSem, op: Op, ops: seq<Op>, bank: string, doc: Doc, r: Doc)
    requires op.code == Keep && op.chars <= |doc| && Fits(sem, op.lines, Text(doc[..op.chars]))
    requires Produces(sem, Strip(ops), bank, doc[op.chars..], r)
    ensures Produces(sem, Strip([op] + ops), bank, doc, Restyle(sem, op.attribs, doc[..op.chars]) + r)
  {
    hide Produces;
    ProducesKeep(sem, op, Strip(ops), bank, doc, r);
    StripCons(sem, op, ops, bank, doc, Restyle(sem, op.attribs, doc[..op.chars]) + r);
  }

  lemma {:induction false} EmitDelete(sem: AttrSem, op: Op, ops: seq<Op>, bank: string, doc: Doc, r: Doc)
    requires op.code == Delete && op.chars <= |doc| && Fits(sem, op.lines, Text(doc[..op.chars]))
    requires Produces(sem, Strip(ops), bank, doc[op.chars..], r)
    ensures Produces(sem, Strip([op] + ops), bank, doc, r)
  {
    hide Produces;
    ProducesDelete(sem, op, Strip(ops), bank, doc, r);
    StripCons(sem, op, ops, bank, doc, r);
  }
}
