/**
  HTML export of one line, lib/io/exportHtml.go: its characters are written in runs, each inside the tags of its
  attributes, with a stack of open tags; links are written around stretches of it.
 */
module HtmlLines {
  import opened Basics
  import opened Pools
  import opened PoolObjects
  import opened Attributes
  import opened Ops
  import opened Syntax
  import opened Assemblers
  import opened Changesets
  import opened StringIterators
  import opened Subattributions
  import Attributions
  import SubattributionLoops
  import opened Inversion
  import Lines

  // ----- what is written -----

  /** What is written for a line: tags are numbers of properties, and a link counts as a tag of its own. */
  datatype Token = Open(tag: int) | Close(tag: int) | Chars(text: string)

  const LINK := -1

  /** The stack of open tags after the tokens, innermost first; none if a closing tag does not fit. */
  function Nest(ts: seq<Token>, stack: seq<int>): Option<seq<int>>
    decreases |ts|
  {
    if ts == [] then Some(stack)
    else match ts[0]
      case Open(i) => Nest(ts[1..], [i] + stack)
      case Close(i) => if stack != [] && stack[0] == i then Nest(ts[1..], stack[1..]) else None
      case Chars(_) => Nest(ts[1..], stack)
  }

  /** The tags on the stack, other than links. */
  function Tags(stack: seq<int>): set<int> { set i | i in stack && i != LINK }

  /** A character as it is shown: the tags around it, and whether it is part of a link. */
  datatype Shown = Shown(c: char, tags: set<int>, link: bool)

  function ShowText(s: string, tags: set<int>, link: bool): seq<Shown> {
    if s == "" then [] else [Shown(s[0], tags, link)] + ShowText(s[1..], tags, link)
  }

  /** The characters as the tokens show them. */
  function Show(ts: seq<Token>, stack: seq<int>): seq<Shown>
    decreases |ts|
  {
    if ts == [] then []
    else match ts[0]
      case Open(i) => Show(ts[1..], [i] + stack)
      case Close(i) => if stack != [] && stack[0] == i then Show(ts[1..], stack[1..]) else []
      case Chars(s) => ShowText(s, Tags(stack), LINK in stack) + Show(ts[1..], stack)
  }

  lemma {:induction false} NestConcat(a: seq<Token>, b: seq<Token>, stack: seq<int>)
    requires Nest(a, stack).Some?
    ensures Nest(a + b, stack) == Nest(b, Nest(a, stack).value)
    ensures Show(a + b, stack) == Show(a, stack) + Show(b, Nest(a, stack).value)
    decreases |a|
  {
    if a == [] {
      assert a + b == b;
    } else {
      assert (a + b)[1..] == a[1..] + b && (a + b)[0] == a[0];
      match a[0] {
        case Open(i) => NestConcat(a[1..], b, [i] + stack);
        case Close(_) => NestConcat(a[1..], b, stack[1..]);
        case Chars(s) =>
          NestConcat(a[1..], b, stack);
          var x, y, z := ShowText(s, Tags(stack), LINK in stack), Show(a[1..], stack), Show(b, Nest(a, stack).value);
          assert x + (y + z) == x + y + z;
      }
    }
  }

  /** Closing tags for a part of the stack, from the inside. */
  function Closes(tags: seq<int>): seq<Token> { if tags == [] then [] else [Close(tags[0])] + Closes(tags[1..]) }

  /** Opening tags for a part of the stack, from the outside. */
  function Opens(tags: seq<int>): seq<Token> { if tags == [] then [] else Opens(tags[1..]) + [Open(tags[0])] }

  lemma {:induction false} ClosesNext(tags: seq<int>, k: nat)
    requires k < |tags|
    ensures Closes(tags[..k + 1]) == Closes(tags[..k]) + [Close(tags[k])]
  {
    if k == 0 {
      assert tags[..1][1..] == [] && tags[..0] == [];
    } else {
      assert tags[..k + 1][1..] == tags[1..][..k] && tags[..k][1..] == tags[1..][..k - 1];
      ClosesNext(tags[1..], k - 1);
      Associate([Close(tags[0])], Closes(tags[1..][..k - 1]), [Close(tags[k])]);
    }
  }

  // ----- what should be written -----

  /** Which property an attribute number stands for. */
  type Properties = map<nat, nat>

  /** The properties of an attribute string. */
  function TagsOf(a: string, anumMap: Properties): set<int> { set n | n in Scan(a).0 && n in anumMap :: anumMap[n] }

  /** The same as the code lists them, for each number in turn. */
  function UsedTags(nums: seq<nat>, anumMap: Properties): seq<int> {
    if nums == [] then []
    else
      var l := |nums| - 1;
      UsedTags(nums[..l], anumMap) + if nums[l] in anumMap then [anumMap[nums[l]]] else []
  }

  lemma {:induction false} UsedTagsAre(nums: seq<nat>, anumMap: Properties)
    ensures forall t :: t in UsedTags(nums, anumMap) <==> t in set n | n in nums && n in anumMap :: anumMap[n]
    ensures LINK !in UsedTags(nums, anumMap)
  {
    if nums != [] {
      var l := |nums| - 1;
      UsedTagsAre(nums[..l], anumMap);
      assert forall n :: n in nums <==> n in nums[..l] || n == nums[l] by { assert nums == nums[..l] + [nums[l]]; }
    }
  }

  /** Form feeds are left out. */
  function Cleaned(s: string): string {
    if s == "" then "" else (if s[0] == '\U{C}' then "" else [s[0]]) + Cleaned(s[1..])
  }

  const VERBATIM := Verbatim(true, EMPTY_POOL)

  function AttribsOf(c: Cell): string { if "" in c.attrs then c.attrs[""] else "" }

  /** A character as it should be shown. */
  function ShowCell(c: Cell, anumMap: Properties, link: bool): seq<Shown> {
    if c.c == '\U{C}' then [] else [Shown(c.c, TagsOf(AttribsOf(c), anumMap), link)]
  }

  function ShowCells(d: Doc, anumMap: Properties, link: bool): seq<Shown> {
    if d == [] then [] else ShowCell(d[0], anumMap, link) + ShowCells(d[1..], anumMap, link)
  }

  lemma {:induction false} ShowCellsConcat(a: Doc, b: Doc, anumMap: Properties, link: bool)
    ensures ShowCells(a + b, anumMap, link) == ShowCells(a, anumMap, link) + ShowCells(b, anumMap, link)
  {
    hide ShowCell;
    if a == [] {
      assert a + b == b;
    } else {
      assert (a + b)[1..] == a[1..] + b && (a + b)[0] == a[0];
      ShowCellsConcat(a[1..], b, anumMap, link);
      var x, y, z := ShowCell(a[0], anumMap, link), ShowCells(a[1..], anumMap, link), ShowCells(b, anumMap, link);
      assert x + (y + z) == x + y + z;
    }
  }

  /** Characters of one run stand under the tags of its attribute string. */
  lemma {:induction false} ShowRun(d: Doc, a: string, anumMap: Properties, link: bool)
    requires forall i :: 0 <= i < |d| ==> d[i].attrs == map["" := a]
    ensures ShowCells(d, anumMap, link) == ShowText(Cleaned(Text(d)), TagsOf(a, anumMap), link)
  {
    hide TagsOf;
    if d != [] {
      ShowRun(d[1..], a, anumMap, link);
      var s, tags := Cleaned(Text(d[1..])), TagsOf(a, anumMap);
      assert Text(d)[1..] == Text(d[1..]);
      assert AttribsOf(d[0]) == a;
      if d[0].c != '\U{C}' { assert ([d[0].c] + s)[1..] == s; } else { assert "" + s == s; }
    }
  }

  /** A stretch of the line that is written as a link. */
  datatype Url = Url(start: nat, length: nat)

  predicate InUrl(urls: seq<Url>, i: nat) {
    exists u :: 0 <= u < |urls| && urls[u].start <= i < urls[u].start + urls[u].length
  }

  /** The links come one after the other in the text. */
  predicate Apart(urls: seq<Url>, n: nat) {
    && (forall u :: 0 <= u < |urls| ==> urls[u].start + urls[u].length <= n)
    && forall u, v :: 0 <= u < v < |urls| ==> urls[u].start + urls[u].length <= urls[v].start
  }

  /**
    A line from character `i` on: each character with the tags of its attributes, and in a link exactly if a link
    covers it.
   */
  function ShowLine(d: Doc, anumMap: Properties, urls: seq<Url>, i: nat): seq<Shown>
    decreases |d| - i
  {
    if i >= |d| then [] else ShowCell(d[i], anumMap, InUrl(urls, i)) + ShowLine(d, anumMap, urls, i + 1)
  }

  lemma {:induction false} ShowStretch(d: Doc, anumMap: Properties, urls: seq<Url>, i: nat, j: nat, link: bool)
    requires i <= j <= |d| && forall k :: i <= k < j ==> InUrl(urls, k) == link
    ensures ShowLine(d, anumMap, urls, i) == ShowCells(d[i..j], anumMap, link) + ShowLine(d, anumMap, urls, j)
    decreases j - i
  {
    hide ShowCell, InUrl;
    if i < j {
      ShowStretch(d, anumMap, urls, i + 1, j, link);
      assert d[i..j][1..] == d[i + 1..j];
      var x, y, z := ShowCell(d[i], anumMap, link), ShowCells(d[i + 1..j], anumMap, link),
          ShowLine(d, anumMap, urls, j);
      assert x + (y + z) == x + y + z;
    } else {
      assert d[i..j] == [] && [] + ShowLine(d, anumMap, urls, j) == ShowLine(d, anumMap, urls, j);
    }
  }

  /** Between two links there is none. */
  lemma {:induction false} BetweenUrls(urls: seq<Url>, u: nat, n: nat)
    requires Apart(urls, n) && u < |urls|
    ensures var from, to := if u == 0 then 0 else urls[u - 1].start + urls[u - 1].length, urls[u].start;
            from <= to && forall k: nat :: from <= k < to ==> !InUrl(urls, k)
    ensures forall k: nat :: urls[u].start <= k < urls[u].start + urls[u].length ==> InUrl(urls, k)
  {
    var from, to := if u == 0 then 0 else urls[u - 1].start + urls[u - 1].length, urls[u].start;
    forall k: nat | from <= k < to ensures !InUrl(urls, k) {
      forall v | 0 <= v < |urls| ensures !(urls[v].start <= k < urls[v].start + urls[v].length) {
        if v < u {
          assert v < u - 1 ==> urls[v].start + urls[v].length <= urls[u - 1].start;
        } else if v > u {
          assert urls[u].start + urls[u].length <= urls[v].start;
        }
      }
    }
  }

  lemma {:induction false} BehindUrls(urls: seq<Url>, n: nat)
    requires Apart(urls, n)
    ensures var from := if urls == [] then 0 else urls[|urls| - 1].start + urls[|urls| - 1].length;
            from <= n && forall k: nat :: k >= from ==> !InUrl(urls, k)
  {
    var l := |urls| - 1;
    forall k: nat | k >= if urls == [] then 0 else urls[l].start + urls[l].length ensures !InUrl(urls, k) {
      forall v | 0 <= v < |urls| ensures !(urls[v].start <= k < urls[v].start + urls[v].length) {
        assert v < l ==> urls[v].start + urls[v].length <= urls[l].start;
      }
    }
  }

  // ----- the writer -----

  /** What the attribution line gives the line; the text may be followed by its newline. */
  ghost predicate Shows(aline: string, text: string, d: Doc) {
    && GivesLine(VERBATIM, aline, Text(d), d) && |text| <= |d| && Text(d)[..|text|] == text && Newlines(text) == 0
  }

  class LineWriter {
    const text: string
    const aline: string
    const anumMap: Properties
    const taker: StringIterator
    var idx: nat
    var openTags: seq<int>
    var pieces: seq<Token>

    /** The characters up to `idx` are written. */
    ghost predicate AtPlace()
      reads this, taker
    {
      taker.Valid() && taker.str == text && taker.curIndex == idx && idx <= |text|
    }

    ghost function Stack(): Option<seq<int>>
      reads this
    {
      Nest(pieces, [])
    }

    ghost function Written(): seq<Shown>
      reads this
    {
      Show(pieces, [])
    }

    /** The open tags are the innermost ones on the stack; the others are `outer`. */
    ghost predicate Valid(outer: seq<int>)
      reads this
    {
      Stack() == Some(openTags + outer)
    }

    constructor (text: string, aline: string, anumMap: Properties)
      ensures Valid([]) && Written() == [] && openTags == [] && AtPlace() && idx == 0 && fresh(taker)
      ensures this.text == text && this.aline == aline && this.anumMap == anumMap
    {
      this.text, this.aline, this.anumMap := text, aline, anumMap;
      taker := new StringIterator(text);
      idx, openTags, pieces := 0, [], [];
      new;
      assert openTags + [] == [] && text[0..] == text;
    }

    method Emit(t: Token)
      requires Stack().Some?
      modifies `pieces
      ensures Stack() == Nest([t], old(Stack()).value)
      ensures Written() == old(Written()) + Show([t], old(Stack()).value)
      ensures pieces == old(pieces) + [t]
    {
      NestConcat(pieces, [t], []);
      pieces := pieces + [t];
    }

    method EmitOpenTag(i: int, ghost outer: seq<int>)
      requires Valid(outer)
      modifies `openTags, `pieces
      ensures Valid(outer) && openTags == [i] + old(openTags) && Written() == old(Written())
      ensures pieces == old(pieces) + [Open(i)]
    {
      openTags := [i] + openTags;
      Emit(Open(i));
      assert [Open(i)][1..] == [] && [i] + (old(openTags) + outer) == openTags + outer;
      assert Written() == old(Written()) + [];
    }

    method EmitCloseTag(i: int, ghost outer: seq<int>)
      requires Valid(outer) && openTags != [] && openTags[0] == i
      modifies `openTags, `pieces
      ensures Valid(outer) && openTags == old(openTags)[1..] && Written() == old(Written())
      ensures pieces == old(pieces) + [Close(i)]
    {
      assert (openTags + outer)[0] == i && (openTags + outer)[1..] == openTags[1..] + outer;
      openTags := openTags[1..];
      Emit(Close(i));
      assert [Close(i)][1..] == [] && Written() == old(Written()) + [];
    }

    /** Closes every open tag down to the outermost one that is not used any more, and no more. */
    method CloseUnused(used: seq<int>, ghost outer: seq<int>) returns (ghost closed: nat)
      requires Valid(outer)
      modifies `openTags, `pieces
      ensures Valid(outer) && Written() == old(Written())
      ensures closed <= old(|openTags|) && openTags == old(openTags)[closed..]
      ensures pieces == old(pieces) + Closes(old(openTags)[..closed])
      ensures forall i :: 0 <= i < |openTags| ==> openTags[i] in used
      ensures closed > 0 ==> old(openTags)[closed - 1] !in used
    {
      var outermostTag: int := |openTags| - 1;
      while outermostTag >= 0 && openTags[outermostTag] in used
        invariant -1 <= outermostTag < |openTags|
        invariant forall i :: outermostTag < i < |openTags| ==> openTags[i] in used
      {
        outermostTag := outermostTag - 1;
      }
      closed := outermostTag + 1;
      CloseFirst(outermostTag + 1, outer);
    }

    /** Closes the innermost `n` tags. */
    method CloseFirst(n: nat, ghost outer: seq<int>)
      requires Valid(outer) && n <= |openTags|
      modifies `openTags, `pieces
      ensures Valid(outer) && Written() == old(Written())
      ensures openTags == old(openTags)[n..] && pieces == old(pieces) + Closes(old(openTags)[..n])
    {
      hide Nest, Show;
      ghost var was := openTags;
      assert was[0..] == was && was[..0] == [] && pieces + [] == pieces && Closes([]) == [];
      hide Closes;
      for k := 0 to n
        invariant Valid(outer) && Written() == old(Written())
        invariant openTags == was[k..] && pieces == old(pieces) + Closes(was[..k])
      {
        ClosesNext(was, k);
        Associate(old(pieces), Closes(was[..k]), [Close(was[k])]);
        assert openTags[0] == was[k] && openTags[1..] == was[k + 1..];
        EmitCloseTag(openTags[0], outer);
      }
    }

    /** Opens every tag that is used and not open. */
    method OpenUsed(used: seq<int>, ghost outer: seq<int>) returns (ghost added: seq<int>)
      requires Valid(outer) && forall i :: 0 <= i < |openTags| ==> openTags[i] in used
      modifies `openTags, `pieces
      ensures Valid(outer) && Written() == old(Written())
      ensures openTags == added + old(openTags) && pieces == old(pieces) + Opens(added)
      ensures forall t :: t in openTags <==> t in used
      ensures forall i :: 0 <= i < |added| ==> added[i] !in added[i + 1..] + old(openTags)
    {
      added := [];
      assert [] + openTags == openTags && pieces + [] == pieces;
      for k := 0 to |used|
        invariant Valid(outer) && Written() == old(Written())
        invariant openTags == added + old(openTags) && pieces == old(pieces) + Opens(added)
        invariant forall t :: t in openTags ==> t in used
        invariant forall j :: 0 <= j < k ==> used[j] in openTags
        invariant forall i :: 0 <= i < |added| ==> added[i] !in added[i + 1..] + old(openTags)
      {
        if used[k] !in openTags {
          ghost var more := [used[k]] + added;
          assert more[1..] == added && forall i :: 0 < i < |more| ==> more[i + 1..] == added[i..];
          Associate([used[k]], added, old(openTags));
          Associate(old(pieces), Opens(added), [Open(used[k])]);
          EmitOpenTag(used[k], outer);
          added := more;
        }
      }
    }

    /** The tags used for an attribute string. */
    method UsedAttribs(attribs: string) returns (used: seq<int>)
      ensures used == UsedTags(Scan(attribs).0, anumMap)
    {
      hide Scan;
      var attribNums := Scan(attribs).0;
      used := [];
      for k := 0 to |attribNums|
        invariant used == UsedTags(attribNums[..k], anumMap)
      {
        assert attribNums[..k + 1][..k] == attribNums[..k];
        if attribNums[k] in anumMap {
          used := used + [anumMap[attribNums[k]]];
        } else {
          assert used + [] == used;
        }
      }
      assert attribNums[..|attribNums|] == attribNums;
    }

    /**
      One run: its characters are written under exactly the tags of its attribute string. Tags are closed from the
      inside down to the outermost one that is not among them, and then those that are missing are added.
     */
    method WriteRun(op: Op, ghost outer: seq<int>) returns (ghost closed: nat, ghost added: seq<int>)
      requires Valid(outer) && Tags(outer) == {} && op.lines == 0 && taker.Valid() && op.chars <= |taker.Rest()|
      modifies `openTags, `pieces, taker
      ensures Valid(outer) && taker.Valid() && taker.curIndex == old(taker.curIndex) + op.chars
      ensures Written() == old(Written())
              + ShowText(Cleaned(old(taker.Rest())[..op.chars]), TagsOf(op.attribs, anumMap), LINK in outer)
      ensures closed <= old(|openTags|) && openTags == added + old(openTags)[closed..]
      ensures pieces == old(pieces) + Closes(old(openTags)[..closed]) + Opens(added)
                        + [Chars(Cleaned(old(taker.Rest())[..op.chars]))]
      ensures closed > 0 ==> old(openTags)[closed - 1] !in TagsOf(op.attribs, anumMap)
      ensures forall i :: 0 <= i < |added| ==> added[i] !in added[i + 1..] + old(openTags)[closed..]
    {
      hide Scan, Cleaned, Nest, Show, ShowText, Newlines, Closes, Opens;
      var used := UsedAttribs(op.attribs);
      UsedTagsAre(Scan(op.attribs).0, anumMap);
      closed := CloseUnused(used, outer);
      added := OpenUsed(used, outer);
      var chars: int := op.chars;
      if op.lines > 0 {
        chars := chars - 1;
      }
      var s := taker.Take(chars);
      EmitChars(Cleaned(s.value), outer);
      assert Tags(openTags + outer) == TagsOf(op.attribs, anumMap) && (LINK in openTags + outer <==> LINK in outer) by {
        TagsInside(openTags, outer, TagsOf(op.attribs, anumMap));
      }
    }

    method EmitChars(s: string, ghost outer: seq<int>)
      requires Valid(outer)
      modifies `pieces
      ensures Valid(outer) && Written() ==
              old(Written()) + ShowText(s, Tags(openTags + outer), LINK in openTags + outer)
      ensures pieces == old(pieces) + [Chars(s)]
    {
      Emit(Chars(s));
      var stack := openTags + outer;
      assert [Chars(s)][1..] == [] && ShowText(s, Tags(stack), LINK in stack) + [] ==
             ShowText(s, Tags(stack), LINK in stack);
    }

    /** The next characters: written under their tags, all of which are closed at the end. */
    method ProcessNextChars(numChars: int, ghost outer: seq<int>, ghost d: Doc)
      requires Valid(outer) && openTags == [] && Tags(outer) == {} && AtPlace() && Shows(aline, text, d)
      requires 0 <= numChars && idx + numChars <= |text|
      modifies this, taker
      ensures Valid(outer) && openTags == [] && AtPlace() && idx == old(idx) + numChars
      ensures Written() == old(Written()) + ShowCells(d[old(idx)..idx], anumMap, LINK in outer)
    {
      hide Scan, Nest, Show, ShowText, Newlines, Shows, GivesLine, Deserialize, ShowCells, Tags, Text, Subattribution,
           RunsShown;
      var end := idx + numChars;
      PartShown(aline, text, d, idx, end);
      if numChars <= 0 {
        NoCells(d, idx, anumMap, LINK in outer);
        assert Written() + [] == Written();
        return;
      }
      assert taker.Rest()[..numChars] == text[idx..end];
      var part := SubattributionLoops.Subattribution(aline, idx, Some(end));
      var ops := Deserialize(part.value).value;
      idx := end;
      WriteRuns(ops, outer, d[old(idx)..end]);
      CloseAll(outer);
    }

    /** The runs of a part of the line. */
    method WriteRuns(ops: seq<Op>, ghost outer: seq<int>, ghost d: Doc)
      requires Valid(outer) && Tags(outer) == {} && taker.Valid() && RunsShown(ops, d)
      requires |d| <= |taker.Rest()| && taker.Rest()[..|d|] == Text(d)
      modifies `openTags, `pieces, taker
      ensures Valid(outer) && taker.Valid() && taker.curIndex == old(taker.curIndex) + |d|
      ensures Written() == old(Written()) + ShowCells(d, anumMap, LINK in outer)
    {
      hide Nest, Show, ShowText, Newlines, RunsShown, ShowCells, Text, Cleaned;
      ghost var e := d;
      assert ops[0..] == ops;
      for i := 0 to |ops|
        invariant Valid(outer) && taker.Valid() && RunsShown(ops[i..], e)
        invariant |e| <= |taker.Rest()| && taker.Rest()[..|e|] == Text(e)
        invariant taker.curIndex + |e| == old(taker.curIndex) + |d|
        invariant Written() + ShowCells(e, anumMap, LINK in outer) ==
                  old(Written()) + ShowCells(d, anumMap, LINK in outer)
      {
        ghost var rest, w := taker.Rest(), Written();
        var op := ops[i];
        assert ops[i..][0] == op && ops[i..][1..] == ops[i + 1..];
        NextRunShown(ops[i..], e, anumMap, LINK in outer);
        var _, _ := WriteRun(op, outer);
        ghost var x, y := ShowText(Cleaned(Text(e)[..op.chars]), TagsOf(op.attribs, anumMap), LINK in outer),
            ShowCells(e[op.chars..], anumMap, LINK in outer);
        assert rest[..op.chars] == Text(e)[..op.chars] && taker.Rest() == rest[op.chars..];
        assert w + x + y == w + (x + y);
        TextSplit(e, op.chars);
        assert taker.Rest()[..|e| - op.chars] == rest[..|e|][op.chars..];
        e := e[op.chars..];
      }
      assert ops[|ops|..] == [];
      NoRunsShown(e, anumMap, LINK in outer);
      assert Written() + [] == Written();
    }

    method CloseAll(ghost outer: seq<int>)
      requires Valid(outer)
      modifies `openTags, `pieces
      ensures Valid(outer) && openTags == [] && Written() == old(Written())
    {
      while openTags != []
        invariant Valid(outer) && Written() == old(Written())
        decreases |openTags|
      {
        EmitCloseTag(openTags[0], outer);
      }
    }

    method OpenLink()
      requires Valid([]) && openTags == []
      modifies `pieces
      ensures Valid([LINK]) && Written() == old(Written())
    {
      Emit(Open(LINK));
      assert [Open(LINK)][1..] == [] && [LINK] + ([] + []) == [LINK] && [] + [LINK] == [LINK];
      assert Written() == old(Written()) + [];
    }

    method CloseLink()
      requires Valid([LINK]) && openTags == []
      modifies `pieces
      ensures Valid([]) && Written() == old(Written())
    {
      assert openTags + [LINK] == [LINK] && openTags + [] == [];
      Emit(Close(LINK));
      assert [Close(LINK)][1..] == [] && [LINK][1..] == [];
      assert Written() == old(Written()) + [];
    }

    /** The characters before a link, and the link itself with its characters. */
    method WriteUrl(url: Url, ghost d: Doc, ghost urls: seq<Url>, ghost u: nat)
      requires Valid([]) && openTags == [] && AtPlace() && Shows(aline, text, d) && Apart(urls, |text|)
      requires u < |urls| && urls[u] == url && idx == if u == 0 then 0 else urls[u - 1].start + urls[u - 1].length
      modifies this, taker
      ensures Valid([]) && openTags == [] && AtPlace() && idx == url.start + url.length
      ensures Written() + ShowLine(d[..|text|], anumMap, urls, idx) ==
              old(Written() + ShowLine(d[..|text|], anumMap, urls, idx))
    {
      hide Nest, Show, ShowText, Newlines, Shows, ShowLine, ShowCells, InUrl;
      assert |text| <= |d| by { ShowsLength(aline, text, d); }
      ghost var l, i, a, b, w := d[..|text|], idx, url.start, url.start + url.length, Written();
      BetweenUrls(urls, u, |text|);
      ShowStretch(l, anumMap, urls, i, a, false);
      ShowStretch(l, anumMap, urls, a, b, true);
      assert l[i..a] == d[i..a] && l[a..b] == d[a..b];
      ProcessNextChars(url.start - idx, [], d);
      OpenLink();
      ProcessNextChars(url.length, [LINK], d);
      CloseLink();
      ghost var x, y, z := ShowCells(l[i..a], anumMap, false), ShowCells(l[a..b], anumMap, true),
          ShowLine(l, anumMap, urls, b);
      assert w + x + y + z == w + (x + (y + z));
    }

    /**
      A whole line: the tags are properly nested and closed, each character stands under exactly the tags of its
      attributes, and it stands inside a link exactly if a link covers it.
     */
    method WriteLine(urls: seq<Url>, ghost d: Doc)
      requires Valid([]) && openTags == [] && Written() == [] && AtPlace() && idx == 0
      requires Shows(aline, text, d) && Apart(urls, |text|)
      modifies this, taker
      ensures Nest(pieces, []) == Some([]) && Written() == ShowLine(d[..|text|], anumMap, urls, 0)
    {
      hide Nest, Show, ShowText, Newlines, Shows, ShowLine, ShowCells, InUrl;
      assert |text| <= |d| by { ShowsLength(aline, text, d); }
      ghost var l := d[..|text|];
      for u := 0 to |urls|
        invariant Valid([]) && openTags == [] && AtPlace()
        invariant idx == if u == 0 then 0 else urls[u - 1].start + urls[u - 1].length
        invariant Written() + ShowLine(l, anumMap, urls, idx) == ShowLine(l, anumMap, urls, 0)
      {
        WriteUrl(urls[u], d, urls, u);
      }
      BehindUrls(urls, |text|);
      ghost var i, w := idx, Written();
      ShowStretch(l, anumMap, urls, i, |text|, false);
      assert l[i..] == d[i..|text|] && l[i..|text|] == l[i..];
      ProcessNextChars(|text| - idx, [], d);
      LineEnds(l, anumMap, urls);
      assert openTags + [] == [] && Written() + [] == Written();
    }
  }

  lemma {:induction false} TagsInside(open: seq<int>, outer: seq<int>, tags: set<int>)
    requires Tags(outer) == {} && LINK !in open && forall t :: t in open <==> t in tags
    ensures Tags(open + outer) == tags && (LINK in open + outer <==> LINK in outer)
  {
    assert LINK !in tags;
    forall t ensures t in Tags(open + outer) <==> t in tags {
      assert t in outer && t != LINK ==> t in Tags(outer);
    }
  }

  lemma {:induction false} NoCells(d: Doc, i: nat, anumMap: Properties, link: bool)
    requires i <= |d|
    ensures ShowCells(d[i..i], anumMap, link) == []
  {}

  lemma {:induction false} LineEnds(d: Doc, anumMap: Properties, urls: seq<Url>)
    ensures ShowLine(d, anumMap, urls, |d|) == []
  {}

  lemma {:induction false} ShowsLength(aline: string, text: string, d: Doc)
    requires Shows(aline, text, d)
    ensures |text| <= |d|
  {}

  /** The runs of a part of a line, which holds no newline. */
  ghost predicate RunsShown(ops: seq<Op>, d: Doc) {
    Attributions.Inserts(ops) && Produces(VERBATIM, ops, Text(d), [], d) && Newlines(Text(d)) == 0
  }

  lemma {:induction false} PartShown(aline: string, text: string, d: Doc, start: nat, end: nat)
    requires Shows(aline, text, d) && start <= end <= |text|
    ensures |text| <= |d|
    ensures var r := Subattribution(aline, start, Some(end));
            r.Ok? && Deserialize(r.value).Ok? && RunsShown(Deserialize(r.value).value, d[start..end])
    ensures Text(d[start..end]) == text[start..end]
  {
    hide Newlines, GivesLine, Produces, Deserialize, Subattribution, Text;
    var t := Text(d);
    SubattributionGives(VERBATIM, aline, t, d, start, end);
    TextSplit(d, end);
    TextSplit(d[..end], start);
    assert d[..end][start..] == d[start..end] && t[..end][start..] == t[start..end] == text[start..end] by {
      assert t[..|text|][start..end] == t[start..end];
    }
    NewlinesSplit(text, end);
    NewlinesSplit(text[..end], start);
    assert text[..end][start..] == text[start..end];
  }

  lemma {:induction false} NextRunShown(ops: seq<Op>, d: Doc, anumMap: Properties, link: bool)
    requires ops != [] && RunsShown(ops, d)
    ensures var k := ops[0].chars;
            && k <= |d| && ops[0].lines == 0 && RunsShown(ops[1..], d[k..])
            && ShowCells(d, anumMap, link) ==
               ShowText(Cleaned(Text(d)[..k]), TagsOf(ops[0].attribs, anumMap), link) + ShowCells(d[k..], anumMap, link)
  {
    hide Newlines, Produces, ShowText, ShowCells, Cleaned, TagsOf, Text;
    var k := ops[0].chars;
    var d' := Attributions.FirstRun(EMPTY_POOL, ops, Text(d), d);
    TextSplit(d, k);
    NewlinesSplit(Text(d), k);
    ShowRun(d[..k], ops[0].attribs, anumMap, link);
    ShowCellsConcat(d[..k], d[k..], anumMap, link);
    assert d[..k] + d[k..] == d;
  }

  lemma {:induction false} NoRunsShown(d: Doc, anumMap: Properties, link: bool)
    requires RunsShown([], d)
    ensures d == [] && ShowCells(d, anumMap, link) == []
  {}

  // ----- which property an attribute number stands for -----

  /** The properties that are written as tags; each has the tag at the same place of HTML_TAGS. */
  const HTML_PROPS := ["heading1", "heading2", "bold", "italic", "underline", "strikethrough"]
  const HTML_TAGS := ["h1", "h2", "strong", "em", "u", "s"]

  /** The number of each attribute that sets a property, with the place of the property. */
  function PropertiesOf(props: seq<string>, pool: Pool): Properties {
    if props == [] then map[]
    else
      var l := |props| - 1;
      var m, a := PropertiesOf(props[..l], pool), Attribute(props[l], "true");
      if a in pool.attribToNum && pool.attribToNum[a] >= 0 then m[pool.attribToNum[a] := l] else m
  }

  method MapProperties(props: seq<string>, pool: APool) returns (anumMap: Properties)
    modifies pool
    ensures anumMap == PropertiesOf(props, pool.State()) && pool.State() == old(pool.State())
  {
    anumMap := map[];
    for i := 0 to |props|
      invariant anumMap == PropertiesOf(props[..i], pool.State()) && pool.State() == old(pool.State())
    {
      assert props[..i + 1][..i] == props[..i];
      var propTrueNum := pool.PutAttrib(Attribute(props[i], "true"), true);
      if propTrueNum >= 0 {
        anumMap := anumMap[propTrueNum := i];
      }
    }
    assert props[..|props|] == props;
  }

  predicate Distinct(props: seq<string>) { forall i, j :: 0 <= i < j < |props| ==> props[i] != props[j] }

  lemma {:induction false} PropertiesAre(props: seq<string>, pool: Pool)
    requires pool.Consistent() && Distinct(props)
    ensures var m := PropertiesOf(props, pool);
            && (forall item :: item in m.Items ==>
                  item.1 < |props| && item.0 in pool.numToAttrib
                      && pool.numToAttrib[item.0] == Attribute(props[item.1], "true"))
            && forall i :: 0 <= i < |props| && Attribute(props[i], "true") in pool.attribToNum ==>
                 var n := pool.attribToNum[Attribute(props[i], "true")]; n >= 0 && n in m && m[n] == i
  {
    if props != [] {
      var l := |props| - 1;
      PropertiesAre(props[..l], pool);
      var m := PropertiesOf(props[..l], pool);
      forall i | 0 <= i < l && Attribute(props[i], "true") in pool.attribToNum
        ensures pool.attribToNum[Attribute(props[i], "true")] in m
                && m[pool.attribToNum[Attribute(props[i], "true")]] == i
      {
        assert props[..l][i] == props[i];
      }
      forall item | item in m.Items ensures item.1 < l && pool.numToAttrib[item.0] == Attribute(props[item.1], "true") {
        assert props[..l][item.1] == props[item.1];
      }
    }
  }

  /**
    The tags of a character are the properties that its attributes set: property `i` is among them exactly if one of the
    numbers of its attribute string stands for that property with value "true" in the pool.
   */
  lemma {:induction false} TagsMean(a: string, props: seq<string>, pool: Pool, i: int)
    requires pool.Consistent() && Distinct(props)
    ensures i in TagsOf(a, PropertiesOf(props, pool)) <==>
            && 0 <= i < |props|
            && exists n :: n in Scan(a).0 && n in pool.numToAttrib && pool.numToAttrib[n] == Attribute(props[i], "true")
  {
    hide Scan, PropertiesOf;
    var m := PropertiesOf(props, pool);
    PropertiesAre(props, pool);
    if i in TagsOf(a, m) {
      var n :| n in Scan(a).0 && n in m && m[n] == i;
      assert (n, m[n]) in m.Items;
    }
    if && 0 <= i < |props|
       && exists n :: n in Scan(a).0 && n in pool.numToAttrib && pool.numToAttrib[n] == Attribute(props[i], "true")
    {
      var n :| n in Scan(a).0 && n in pool.numToAttrib && pool.numToAttrib[n] == Attribute(props[i], "true");
      assert pool.attribToNum[pool.numToAttrib[n]] == n;
    }
  }

  lemma {:induction false} HtmlProps()
    ensures Distinct(HTML_PROPS) && |HTML_PROPS| == |HTML_TAGS| == 6
    ensures HTML_PROPS[0] == "heading1" && HTML_TAGS[0] == "h1" && HTML_PROPS[1] == "heading2" && HTML_TAGS[1] == "h2"
    ensures HTML_PROPS[2] == "bold" && HTML_TAGS[2] == "strong" && HTML_PROPS[3] == "italic" && HTML_TAGS[3] == "em"
    ensures HTML_PROPS[4] == "underline" && HTML_TAGS[4] == "u" && HTML_PROPS[5] == "strikethrough"
            && HTML_TAGS[5] == "s"
  {
    var p := HTML_PROPS;
    assert p[0][7] != p[1][7] && |p[2]| == 4 && |p[3]| == 6 && |p[4]| == 9 && |p[5]| == 13 && |p[0]| == |p[1]| == 8;
    forall i, j | 0 <= i < j < |p| ensures p[i] != p[j] { assert (i == 0 && j == 1) || |p[i]| != |p[j]|; }
  }

  /** Attribution lines of a document, as the other modules keep them, are what is asked for here. */
  lemma {:induction false} LineShows(pool: Pool, aline: string, line: string, d: Doc)
    requires Deserialize(aline).Ok? && Attributions.LineCover(Verbatim(true, pool), Deserialize(aline).value, line, d)
    requires Lines.FullLine(line)
    ensures Shows(aline, line[..|line| - 1], d)
  {
    hide Run, Deserialize, Newlines, Canonical, Text;
    var ops, text := Deserialize(aline).value, line[..|line| - 1];
    Attributions.RunAnyPool(pool, EMPTY_POOL, ops, line);
    SameLength(VERBATIM, ops, line, d);
    NewlinesSplit(line, |text|);
    assert line[|text|..] == "\n";
    OneNewline();
  }

  /**
    So are the rest of a list line behind its marker and the attribution that Subattribution gives it: the rest keeps
    its attributes.
   */
  lemma {:induction false} ListLineShows(pool: Pool, aline: string, line: string, d: Doc)
    requires Deserialize(aline).Ok? && Attributions.LineCover(Verbatim(true, pool), Deserialize(aline).value, line, d)
    requires Lines.FullLine(line) && |line| > 1
    ensures |d| == |line| && Subattribution(aline, 1, None).Ok?
    ensures Shows(Subattribution(aline, 1, None).value, line[1..|line| - 1], d[1..])
  {
    hide Run, Deserialize, Newlines, Canonical, Text, Produces, Subattribution, RunsOk, AllAttribText,
         Attributions.Inserts;
    var n := |line| - 1;
    LineShows(pool, aline, line, d);
    SameLength(VERBATIM, Deserialize(aline).value, Text(d), d);
    SameLength(Verbatim(true, pool), Deserialize(aline).value, line, d);
    SubattributionGives(VERBATIM, aline, line, d, 1, |line|);
    var r := Subattribution(aline, 1, None).value;
    NewlinesSplit(line, 1);
    NewlinesBound(line[..1]);
    Attributions.FewNewlines(VERBATIM, Deserialize(r).value, line[1..], d[1..]);
    TextSplit(d, 1);
    assert line[1..][..n - 1] == line[1..n] == line[..n][1..];
    NewlinesSplit(line[..n], 1);
  }

  lemma {:induction false} OneNewline()
    ensures Newlines("\n") == 1
  {
    assert "\n"[1..] == "";
  }

  /** The tokens of one line of a pad. */
  method LineHtml(text: string, aline: string, props: seq<string>, pool: APool, urls: seq<Url>, ghost d: Doc)
    returns (pieces: seq<Token>)
    requires Shows(aline, text, d) && Apart(urls, |text|)
    modifies pool
    ensures pool.State() == old(pool.State()) && |text| <= |d|
    ensures Nest(pieces, []) == Some([])
            && Show(pieces, []) == ShowLine(d[..|text|], PropertiesOf(props, pool.State()), urls, 0)
  {
    hide Shows, Nest, Show, ShowLine, PropertiesOf;
    ShowsLength(aline, text, d);
    var anumMap := MapProperties(props, pool);
    var w := new LineWriter(text, aline, anumMap);
    w.WriteLine(urls, d);
    pieces := w.pieces;
  }
}
