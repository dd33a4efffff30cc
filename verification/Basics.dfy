/** Result types, texts and newline counting shared by the whole model. */
module Basics {

  datatype Option<+T> = None | Some(value: T)

  /** A value, or the message of the error that the engine returns. */
  datatype Result<+T> = Ok(value: T) | Err(error: string)

  function Min(a: nat, b: nat): nat { if a <= b then a else b }

  /** A sequence cut in two and put together again. */
  lemma {:induction false} CutAndJoin<T>(s: seq<T>, k: nat)
    requires k <= |s|
    ensures s[..k] + s[k..] == s
  {}

  /** Two sequences put together and cut again. */
  lemma {:induction false} JoinAndCut<T>(a: seq<T>, b: seq<T>)
    ensures (a + b)[..|a|] == a && (a + b)[|a|..] == b
  {}

  lemma {:induction false} Associate<T>(a: seq<T>, b: seq<T>, c: seq<T>)
    ensures a + (b + c) == a + b + c
  {}

  /** A sequence cut behind its first element and once more. */
  lemma {:induction false} CutTail<T>(s: seq<T>, k: nat)
    requires 0 < k <= |s|
    ensures [s[0]] + s[1..][..k - 1] == s[..k] && s[1..][k - 1..] == s[k..]
  {}

  /** A sequence cut twice. */
  lemma {:induction false} CutTwice<T>(s: seq<T>, m: nat, n: nat)
    requires m + n <= |s|
    ensures s[..m] + s[m..][..n] == s[..m + n] && s[m..][n..] == s[m + n..]
  {}

  /** The number of newline characters in `s`. */
  function Newlines(s: string): nat {
    if s == [] then 0 else (if s[0] == '\n' then 1 else 0) + Newlines(s[1..])
  }

  lemma {:induction false} NewlinesConcat(a: string, b: string)
    ensures Newlines(a + b) == Newlines(a) + Newlines(b)
  {
    if a == [] {
      assert a + b == b;
    } else {
      assert (a + b)[1..] == a[1..] + b;
      NewlinesConcat(a[1..], b);
    }
  }

  /** Cutting a text at `k` splits its newline count. */
  lemma {:induction false} NewlinesSplit(s: string, k: nat)
    requires k <= |s|
    ensures Newlines(s) == Newlines(s[..k]) + Newlines(s[k..])
  {
    assert s == s[..k] + s[k..];
    NewlinesConcat(s[..k], s[k..]);
  }

  lemma {:induction false} NewlinesBound(s: string)
    ensures Newlines(s) <= |s|
    ensures '\n' in s <==> Newlines(s) > 0
  {
    if s != [] {
      NewlinesBound(s[1..]);
      assert s == [s[0]] + s[1..];
    }
  }

  predicate EndsInNewline(s: string) { s != [] && s[|s| - 1] == '\n' }

  /** A text that holds newlines ends with one. */
  predicate Clean(s: string) { Newlines(s) > 0 ==> EndsInNewline(s) }

  /** What follows a cut in a clean text is clean. */
  lemma {:induction false} CleanRest(s: string, k: nat)
    requires Clean(s) && k < |s|
    ensures Clean(s[k..])
  {
    NewlinesSplit(s, k);
  }

  /** Putting a clean text after another gives a clean text, unless only the first one holds newlines. */
  lemma {:induction false} CleanConcat(a: string, b: string)
    requires Clean(a) && Clean(b) && (Newlines(b) > 0 || Newlines(a) == 0 || b == [])
    ensures Clean(a + b)
  {
    NewlinesConcat(a, b);
    if Newlines(b) > 0 { assert (a + b)[|a + b| - 1] == b[|b| - 1]; }
    assert b == [] ==> a + b == a;
  }
}
