/** Reading a text piece by piece: lib/changeset/StringIterator.go. */
module StringIterators {
  import opened Basics

  class StringIterator {
    const str: string
    var curIndex: nat
    var newLines: int

    ghost predicate Valid()
      reads this
    {
      curIndex <= |str|
    }

    /** What is still to be read. */
    ghost function Rest(): string
      requires Valid()
      reads this
    {
      str[curIndex..]
    }

    constructor (str: string)
      ensures Valid() && this.str == str && Rest() == str && newLines == Newlines(str)
    {
      this.str := str;
      curIndex := 0;
      newLines := Newlines(str);
    }

    method Remaining() returns (n: nat)
      requires Valid()
      ensures n == |Rest()|
    {
      n := |str| - curIndex;
    }

    method Peek(n: nat) returns (r: Result<string>)
      requires Valid()
      ensures r == if n > |Rest()| then Err("not enough characters remaining") else Ok(Rest()[..n])
    {
      if n > |str| - curIndex {
        return Err("not enough characters remaining");
      }
      assert str[curIndex..curIndex + n] == Rest()[..n];
      r := Ok(str[curIndex..curIndex + n]);
    }

    method Take(n: nat) returns (r: Result<string>)
      requires Valid()
      modifies this
      ensures Valid()
      ensures r == if n > |old(Rest())| then Err("not enough characters remaining") else Ok(old(Rest())[..n])
      ensures Rest() == if n > |old(Rest())| then old(Rest()) else old(Rest())[n..]
      ensures newLines == old(newLines) - (if r.Ok? then Newlines(r.value) else 0)
    {
      hide Newlines;
      ghost var rest := Rest();
      if n > |str| - curIndex {
        return Err("not enough characters remaining");
      }
      var segment := str[curIndex..curIndex + n];
      assert segment == rest[..n];
      newLines := newLines - Newlines(segment);
      curIndex := curIndex + n;
      assert Rest() == rest[n..];
      r := Ok(segment);
    }

    /** Passes over `n` characters; the newline count is left as it is. */
    method Skip(n: nat) returns (ok: bool)
      requires Valid()
      modifies `curIndex
      ensures Valid()
      ensures ok == (n <= |old(Rest())|)
      ensures Rest() == if ok then old(Rest())[n..] else old(Rest())
    {
      if n > |str| - curIndex {
        return false;
      }
      assert Rest()[n..] == str[curIndex + n..];
      curIndex := curIndex + n;
      ok := true;
    }
  }
}
