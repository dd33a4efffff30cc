/**
  The attribute map object, which writes what it is given to its pool: lib/changeset/AttributeMap.go and
  lib/changeset/attributes.go.
 */
module AttributeObjects {
  import opened Basics
  import opened Numerals
  import opened Pools
  import opened PoolObjects
  import opened Attributes
  import UndoAttributes

  lemma {:induction false} UpdateNext(m: AttribMap, entries: seq<Attribute>, i: nat, del: bool, pool: Pool)
    requires i < |entries|
    ensures Update(m, entries[i..], del) == Update(Put(m, entries[i], del), entries[i + 1..], del)
    ensures var e := Attribute(Trim(entries[i].key), Trim(entries[i].value));
            UpdatePool(entries[i..], del, pool) ==
            UpdatePool(entries[i + 1..], del, if e.value == "" && del then pool else pool.Put(e).0)
  {
    hide Put, Trim;
    assert entries[i..][1..] == entries[i + 1..];
  }

  class AttributeMap {
    const pool: APool
    var attrs: AttribMap

    constructor (pool: APool)
      ensures this.pool == pool && attrs == map[]
    {
      this.pool := pool;
      attrs := map[];
    }

    method Set(key: string, value: string)
      modifies this, pool
      ensures attrs == old(attrs)[key := value] && pool.State() == old(pool.State()).Put(Attribute(key, value)).0
    {
      attrs := attrs[key := value];
      var _ := pool.PutAttrib(Attribute(key, value), false);
    }

    method Get(key: string) returns (value: Option<string>)
      ensures value == if key in attrs then Some(attrs[key]) else None
    {
      value := if key in attrs then Some(attrs[key]) else None;
    }

    /** Puts in the entries, trimmed; with `emptyValueIsDelete` an empty value removes its key. */
    method Update(entries: seq<Attribute>, emptyValueIsDelete: bool)
      modifies this, pool
      ensures attrs == Attributes.Update(old(attrs), entries, emptyValueIsDelete)
      ensures pool.State() == UpdatePool(entries, emptyValueIsDelete, old(pool.State()))
    {
      hide Trim;
      assert entries[0..] == entries;
      for i := 0 to |entries|
        invariant Attributes.Update(attrs, entries[i..], emptyValueIsDelete) ==
                  Attributes.Update(old(attrs), entries, emptyValueIsDelete)
        invariant UpdatePool(entries[i..], emptyValueIsDelete, pool.State()) ==
                  UpdatePool(entries, emptyValueIsDelete, old(pool.State()))
      {
        UpdateNext(attrs, entries, i, emptyValueIsDelete, pool.State());
        var key, value := Trim(entries[i].key), Trim(entries[i].value);
        if value == "" && emptyValueIsDelete {
          attrs := attrs - {key};
        } else {
          Set(key, value);
        }
      }
      assert entries[|entries|..] == [];
    }

    method UpdateFromString(s: string, emptyValueIsDelete: bool)
      modifies this, pool
      ensures attrs == Attributes.UpdateFromString(old(attrs), s, emptyValueIsDelete, old(pool.State()))
      ensures pool.State() == UpdatePool(AttribsFromString(s, old(pool.State())), emptyValueIsDelete, old(pool.State()))
    {
      Update(AttribsFromString(s, pool.State()), emptyValueIsDelete);
    }

    /** Puts the pairs into the pool, as sorting does; `order` is the order in which it comes across the keys. */
    method PutPairs(order: seq<string>)
      requires Good(pool.State()) && forall k :: k in attrs ==> Trim(k) == k && Trim(attrs[k]) == attrs[k]
      modifies pool
      ensures pool.State() == UndoAttributes.PutKeys(order, attrs, old(pool.State()))
    {
      hide Trim, Good;
      assert order[0..] == order;
      for i := 0 to |order|
        invariant UndoAttributes.PutKeys(order[i..], attrs, pool.State()) ==
                  UndoAttributes.PutKeys(order, attrs, old(pool.State()))
      {
        assert order[i..][1..] == order[i + 1..];
        if order[i] in attrs {
          var _ := pool.PutAttrib(Attribute(order[i], attrs[order[i]]), false);
        }
      }
      assert order[|order|..] == [];
    }

    /**
      The attribute string in the order of the pool numbers, once the pool has a number for each pair. It reads back as
      the same map, whatever the pool knew before and in whatever order the keys come.
     */
    method String(order: seq<string>) returns (s: string)
      requires Good(pool.State()) && forall k :: k in attrs ==> Trim(k) == k && Trim(attrs[k]) == attrs[k]
      requires forall k :: k in attrs ==> k in order
      modifies pool
      ensures pool.State() == UndoAttributes.PutKeys(order, attrs, old(pool.State()))
      ensures Good(pool.State()) && UndoAttributes.Extends(old(pool.State()), pool.State())
      ensures forall a :: a in pool.attribToNum ==>
                a in old(pool.attribToNum) || (a.key in attrs && attrs[a.key] == a.value)
      ensures s == AttribString(attrs, pool.State()) && FromString(s, pool.State()) == attrs
      ensures Known(s, pool.State()) && Sorted(s)
    {
      hide Known, Sorted, Trim, Good, AttribString, FromString, UndoAttributes.PutKeys, UndoAttributes.Extends;
      ghost var p := pool.State();
      UndoAttributes.PutKeysPool(order, attrs, p);
      forall a | a in UndoAttributes.PutKeys(order, attrs, p).attribToNum
        ensures a in p.attribToNum || (a.key in attrs && attrs[a.key] == a.value)
      {
        UndoAttributes.PutKeysOnly(order, attrs, p, a);
      }
      PutPairs(order);
      GoodCovers(attrs, pool.State());
      s := Print();
    }

    /** Prints the pairs in the order of the pool numbers. */
    method Print() returns (s: string)
      requires pool.State().Consistent() && Covers(pool.State(), attrs)
      ensures s == AttribString(attrs, pool.State()) && FromString(s, pool.State()) == attrs
      ensures Known(s, pool.State()) && Sorted(s)
    {
      hide Trim, NumToString, AttribsFromString, SortedKeys, Encode, Numbers, FromString, Known, Sorted;
      ghost var p := pool.State();
      ReadBackString(attrs, p);
      var keys := SortedKeys(attrs, pool.State(), 0);
      s := "";
      assert keys[0..] == keys && "" + Encode(Numbers(attrs, keys, p)) == Encode(Numbers(attrs, keys, p));
      for i := 0 to |keys|
        invariant s + Encode(Numbers(attrs, keys[i..], p)) == AttribString(attrs, p)
      {
        SortedKeysComplete(attrs, p, 0, keys[i]);
        var num := pool.attribToNum[Attribute(keys[i], attrs[keys[i]])];
        assert keys[i..][1..] == keys[i + 1..];
        NumbersNext(attrs, keys[i..], p);
        ghost var rest := Encode(Numbers(attrs, keys[i + 1..], p));
        assert s + ("*" + NumToString(num) + rest) == s + ("*" + NumToString(num)) + rest;
        s := s + ("*" + NumToString(num));
      }
      assert keys[|keys|..] == [] && s + "" == s;
      NoNumbers(attrs, p);
      StringSorted(attrs, p);
    }
  }

  lemma {:induction false} GoodCovers(m: AttribMap, p: Pool)
    requires Good(p) && forall k :: k in m ==> Trim(k) == k && Trim(m[k]) == m[k]
    requires forall k :: k in m ==> Attribute(k, m[k]) in p.attribToNum
    ensures p.Consistent() && Covers(p, m)
  {
    hide Trim;
  }

  lemma {:induction false} NoNumbers(m: AttribMap, p: Pool)
    ensures Encode(Numbers(m, [], p)) == ""
  {}

  lemma {:induction false} NumbersNext(m: AttribMap, ks: seq<string>, p: Pool)
    requires p.Consistent() && ks != [] && ks[0] in m && Attribute(ks[0], m[ks[0]]) in p.attribToNum
    ensures var n := p.attribToNum[Attribute(ks[0], m[ks[0]])];
            n >= 0 && Encode(Numbers(m, ks, p)) == "*" + NumToString(n) + Encode(Numbers(m, ks[1..], p))
  {
    hide NumToString;
    var n, rest := p.attribToNum[Attribute(ks[0], m[ks[0]])], Numbers(m, ks[1..], p);
    assert Numbers(m, ks, p) == [n] + rest && ([n] + rest)[1..] == rest;
  }
}
