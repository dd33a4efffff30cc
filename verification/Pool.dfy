/** The attribute pool: a numbering of (key, value) attributes, lib/apool/APool.go. */
module Pools {

  datatype Attribute = Attribute(key: string, value: string)

  datatype Pool = Pool(numToAttrib: map<int, Attribute>, attribToNum: map<Attribute, int>, nextNum: int)
  {
    /** The two maps are inverse bijections between the attributes and 0..nextNum-1. */
    ghost predicate Consistent() {
      && 0 <= nextNum
      && (forall n :: n in numToAttrib <==> 0 <= n < nextNum)
      && (forall n :: n in numToAttrib ==> numToAttrib[n] in attribToNum && attribToNum[numToAttrib[n]] == n)
      && (forall a :: a in attribToNum ==> attribToNum[a] in numToAttrib && numToAttrib[attribToNum[a]] == a)
    }

    /** The pool with `a` in it, and the number of `a`. */
    function Put(a: Attribute): (r: (Pool, int))
      ensures Consistent() ==> r.0.Consistent() && r.1 in r.0.numToAttrib && r.0.numToAttrib[r.1] == a
    {
      if a in attribToNum then (this, attribToNum[a])
      else (Pool(numToAttrib[nextNum := a], attribToNum[a := nextNum], nextNum + 1), nextNum)
    }
  }

  const EMPTY_POOL := Pool(map[], map[], 0)
}
