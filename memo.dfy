/**
 * The memoising wrapper `cache(fn)`: calls with an argument list already seen return the
 * stored result; otherwise fn runs once and its result is stored.  Nothing is ever removed.
 * The serialisation JSON.stringify(args) is the input `key`.
 */
module Memo {

  /** The closure cache(fn) returns, with its private map. */
  class Cache<A(==), V> {
    const fn: A -> V
    const key: A -> string
    var store: map<string, V>
    /** The argument lists fn has been run on, in order. */
    ghost var calls: seq<A>

    /**
     * fn ran exactly once for each stored key, and the stored value is the result of that run.
     */
    ghost predicate Valid()
      reads this
    {
      (forall i, j :: 0 <= i < j < |calls| ==> key(calls[i]) != key(calls[j])) &&
      (forall i :: 0 <= i < |calls| ==> key(calls[i]) in store && store[key(calls[i])] == fn(calls[i])) &&
      (forall k :: k in store ==> exists i :: 0 <= i < |calls| && key(calls[i]) == k)
    }

    /** cache(fn): an empty map. */
    constructor (fn: A -> V, key: A -> string)
      ensures this.fn == fn && this.key == key && store == map[] && calls == []
      ensures Valid()
    {
      this.fn := fn;
      this.key := key;
      store := map[];
      calls := [];
    }

    /**
     * A call of the returned closure: a hit returns the stored value and runs nothing; a miss
     * runs fn once, stores its result and returns it.  A stored entry is never changed.
     */
    method Call(args: A) returns (r: V)
      requires Valid()
      modifies this
      ensures Valid()
      ensures key(args) in old(store) ==> r == old(store)[key(args)] && store == old(store) && calls == old(calls)
      ensures key(args) !in old(store) ==>
                r == fn(args) && store == old(store)[key(args) := r] && calls == old(calls) + [args]
      ensures forall k :: k in old(store) ==> k in store && store[k] == old(store)[k]
      ensures key(args) in store && store[key(args)] == r
      ensures (forall x, y :: key(x) == key(y) ==> x == y) ==> r == fn(args)
    {
      var k := key(args);
      if k in store {
        r := store[k];
        ghost var i :| 0 <= i < |calls| && key(calls[i]) == k;
        return;
      }
      ghost var calls0 := calls;
      r := fn(args);
      calls := calls + [args];
      store := store[k := r];
      forall k' | k' in store ensures exists i :: 0 <= i < |calls| && key(calls[i]) == k' {
        if k' == k {
          assert key(calls[|calls0|]) == k';
        } else {
          var i :| 0 <= i < |calls0| && key(calls0[i]) == k';
          assert calls[i] == calls0[i];
        }
      }
    }
  }
}
