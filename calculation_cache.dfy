/**
 * The LRU calculation cache: a map kept in access order (the eldest entry first) that drops
 * its eldest entry once it grows past its maximum size, with every operation running under
 * one coroutine mutex.
 */
module CalculationCache {
  import opened Wrappers

  /** A suspending call either returns or stays suspended on the mutex for ever. */
  datatype Call<T> = Returned(value: T) | Blocked

  predicate Distinct<K(==)>(s: seq<K>)
  {
    forall i, j :: 0 <= i < j < |s| ==> s[i] != s[j]
  }

  /** The access order with the key taken out. */
  function Without<K(==,!new)>(s: seq<K>, k: K): (r: seq<K>)
    ensures forall x :: x in r <==> x in s && x != k
    ensures k !in s ==> r == s
    ensures Distinct(s) ==> Distinct(r) && (k in s ==> |r| == |s| - 1)
  {
    if s == [] then []
    else if s[0] == k then
      var r := Without(s[1..], k);
      assert Distinct(s) ==> k !in s[1..] && Distinct(s[1..]);
      r
    else
      var rest := Without(s[1..], k);
      assert Distinct(s) ==> Distinct(s[1..]) && s[0] !in s[1..];
      assert Distinct(s) ==> Distinct([s[0]] + rest) by {
        if Distinct(s) {
          forall i, j | 0 <= i < j < |[s[0]] + rest| ensures ([s[0]] + rest)[i] != ([s[0]] + rest)[j] {
            if i == 0 {
              assert ([s[0]] + rest)[j] == rest[j - 1] && rest[j - 1] in rest;
            } else {
              assert ([s[0]] + rest)[i] == rest[i - 1] && ([s[0]] + rest)[j] == rest[j - 1];
            }
          }
        }
      }
      [s[0]] + rest
  }

  /** An access moves the key to the most recent end. */
  function Touched<K(==,!new)>(order: seq<K>, k: K): (r: seq<K>)
    ensures Distinct(order) ==> Distinct(r)
    ensures forall x :: x in r <==> x in order || x == k
    ensures |r| > 0 && r[|r| - 1] == k
  {
    var w := Without(order, k);
    assert Distinct(order) ==> Distinct(w + [k]) by {
      if Distinct(order) {
        forall i, j | 0 <= i < j < |w + [k]| ensures (w + [k])[i] != (w + [k])[j] {
          if j == |w| {
            assert (w + [k])[i] == w[i];
          } else {
            assert (w + [k])[i] == w[i] && (w + [k])[j] == w[j];
          }
        }
      }
    }
    w + [k]
  }

  /** The access order after `put`: the key is touched, then the eldest key goes if there are too many. */
  function PutOrder<K(==,!new)>(order: seq<K>, k: K, maxSize: nat): seq<K>
  {
    var t := Touched(order, k);
    if |t| > maxSize then t[1..] else t
  }

  /** The entries after `put`: the key gets the value, then the eldest entry goes if there are too many. */
  function PutValues<K(==,!new), V>(order: seq<K>, values: map<K, V>, k: K, v: V, maxSize: nat): map<K, V>
  {
    var t := Touched(order, k);
    if |t| > maxSize then values[k := v] - {t[0]} else values[k := v]
  }

  class Cache<K(==,!new), V> {
    const maxSize: nat
    /** The keys in access order, least recently accessed first. */
    var order: seq<K>
    var values: map<K, V>
    /** Whether the mutex is held. */
    var locked: bool

    /** The access order lists each stored key once, and there are at most maxSize of them. */
    predicate Valid()
      reads this
    {
      Distinct(order) && (forall k :: k in order ==> k in values) && (forall k :: k in values ==> k in order)
      && |order| <= maxSize
    }

    constructor(maxSize: nat)
      ensures Valid() && this.maxSize == maxSize
      ensures order == [] && values == map[] && !locked
    {
      this.maxSize := maxSize;
      order := [];
      values := map[];
      locked := false;
    }

    /** `get`: the stored value, if any; a hit makes the key the most recently accessed. */
    method Get(key: K) returns (r: Call<Option<V>>)
      requires Valid()
      modifies this
      ensures Valid() && values == old(values) && locked == old(locked)
      ensures old(locked) ==> r == Blocked && order == old(order)
      ensures !old(locked) ==> r == Returned(if key in old(values) then Some(old(values)[key]) else None)
      ensures !old(locked) ==> order == if key in old(values) then Touched(old(order), key) else old(order)
    {
      if locked {
        return Blocked;
      }
      if key in values {
        order := Touched(order, key);
        return Returned(Some(values[key]));
      }
      return Returned(None);
    }

    /** `cache.put` followed by the eviction of the eldest entry, with the mutex already held. */
    method Insert(key: K, value: V) returns (previous: Option<V>)
      requires Valid()
      modifies this
      ensures Valid() && locked == old(locked)
      ensures previous == if key in old(values) then Some(old(values)[key]) else None
      ensures order == PutOrder(old(order), key, maxSize)
      ensures values == PutValues(old(order), old(values), key, value, maxSize)
    {
      previous := if key in values then Some(values[key]) else None;
      var t := Touched(order, key);
      var m := values[key := value];
      if |t| > maxSize {
        assert Distinct(t);
        forall x | x in t[1..] ensures x != t[0] {
          var i :| 0 <= i < |t[1..]| && t[1..][i] == x;
          assert t[i + 1] == x;
        }
        m := m - {t[0]};
        t := t[1..];
      }
      order := t;
      values := m;
    }

    /** `put`: the previous value of the key, once the mutex is free. */
    method Put(key: K, value: V) returns (r: Call<Option<V>>)
      requires Valid()
      modifies this
      ensures Valid() && locked == old(locked)
      ensures old(locked) ==> r == Blocked && order == old(order) && values == old(values)
      ensures !old(locked) ==> r == Returned(if key in old(values) then Some(old(values)[key]) else None)
      ensures !old(locked) ==> order == PutOrder(old(order), key, maxSize)
      ensures !old(locked) ==> values == PutValues(old(order), old(values), key, value, maxSize)
    {
      if locked {
        return Blocked;
      }
      var previous := Insert(key, value);
      return Returned(previous);
    }

    /**
     * `getOrPut` as intended: a hit returns the cached value without computing anything; a
     * miss computes the value (`called`) and stores it under the lock already held.
     */
    method GetOrPut(key: K, computed: V) returns (r: Call<V>, called: bool)
      requires Valid()
      modifies this
      ensures Valid() && locked == old(locked)
      ensures old(locked) ==> r == Blocked && !called && order == old(order) && values == old(values)
      ensures !old(locked) ==> (called <==> key !in old(values))
      ensures !old(locked) && key in old(values)
              ==> r == Returned(old(values)[key]) && values == old(values) && order == Touched(old(order), key)
      ensures !old(locked) && key !in old(values)
              ==> r == Returned(computed) && values == PutValues(old(order), old(values), key, computed, maxSize)
                  && order == PutOrder(old(order), key, maxSize)
    {
      if locked {
        return Blocked, false;
      }
      if key in values {
        order := Touched(order, key);
        return Returned(values[key]), false;
      }
      var previous := Insert(key, computed);
      return Returned(computed), true;
    }

    /**
     * `getOrPut` as written: on a miss it calls `put`, which waits for the mutex that
     * `getOrPut` itself holds, so the call never returns and the mutex stays held.
     */
    method GetOrPutAsWritten(key: K, computed: V) returns (r: Call<V>, called: bool)
      requires Valid()
      modifies this
      ensures Valid() && values == old(values)
      ensures old(locked) ==> r == Blocked && !called && locked && order == old(order)
      ensures !old(locked) && key in old(values)
              ==> r == Returned(old(values)[key]) && !called && !locked && order == Touched(old(order), key)
      ensures !old(locked) && key !in old(values) ==> r == Blocked && called && locked && order == old(order)
    {
      if locked {
        return Blocked, false;
      }
      locked := true;
      if key in values {
        order := Touched(order, key);
        locked := false;
        return Returned(values[key]), false;
      }
      var inner := Put(key, computed);
      assert inner == Blocked;
      return Blocked, true;
    }

    /** `clear`: no entry is left. */
    method Clear() returns (r: Call<()>)
      requires Valid()
      modifies this
      ensures Valid() && locked == old(locked)
      ensures old(locked) ==> r == Blocked && order == old(order) && values == old(values)
      ensures !old(locked) ==> r == Returned(()) && order == [] && values == map[]
    {
      if locked {
        return Blocked;
      }
      order := [];
      values := map[];
      return Returned(());
    }

    /** `size`: the number of entries. */
    method Size() returns (r: Call<nat>)
      requires Valid()
      ensures !locked ==> r == Returned(|values|)
      ensures locked ==> r == Blocked
    {
      if locked {
        return Blocked;
      }
      SizeOfKeys(order, values);
      return Returned(|order|);
    }
  }

  /** The number of entries is the length of the access order. */
  lemma SizeOfKeys<K(!new), V>(order: seq<K>, values: map<K, V>)
    requires Distinct(order) && forall k :: k in order <==> k in values
    ensures |values| == |order|
  {
    DistinctCard(order);
    assert values.Keys == set k | k in order;
  }

  lemma {:induction false} DistinctCard<K(!new)>(s: seq<K>)
    requires Distinct(s)
    ensures |set k | k in s| == |s|
  {
    if s != [] {
      var rest := s[1..];
      assert Distinct(rest);
      DistinctCard(rest);
      assert (set k | k in s) == (set k | k in rest) + {s[0]};
      assert s[0] !in rest;
    }
  }

  /** `put` never leaves more than maxSize entries. */
  lemma PutKeepsBound<K(!new)>(order: seq<K>, k: K, maxSize: nat)
    requires Distinct(order) && |order| <= maxSize
    ensures |PutOrder(order, k, maxSize)| <= maxSize
    ensures Distinct(PutOrder(order, k, maxSize))
  {
  }

  /**
   * A new key in a full cache evicts the least recently accessed key and nothing else: the
   * others keep their order and the new key is the most recent.
   */
  lemma EvictsEldest<K(!new)>(order: seq<K>, k: K, maxSize: nat)
    requires Distinct(order) && |order| == maxSize > 0 && k !in order
    ensures PutOrder(order, k, maxSize) == order[1..] + [k]
  {
  }

  /** Re-putting a present key evicts nothing: it only becomes the most recent. */
  lemma RePutKeepsKeys<K(!new)>(order: seq<K>, k: K, maxSize: nat)
    requires Distinct(order) && |order| <= maxSize && k in order
    ensures PutOrder(order, k, maxSize) == Without(order, k) + [k]
    ensures forall x :: x in PutOrder(order, k, maxSize) <==> x in order
  {
  }

  /** On a miss, the cache as written blocks for good: later calls never get the mutex. */
  method DeadlockExample() returns (first: Call<int>, later: Call<Option<int>>)
    ensures first == Blocked && later == Blocked
  {
    var cache := new Cache<string, int>(100);
    var called;
    first, called := cache.GetOrPutAsWritten("2+2", 4);
    later := cache.Get("2+2");
  }

  /** With the intended getOrPut, the second lookup is a hit and computes nothing. */
  method CachedExample() returns (first: Call<int>, second: Call<int>, calledAgain: bool)
    ensures first == Returned(4) && second == Returned(4) && !calledAgain
  {
    var cache := new Cache<string, int>(100);
    var called;
    first, called := cache.GetOrPut("2+2", 4);
    second, calledAgain := cache.GetOrPut("2+2", 5);
  }
}
