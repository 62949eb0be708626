/** The two shortcuts for finding an ancestor's hash - through the canonical map, and
    through a per-block cache - against the plain walk over parent hashes. */
module Ancestors {
  import opened Wrappers
  import opened Chain

  /** The plain walk by hash: the hash `k` generations above (hash, number), reading one
      header per generation. */
  function Walk(store: Store, hash: Hash, number: nat, k: nat): Option<Hash>
    requires k <= number
    decreases k
  {
    if k == 0 then Some(hash)
    else
      match GetHeader(store, hash, number)
      case None => None
      case Some(h) => Walk(store, h.parentHash, number - 1, k - 1)
  }

  /** On stored lines the walk by hash is the walk by header. */
  lemma {:induction false} WalkIsAncestor(store: Store, h: Header, k: nat)
    requires Keyed(store) && Stored(store, h) && k <= h.number && AncestorAt(store, h, h.number - k).Some?
    ensures Walk(store, h.hash, h.number, k) == Some(AncestorAt(store, h, h.number - k).value.hash)
    decreases k
  {
    if k > 0 {
      WalkIsAncestor(store, ParentOf(store, h).value, k - 1);
    }
  }

  /** Walking `k` generations and then one more is walking `k + 1`. */
  lemma {:induction false} WalkStep(store: Store, hash: Hash, number: nat, k: nat)
    requires k < number
    ensures Walk(store, hash, number, k + 1) ==
            (match Walk(store, hash, number, k)
             case None => None
             case Some(x) =>
               match GetHeader(store, x, number - k)
               case None => None
               case Some(h) => Some(h.parentHash))
    decreases k
  {
    if k > 0 && GetHeader(store, hash, number).Some? {
      WalkStep(store, GetHeader(store, hash, number).value.parentHash, number - 1, k - 1);
    }
  }

  lemma {:induction false} WalkGap(store: Store, hash: Hash, number: nat, k: nat, m: nat)
    requires k <= m <= number && Walk(store, hash, number, k).None?
    ensures Walk(store, hash, number, m).None?
    decreases m
  {
    if k < m {
      WalkGap(store, hash, number, k, m - 1);
      WalkStep(store, hash, number, m - 1);
    }
  }

  // ---------------------------------------------------------------------------------
  // GetAncestor
  // ---------------------------------------------------------------------------------

  /** Reading the canonical map: an absent entry reads as the zero hash. */
  function CanonicalHash(canon: Canon, number: nat): Hash {
    if number in canon then canon[number] else ZERO
  }

  predicate IsCanonical(canon: Canon, hash: Hash, number: nat) {
    CanonicalHash(canon, number) == hash
  }

  /** Only a header numbered 0 names no parent. */
  ghost predicate NoZeroParents(store: Store) {
    forall h | h in store && store[h].number > 0 :: store[h].parentHash != ZERO
  }

  lemma ClosedHasNoZeroParents(store: Store, genesis: Header)
    requires ParentClosed(store, genesis)
    ensures NoZeroParents(store)
  {
    forall h | h in store && store[h].number > 0 ensures store[h].parentHash != ZERO {
      assert Rooted(store, genesis, store[h]);
    }
  }

  /** The zero hash above the chain is the one query the shortcut takes for canonical
      although it names nothing: both sides of its comparison read as zero. */
  predicate Astray(canon: Canon, hash: Hash, number: nat, ancestor: nat) {
    hash == ZERO && number !in canon && 2 <= ancestor <= number
  }

  /** How many headers GetAncestor reads one by one: up to the first canonical one, or all
      the way. This is what its budget has to cover. */
  function StepsNeeded(store: Store, canon: Canon, hash: Hash, number: nat, ancestor: nat): nat
    requires ancestor <= number
    decreases ancestor
  {
    if ancestor == 0 || IsCanonical(canon, hash, number) then 0
    else
      match GetHeader(store, hash, number)
      case None => 1
      case Some(h) => 1 + StepsNeeded(store, canon, h.parentHash, number - 1, ancestor - 1)
  }

  /** A canonical start answers from the map. */
  lemma CanonicalWalk(store: Store, canon: Canon, head: Header, hash: Hash, number: nat, k: nat)
    requires Keyed(store) && Stored(store, head) && Canonical(store, canon, head)
    requires IsCanonical(canon, hash, number) && number in canon && k <= number
    ensures number - k in canon && Walk(store, hash, number, k) == Some(canon[number - k])
  {
    AncestorNumber(store, head, number);
    var h := AncestorAt(store, head, number).value;
    AncestorTransitive(store, head, number, number - k);
    WalkIsAncestor(store, h, k);
    assert number - k <= head.number;
  }

  /** GetAncestor: either (zero, 0) or the true ancestor; and the true one exactly when it
      exists and the budget covers the headers to be read before the canonical chain is
      met - one generation being read without any budget. Asked about the zero hash above
      the chain it answers from the canonical map instead. */
  method GetAncestor(store: Store, canon: Canon, ghost head: Header, hash: Hash, number: nat, ancestor: nat, budget: nat)
    returns (aHash: Hash, aNumber: nat, left: nat)
    requires Keyed(store) && NoZeroParents(store) && Stored(store, head) && Canonical(store, canon, head)
    ensures !Astray(canon, hash, number, ancestor) ==>
              (aHash, aNumber) == (ZERO, 0)
              || (ancestor <= number && Walk(store, hash, number, ancestor) == Some(aHash) && aNumber == number - ancestor)
    ensures !Astray(canon, hash, number, ancestor)
            && ancestor <= number && Walk(store, hash, number, ancestor).Some?
            && (ancestor == 1 || StepsNeeded(store, canon, hash, number, ancestor) <= budget) ==>
              aHash == Walk(store, hash, number, ancestor).value && aNumber == number - ancestor
              && left == budget - (if ancestor == 1 then 0 else StepsNeeded(store, canon, hash, number, ancestor))
    ensures ancestor > number || (!Astray(canon, hash, number, ancestor) && Walk(store, hash, number, ancestor).None?)
            || (ancestor != 1 && budget < StepsNeeded(store, canon, hash, number, ancestor)) ==>
              (aHash, aNumber) == (ZERO, 0)
    ensures Astray(canon, hash, number, ancestor) ==>
              (aHash, aNumber, left) == (CanonicalHash(canon, number - ancestor), number - ancestor, budget)
  {
    left := budget;
    if ancestor > number {
      return ZERO, 0, left;
    }
    if ancestor == 1 {
      var header := GetHeader(store, hash, number);
      if header.Some? {
        return header.value.parentHash, number - 1, left;
      }
      return ZERO, 0, left;
    }
    var x, n, k := hash, number, ancestor;
    while k != 0
      invariant 0 <= k <= ancestor && k <= n && n == number - (ancestor - k)
      invariant Walk(store, x, n, k) == Walk(store, hash, number, ancestor)
      invariant left == budget - (ancestor - k)
      invariant StepsNeeded(store, canon, hash, number, ancestor) == (ancestor - k) + StepsNeeded(store, canon, x, n, k)
      invariant Astray(canon, hash, number, ancestor) ==> x == hash && n == number && k == ancestor
      invariant !Astray(canon, hash, number, ancestor) ==> x != ZERO || n in canon || k == 0
      decreases k
    {
      if IsCanonical(canon, x, n) {
        if n in canon {
          CanonicalWalk(store, canon, head, x, n, k);
        }
        return CanonicalHash(canon, n - k), n - k, left;
      }
      if left == 0 {
        return ZERO, 0, left;
      }
      left := left - 1;
      k := k - 1;
      var header := GetHeader(store, x, n);
      if header.None? {
        return ZERO, 0, left;
      }
      x, n := header.value.parentHash, n - 1;
    }
    return x, n, left;
  }

  // ---------------------------------------------------------------------------------
  // GetHashFn
  // ---------------------------------------------------------------------------------

  /** What BLOCKHASH should see from inside block `ref`: the ancestor's hash by the plain
      walk, zero for the block itself, for later numbers and where the walk breaks off. */
  function UncachedHash(store: Store, ref: Header, n: nat): Hash {
    if ref.number <= n then ZERO
    else
      match Walk(store, ref.parentHash, ref.number - 1, ref.number - 1 - n)
      case None => ZERO
      case Some(h) => h
  }

  /** The closure GetHashFn returns, with the cache it grows: entry `i` is the hash `i + 1`
      generations above `ref`. */
  class HashFn {
    const store: Store
    const ref: Header
    var cache: seq<Hash>

    ghost predicate Valid()
      reads this
    {
      && |cache| <= ref.number
      && forall i | 0 <= i < |cache| :: Walk(store, ref.parentHash, ref.number - 1, i) == Some(cache[i])
    }

    constructor (store: Store, ref: Header)
      ensures this.store == store && this.ref == ref && Valid()
    {
      this.store, this.ref, cache := store, ref, [];
    }

    /** One query: whatever was asked before, the answer is the uncached one. */
    method Query(n: nat) returns (r: Hash)
      requires Valid()
      modifies this
      ensures Valid() && old(cache) <= cache
      ensures r == UncachedHash(store, ref, n)
    {
      if ref.number <= n {
        return ZERO;
      }
      if |cache| == 0 {
        cache := cache + [ref.parentHash];
      }
      var idx := ref.number - n - 1;
      if idx < |cache| {
        return cache[idx];
      }
      var lastHash, lastNumber := cache[|cache| - 1], ref.number - |cache|;
      while true
        invariant Valid() && old(cache) <= cache && cache != []
        invariant lastHash == cache[|cache| - 1] && lastNumber == ref.number - |cache| && n < lastNumber
        decreases lastNumber
      {
        var header := GetHeader(store, lastHash, lastNumber);
        WalkStep(store, ref.parentHash, ref.number - 1, |cache| - 1);
        if header.None? {
          WalkGap(store, ref.parentHash, ref.number - 1, |cache|, idx);
          break;
        }
        cache := cache + [header.value.parentHash];
        lastHash, lastNumber := header.value.parentHash, header.value.number - 1;
        if n == lastNumber {
          return lastHash;
        }
      }
      return ZERO;
    }

    /** A whole sequence of queries, in any order and with repetitions. */
    method QueryAll(ns: seq<nat>) returns (rs: seq<Hash>)
      requires Valid()
      modifies this
      ensures Valid() && |rs| == |ns|
      ensures forall i | 0 <= i < |ns| :: rs[i] == UncachedHash(store, ref, ns[i])
    {
      rs := [];
      while |rs| < |ns|
        invariant Valid() && |rs| <= |ns|
        invariant forall i | 0 <= i < |rs| :: rs[i] == UncachedHash(store, ref, ns[i])
        decreases |ns| - |rs|
      {
        var r := Query(ns[|rs|]);
        rs := rs + [r];
      }
    }
  }
}
