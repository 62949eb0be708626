/** The header store of the chain database: headers keyed by hash, each naming its
    parent, and the canonical map from block number to hash.

    A hash is modelled as the number its 32 bytes denote; a header carries its own
    hash. `ParentOf` is the database read the code performs everywhere: it looks a
    parent up under (parent hash, number - 1), so a hit is always one number lower. The
    cache in front of that read is keyed by hash alone and would also answer under a wrong
    number; callers pass pairs that belong together, for which the two agree. The walk
    below number 0 would be keyed by 2^64 - 1 and finds nothing. */
module Chain {
  import opened Wrappers

  type Hash = int
  type Store = map<Hash, Header>
  type Canon = map<nat, Hash>

  /** What an absent hash reads as. */
  const ZERO: Hash := 0

  datatype Header = Header(
    hash: Hash, parentHash: Hash, number: nat, root: Hash,
    difficulty: nat, time: nat, coinbase: nat)

  /** Hashes identify headers: `world` names the one header behind each hash, and the
      zero hash names none. */
  type World = Hash -> Header

  predicate Genuine(world: World, h: Header) {
    h.hash != ZERO && world(h.hash) == h
  }

  ghost predicate GenuineStore(world: World, store: Store) {
    forall x | x in store :: store[x] == world(x)
  }

  predicate Keyed(store: Store) {
    forall h | h in store :: store[h].hash == h
  }

  predicate Stored(store: Store, h: Header) {
    h.hash in store && store[h.hash] == h
  }

  function GetHeader(store: Store, hash: Hash, number: nat): Option<Header> {
    if hash in store && store[hash].number == number then Some(store[hash]) else None
  }

  function ParentOf(store: Store, h: Header): Option<Header> {
    if h.number == 0 then None else GetHeader(store, h.parentHash, h.number - 1)
  }

  /** The plain parent walk: the header number `n` on the line of `h`, if the store
      holds every header in between. This is the reference every shortcut and every
      index is compared with. */
  function AncestorAt(store: Store, h: Header, n: nat): Option<Header>
    decreases h.number
  {
    if h.number == n then Some(h)
    else if h.number < n then None
    else
      match ParentOf(store, h)
      case None => None
      case Some(p) => AncestorAt(store, p, n)
  }

  predicate IsAncestor(store: Store, a: Header, h: Header) {
    AncestorAt(store, h, a.number) == Some(a)
  }

  /** The entries of `canon` at or below `head` are exactly the line of `head`. */
  ghost predicate PathTo(store: Store, canon: Canon, head: Header) {
    forall n: nat | n <= head.number ::
      n in canon && AncestorAt(store, head, n).Some? && AncestorAt(store, head, n).value.hash == canon[n]
  }

  /** The canonical map is exactly the line of `head`: nothing missing, nothing above. */
  ghost predicate Canonical(store: Store, canon: Canon, head: Header) {
    PathTo(store, canon, head) && forall n | n in canon :: n <= head.number
  }

  /** No gaps: deletion loops that stop at the first missing number rely on this. */
  ghost predicate Contiguous(canon: Canon) {
    forall n, m: nat | n in canon && m <= n :: m in canon
  }

  /** Every entry names a stored header of its number. */
  ghost predicate Names(store: Store, canon: Canon) {
    forall n | n in canon :: GetHeader(store, canon[n], n).Some?
  }

  /** The entries at or below `number`. */
  function Truncated(canon: Canon, number: nat): Canon {
    map n | n in canon && n <= number :: canon[n]
  }

  predicate Rooted(store: Store, genesis: Header, h: Header) {
    if h.number == 0 then h == genesis else ParentOf(store, h).Some?
  }

  /** Every stored header has its parent stored, one number lower, down to one genesis,
      whose own parent hash is the zero hash that names nothing. */
  ghost predicate ParentClosed(store: Store, genesis: Header) {
    && Keyed(store) && ZERO !in store
    && genesis.number == 0 && genesis.parentHash == ZERO && Stored(store, genesis)
    && forall h {:trigger Rooted(store, genesis, store[h])} | h in store :: Rooted(store, genesis, store[h])
  }

  /** Walking on from an ancestor continues the same line. */
  lemma {:induction false} AncestorTransitive(store: Store, h: Header, m: nat, n: nat)
    requires n <= m && AncestorAt(store, h, m).Some?
    ensures AncestorAt(store, h, n) == AncestorAt(store, AncestorAt(store, h, m).value, n)
    decreases h.number
  {
    if h.number != m {
      AncestorTransitive(store, ParentOf(store, h).value, m, n);
    }
  }

  lemma {:induction false} AncestorNumber(store: Store, h: Header, n: nat)
    ensures AncestorAt(store, h, n).Some? ==> AncestorAt(store, h, n).value.number == n && n <= h.number
    ensures AncestorAt(store, h, n).Some? && Stored(store, h) && Keyed(store) ==> Stored(store, AncestorAt(store, h, n).value)
    decreases h.number
  {
    if h.number > n && ParentOf(store, h).Some? {
      AncestorNumber(store, ParentOf(store, h).value, n);
    }
  }

  /** A gap in the line hides everything below it. */
  lemma {:induction false} AncestorGap(store: Store, h: Header, m: nat, n: nat)
    requires n <= m <= h.number && AncestorAt(store, h, m).None?
    ensures AncestorAt(store, h, n).None?
    decreases h.number
  {
    if ParentOf(store, h).Some? {
      AncestorGap(store, ParentOf(store, h).value, m, n);
    }
  }

  /** One step further down is the parent of the step before. */
  lemma AncestorStep(store: Store, h: Header, n: nat)
    requires AncestorAt(store, h, n + 1).Some?
    ensures AncestorAt(store, h, n) == ParentOf(store, AncestorAt(store, h, n + 1).value)
  {
    AncestorTransitive(store, h, n + 1, n);
    AncestorNumber(store, h, n + 1);
    var a := AncestorAt(store, h, n + 1).value;
    if ParentOf(store, a).Some? {
      assert AncestorAt(store, ParentOf(store, a).value, n) == Some(ParentOf(store, a).value);
    }
  }

  /** The walk depends only on what the store holds below its starting point. */
  lemma {:induction false} AncestorFrame(store: Store, store': Store, h: Header, n: nat)
    requires forall x: Hash, k: nat | k < h.number :: GetHeader(store, x, k) == GetHeader(store', x, k)
    ensures AncestorAt(store, h, n) == AncestorAt(store', h, n)
    decreases h.number
  {
    if h.number > n {
      assert ParentOf(store, h) == ParentOf(store', h);
      if ParentOf(store, h).Some? {
        AncestorFrame(store, store', ParentOf(store, h).value, n);
      }
    }
  }

  /** Adding headers never changes a walk that already succeeded. */
  lemma {:induction false} AncestorGrows(store: Store, store': Store, h: Header, n: nat)
    requires forall x | x in store :: x in store' && store'[x] == store[x]
    requires AncestorAt(store, h, n).Some?
    ensures AncestorAt(store', h, n) == AncestorAt(store, h, n)
    decreases h.number
  {
    if h.number > n {
      AncestorGrows(store, store', ParentOf(store, h).value, n);
    }
  }

  /** In a parent-closed store every line is complete down to genesis. */
  lemma {:induction false} ClosedLine(store: Store, genesis: Header, h: Header, n: nat)
    requires ParentClosed(store, genesis) && Stored(store, h) && n <= h.number
    ensures AncestorAt(store, h, n).Some? && Stored(store, AncestorAt(store, h, n).value)
    ensures AncestorAt(store, h, n).value.number == n
    ensures n == 0 ==> AncestorAt(store, h, n).value == genesis
    decreases h.number
  {
    assert Rooted(store, genesis, store[h.hash]);
    if h.number > n {
      ClosedLine(store, genesis, ParentOf(store, h).value, n);
    }
  }

  /** A path to a header is a path to each of its ancestors. */
  lemma PathToAncestor(store: Store, canon: Canon, head: Header, a: Header)
    requires PathTo(store, canon, head) && IsAncestor(store, a, head)
    ensures PathTo(store, canon, a)
  {
    AncestorNumber(store, head, a.number);
    forall n: nat | n <= a.number
      ensures n in canon && AncestorAt(store, a, n).Some? && AncestorAt(store, a, n).value.hash == canon[n]
    {
      AncestorTransitive(store, head, a.number, n);
      assert n <= head.number;
    }
  }

  /** Writing a child on top of its parent's path gives the child's path. */
  lemma PathToChild(store: Store, canon: Canon, parent: Header, child: Header)
    requires ParentOf(store, child) == Some(parent)
    requires PathTo(store, canon, parent)
    ensures PathTo(store, canon[child.number := child.hash], child)
  {
    forall n: nat | n <= child.number
      ensures n in canon[child.number := child.hash]
      ensures AncestorAt(store, child, n).Some?
      ensures AncestorAt(store, child, n).value.hash == canon[child.number := child.hash][n]
    {
      if n < child.number {
        assert AncestorAt(store, child, n) == AncestorAt(store, parent, n);
      }
    }
  }

  /** Storing more headers keeps every path. */
  lemma PathToGrows(store: Store, store': Store, canon: Canon, head: Header)
    requires PathTo(store, canon, head)
    requires forall x | x in store :: x in store' && store'[x] == store[x]
    ensures PathTo(store', canon, head)
  {
    forall n: nat | n <= head.number
      ensures n in canon && AncestorAt(store', head, n).Some? && AncestorAt(store', head, n).value.hash == canon[n]
    {
      AncestorGrows(store, store', head, n);
    }
  }

  /** An exact map only names stored headers. */
  lemma CanonicalNames(store: Store, canon: Canon, head: Header)
    requires Keyed(store) && Stored(store, head) && Canonical(store, canon, head)
    ensures Names(store, canon)
  {
    forall n | n in canon
      ensures GetHeader(store, canon[n], n).Some?
    {
      AncestorNumber(store, head, n);
      assert n <= head.number;
    }
  }

  /** A stored header that the canonical map names is an ancestor of the head. */
  lemma CanonicalIsAncestor(store: Store, canon: Canon, head: Header, h: Header)
    requires Keyed(store) && Canonical(store, canon, head) && Stored(store, head) && Stored(store, h)
    requires h.number in canon && canon[h.number] == h.hash
    ensures IsAncestor(store, h, head)
  {
    AncestorNumber(store, head, h.number);
    assert h.number <= head.number;
  }

  /** Entries above the head do not matter for the path to it. */
  lemma PathToCongruence(store: Store, canon: Canon, canon': Canon, head: Header)
    requires PathTo(store, canon, head)
    requires forall n: nat | n <= head.number && n in canon :: n in canon' && canon'[n] == canon[n]
    ensures PathTo(store, canon', head)
  {
  }

  /** Entry `n + 1` names a stored header whose parent is entry `n`. */
  predicate LinkAt(store: Store, canon: Canon, n: nat) {
    && n in canon && n + 1 in canon
    && GetHeader(store, canon[n], n).Some?
    && GetHeader(store, canon[n + 1], n + 1).Some?
    && GetHeader(store, canon[n + 1], n + 1).value.parentHash == canon[n]
  }

  /** The linked form of the invariant, one entry at a time. */
  ghost predicate Linked(store: Store, canon: Canon, head: Header) {
    && head.number in canon && canon[head.number] == head.hash
    && forall n: nat | n < head.number :: LinkAt(store, canon, n)
  }

  /** Being the ancestor path is the same as every entry linking to the one below. */
  lemma {:induction false} PathIsLinked(store: Store, canon: Canon, head: Header)
    requires Keyed(store) && Stored(store, head)
    ensures PathTo(store, canon, head) <==> Linked(store, canon, head)
    decreases head.number
  {
    if PathTo(store, canon, head) {
      assert AncestorAt(store, head, head.number) == Some(head);
      forall n: nat | n < head.number
        ensures LinkAt(store, canon, n)
      {
        AncestorStep(store, head, n);
        AncestorNumber(store, head, n);
        AncestorNumber(store, head, n + 1);
      }
    }
    if Linked(store, canon, head) {
      if head.number == 0 {
        assert AncestorAt(store, head, 0) == Some(head);
      } else {
        assert LinkAt(store, canon, head.number - 1);
        var parent := store[canon[head.number - 1]];
        PathIsLinked(store, canon, parent);
        PathToChild(store, canon, parent, head);
        assert canon[head.number := head.hash] == canon;
      }
    }
  }
}
