/** What switching the head to another branch does, as functions of the tables: the head
    writes of the new blocks below the head, then the purge of what the old branch left. */
module Switch {
  import opened Wrappers
  import opened Chain
  import opened ForkSearch
  import opened TxIndex

  /** Where a transaction sits: block hash and number. */
  datatype TxPlace = TxPlace(block: Hash, number: nat)

  /** A cached place is still canonical and really holds the transaction. */
  ghost predicate CacheExact(canon: Canon, bodies: Bodies, cache: map<Hash, TxPlace>) {
    forall tx | tx in cache ::
      cache[tx].number in canon && canon[cache[tx].number] == cache[tx].block && TxIn(bodies, cache[tx].block, tx)
  }

  /** A record of one head write: the head, and the header store and canonical map right
      after it. */
  datatype HeadWrite = HeadWrite(head: Header, store: Store, canon: Canon)

  /** At every recorded head write the entries at or below the new head were already its
      ancestors. */
  ghost predicate GoodWrites(writes: seq<HeadWrite>) {
    forall i | 0 <= i < |writes| :: PathTo(writes[i].store, writes[i].canon, writes[i].head)
  }

  lemma GoodWritesJoin(a: seq<HeadWrite>, b: seq<HeadWrite>)
    requires GoodWrites(b)
    ensures GoodWrites(a) ==> GoodWrites(a + b)
  {
  }

  function BodyOf(bodies: Bodies, hash: Hash): seq<Hash> {
    if hash in bodies then bodies[hash] else []
  }

  // The blocks of `chain` are written from its end, the lowest, to its front.

  function CanonWith(canon: Canon, chain: seq<Header>): Canon {
    if chain == [] then canon else CanonWith(canon, chain[1..])[chain[0].number := chain[0].hash]
  }

  function LookupWith(lookup: Lookup, bodies: Bodies, chain: seq<Header>): Lookup {
    if chain == [] then lookup
    else IndexBlock(LookupWith(lookup, bodies, chain[1..]), chain[0].number, BodyOf(bodies, chain[0].hash))
  }

  function TxsWith(bodies: Bodies, chain: seq<Header>): seq<Hash> {
    if chain == [] then [] else TxsWith(bodies, chain[1..]) + BodyOf(bodies, chain[0].hash)
  }

  function LogWith(store: Store, canon: Canon, chain: seq<Header>): seq<HeadWrite> {
    if chain == [] then []
    else LogWith(store, canon, chain[1..]) + [HeadWrite(chain[0], store, CanonWith(canon, chain))]
  }

  lemma {:induction false} LookupWithReads(lookup: Lookup, bodies: Bodies, chain: seq<Header>, tx: Hash)
    ensures Read(LookupWith(lookup, bodies, chain), tx) ==
            if NumberIn(bodies, chain, tx).Some? then NumberIn(bodies, chain, tx) else Read(lookup, tx)
  {
    if chain != [] {
      LookupWithReads(lookup, bodies, chain[1..], tx);
    }
  }

  lemma {:induction false} TxsWithMembers(bodies: Bodies, chain: seq<Header>, tx: Hash)
    ensures tx in TxsWith(bodies, chain) <==> NumberIn(bodies, chain, tx).Some?
  {
    if chain != [] {
      TxsWithMembers(bodies, chain[1..], tx);
    }
  }

  /** The block below position `i` of a segment. */
  function Below(chain: seq<Header>, bottom: Header, i: nat): Header {
    if i < |chain| then chain[i] else bottom
  }

  /** Writing the segment upwards from a path to its bottom gives, at each step, the path
      to the block just written. */
  lemma {:induction false} CanonWithPath(
    store: Store, top: Header, chain: seq<Header>, bottom: Header, canon: Canon, i: nat)
    requires Keyed(store) && Stored(store, top) && Segment(store, top, chain, bottom) && i <= |chain|
    requires PathTo(store, canon, bottom) && Contiguous(canon)
    ensures PathTo(store, CanonWith(canon, chain[i..]), Below(chain, bottom, i))
    ensures Contiguous(CanonWith(canon, chain[i..]))
    ensures GoodWrites(LogWith(store, canon, chain[i..]))
    decreases |chain| - i
  {
    if i < |chain| {
      CanonWithPath(store, top, chain, bottom, canon, i + 1);
      SegmentLink(store, top, chain, bottom, i);
      assert chain[i..][1..] == chain[i + 1..];
      PathToChild(store, CanonWith(canon, chain[i + 1..]), Below(chain, bottom, i + 1), chain[i]);
    }
  }

  /** The block the canonical map ends in after `reorg`, before the caller's head write:
      the new head itself if it was already on the line, else its parent. */
  function AttachPoint(f: Fork, newHead: Header): Header {
    if f.newChain == [] then newHead else Below(f.newChain, f.common, 1)
  }

  function PurgedLookup(lookup: Lookup, deleted: seq<Hash>, reborn: seq<Hash>): Lookup {
    lookup - (set tx | tx in HashDifference(deleted, reborn))
  }

  /** What the head writes and the purge build: exactly the line of the attach point, with
      every intermediate head write sound, ready for the new head on top. */
  ghost predicate ReorgBuilds(store: Store, canon: Canon, newHead: Header, f: Fork) {
    var attach := AttachPoint(f, newHead);
    && Canonical(store, Truncated(CanonWith(canon, Tail(f.newChain)), attach.number), attach)
    && Contiguous(CanonWith(canon, Tail(f.newChain)))
    && GoodWrites(LogWith(store, canon, Tail(f.newChain)))
    && (f.newChain == [] ==> newHead == f.common)
    && (f.newChain != [] ==> ParentOf(store, newHead) == Some(attach))
  }

  /** So it is from any state whose map is the old head's line up to the old head, whatever
      entries lay above. */
  lemma ReorgCanon(store: Store, canon: Canon, oldHead: Header, newHead: Header, f: Fork)
    requires Keyed(store) && Stored(store, newHead) && IsFork(store, oldHead, newHead, f)
    requires PathTo(store, canon, oldHead) && Contiguous(canon)
    ensures ReorgBuilds(store, canon, newHead, f)
  {
    PathToAncestor(store, canon, oldHead, f.common);
    var i := if f.newChain == [] then 0 else 1;
    assert f.newChain[i..] == Tail(f.newChain);
    CanonWithPath(store, newHead, f.newChain, f.common, canon, i);
    var written := CanonWith(canon, Tail(f.newChain));
    PathToCongruence(store, written, Truncated(written, AttachPoint(f, newHead).number), AttachPoint(f, newHead));
    if f.newChain != [] {
      SegmentLink(store, newHead, f.newChain, f.common, 0);
      assert AncestorAt(store, newHead, newHead.number - 0) == Some(f.newChain[0]);
    }
  }

  /** After `reorg` each lookup reads what the specification of the index says. */
  lemma ReorgLookup(lookup: Lookup, bodies: Bodies, f: Fork, deleted: seq<Hash>, tx: Hash)
    requires tx in deleted <==> NumberIn(bodies, f.oldChain, tx).Some?
    ensures Read(PurgedLookup(LookupWith(lookup, bodies, Tail(f.newChain)), deleted, TxsWith(bodies, Tail(f.newChain))), tx)
            == LookupAfter(bodies, f, lookup, tx)
  {
    LookupWithReads(lookup, bodies, Tail(f.newChain), tx);
    TxsWithMembers(bodies, Tail(f.newChain), tx);
  }

  lemma ReorgLookups(lookup: Lookup, bodies: Bodies, f: Fork, deleted: seq<Hash>, lookup': Lookup)
    requires forall tx :: tx in deleted <==> NumberIn(bodies, f.oldChain, tx).Some?
    requires lookup' == PurgedLookup(LookupWith(lookup, bodies, Tail(f.newChain)), deleted, TxsWith(bodies, Tail(f.newChain)))
    ensures forall tx :: Read(lookup', tx) == LookupAfter(bodies, f, lookup, tx)
  {
    forall tx: Hash
      ensures Read(lookup', tx) == LookupAfter(bodies, f, lookup, tx)
    {
      ReorgLookup(lookup, bodies, f, deleted, tx);
    }
  }

  /** The caller's head write completes what `reorg` left. */
  lemma AttachThenHead(store: Store, canon: Canon, f: Fork, newHead: Header)
    requires Canonical(store, canon, AttachPoint(f, newHead))
    requires f.newChain != [] ==> ParentOf(store, newHead) == Some(AttachPoint(f, newHead))
    ensures Canonical(store, canon[newHead.number := newHead.hash], newHead)
    ensures Contiguous(canon[newHead.number := newHead.hash])
  {
    if f.newChain == [] {
      assert AncestorAt(store, newHead, newHead.number) == Some(newHead);
      assert canon[newHead.number := newHead.hash] == canon;
    } else {
      PathToChild(store, canon, AttachPoint(f, newHead), newHead);
    }
  }

  /** Canonical map, index and cache are exactly those of `head`; the index as long as no
      stored branch repeats a transaction. */
  ghost predicate ExactFor(
    store: Store, bodies: Bodies, canon: Canon, lookup: Lookup, cache: map<Hash, TxPlace>, head: Header)
  {
    && Canonical(store, canon, head)
    && (AllUnique(store, bodies) ==> IndexExact(store, bodies, head, lookup))
    && CacheExact(canon, bodies, cache)
  }

  /** What moving the head from `oldHead` to `newHead` achieves. After a reorganisation the
      canonical map is exactly the new line, whatever lay above the old head; a plain
      extension only adds an entry, so it is exact if and only if nothing lay above. From
      an exact state the index is exact again. A reorganisation empties the cache; under an
      extension an exact cache stays exact if and only if it names no other block at the new
      number. */
  ghost predicate HeadMoved(
    store: Store, bodies: Bodies, oldHead: Header, canon: Canon, lookup: Lookup, cache: map<Hash, TxPlace>,
    newHead: Header, canon': Canon, lookup': Lookup, cache': map<Hash, TxPlace>)
  {
    && PathTo(store, canon', newHead) && Contiguous(canon') && Names(store, canon')
    && (newHead.parentHash != oldHead.hash ==> Canonical(store, canon', newHead))
    && (newHead.parentHash == oldHead.hash ==>
          (Canonical(store, canon', newHead) <==> forall n | n in canon :: n <= newHead.number))
    && (Canonical(store, canon, oldHead) && IndexExact(store, bodies, oldHead, lookup) && UniqueTxs(store, bodies, newHead) ==>
          IndexExact(store, bodies, newHead, lookup'))
    && (CacheExact(canon, bodies, cache) ==>
          (CacheExact(canon', bodies, cache') <==> newHead.parentHash != oldHead.hash || NoStalePlace(cache, newHead)))
  }

  /** No cached place at the number of `head` names another block. An extension does not
      purge the cache, so this is what keeps it exact. */
  predicate NoStalePlace(cache: map<Hash, TxPlace>, head: Header) {
    forall tx | tx in cache && cache[tx].number == head.number :: cache[tx].block == head.hash
  }

  /** One entry more keeps the cache exact exactly when no cached place is overwritten. */
  lemma CacheUnderExtension(bodies: Bodies, canon: Canon, cache: map<Hash, TxPlace>, newHead: Header)
    requires CacheExact(canon, bodies, cache)
    ensures CacheExact(canon[newHead.number := newHead.hash], bodies, cache) <==> NoStalePlace(cache, newHead)
  {
    var canon' := canon[newHead.number := newHead.hash];
    if CacheExact(canon', bodies, cache) {
      forall tx | tx in cache && cache[tx].number == newHead.number ensures cache[tx].block == newHead.hash {
        assert canon'[cache[tx].number] == cache[tx].block;
      }
    }
  }

  /** With nothing above the old head there is no such place. */
  lemma CanonicalHasNoStalePlace(store: Store, bodies: Bodies, canon: Canon, cache: map<Hash, TxPlace>, oldHead: Header, newHead: Header)
    requires Canonical(store, canon, oldHead) && CacheExact(canon, bodies, cache) && newHead.number > oldHead.number
    ensures NoStalePlace(cache, newHead)
  {
  }

  /** By a reorganisation and the head write after it. */
  lemma MovedByReorg(
    store: Store, bodies: Bodies, oldHead: Header, canon: Canon, lookup: Lookup, cache: map<Hash, TxPlace>,
    newHead: Header, f: Fork, canon': Canon, lookup': Lookup, txs: seq<Hash>)
    requires Keyed(store) && Stored(store, newHead)
    requires IsFork(store, oldHead, newHead, f) && newHead.parentHash != oldHead.hash
    requires Canonical(store, canon', AttachPoint(f, newHead))
    requires f.newChain != [] ==> ParentOf(store, newHead) == Some(AttachPoint(f, newHead))
    requires forall tx :: Read(lookup', tx) == LookupAfter(bodies, f, lookup, tx)
    requires newHead.hash in bodies && bodies[newHead.hash] == txs
    ensures HeadMoved(store, bodies, oldHead, canon, lookup, cache,
                      newHead, canon'[newHead.number := newHead.hash], IndexBlock(lookup', newHead.number, txs), map[])
  {
    AttachThenHead(store, canon', f, newHead);
    CanonicalNames(store, canon'[newHead.number := newHead.hash], newHead);
    if IndexExact(store, bodies, oldHead, lookup) && UniqueTxs(store, bodies, newHead) {
      SwitchKeepsIndexExact(store, bodies, oldHead, newHead, f, lookup, IndexBlock(lookup', newHead.number, txs));
    }
  }

  /** By a head write on top of the current head. */
  lemma MovedByExtension(
    store: Store, bodies: Bodies, oldHead: Header, canon: Canon, lookup: Lookup, cache: map<Hash, TxPlace>,
    newHead: Header, txs: seq<Hash>)
    requires PathTo(store, canon, oldHead) && Contiguous(canon) && Names(store, canon) && Stored(store, newHead)
    requires ParentOf(store, newHead) == Some(oldHead) && newHead.parentHash == oldHead.hash
    requires newHead.hash in bodies && bodies[newHead.hash] == txs
    ensures HeadMoved(store, bodies, oldHead, canon, lookup, cache,
                      newHead, canon[newHead.number := newHead.hash], IndexBlock(lookup, newHead.number, txs), cache)
  {
    var canon' := canon[newHead.number := newHead.hash];
    PathToChild(store, canon, oldHead, newHead);
    assert forall n | n in canon :: n in canon';
    if CacheExact(canon, bodies, cache) {
      CacheUnderExtension(bodies, canon, cache, newHead);
    }
    if IndexExact(store, bodies, oldHead, lookup) && UniqueTxs(store, bodies, newHead) {
      ExtendKeepsIndexExact(store, bodies, oldHead, newHead, lookup, IndexBlock(lookup, newHead.number, txs));
    }
  }

  /** An exact state stays exact when the head moves to a stored block. */
  lemma ExactMoves(
    store: Store, bodies: Bodies, oldHead: Header, canon: Canon, lookup: Lookup, cache: map<Hash, TxPlace>,
    newHead: Header, canon': Canon, lookup': Lookup, cache': map<Hash, TxPlace>)
    requires HeadMoved(store, bodies, oldHead, canon, lookup, cache, newHead, canon', lookup', cache')
    requires ExactFor(store, bodies, canon, lookup, cache, oldHead)
    requires Stored(store, newHead) && (newHead.parentHash == oldHead.hash ==> newHead.number == oldHead.number + 1)
    ensures ExactFor(store, bodies, canon', lookup', cache', newHead)
  {
    if newHead.parentHash == oldHead.hash {
      CanonicalHasNoStalePlace(store, bodies, canon, cache, oldHead, newHead);
    }
  }

  /** An extension really does leave stale entries when some lay above: the head was
      rewound from block 3 to block 1 of its branch without touching the map, and is then
      extended by another block 2. */
  lemma ExtensionKeepsStaleEntries() returns (store: Store, canon: Canon, head: Header, child: Header)
    ensures PathTo(store, canon, head) && Contiguous(canon) && ParentOf(store, child) == Some(head)
    ensures !Canonical(store, canon[child.number := child.hash], child)
    ensures 2 in canon && canon[2] == 12 && child.number == 2 && child.hash == 22
  {
    var genesis := Header(10, ZERO, 0, 0, 1, 0, 0);
    head := Header(11, 10, 1, 0, 1, 0, 0);
    var old2, old3 := Header(12, 11, 2, 0, 1, 0, 0), Header(13, 12, 3, 0, 1, 0, 0);
    child := Header(22, 11, 2, 0, 1, 0, 0);
    store := map[10 := genesis, 11 := head, 12 := old2, 13 := old3, 22 := child];
    canon := map[0 := 10, 1 := 11, 2 := 12, 3 := 13];
    assert AncestorAt(store, genesis, 0) == Some(genesis);
    assert AncestorAt(store, head, 0) == Some(genesis) && AncestorAt(store, head, 1) == Some(head);
    assert 3 in canon[child.number := child.hash];
  }

  /** And it can leave a stale place in the cache: in the same situation a transaction of the
      old block 2 was looked up before the head is extended by the other block 2. */
  lemma ExtensionKeepsStalePlaces() returns (store: Store, canon: Canon, bodies: Bodies, cache: map<Hash, TxPlace>, head: Header, child: Header)
    ensures PathTo(store, canon, head) && Contiguous(canon) && ParentOf(store, child) == Some(head)
    ensures CacheExact(canon, bodies, cache) && !CacheExact(canon[child.number := child.hash], bodies, cache)
  {
    store, canon, head, child := ExtensionKeepsStaleEntries();
    bodies, cache := map[12 := [77]], map[77 := TxPlace(12, 2)];
    assert cache[77].block != child.hash;
    CacheUnderExtension(bodies, canon, cache, child);
  }
}
