/** The transaction lookup index: transaction hash to the number of the canonical block
    that holds it, and what a reorganisation does to it. */
module TxIndex {
  import opened Wrappers
  import opened Chain
  import opened ForkSearch

  type Bodies = map<Hash, seq<Hash>>
  type Lookup = map<Hash, nat>

  predicate TxIn(bodies: Bodies, block: Hash, tx: Hash) {
    block in bodies && tx in bodies[block]
  }

  /** Block number `n` on the line of `head` contains `tx`. */
  predicate LineTx(store: Store, bodies: Bodies, head: Header, n: nat, tx: Hash) {
    AncestorAt(store, head, n).Some? && TxIn(bodies, AncestorAt(store, head, n).value.hash, tx)
  }

  /** Each transaction occurs in at most one block of the branch. */
  ghost predicate UniqueTxs(store: Store, bodies: Bodies, head: Header) {
    forall n: nat, m: nat, tx: Hash | LineTx(store, bodies, head, n, tx) && LineTx(store, bodies, head, m, tx) :: n == m
  }

  /** The index maps exactly the transactions of the head's line to their numbers. */
  ghost predicate IndexExact(store: Store, bodies: Bodies, head: Header, lookup: Lookup) {
    forall tx: Hash, n: nat :: LineTx(store, bodies, head, n, tx) <==> Read(lookup, tx) == Some(n)
  }

  function Read(lookup: Lookup, tx: Hash): Option<nat> {
    if tx in lookup then Some(lookup[tx]) else None
  }

  /** Writes the entries of one block. */
  function IndexBlock(lookup: Lookup, number: nat, txs: seq<Hash>): Lookup {
    lookup + map tx | tx in txs :: number
  }

  /** The elements of `a` that do not occur in `b`, in order. */
  function HashDifference(a: seq<Hash>, b: seq<Hash>): (r: seq<Hash>)
    ensures forall x :: x in r <==> x in a && x !in b
  {
    if a == [] then []
    else if a[0] in b then HashDifference(a[1..], b)
    else [a[0]] + HashDifference(a[1..], b)
  }

  /** The number of the first block of `chain` that contains `tx`. */
  function NumberIn(bodies: Bodies, chain: seq<Header>, tx: Hash): Option<nat> {
    if chain == [] then None
    else if TxIn(bodies, chain[0].hash, tx) then Some(chain[0].number)
    else NumberIn(bodies, chain[1..], tx)
  }

  function Tail<T>(s: seq<T>): seq<T> {
    if s == [] then [] else s[1..]
  }

  /** What a lookup reads after `reorg` and before its caller writes the new head: the
      new blocks below the head are indexed, the dropped ones forgotten. */
  function LookupAfter(bodies: Bodies, f: Fork, lookup: Lookup, tx: Hash): Option<nat> {
    match NumberIn(bodies, Tail(f.newChain), tx)
    case Some(n) => Some(n)
    case None => if NumberIn(bodies, f.oldChain, tx).Some? then None else Read(lookup, tx)
  }

  lemma {:induction false} NumberInWitness(bodies: Bodies, chain: seq<Header>, tx: Hash) returns (i: nat)
    requires NumberIn(bodies, chain, tx).Some?
    ensures i < |chain| && TxIn(bodies, chain[i].hash, tx) && NumberIn(bodies, chain, tx) == Some(chain[i].number)
  {
    if TxIn(bodies, chain[0].hash, tx) {
      i := 0;
    } else {
      var j := NumberInWitness(bodies, chain[1..], tx);
      i := j + 1;
    }
  }

  lemma {:induction false} NumberInComplete(bodies: Bodies, chain: seq<Header>, tx: Hash, i: nat)
    requires i < |chain| && TxIn(bodies, chain[i].hash, tx)
    ensures NumberIn(bodies, chain, tx).Some?
  {
    if !TxIn(bodies, chain[0].hash, tx) {
      NumberInComplete(bodies, chain[1..], tx, i - 1);
    }
  }

  lemma {:induction false} NumberInAppend(bodies: Bodies, chain: seq<Header>, h: Header, tx: Hash)
    ensures NumberIn(bodies, chain + [h], tx).Some? <==> NumberIn(bodies, chain, tx).Some? || TxIn(bodies, h.hash, tx)
  {
    if chain == [] {
      assert chain + [h] == [h];
    } else {
      assert (chain + [h])[1..] == chain[1..] + [h];
      NumberInAppend(bodies, chain[1..], h, tx);
    }
  }

  /** A segment of a line holds a transaction exactly where the line does. */
  lemma SegmentTx(store: Store, bodies: Bodies, top: Header, chain: seq<Header>, bottom: Header, tx: Hash)
    requires Segment(store, top, chain, bottom)
    ensures forall n: nat | bottom.number < n && LineTx(store, bodies, top, n, tx) ::
              NumberIn(bodies, chain, tx).Some?
    ensures NumberIn(bodies, chain, tx).Some? ==>
              NumberIn(bodies, chain, tx).value > bottom.number
              && LineTx(store, bodies, top, NumberIn(bodies, chain, tx).value, tx)
  {
    forall n: nat | bottom.number < n && LineTx(store, bodies, top, n, tx)
      ensures NumberIn(bodies, chain, tx).Some?
    {
      AncestorNumber(store, top, n);
      var i := top.number - n;
      assert AncestorAt(store, top, top.number - i) == Some(chain[i]);
      NumberInComplete(bodies, chain, tx, i);
    }
    if NumberIn(bodies, chain, tx).Some? {
      var i := NumberInWitness(bodies, chain, tx);
      assert AncestorAt(store, top, top.number - i) == Some(chain[i]);
      AncestorNumber(store, top, top.number - i);
    }
  }

  /** Below the common block both lines hold the same transactions. */
  lemma SharedTx(store: Store, bodies: Bodies, a: Header, b: Header, common: Header, n: nat, tx: Hash)
    requires IsAncestor(store, common, a) && IsAncestor(store, common, b) && n <= common.number
    ensures LineTx(store, bodies, a, n, tx) <==> LineTx(store, bodies, b, n, tx)
  {
    AncestorTransitive(store, a, common.number, n);
    AncestorTransitive(store, b, common.number, n);
  }

  /** Everything `reorg` and the caller's head write do to one transaction's entry,
      when the new head's line holds it at most once. */
  lemma EntryAfterSwitch(
    store: Store, bodies: Bodies, oldHead: Header, newHead: Header, f: Fork, lookup: Lookup, tx: Hash, n: nat)
    requires IsFork(store, oldHead, newHead, f)
    requires IndexExact(store, bodies, oldHead, lookup)
    requires UniqueTxs(store, bodies, newHead)
    ensures LineTx(store, bodies, newHead, n, tx) <==>
            (if TxIn(bodies, newHead.hash, tx) then Some(newHead.number) else LookupAfter(bodies, f, lookup, tx)) == Some(n)
  {
    assert AncestorAt(store, newHead, newHead.number) == Some(newHead);
    AncestorNumber(store, newHead, n);
    SegmentTx(store, bodies, oldHead, f.oldChain, f.common, tx);
    SegmentTx(store, bodies, newHead, f.newChain, f.common, tx);
    AncestorNumber(store, newHead, f.common.number);
    if TxIn(bodies, newHead.hash, tx) {
      assert LineTx(store, bodies, newHead, newHead.number, tx);
    } else {
      if f.newChain != [] {
        assert AncestorAt(store, newHead, newHead.number - 0) == Some(f.newChain[0]);
        assert NumberIn(bodies, f.newChain, tx) == NumberIn(bodies, Tail(f.newChain), tx);
      }
      var born := NumberIn(bodies, Tail(f.newChain), tx);
      if born.Some? {
        assert LineTx(store, bodies, newHead, born.value, tx);
      } else {
        EntryKept(store, bodies, oldHead, newHead, f, lookup, tx, n);
      }
    }
  }

  /** The entry of a transaction that no added block holds. */
  lemma EntryKept(
    store: Store, bodies: Bodies, oldHead: Header, newHead: Header, f: Fork, lookup: Lookup, tx: Hash, n: nat)
    requires IsFork(store, oldHead, newHead, f)
    requires IndexExact(store, bodies, oldHead, lookup)
    requires NumberIn(bodies, f.newChain, tx).None?
    ensures LineTx(store, bodies, newHead, n, tx) <==>
            (if NumberIn(bodies, f.oldChain, tx).Some? then None else Read(lookup, tx)) == Some(n)
  {
    SegmentTx(store, bodies, oldHead, f.oldChain, f.common, tx);
    SegmentTx(store, bodies, newHead, f.newChain, f.common, tx);
    if n <= f.common.number {
      SharedTx(store, bodies, oldHead, newHead, f.common, n, tx);
    }
    assert LineTx(store, bodies, oldHead, n, tx) <==> Read(lookup, tx) == Some(n);
    var gone := NumberIn(bodies, f.oldChain, tx);
    if gone.Some? {
      assert LineTx(store, bodies, oldHead, gone.value, tx);
      assert Read(lookup, tx) == Some(gone.value);
    }
  }

  /** The headline: after a switch the index is exact for the new head. */
  lemma SwitchKeepsIndexExact(
    store: Store, bodies: Bodies, oldHead: Header, newHead: Header, f: Fork, lookup: Lookup, lookup': Lookup)
    requires IsFork(store, oldHead, newHead, f)
    requires IndexExact(store, bodies, oldHead, lookup)
    requires UniqueTxs(store, bodies, newHead)
    requires forall tx: Hash ::
      Read(lookup', tx) == if TxIn(bodies, newHead.hash, tx) then Some(newHead.number) else LookupAfter(bodies, f, lookup, tx)
    ensures IndexExact(store, bodies, newHead, lookup')
  {
    forall tx: Hash, n: nat
      ensures LineTx(store, bodies, newHead, n, tx) <==> Read(lookup', tx) == Some(n)
    {
      EntryAfterSwitch(store, bodies, oldHead, newHead, f, lookup, tx, n);
    }
  }

  /** Appending a child: only its own transactions are new. */
  lemma ExtendKeepsIndexExact(
    store: Store, bodies: Bodies, head: Header, child: Header, lookup: Lookup, lookup': Lookup)
    requires ParentOf(store, child) == Some(head)
    requires IndexExact(store, bodies, head, lookup)
    requires UniqueTxs(store, bodies, child)
    requires forall tx: Hash ::
      Read(lookup', tx) == if TxIn(bodies, child.hash, tx) then Some(child.number) else Read(lookup, tx)
    ensures IndexExact(store, bodies, child, lookup')
  {
    assert AncestorAt(store, child, child.number) == Some(child);
    forall tx: Hash, n: nat
      ensures LineTx(store, bodies, child, n, tx) <==> Read(lookup', tx) == Some(n)
    {
      AncestorNumber(store, child, n);
      AncestorNumber(store, head, n);
      assert LineTx(store, bodies, head, n, tx) <==> Read(lookup, tx) == Some(n);
      if TxIn(bodies, child.hash, tx) {
        assert LineTx(store, bodies, child, child.number, tx);
      }
    }
  }

  /** No stored branch holds a transaction twice. */
  ghost predicate AllUnique(store: Store, bodies: Bodies) {
    forall h | h in store :: UniqueTxs(store, bodies, store[h])
  }

  /** Stored blocks keep their place and their body when more are stored. */
  ghost predicate Grows(store: Store, bodies: Bodies, store': Store, bodies': Bodies) {
    && (forall x | x in store :: x in store' && store'[x] == store[x])
    && (forall x | x in store :: (x in bodies <==> x in bodies') && (x in bodies ==> bodies'[x] == bodies[x]))
  }

  lemma LineTxGrows(
    store: Store, bodies: Bodies, store': Store, bodies': Bodies, genesis: Header, head: Header, n: nat, tx: Hash)
    requires Grows(store, bodies, store', bodies') && ParentClosed(store, genesis) && Stored(store, head)
    ensures LineTx(store, bodies, head, n, tx) <==> LineTx(store', bodies', head, n, tx)
  {
    AncestorNumber(store', head, n);
    if n <= head.number {
      ClosedLine(store, genesis, head, n);
      AncestorGrows(store, store', head, n);
    }
  }

  lemma IndexGrows(
    store: Store, bodies: Bodies, store': Store, bodies': Bodies, genesis: Header, head: Header, lookup: Lookup)
    requires Grows(store, bodies, store', bodies') && ParentClosed(store, genesis) && Stored(store, head)
    requires IndexExact(store, bodies, head, lookup)
    ensures IndexExact(store', bodies', head, lookup)
  {
    forall tx: Hash, n: nat
      ensures LineTx(store', bodies', head, n, tx) <==> Read(lookup, tx) == Some(n)
    {
      LineTxGrows(store, bodies, store', bodies', genesis, head, n, tx);
    }
  }

  lemma UniqueShrinks(store: Store, bodies: Bodies, store': Store, bodies': Bodies, genesis: Header)
    requires Grows(store, bodies, store', bodies') && ParentClosed(store, genesis)
    requires AllUnique(store', bodies')
    ensures AllUnique(store, bodies)
  {
    forall h, n: nat, m: nat, tx: Hash |
      h in store && LineTx(store, bodies, store[h], n, tx) && LineTx(store, bodies, store[h], m, tx)
      ensures n == m
    {
      LineTxGrows(store, bodies, store', bodies', genesis, store[h], n, tx);
      LineTxGrows(store, bodies, store', bodies', genesis, store[h], m, tx);
      assert UniqueTxs(store', bodies', store'[h]);
    }
  }
}
