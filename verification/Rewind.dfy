/** The searches that pick the block a rewound chain can restart from: the newest
    ancestor whose state is still there. Both run on a parent-closed header store;
    `states` is the set of state roots the trie database can serve. */
module Rewind {
  import opened Wrappers
  import opened Chain

  /** Lowest number the hash-scheme search looks at. */
  function SearchLimit(pivot: Option<nat>, threshold: nat, head: Header): nat {
    if pivot.Some? then pivot.value
    else if head.number > threshold then head.number - threshold
    else 0
  }

  /** `a` is on the line of `head`, above genesis, within the bounds, and has state. */
  predicate Eligible(store: Store, states: set<Hash>, head: Header, low: nat, high: nat, a: Header) {
    IsAncestor(store, a, head) && 0 < a.number && low <= a.number <= high && a.root in states
  }

  /** The newest eligible ancestor, or genesis when there is none. */
  ghost predicate BestRestart(
    store: Store, genesis: Header, states: set<Hash>, head: Header, low: nat, high: nat, r: Header)
  {
    && (r == genesis || Eligible(store, states, head, low, high, r))
    && forall a | Eligible(store, states, head, low, high, a) :: a.number <= r.number
  }

  /** `k` is the highest number on the line of `head` whose block has the given root. */
  ghost predicate RootFoundAt(store: Store, head: Header, root: Hash, k: nat) {
    && AncestorAt(store, head, k).Some? && AncestorAt(store, head, k).value.root == root
    && NoRootAbove(store, head, root, k)
  }

  ghost predicate NoRootAbove(store: Store, head: Header, root: Hash, k: nat) {
    forall n: nat | k < n <= head.number && AncestorAt(store, head, n).Some? ::
      AncestorAt(store, head, n).value.root != root
  }

  /** No block numbered `low` or higher on the line of `head`, genesis aside, has the root. */
  ghost predicate NoRootFrom(store: Store, head: Header, root: Hash, low: nat) {
    forall n: nat | low <= n <= head.number && n > 0 && AncestorAt(store, head, n).Some? ::
      AncestorAt(store, head, n).value.root != root
  }

  /** Nor does any of them have state. */
  ghost predicate NoStateFrom(store: Store, head: Header, states: set<Hash>, low: nat) {
    forall n: nat | low <= n <= head.number && n > 0 && AncestorAt(store, head, n).Some? ::
      AncestorAt(store, head, n).value.root !in states
  }

  /** What a search depends on: the trie scheme, the states that can be rolled back to, the
      snap-sync pivot, the threshold, and the root that has to be passed. */
  datatype Search = Search(pathScheme: bool, recoverable: set<Hash>, pivot: Option<nat>, threshold: nat, root: Hash)

  /** The states a search can end at. */
  function Usable(q: Search, states: set<Hash>): set<Hash> {
    if q.pathScheme then states + q.recoverable else states
  }

  /** Lowest number a search looks at. */
  function Lowest(q: Search, head: Header): nat {
    if q.pathScheme then PathFloor(q.pivot, head) else SearchLimit(q.pivot, q.threshold, head)
  }

  /** In the path scheme: not even the root's own state can be reached. */
  predicate Unattainable(q: Search, states: set<Hash>) {
    q.pathScheme && q.root !in Usable(q, states)
  }

  /** Where a search from `head` has to end; `k` is the number of the block that has the
      root, if it was met. Without a root: the newest eligible ancestor. With the root met:
      the newest eligible one at or below it. Otherwise genesis. An unattainable root counts
      only down to the newest ancestor whose state is there, which is the answer if the root
      was not met before. A state that is rolled back to becomes available. */
  ghost predicate Ends(
    store: Store, genesis: Header, q: Search, states: set<Hash>, head: Header, r: Header, k: nat, states': set<Hash>)
  {
    && IsAncestor(store, r, head) && Stored(store, r)
    && (if q.pathScheme && r != genesis then states' == states + {r.root} else states <= states' <= states + {genesis.root})
    && (q.root == ZERO ==> k == 0 && BestRestart(store, genesis, Usable(q, states), head, Lowest(q, head), head.number, r))
    && (q.root != ZERO && k != 0 ==>
          && RootFoundAt(store, head, q.root, k)
          && BestRestart(store, genesis, Usable(q, states), head, Lowest(q, head), k, r)
          && (Unattainable(q, states) ==> NoStateFrom(store, head, states, k + 1)))
    && (q.root != ZERO && k == 0 && r == genesis ==>
          && NoRootFrom(store, head, q.root, Lowest(q, head))
          && (Unattainable(q, states) ==> NoStateFrom(store, head, states, Lowest(q, head))))
    && (q.root != ZERO && k == 0 && r != genesis ==>
          && Unattainable(q, states) && r.root in states
          && NoRootAbove(store, head, q.root, r.number) && NoStateFrom(store, head, states, r.number + 1))
  }

  ghost predicate Restart(
    store: Store, genesis: Header, q: Search, states: set<Hash>, head: Header, r: Header, states': set<Hash>)
  {
    exists k: nat :: Ends(store, genesis, q, states, head, r, k, states')
  }

  lemma ParentIsAncestor(store: Store, head: Header, h: Header)
    requires IsAncestor(store, h, head) && ParentOf(store, h).Some?
    ensures IsAncestor(store, ParentOf(store, h).value, head)
  {
    AncestorStep(store, head, h.number - 1);
  }

  /** rewindHashHead: with no root requested the result is the newest stateful ancestor
      at or above the limit; with a root, the newest one at or below the block that has
      it. Either way it has state or is genesis. */
  method RewindHashHead(store: Store, genesis: Header, q: Search, states: set<Hash>, head: Header)
    returns (r: Header, rootNumber: nat)
    requires ParentClosed(store, genesis) && Stored(store, head) && !q.pathScheme
    ensures r == genesis || r.root in states
    ensures Ends(store, genesis, q, states, head, r, rootNumber, states)
  {
    var root := q.root;
    var limit := SearchLimit(q.pivot, q.threshold, head);
    var beyondRoot := root == ZERO;
    rootNumber := 0;
    r := head;
    ClosedLine(store, genesis, head, 0);
    while true
      invariant IsAncestor(store, r, head) && Stored(store, r) && r.number <= head.number
      invariant root == ZERO ==> beyondRoot && rootNumber == 0
      invariant root != ZERO && !beyondRoot ==> rootNumber == 0 && NoRootAbove(store, head, root, r.number)
      invariant root != ZERO && beyondRoot ==> RootFoundAt(store, head, root, rootNumber) && r.number <= rootNumber
      invariant beyondRoot ==>
        forall a | Eligible(store, states, head, limit, if root == ZERO then head.number else rootNumber, a) :: a.number <= r.number
      decreases r.number
    {
      if !beyondRoot && r.root == root {
        beyondRoot, rootNumber := true, r.number;
      }
      if r.number < limit {
        return genesis, rootNumber;
      }
      if r.root !in states {
        var parent := ParentOf(store, r);
        assert Rooted(store, genesis, store[r.hash]);
        if parent.None? {
          return genesis, rootNumber;
        }
        ParentIsAncestor(store, head, r);
        r := parent.value;
        if r.number == 0 {
          assert Rooted(store, genesis, store[r.hash]);
          return r, rootNumber;
        }
        continue;
      }
      if beyondRoot || r.number == 0 {
        assert Rooted(store, genesis, store[r.hash]);
        return r, rootNumber;
      }
      assert Rooted(store, genesis, store[r.hash]);
      ParentIsAncestor(store, head, r);
      r := ParentOf(store, r).value;
    }
  }

  /** Lowest number the path-scheme search looks at: the pivot, or the head itself if
      that is lower already. */
  function PathFloor(pivot: Option<nat>, head: Header): nat {
    if pivot.Some? && pivot.value < head.number then pivot.value
    else if pivot.Some? then head.number
    else 0
  }

  /** rewindPathHead: states may also be rolled back to (`recoverable`), which makes them
      available (`states'`). With no root requested the result is the newest ancestor
      whose state is available or recoverable; a root met on the way caps it. Rolling back
      also discards newer states; the set keeps them, as they are those of blocks above and
      only the recovered root matters to what follows. */
  method RewindPathHead(store: Store, genesis: Header, q: Search, states: set<Hash>, head: Header)
    returns (r: Header, rootNumber: nat, states': set<Hash>)
    requires ParentClosed(store, genesis) && Stored(store, head) && q.pathScheme
    ensures r == genesis || r.root in states'
    ensures Ends(store, genesis, q, states, head, r, rootNumber, states')
  {
    var root, pivot, usable := q.root, q.pivot, states + q.recoverable;
    var beyondRoot := root == ZERO;
    var noState := root !in usable;
    rootNumber, states' := 0, states;
    r := head;
    ClosedLine(store, genesis, head, 0);
    while true
      invariant IsAncestor(store, r, head) && Stored(store, r) && r.number <= head.number
      invariant PathFloor(pivot, head) <= r.number && (r == head || 0 < r.number)
      invariant root == ZERO ==> beyondRoot && rootNumber == 0
      invariant root != ZERO && !beyondRoot ==> rootNumber == 0 && NoRootAbove(store, head, root, r.number)
      invariant root != ZERO && !beyondRoot && noState ==> NoStateFrom(store, head, states, r.number + 1)
      invariant root != ZERO && beyondRoot ==> RootFoundAt(store, head, root, rootNumber) && r.number <= rootNumber
      invariant root != ZERO && beyondRoot && noState ==> NoStateFrom(store, head, states, rootNumber + 1)
      invariant beyondRoot ==>
        forall a | Eligible(store, usable, head, PathFloor(pivot, head), if root == ZERO then head.number else rootNumber, a) ::
          a.number <= r.number
      decreases r.number
    {
      assert Rooted(store, genesis, store[r.hash]);
      if !beyondRoot && r.root == root {
        beyondRoot, rootNumber := true, r.number;
      }
      if !beyondRoot && noState && r.root in states {
        beyondRoot := true;
      }
      if beyondRoot && r.root in usable {
        break;
      }
      if pivot.Some? && pivot.value >= r.number {
        return genesis, rootNumber, states;
      }
      var parent := ParentOf(store, r);
      if parent.None? {
        return genesis, rootNumber, states;
      }
      ParentIsAncestor(store, head, r);
      r := parent.value;
      if r.number == 0 {
        assert Rooted(store, genesis, store[r.hash]);
        return r, rootNumber, states;
      }
    }
    if r.root !in states {
      states' := states + {r.root};
    }
  }
}
