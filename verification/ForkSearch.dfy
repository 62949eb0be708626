/** The first half of `reorg`: walking the old and the new head back to the block where
    their lines meet. It only reads the header store. */
module ForkSearch {
  import opened Wrappers
  import opened Chain

  datatype ReorgError = InvalidOldChain | InvalidNewChain

  /** The blocks to drop and to add, each listed from its head downwards, and the
      block both lines share. */
  datatype Fork = Fork(oldChain: seq<Header>, newChain: seq<Header>, common: Header)

  /** `chain` is the line of `top` from `top` down to just above `bottom`. */
  ghost predicate Segment(store: Store, top: Header, chain: seq<Header>, bottom: Header) {
    && IsAncestor(store, bottom, top)
    && bottom.number + |chain| == top.number
    && forall i | 0 <= i < |chain| :: AncestorAt(store, top, top.number - i) == Some(chain[i])
  }

  /** `n` is the number of a header both lines go through. */
  predicate MeetAt(store: Store, a: Header, b: Header, n: nat) {
    AncestorAt(store, a, n).Some? && AncestorAt(store, a, n) == AncestorAt(store, b, n)
  }

  /** The two segments and the highest common ancestor of two heads. */
  ghost predicate IsFork(store: Store, oldHead: Header, newHead: Header, f: Fork) {
    && Segment(store, oldHead, f.oldChain, f.common)
    && Segment(store, newHead, f.newChain, f.common)
    && forall n: nat | MeetAt(store, oldHead, newHead, n) :: n <= f.common.number
  }

  /** Extending a segment by one more step down the line. */
  lemma SegmentStep(store: Store, top: Header, chain: seq<Header>, bottom: Header)
    requires Segment(store, top, chain, bottom)
    ensures ParentOf(store, bottom).Some? ==>
              Segment(store, top, chain + [bottom], ParentOf(store, bottom).value)
    ensures ParentOf(store, bottom).None? ==>
              forall n: nat | n < bottom.number :: AncestorAt(store, top, n).None?
  {
    AncestorNumber(store, top, bottom.number);
    if bottom.number > 0 {
      AncestorStep(store, top, bottom.number - 1);
      if ParentOf(store, bottom).None? {
        forall n: nat | n < bottom.number
          ensures AncestorAt(store, top, n).None?
        {
          AncestorGap(store, top, bottom.number - 1, n);
        }
      }
    }
  }

  /** Each block of a segment is the child of the next one, the last of the bottom. */
  lemma SegmentLink(store: Store, top: Header, chain: seq<Header>, bottom: Header, i: nat)
    requires Keyed(store) && Stored(store, top) && Segment(store, top, chain, bottom) && i < |chain|
    ensures ParentOf(store, chain[i]) == Some(if i + 1 < |chain| then chain[i + 1] else bottom)
    ensures Stored(store, chain[i]) && chain[i].number == top.number - i
  {
    assert AncestorAt(store, top, top.number - i) == Some(chain[i]);
    AncestorNumber(store, top, top.number - i);
    AncestorStep(store, top, top.number - i - 1);
    if i + 1 < |chain| {
      assert AncestorAt(store, top, top.number - (i + 1)) == Some(chain[i + 1]);
    }
  }

  /** Walks down the line of `top` to number `n`, collecting what it passes. */
  method Descend(store: Store, top: Header, n: nat) returns (chain: seq<Header>, bottom: Option<Header>)
    requires n <= top.number
    ensures bottom == AncestorAt(store, top, n)
    ensures bottom.Some? ==> Segment(store, top, chain, bottom.value) && bottom.value.number == n
  {
    chain, bottom := [], Some(top);
    while bottom.Some? && bottom.value.number != n
      invariant bottom.Some? ==> Segment(store, top, chain, bottom.value) && n <= bottom.value.number
      invariant bottom.None? ==> AncestorAt(store, top, n).None?
      decreases if bottom.Some? then bottom.value.number + 1 else 0
    {
      SegmentStep(store, top, chain, bottom.value);
      chain, bottom := chain + [bottom.value], ParentOf(store, bottom.value);
    }
  }

  /** Finds the fork of two heads. It succeeds exactly when their lines meet in the
      store, and then yields the highest block they share. */
  method FindFork(store: Store, oldHead: Header, newHead: Header) returns (r: Result<Fork, ReorgError>)
    requires Keyed(store) && Stored(store, oldHead) && Stored(store, newHead)
    ensures r.Success? ==> IsFork(store, oldHead, newHead, r.value)
    ensures r.Success? <==> exists n: nat :: MeetAt(store, oldHead, newHead, n)
    ensures r == Failure(InvalidNewChain) ==> AncestorAt(store, newHead, 0).None?
    ensures r == Failure(InvalidOldChain) && AncestorAt(store, oldHead, 0).Some? ==>
              AncestorAt(store, newHead, 0).Some? ==> !MeetAt(store, oldHead, newHead, 0)
  {
    var oldChain, newChain: seq<Header> := [], [];
    var o, w := Some(oldHead), Some(newHead);
    // Reduce the longer chain to the number of the shorter one.
    if oldHead.number > newHead.number {
      oldChain, o := Descend(store, oldHead, newHead.number);
    } else {
      newChain, w := Descend(store, newHead, oldHead.number);
    }
    ghost var low := if oldHead.number < newHead.number then oldHead.number else newHead.number;
    NoMeetAbove(store, oldHead, newHead);
    if o.None? {
      NoMeetBelowGap(store, oldHead, newHead, low);
      return Failure(InvalidOldChain);
    }
    if w.None? {
      NoMeetBelowGap(store, newHead, oldHead, low);
      return Failure(InvalidNewChain);
    }
    // Step both back until they meet.
    while o.value.hash != w.value.hash
      invariant o.Some? && Segment(store, oldHead, oldChain, o.value)
      invariant w.Some? && Segment(store, newHead, newChain, w.value)
      invariant o.value.number == w.value.number
      invariant forall n: nat | MeetAt(store, oldHead, newHead, n) :: n <= o.value.number
      decreases o.value.number
    {
      assert !MeetAt(store, oldHead, newHead, o.value.number);
      SegmentStep(store, oldHead, oldChain, o.value);
      SegmentStep(store, newHead, newChain, w.value);
      oldChain, newChain := oldChain + [o.value], newChain + [w.value];
      o := ParentOf(store, o.value);
      if o.None? {
        return Failure(InvalidOldChain);
      }
      w := ParentOf(store, w.value);
      if w.None? {
        return Failure(InvalidNewChain);
      }
    }
    AncestorNumber(store, oldHead, o.value.number);
    AncestorNumber(store, newHead, w.value.number);
    assert o.value == w.value;
    assert MeetAt(store, oldHead, newHead, o.value.number);
    r := Success(Fork(oldChain, newChain, o.value));
  }

  lemma NoMeetAbove(store: Store, a: Header, b: Header)
    ensures forall n: nat | MeetAt(store, a, b, n) :: n <= a.number && n <= b.number
  {
    forall n: nat | MeetAt(store, a, b, n)
      ensures n <= a.number && n <= b.number
    {
      AncestorNumber(store, a, n);
      AncestorNumber(store, b, n);
    }
  }

  lemma NoMeetBelowGap(store: Store, a: Header, b: Header, m: nat)
    requires m <= a.number && AncestorAt(store, a, m).None?
    ensures forall n: nat | n <= m :: AncestorAt(store, a, n).None?
    ensures forall n: nat | MeetAt(store, a, b, n) || MeetAt(store, b, a, n) :: m < n
  {
    forall n: nat | n <= m
      ensures AncestorAt(store, a, n).None?
    {
      AncestorGap(store, a, m, n);
    }
  }

  /** On a parent-closed store any two heads have a fork. */
  lemma ClosedHeadsMeet(store: Store, genesis: Header, a: Header, b: Header)
    requires ParentClosed(store, genesis) && Stored(store, a) && Stored(store, b)
    ensures MeetAt(store, a, b, 0)
  {
    ClosedLine(store, genesis, a, 0);
    ClosedLine(store, genesis, b, 0);
  }
}
