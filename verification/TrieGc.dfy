/** Garbage collection of state tries in the hash scheme: every written block's root is
    referenced and queued under its number; old ones are dequeued and released. */
module TrieGc {
  import opened Gas
  import opened Chain

  const TWO_63: int := 0x8000_0000_0000_0000

  datatype Entry = Entry(root: Hash, number: int)

  /** The queue's priority is the negated number as a signed 64-bit integer. */
  function Priority(number: int): int {
    if number <= TWO_63 then 0 - number else TWO_64 - number
  }

  /** The references a queue stands for. */
  function Roots(q: seq<Entry>): multiset<Hash> {
    if q == [] then multiset{} else Roots(q[..|q| - 1]) + multiset{q[|q| - 1].root}
  }

  function Removed(q: seq<Entry>, k: nat): seq<Entry>
    requires k < |q|
  {
    q[..k] + q[k + 1..]
  }

  lemma Swap(m: multiset<Hash>, x: Hash, y: Hash)
    ensures m + multiset{x} + multiset{y} == m + multiset{y} + multiset{x}
  {
  }

  /** Moving one element from one part of a sum to the other. */
  lemma Move(sum: multiset<Entry>, a: multiset<Entry>, b: multiset<Entry>, c: multiset<Entry>, e: Entry)
    requires sum == a + b && b == c + multiset{e}
    ensures sum == (a + multiset{e}) + c
  {
  }

  lemma TakeOne(m: multiset<Hash>, n: multiset<Hash>, x: Hash)
    requires m == n + multiset{x}
    ensures m - multiset{x} == n
  {
  }

  ghost predicate Passed(written: set<int>, window: nat, e: Entry) {
    exists w :: w in written && e.number + window <= w
  }

  lemma PassedAfter(before: multiset<Entry>, now: multiset<Entry>, written: set<int>, window: nat, number: int)
    requires number in written && forall e | e in before :: Passed(written, window, e)
    requires forall e | now[e] > before[e] :: e.number + window <= number
    ensures forall e | e in now :: Passed(written, window, e)
  {
    forall e | e in now ensures Passed(written, window, e) {
      if e !in before {
        assert now[e] > before[e];
      }
    }
  }

  lemma PassedGrows(released: multiset<Entry>, written: set<int>, grown: set<int>, window: nat)
    requires written <= grown && forall e | e in released :: Passed(written, window, e)
    ensures forall e | e in released :: Passed(grown, window, e)
  {
    forall e | e in released ensures Passed(grown, window, e) {
      var w :| w in written && e.number + window <= w;
      assert w in grown;
    }
  }

  lemma {:induction false} RemovedRoots(q: seq<Entry>, k: nat)
    requires k < |q|
    ensures Roots(q) == Roots(Removed(q, k)) + multiset{q[k].root}
    decreases |q|
  {
    var last := |q| - 1;
    if k < last {
      RemovedRoots(q[..last], k);
      assert Removed(q, k)[..last - 1] == Removed(q[..last], k);
      assert Removed(q, k)[last - 1] == q[last];
      Swap(Roots(Removed(q[..last], k)), q[k].root, q[last].root);
    } else {
      assert Removed(q, k) == q[..last];
    }
  }

  lemma RemovedEntries(q: seq<Entry>, k: nat)
    requires k < |q|
    ensures multiset(q) == multiset(Removed(q, k)) + multiset{q[k]}
  {
    assert q == q[..k] + [q[k]] + q[k + 1..];
  }

  lemma PushedRoots(q: seq<Entry>, e: Entry)
    ensures Roots(q + [e]) == Roots(q) + multiset{e.root}
  {
    assert (q + [e])[..|q|] == q;
  }

  lemma PushedEntries(sum: multiset<Entry>, a: multiset<Entry>, q: seq<Entry>, e: Entry)
    requires sum == a + multiset(q)
    ensures sum + multiset{e} == a + multiset(q + [e])
  {
  }

  /** Block numbers are 64-bit. */
  predicate Words(q: seq<Entry>) {
    forall e | e in q :: 0 <= e.number <= UINT64_MAX
  }

  lemma RemovedWords(q: seq<Entry>, k: nat)
    requires Words(q) && k < |q|
    ensures Words(Removed(q, k))
  {
    assert forall e | e in Removed(q, k) :: e in q;
  }

  predicate IsTop(q: seq<Entry>, k: nat) {
    k < |q| && forall i | 0 <= i < |q| :: Priority(q[i].number) <= Priority(q[k].number)
  }

  /** The order in which entries come out: numbers past 2^63 first, and within either half
      the lowest first. */
  lemma PriorityOrder(a: Uint64, b: Uint64)
    ensures Priority(a) >= Priority(b) <==> if (a > TWO_63) == (b > TWO_63) then a <= b else a > TWO_63
  {
  }

  /** Some entry at or below `chosen` is in the queue. */
  ghost predicate HoldsOld(q: seq<Entry>, chosen: int) {
    exists e :: e in q && e.number <= chosen
  }

  /** An entry past 2^63 and above `chosen`, and one that is neither: the first comes out
      first, is put back, and ends the collection before the second is reached. */
  ghost predicate Shielded(q: seq<Entry>, chosen: int) {
    && (exists e :: e in q && e.number > TWO_63 && e.number > chosen)
    && (exists e :: e in q && e.number <= TWO_63 && e.number <= chosen)
  }

  lemma TopIsLarge(q: seq<Entry>, k: nat, e: Entry)
    requires Words(q) && IsTop(q, k) && e in q && e.number > TWO_63
    ensures q[k].number > TWO_63
  {
    var i :| 0 <= i < |q| && q[i] == e;
    assert q[k] in q;
    PriorityOrder(q[k].number, e.number);
  }

  /** Dropping a top at or below `chosen` changes nothing about it. */
  lemma ShieldStays(q: seq<Entry>, k: nat, chosen: int)
    requires Words(q) && IsTop(q, k) && q[k].number <= chosen
    ensures Shielded(Removed(q, k), chosen) <==> Shielded(q, chosen)
  {
    var r := Removed(q, k);
    assert forall e | e in r :: e in q;
    assert forall e | e in q && e != q[k] :: e in r;
    if Shielded(q, chosen) {
      var large :| large in q && large.number > TWO_63 && large.number > chosen;
      var small :| small in q && small.number <= TWO_63 && small.number <= chosen;
      TopIsLarge(q, k, large);
      assert large in r && small in r;
    }
  }

  /** At a top above `chosen`, something old is left exactly when it is shielded. */
  lemma LeftOverIffShielded(q: seq<Entry>, k: nat, chosen: int)
    requires Words(q) && IsTop(q, k) && q[k].number > chosen
    ensures HoldsOld(q, chosen) <==> Shielded(q, chosen)
  {
    if HoldsOld(q, chosen) {
      var e :| e in q && e.number <= chosen;
      var i :| 0 <= i < |q| && q[i] == e;
      assert q[k] in q && Priority(q[i].number) <= Priority(q[k].number);
      PriorityOrder(q[k].number, e.number);
      assert q[k].number > TWO_63 && e.number <= TWO_63;
    }
  }

  /** A queue in which that happens: block 2^63 + 1 keeps block 5 from being released. */
  lemma ShieldedQueueExists()
    ensures var q := [Entry(1, TWO_63 + 1), Entry(2, 5)];
            Words(q) && IsTop(q, 0) && q[0].number > 10 && Shielded(q, 10) && HoldsOld(q, 10)
  {
    var q := [Entry(1, TWO_63 + 1), Entry(2, 5)];
    assert q[0] in q && q[1] in q;
  }

  class Collector {
    const triesInMemory: nat
    var queue: seq<Entry>
    /** The references held in the trie database. */
    var refs: multiset<Hash>

    ghost var taken: multiset<Entry>
    ghost var released: multiset<Entry>
    ghost var written: set<int>

    /** Outstanding references are exactly the queue, and nothing taken is lost. */
    ghost predicate Held()
      reads this
    {
      refs == Roots(queue) && taken == released + multiset(queue) && Words(queue)
    }

    /** Moreover nothing was released before its retention window had passed. */
    ghost predicate Valid()
      reads this
    {
      Held() && forall e | e in released :: Passed(written, triesInMemory, e)
    }

    constructor (triesInMemory: nat)
      ensures Valid() && this.triesInMemory == triesInMemory && queue == []
      ensures taken == multiset{} && released == multiset{} && written == {}
    {
      this.triesInMemory, queue, refs := triesInMemory, [], multiset{};
      taken, released, written := multiset{}, multiset{}, {};
    }

    /** An index the queue may pop: no other has a higher priority. */
    method Top() returns (k: nat)
      requires queue != []
      ensures IsTop(queue, k)
    {
      k := 0;
      for i := 1 to |queue|
        invariant k < |queue| && forall j | 0 <= j < i :: Priority(queue[j].number) <= Priority(queue[k].number)
      {
        if Priority(queue[i].number) > Priority(queue[k].number) {
          k := i;
        }
      }
    }

    /** Pop an entry and release its reference. */
    method Drop(k: nat)
      requires Held() && k < |queue|
      modifies `queue, `refs, `released
      ensures Held() && queue == Removed(old(queue), k) && released == old(released) + multiset{old(queue)[k]}
    {
      RemovedRoots(queue, k);
      RemovedEntries(queue, k);
      RemovedWords(queue, k);
      TakeOne(refs, Roots(Removed(queue, k)), queue[k].root);
      Move(taken, released, multiset(queue), multiset(Removed(queue, k)), queue[k]);
      refs := refs - multiset{queue[k].root};
      released := released + multiset{queue[k]};
      queue := Removed(queue, k);
    }

    /** Drop everything the queue yields up to the first entry above `chosen`. */
    method Release(chosen: nat)
      requires Held()
      modifies `queue, `refs, `released
      ensures Held() && old(released) <= released
      ensures forall e | released[e] > old(released[e]) :: e.number <= chosen
      ensures HoldsOld(queue, chosen) <==> Shielded(old(queue), chosen)
    {
      while queue != []
        invariant Held() && old(released) <= released
        invariant forall e | released[e] > old(released[e]) :: e.number <= chosen
        invariant Shielded(queue, chosen) <==> Shielded(old(queue), chosen)
        decreases |queue|
      {
        var k := Top();
        if queue[k].number > chosen {
          LeftOverIffShielded(queue, k, chosen);
          break;
        }
        ShieldStays(queue, k, chosen);
        Drop(k);
      }
    }

    /** The collection part of writeBlockWithState. */
    method Write(root: Hash, number: Uint64)
      requires Valid()
      modifies this
      ensures Valid() && taken == old(taken) + multiset{Entry(root, number)} && written == old(written) + {number}
      ensures old(released) <= released
      ensures number <= triesInMemory ==> released == old(released)
      ensures forall e | released[e] > old(released[e]) :: e.number + triesInMemory <= number
      ensures number > triesInMemory ==>
                (HoldsOld(queue, number - triesInMemory)
                 <==> Shielded(old(queue) + [Entry(root, number)], number - triesInMemory))
    {
      PassedGrows(released, written, written + {number}, triesInMemory);
      written := written + {number};
      Push(Entry(root, number));
      if number <= triesInMemory {
        return;
      }
      ghost var before := released;
      Release(number - triesInMemory);
      PassedAfter(before, released, written, triesInMemory, number);
    }

    /** Take a reference and queue it. */
    method Push(e: Entry)
      requires Held() && 0 <= e.number <= UINT64_MAX
      modifies `queue, `refs, `taken
      ensures Held() && queue == old(queue) + [e] && taken == old(taken) + multiset{e}
    {
      PushedRoots(queue, e);
      PushedEntries(taken, released, queue, e);
      refs := refs + multiset{e.root};
      queue := queue + [e];
      taken := taken + multiset{e};
    }

    /** The drain in Stop: afterwards every reference ever taken has been released, once. */
    method Stop()
      requires Held()
      modifies `queue, `refs, `released
      ensures queue == [] && refs == multiset{} && released == taken
    {
      while queue != []
        invariant Held()
        decreases |queue|
      {
        var k := Top();
        Drop(k);
      }
    }

    /** Any run of writes, in any order of numbers, and a stop. */
    method Run(blocks: seq<Entry>)
      requires Valid() && taken == multiset{} && forall i | 0 <= i < |blocks| :: 0 <= blocks[i].number <= UINT64_MAX
      modifies this
      ensures refs == multiset{} && released == taken == multiset(blocks)
    {
      for i := 0 to |blocks|
        invariant Valid() && taken == multiset(blocks[..i])
      {
        assert blocks[..i + 1] == blocks[..i] + [blocks[i]];
        Write(blocks[i].root, blocks[i].number);
      }
      assert blocks[..|blocks|] == blocks;
      Stop();
    }
  }
}
