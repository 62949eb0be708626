/** The transaction indexer's window: which blocks are indexed, and what is reported. */
module TxIndexer {
  import opened Wrappers
  import opened Gas

  function MaxOf(a: int, b: int): int { if a < b then b else a }

  function MinOf(a: int, b: int): int { if a < b then a else b }

  /** The blocks from `a` up to and including `b`. */
  function Range(a: int, b: int): set<int> { set n | a <= n <= b && Within(a, n, b) }

  predicate Within(a: int, n: int, b: int) { a <= n <= b }

  /** The first block that should be indexed at `head`: the last `limit` blocks - all of
      them for limit 0 or a shorter chain - but none below the cutoff. */
  function Start(limit: Uint64, cutoff: Uint64, head: Uint64): int {
    MaxOf(if limit == 0 || head < limit then 0 else head - limit + 1, cutoff)
  }

  datatype Progress = Progress(indexed: Uint64, remaining: Uint64) {
    predicate Done() { remaining == 0 }
  }

  /** report, in 64-bit arithmetic. */
  function Report(limit: Uint64, cutoff: Uint64, head: Uint64, tail: Option<Uint64>): Progress {
    if head < cutoff then Progress(0, 0)
    else
      var wanted := if limit == 0 || limit > head then Wrap64(head + 1) else limit;
      var length := Wrap64(head - cutoff + 1);
      var total := if wanted > length then length else wanted;
      var indexed := if tail.None? then 0 else Wrap64(head - tail.value + 1);
      Progress(indexed, if indexed < total then total - indexed else 0)
  }

  lemma WrapSmall(x: int)
    ensures 0 <= x < TWO_64 ==> Wrap64(x) == x
    ensures -TWO_64 <= x < 0 ==> Wrap64(x) == x + TWO_64
  {
    if -TWO_64 <= x < 0 {
      assert x == TWO_64 * -1 + (x + TWO_64);
      ModShift(x + TWO_64, -1);
    }
  }

  /** Below the largest number, the report says done exactly when the tail covers the
      window - or lies more than one above the head, where the count wraps. What remains is
      then the number of blocks between the window's start and the tail. */
  lemma ReportIsExact(limit: Uint64, cutoff: Uint64, head: Uint64, tail: Option<Uint64>)
    requires cutoff <= head < UINT64_MAX
    ensures var p, start := Report(limit, cutoff, head, tail), Start(limit, cutoff, head);
            && (p.Done() <==> tail.Some? && (tail.value <= start || tail.value > head + 1))
            && (tail.None? ==> p == Progress(0, head + 1 - start))
            && (tail.Some? && tail.value <= head + 1 ==>
                  p == Progress(head + 1 - tail.value, MaxOf(tail.value - start, 0)))
  {
    WrapSmall(head + 1);
    WrapSmall(head - cutoff + 1);
    if tail.Some? {
      WrapSmall(head - tail.value + 1);
    }
  }

  /** At the very last number: an unlimited or uncut index has its total wrap to zero and is
      reported done even when nothing is indexed; otherwise it is done exactly when the tail
      covers the window, except that a tail of zero wraps the count to zero and is reported
      not done although it covers everything. */
  lemma ReportAtTheTop(limit: Uint64, cutoff: Uint64, tail: Option<Uint64>)
    ensures Report(limit, cutoff, UINT64_MAX, tail).Done() <==>
            limit == 0 || cutoff == 0 || (tail.Some? && 0 < tail.value <= Start(limit, cutoff, UINT64_MAX))
  {
    WrapSmall(UINT64_MAX + 1);
    ModShift(0, 1);
    WrapSmall(UINT64_MAX - cutoff + 1);
    if tail.Some? {
      WrapSmall(UINT64_MAX - tail.value + 1);
    }
  }

  class Indexer {
    const limit: Uint64
    const cutoff: Uint64
    /** The stored tail, and the blocks whose transactions have lookup entries. */
    var dbTail: Option<Uint64>
    var indexed: set<int>

    constructor (limit: Uint64, cutoff: Uint64, dbTail: Option<Uint64>, indexed: set<int>)
      ensures this.limit == limit && this.cutoff == cutoff && this.dbTail == dbTail && this.indexed == indexed
    {
      this.limit, this.cutoff, this.dbTail, this.indexed := limit, cutoff, dbTail, indexed;
    }

    /** What the program assumes of a database at start-up: with a tail at or below the head
        exactly the blocks from it are indexed; without a tail nothing outside the window. */
    ghost predicate Plausible(head: Uint64)
      reads this
    {
      && (dbTail.None? ==> indexed <= Range(Start(limit, cutoff, head), head))
      && (dbTail.Some? && dbTail.value <= head ==> indexed == Range(dbTail.value, head))
    }

    /** What run assumes: a tail lies between cutoff and head. */
    ghost predicate Repaired(head: Uint64)
      reads this
    {
      Plausible(head) && (dbTail.Some? ==> cutoff <= dbTail.value <= head)
    }

    /** The database operation of the same name, uninterrupted. */
    method IndexTransactions(from: Uint64, to: Uint64)
      modifies this
      ensures from >= to ==> dbTail == old(dbTail) && indexed == old(indexed)
      ensures from < to ==> dbTail == Some(from) && indexed == old(indexed) + Range(from, to - 1)
    {
      if from >= to {
        return;
      }
      dbTail := Some(from);
      indexed := indexed + Range(from, to - 1);
    }

    /** The database operation of the same name, uninterrupted. */
    method UnindexTransactions(from: Uint64, to: Uint64)
      modifies this
      ensures from >= to ==> dbTail == old(dbTail) && indexed == old(indexed)
      ensures from < to ==> dbTail == Some(to) && indexed == old(indexed) - Range(from, to - 1)
    {
      if from >= to {
        return;
      }
      dbTail := Some(to);
      indexed := indexed - Range(from, to - 1);
    }

    /** repair: whatever was stored, run's assumptions hold afterwards; an index whose tail
        is at or below the head only loses what lies under the cutoff. */
    method Repair(head: Uint64)
      requires Plausible(head)
      modifies this
      ensures cutoff <= head ==> Repaired(head)
      ensures head < cutoff && old(dbTail).Some? ==> dbTail.None? && indexed == {}
      ensures old(dbTail).None? ==> dbTail.None? && indexed == old(indexed)
      ensures old(dbTail).Some? && old(dbTail.value) <= head && cutoff <= head ==>
                dbTail == Some(MaxOf(old(dbTail.value), cutoff)) && indexed == old(indexed) * Range(cutoff, head)
    {
      if dbTail.None? {
        return;
      }
      if dbTail.value > head {
        dbTail := None;
        indexed := {};
        return;
      }
      if head < cutoff {
        dbTail := None;
        indexed := {};
        return;
      }
      if dbTail.value < cutoff {
        dbTail := Some(cutoff);
        indexed := set n | n in indexed && n >= cutoff;
      }
    }

    /** The one case in which `head + 1` wraps and matters. */
    ghost predicate Overflows(head: Uint64)
      reads this
    {
      head == UINT64_MAX && (dbTail.None? || (limit == 0 && dbTail.value > cutoff))
    }

    /** run, uninterrupted: exactly the window is indexed afterwards, and the tail is its
        start. At the largest block number an index that would have to grow up to the head
        is left as it was. */
    method Run(head: Uint64)
      requires Repaired(head)
      modifies this
      ensures head == 0 || head < cutoff || old(Overflows(head)) ==> dbTail == old(dbTail) && indexed == old(indexed)
      ensures head > 0 && head >= cutoff && !old(Overflows(head)) ==>
                && indexed == Range(Start(limit, cutoff, head), head)
                && dbTail == Some(Start(limit, cutoff, head))
                && Repaired(head)
    {
      if head == 0 || head < cutoff {
        return;
      }
      if dbTail.None? {
        var from := 0;
        if limit != 0 && head >= limit {
          from := head - limit + 1;
        }
        from := MaxOf(from, cutoff);
        IndexTransactions(from, Wrap64(head + 1));
        return;
      }
      if limit == 0 || head < limit {
        if dbTail.value > 0 {
          var from := MaxOf(0, cutoff);
          var end := MinOf(dbTail.value, Wrap64(head + 1));
          IndexTransactions(from, end);
        }
        return;
      }
      var from := MaxOf(head - limit + 1, cutoff);
      if from < dbTail.value {
        IndexTransactions(from, dbTail.value);
      } else {
        UnindexTransactions(dbTail.value, from);
      }
    }

    /** Start-up: repair, then run. */
    method Launch(head: Uint64)
      requires Plausible(head)
      modifies this
      ensures 0 < head < UINT64_MAX && cutoff <= head ==>
                && indexed == Range(Start(limit, cutoff, head), head)
                && Report(limit, cutoff, head, dbTail) == Progress(head + 1 - Start(limit, cutoff, head), 0)
    {
      Repair(head);
      if head >= cutoff {
        Run(head);
        if 0 < head < UINT64_MAX {
          ReportIsExact(limit, cutoff, head, dbTail);
        }
      }
    }

    /** The chain moves on: the import of blocks up to `head` indexes them itself, then run
        is scheduled for the new head. */
    method Follow(previous: Uint64, head: Uint64)
      requires 0 < previous <= head < UINT64_MAX && cutoff <= previous && dbTail.Some? && Repaired(previous)
      modifies this
      ensures Repaired(head) && dbTail.Some?
      ensures indexed == Range(Start(limit, cutoff, head), head)
    {
      indexed := indexed + Range(previous + 1, head);
      assert indexed == Range(dbTail.value, head);
      Run(head);
    }

    /** Any number of head events after start-up: the window is exact after each. */
    method FollowAll(head: Uint64, heads: seq<Uint64>)
      requires 0 < head < UINT64_MAX && cutoff <= head && Plausible(head)
      requires forall i | 0 <= i < |heads| :: head <= heads[i] < UINT64_MAX
      requires forall i, j | 0 <= i < j < |heads| :: heads[i] <= heads[j]
      modifies this
      ensures var last := if heads == [] then head else heads[|heads| - 1];
              indexed == Range(Start(limit, cutoff, last), last)
    {
      Repair(head);
      Run(head);
      var current := head;
      for i := 0 to |heads|
        invariant 0 < current < UINT64_MAX && cutoff <= current && dbTail.Some? && Repaired(current)
        invariant current == if i == 0 then head else heads[i - 1]
        invariant indexed == Range(Start(limit, cutoff, current), current)
      {
        Follow(current, heads[i]);
        current := heads[i];
      }
    }
  }
}
