/** Rewinding the chain: the target of a rewind, and what deleting everything above a
    number does to the tables. */
module SetHead {
  import opened Wrappers
  import opened Chain
  import opened TotalDifficulty
  import Rewind

  /** A rewind goes down to a block number or, if `time` is set, to a timestamp. */
  datatype Target = Target(number: nat, time: nat)

  predicate Done(t: Target, h: Header) {
    if t.time > 0 then h.time <= t.time else h.number <= t.number
  }

  /** Where the rewound block head forces the header chain to follow it (it fell below the
      freezer limit), the target is lowered to it and counted in numbers from then on. */
  function Lowered(t: Target, head: Header, force: bool): Target {
    if force && ((t.time > 0 && head.time < t.time) || (t.time == 0 && head.number < t.number))
    then Target(head.number, 0)
    else t
  }

  /** The block head has fallen below the freezer limit, and full blocks are going to be
      imported from there: the headers have to follow it down. */
  predicate Forces(frozen: nat, pivot: Option<nat>, head: Header) {
    head.number + 1 < frozen && (pivot.None? || pivot.value <= head.number)
  }

  /** What is fixed during a rewind: where it starts, what it was asked for, how many blocks
      are frozen, and the snap-sync pivot. */
  datatype Plan = Plan(top: Header, target: Target, frozen: nat, pivot: Option<nat>)

  /** The target in force, `t`, is the requested one unless the block head forced it down;
      then it is the number of a block that was head on the way, below the freezer limit,
      not above the header head and not below the block head. And force is obeyed: a block
      head that forces is never below the target. */
  ghost predicate Follows(plan: Plan, t: Target, hdr: Header, blk: Header, origin: bool) {
    && (origin || t.time > 0 ==> t == plan.target)
    && (t == plan.target
        || (t.time == 0 && t.number + 1 < plan.frozen && (plan.pivot.None? || plan.pivot.value <= t.number)
            && blk.number <= t.number <= hdr.number))
    && (!origin && Forces(plan.frozen, plan.pivot, blk) ==>
          if t.time == 0 then t.number <= blk.number else t.time <= blk.time)
  }

  /** A step down keeps it, because the block head never rises. */
  lemma FollowsStep(plan: Plan, t: Target, hdr: Header, blk: Header, origin: bool, parent: Header, blk': Header)
    requires Follows(plan, t, hdr, blk, origin) && !Done(t, hdr)
    requires parent.number + 1 == hdr.number && blk'.number <= parent.number && blk'.number <= blk.number
    ensures Follows(plan, Lowered(t, blk', Forces(plan.frozen, plan.pivot, blk')), parent, blk', false)
  {
  }

  /** Where that ends: at the requested target, or at a lowered one that is then the header
      head's own number; and a block head that forces is the header head. */
  lemma FollowsEnds(plan: Plan, t: Target, hdr: Header, blk: Header, origin: bool)
    requires Follows(plan, t, hdr, blk, origin) && Done(t, hdr) && blk.number <= hdr.number
    ensures t != plan.target ==>
              t.time == 0 && t.number == hdr.number && t.number + 1 < plan.frozen
              && (plan.pivot.None? || plan.pivot.value <= t.number)
    ensures !origin && Forces(plan.frozen, plan.pivot, blk) ==>
              if t.time == 0 then hdr.number == blk.number else t.time <= blk.time
  {
  }

  /** No header of the line of `top` above `h` meets the target: `h` is the first to. */
  ghost predicate FirstDone(store: Store, t: Target, top: Header, h: Header) {
    forall n: nat | h.number < n <= top.number && AncestorAt(store, top, n).Some? :: !Done(t, AncestorAt(store, top, n).value)
  }

  /** Lowering a target to a block at or below `h` keeps everything above `h` undone. */
  lemma LoweredKeepsUndone(store: Store, t: Target, top: Header, h: Header, head: Header, force: bool)
    requires FirstDone(store, t, top, h) && head.number <= h.number
    ensures FirstDone(store, Lowered(t, head, force), top, h)
  {
    forall n: nat | h.number < n <= top.number && AncestorAt(store, top, n).Some?
      ensures !Done(Lowered(t, head, force), AncestorAt(store, top, n).value)
    {
      AncestorNumber(store, top, n);
    }
  }

  /** What one flush left in the database: the headers and the three stored markers. */
  datatype Boundary = Boundary(store: Store, headHeader: Hash, headBlock: Hash, headFast: Hash)

  predicate MarkersStored(b: Boundary) {
    b.headHeader in b.store && b.headBlock in b.store && b.headFast in b.store
  }

  function AtNumber(store: Store, n: nat): set<Hash> {
    set h | h in store && store[h].number == n
  }

  function AboveNumber(store: Store, n: nat): set<Hash> {
    set h | h in store && store[h].number > n
  }

  /** A parent-closed store has headers at every number below one it has. */
  lemma NoGaps(store: Store, genesis: Header, n: nat, h: Hash)
    requires ParentClosed(store, genesis) && h in store && n <= store[h].number
    ensures AtNumber(store, n) != {}
  {
    ClosedLine(store, genesis, store[h], n);
    assert AncestorAt(store, store[h], n).value.hash in AtNumber(store, n);
  }

  /** Deleting every header above a number keeps the rest closed and its totals right. */
  lemma CutKeepsTables(store: Store, genesis: Header, tds: Tds, k: nat)
    requires ParentClosed(store, genesis) && TdInv(store, tds)
    ensures ParentClosed(store - AboveNumber(store, k), genesis)
    ensures TdInv(store - AboveNumber(store, k), tds - AboveNumber(store, k))
  {
    var store', tds' := store - AboveNumber(store, k), tds - AboveNumber(store, k);
    forall h | h in store'
      ensures Rooted(store', genesis, store'[h]) && TdAt(store', tds', store'[h])
    {
      assert Rooted(store, genesis, store[h]) && TdAt(store, tds, store[h]);
    }
  }

  /** Lines at or below the cut are untouched. */
  lemma CutKeepsLine(store: Store, k: nat, h: Header, n: nat)
    requires h.number <= k
    ensures AncestorAt(store - AboveNumber(store, k), h, n) == AncestorAt(store, h, n)
  {
    AncestorFrame(store, store - AboveNumber(store, k), h, n);
  }

  /** The canonical map, cut together with the headers. `nums` are the deleted numbers:
      every number above `k` at which a header was stored. */
  lemma CutKeepsPath(store: Store, canon: Canon, head: Header, h: Header, nums: set<nat>)
    requires PathTo(store, canon, head) && IsAncestor(store, h, head)
    requires forall n: nat :: n in nums <==> n > h.number && AtNumber(store, n) != {}
    requires Names(store, canon)
    ensures Canonical(store - AboveNumber(store, h.number), canon - nums, h)
    ensures Contiguous(canon - nums) && Names(store - AboveNumber(store, h.number), canon - nums)
  {
    forall n | n in canon
      ensures canon[n] in AtNumber(store, n)
    {
      assert GetHeader(store, canon[n], n).Some?;
    }
    PathToAncestor(store, canon, head, h);
    forall n: nat | n <= h.number
      ensures n in canon - nums
      ensures AncestorAt(store - AboveNumber(store, h.number), h, n).Some?
      ensures AncestorAt(store - AboveNumber(store, h.number), h, n).value.hash == (canon - nums)[n]
    {
      CutKeepsLine(store, h.number, h, n);
    }
  }

  /** What a rewind has scheduled for deletion. Frozen bodies are not deleted one by one but
      cut off at the end. */
  datatype Doom = Doom(headers: set<Hash>, bodies: set<Hash>, numbers: set<nat>)

  const NO_DOOM := Doom({}, {}, {})

  function Unfrozen(store: Store, hashes: set<Hash>, frozen: nat): set<Hash> {
    set h | h in hashes && h in store && store[h].number + 1 > frozen
  }

  function AtNumbers(store: Store, nums: set<nat>): set<Hash> {
    set h | h in store && store[h].number in nums
  }

  function Doomed(store: Store, doom: Doom, nums: set<nat>, frozen: nat): Doom {
    var hashes := AtNumbers(store, nums);
    Doom(doom.headers + hashes, doom.bodies + Unfrozen(store, hashes, frozen), doom.numbers + nums)
  }

  ghost predicate DoomedNumbers(store: Store, k: nat, nums: set<nat>) {
    forall n: nat :: n in nums <==> n > k && AtNumber(store, n) != {}
  }

  /** Everything above `k` is doomed, on every fork. */
  ghost predicate DoomsAbove(store: Store, doom: Doom, k: nat, frozen: nat) {
    && doom.headers == AboveNumber(store, k)
    && doom.bodies == Unfrozen(store, doom.headers, frozen)
    && DoomedNumbers(store, k, doom.numbers)
  }

  /** Where a rewind stands: the header head `hdr` is an ancestor of where it started and
      everything above it misses the target; the block and snap heads are stored, the block
      head on the header's line. Once the first step is taken, everything above is doomed. */
  ghost predicate RewindState(
    store: Store, plan: Plan, t: Target, hdr: Header, blk: Header, snap: Header, origin: bool, doom: Doom)
  {
    && Stored(store, hdr) && IsAncestor(store, hdr, plan.top) && hdr.number <= plan.top.number
    && FirstDone(store, t, plan.top, hdr) && Follows(plan, t, hdr, blk, origin)
    && Stored(store, blk) && Stored(store, snap) && IsAncestor(store, blk, hdr) && blk.number <= hdr.number
    && (if origin then hdr == plan.top && doom == NO_DOOM
        else snap.number <= hdr.number && DoomsAbove(store, doom, hdr.number, plan.frozen) && !Done(plan.target, plan.top))
  }

  /** What a step schedules for deletion: the headers at the step's number and, on the
      first step, at every number above. */
  ghost predicate Scheduled(store: Store, hdr: Header, origin: bool, above: set<nat>) {
    if origin then DoomedNumbers(store, hdr.number, above) else above == {}
  }

  lemma ScheduledDooms(store: Store, hdr: Header, origin: bool, doom: Doom, above: set<nat>, k: nat, frozen: nat)
    requires Stored(store, hdr) && hdr.number == k + 1 && Scheduled(store, hdr, origin, above)
    requires if origin then doom == NO_DOOM else DoomsAbove(store, doom, hdr.number, frozen)
    ensures DoomsAbove(store, Doomed(store, doom, above + {hdr.number}, frozen), k, frozen)
  {
    assert hdr.hash in AtNumber(store, hdr.number);
    forall h | h in store && store[h].number > hdr.number
      ensures AtNumber(store, store[h].number) != {}
    {
      assert h in AtNumber(store, store[h].number);
    }
  }

  /** Stepping down from a header that misses the target, everything above the parent does. */
  lemma FirstDoneStep(store: Store, t: Target, top: Header, hdr: Header, parent: Header)
    requires FirstDone(store, t, top, hdr) && !Done(t, hdr) && IsAncestor(store, hdr, top) && hdr.number == parent.number + 1
    ensures FirstDone(store, t, top, parent)
  {
    forall n: nat | parent.number < n <= top.number && AncestorAt(store, top, n).Some?
      ensures !Done(t, AncestorAt(store, top, n).value)
    {
      if n == hdr.number {
        assert AncestorAt(store, top, n) == Some(hdr);
      }
    }
  }

  /** The block head of a step: it stayed, being lower already, or was rewound to an ancestor
      of the parent. */
  predicate BlockFollows(store: Store, parent: Header, blk: Header, blk': Header) {
    if blk.number < parent.number then blk' == blk else IsAncestor(store, blk', parent)
  }

  lemma BlockStaysBelow(store: Store, hdr: Header, blk: Header, parent: Header, blk': Header)
    requires IsAncestor(store, blk, hdr) && blk.number <= hdr.number && ParentOf(store, hdr) == Some(parent)
    requires BlockFollows(store, parent, blk, blk')
    ensures IsAncestor(store, blk', parent) && blk'.number <= parent.number && blk'.number <= blk.number
  {
    AncestorNumber(store, parent, blk'.number);
    AncestorNumber(store, hdr, blk.number);
  }

  /** One step down. */
  lemma RewindStep(
    store: Store, genesis: Header, plan: Plan, t: Target, hdr: Header, blk: Header, snap: Header, origin: bool, doom: Doom,
    parent: Header, blk': Header, snap': Header, above: set<nat>)
    requires ParentClosed(store, genesis)
    requires RewindState(store, plan, t, hdr, blk, snap, origin, doom)
    requires !Done(t, hdr) && ParentOf(store, hdr) == Some(parent)
    requires Stored(store, blk') && Stored(store, snap') && snap'.number <= parent.number
    requires BlockFollows(store, parent, blk, blk')
    requires Scheduled(store, hdr, origin, above)
    ensures RewindState(store, plan, Lowered(t, blk', Forces(plan.frozen, plan.pivot, blk')), parent, blk', snap', false,
                        Doomed(store, doom, above + {hdr.number}, plan.frozen))
  {
    var force := Forces(plan.frozen, plan.pivot, blk');
    AncestorStep(store, plan.top, parent.number);
    BlockStaysBelow(store, hdr, blk, parent, blk');
    ScheduledDooms(store, hdr, origin, doom, above, parent.number, plan.frozen);
    FirstDoneStep(store, t, plan.top, hdr, parent);
    LoweredKeepsUndone(store, t, plan.top, parent, blk', force);
    FollowsStep(plan, t, hdr, blk, origin, parent, blk');
  }

  /** The frozen bodies above `k`, which are cut off together. */
  function FrozenAbove(store: Store, k: nat, frozen: nat): set<Hash> {
    set h | h in store && k < store[h].number && store[h].number + 1 <= frozen
  }

  /** Deleted and cut off, all bodies above `k` are gone. */
  lemma BodiesCut(store: Store, bodies: map<Hash, seq<Hash>>, doom: Doom, k: nat, frozen: nat)
    requires DoomsAbove(store, doom, k, frozen)
    ensures bodies - (doom.bodies + FrozenAbove(store, k, frozen)) == bodies - AboveNumber(store, k)
    ensures k + 1 >= frozen ==> FrozenAbove(store, k, frozen) == {}
  {
    assert doom.bodies + FrozenAbove(store, k, frozen) == AboveNumber(store, k);
  }

  /** The final flush leaves sound tables, an exact canonical map, and all three heads. */
  lemma RewindEnds(
    store: Store, genesis: Header, tds: Tds, canon: Canon, plan: Plan, t: Target, hdr: Header, blk: Header, snap: Header, doom: Doom)
    requires ParentClosed(store, genesis) && TdInv(store, tds)
    requires PathTo(store, canon, plan.top) && Names(store, canon)
    requires RewindState(store, plan, t, hdr, blk, snap, false, doom)
    ensures ParentClosed(store - doom.headers, genesis) && TdInv(store - doom.headers, tds - doom.headers)
    ensures Canonical(store - doom.headers, canon - doom.numbers, hdr)
    ensures Contiguous(canon - doom.numbers) && Names(store - doom.headers, canon - doom.numbers)
    ensures Stored(store - doom.headers, hdr) && Stored(store - doom.headers, blk) && Stored(store - doom.headers, snap)
    ensures IsAncestor(store - doom.headers, blk, hdr)
  {
    CutKeepsTables(store, genesis, tds, hdr.number);
    CutKeepsPath(store, canon, plan.top, hdr, doom.numbers);
    CutKeepsLine(store, hdr.number, hdr, blk.number);
  }

  // ---------------------------------------------------------------------------------
  // The course of a rewind
  // ---------------------------------------------------------------------------------

  /** A stop of a rewind: the target in force, the header, block and snap heads, and the
      states that are available. */
  datatype Point = Point(t: Target, hdr: Header, blk: Header, snap: Header, states: set<Hash>)

  /** What no step of a rewind changes: the headers and bodies, the searches, and how many
      blocks are frozen. */
  datatype Ground = Ground(store: Store, bodies: set<Hash>, genesis: Header, q: Rewind.Search, frozen: nat)

  /** The snap head of a step: a higher one goes to the parent if that has a body, else to
      genesis. */
  function SnapFollows(bodies: set<Hash>, genesis: Header, parent: Header, snap: Header): Header {
    if snap.number <= parent.number then snap else if parent.hash in bodies then parent else genesis
  }

  /** One step: the header head goes to its parent; a block head that is not below it goes
      to where the search from there ends; the snap head follows; and if the block head
      forces, the target follows it. */
  ghost predicate StepsTo(g: Ground, a: Point, b: Point) {
    && !Done(a.t, a.hdr) && ParentOf(g.store, a.hdr) == Some(b.hdr)
    && (if a.blk.number < b.hdr.number then b.blk == a.blk && b.states == a.states
        else Rewind.Restart(g.store, g.genesis, g.q, a.states, b.hdr, b.blk, b.states))
    && b.snap == SnapFollows(g.bodies, g.genesis, b.hdr, a.snap)
    && b.t == Lowered(a.t, b.blk, Forces(g.frozen, g.q.pivot, b.blk))
  }

  ghost predicate StepAt(g: Ground, course: seq<Point>, i: nat)
    requires i + 1 < |course|
  {
    StepsTo(g, course[i], course[i + 1])
  }

  /** A course that starts in `a`, takes nothing but such steps, and ends in `b`. */
  ghost predicate IsCourse(g: Ground, course: seq<Point>, a: Point, b: Point) {
    && course != [] && course[0] == a && course[|course| - 1] == b
    && forall i {:trigger StepAt(g, course, i)} | 0 <= i && i + 1 < |course| :: StepAt(g, course, i)
  }

  lemma CourseGoesOn(g: Ground, course: seq<Point>, a: Point, b: Point, c: Point)
    requires IsCourse(g, course, a, b) && StepsTo(g, b, c)
    ensures IsCourse(g, course + [c], a, c)
  {
    var longer := course + [c];
    forall i | 0 <= i && i + 1 < |longer| ensures StepAt(g, longer, i) {
      if i + 1 < |course| {
        assert StepAt(g, course, i);
      }
    }
  }

  /** What the flush at the end of a step leaves: the headers as they were, and the markers
      of the stop reached. */
  function Flush(store: Store, p: Point): Boundary {
    Boundary(store, p.hdr.hash, p.blk.hash, p.snap.hash)
  }

  /** One flush for each stop but the first. */
  ghost predicate Flushes(store: Store, course: seq<Point>, bounds: seq<Boundary>) {
    course != [] && bounds == seq(|course| - 1, i requires 0 <= i < |course| - 1 => Flush(store, course[i + 1]))
  }

  lemma FlushGoesOn(store: Store, course: seq<Point>, bounds: seq<Boundary>, c: Point)
    requires Flushes(store, course, bounds)
    ensures Flushes(store, course + [c], bounds + [Flush(store, c)])
  {
  }
}
