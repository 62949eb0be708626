/** The other half of the download protocol's safety: a list with a repeated start has an
    unsafe interleaving, even of a single download worker, so distinct starts are exactly
    what safety needs. */
module IncrConverse {
  import opened Wrappers
  import opened Gas
  import opened IncrDownload
  import opened IncrProtocol

  // ---------------------------------------------------------------------------------
  // Workers
  // ---------------------------------------------------------------------------------

  /** The file is in the hands of a download worker. */
  predicate Busy(t: Stage) { t != Waiting && t != Failed && t != Queued }

  function InHand(s: State): set<nat> {
    set i: nat | i < |s.stage| && Busy(s.stage[i])
  }

  /** A run of so many download workers: no more files than workers are in hand at a time. */
  ghost predicate IsStaffedRun(files: seq<File>, workers: nat, actions: seq<Action>, states: seq<State>) {
    IsRun(files, actions, states) && forall s | s in states :: |InHand(s)| <= workers
  }

  /** Every interleaving of so many workers is safe at every point. */
  ghost predicate AlwaysSafe(files: seq<File>, workers: nat) {
    forall actions: seq<Action>, states: seq<State>, n: nat |
      IsStaffedRun(files, workers, actions, states) && n <= |actions| ::
      Safe(files, states[n])
  }

  /** All files but `j` are untouched or done with. */
  predicate OnlyBusy(s: State, j: nat) {
    forall k | 0 <= k < |s.stage| && k != j :: !Busy(s.stage[k])
  }

  lemma OneInHand(s: State, j: nat)
    requires OnlyBusy(s, j)
    ensures |InHand(s)| <= 1
  {
    assert InHand(s) <= {j};
    SubsetOfOne(InHand(s), j);
  }

  lemma SubsetOfOne(xs: set<nat>, x: nat)
    requires xs <= {x}
    ensures |xs| <= 1
  {
    if xs != {} {
      assert xs == {x};
    }
  }

  /** Some interleaving of one worker from a fresh start ends in `s`. */
  ghost predicate Reached(files: seq<File>, s: State) {
    exists actions: seq<Action>, states: seq<State> :: IsStaffedRun(files, 1, actions, states) && states[|actions|] == s
  }

  lemma StartReached(files: seq<File>)
    requires files != []
    ensures Reached(files, Init(files))
  {
    OneInHand(Init(files), 0);
    assert IsStaffedRun(files, 1, [], [Init(files)]);
  }

  /** One action more, of the merge worker or the worker of file `j`. */
  lemma StepReached(files: seq<File>, s: State, a: Action, j: nat)
    requires Reached(files, s) && Named(files, s) && Enabled(files, s, a) && OnlyBusy(Next(files, s, a), j)
    ensures Reached(files, Next(files, s, a))
  {
    var actions: seq<Action>, states: seq<State> :| IsStaffedRun(files, 1, actions, states) && states[|actions|] == s;
    var t := Next(files, s, a);
    OneInHand(t, j);
    RunGoesOn(files, actions, states, a);
    assert IsStaffedRun(files, 1, actions + [a], states + [t]) && (states + [t])[|actions + [a]|] == t;
  }

  lemma RunGoesOn(files: seq<File>, actions: seq<Action>, states: seq<State>, a: Action)
    requires IsRun(files, actions, states)
    requires Named(files, states[|actions|]) && Enabled(files, states[|actions|], a)
    ensures IsRun(files, actions + [a], states + [Next(files, states[|actions|], a)])
  {
    var acts, ss := actions + [a], states + [Next(files, states[|actions|], a)];
    forall i | 0 <= i < |acts|
      ensures Named(files, ss[i]) && Enabled(files, ss[i], acts[i]) && ss[i + 1] == Next(files, ss[i], acts[i])
    {
      if i < |actions| {
        assert ss[i] == states[i] && ss[i + 1] == states[i + 1] && acts[i] == actions[i];
      }
    }
  }

  // ---------------------------------------------------------------------------------
  // One file through the worker
  // ---------------------------------------------------------------------------------

  /** The merge side of two states agrees. */
  predicate SameBooks(s: State, t: State) {
    && t.lock == s.lock && t.ready == s.ready && t.flagged == s.flagged
    && t.expected == s.expected && t.applied == s.applied && t.merger == s.merger
  }

  /** From the channel to the download list. */
  lemma StartFile(files: seq<File>, s: State, j: nat) returns (t: State)
    requires Reached(files, s) && Named(files, s) && NextInLine(s, j) && OnlyBusy(s, j)
    ensures Reached(files, t) && SameBooks(s, t) && t.stage == s.stage[j := Marked]
    ensures t.downloaded == s.downloaded && files[j] in t.toDownload
  {
    StepReached(files, s, Take(j), j);
    var s1 := Next(files, s, Take(j));
    StepReached(files, s1, MarkToDownload(j), j);
    t := Next(files, s1, MarkToDownload(j));
  }

  /** Until it is recorded. */
  lemma RecordFile(files: seq<File>, s: State, j: nat) returns (t: State)
    requires Reached(files, s) && Named(files, s) && At(s, j, Marked) && OnlyBusy(s, j)
    ensures Reached(files, t) && SameBooks(s, t) && t.stage == s.stage[j := Recorded]
    ensures t.downloaded == AddOnce(s.downloaded, files[j])
  {
    StepReached(files, s, Fetch(j, true), j);
    var s1 := Next(files, s, Fetch(j, true));
    StepReached(files, s1, MarkDownloaded(j), j);
    t := Next(files, s1, MarkDownloaded(j));
  }

  /** The map has this very file, under this or another number. */
  predicate Known(files: seq<File>, s: State, j: nat)
    requires j < |files|
  {
    files[j].start in s.ready && s.ready[files[j].start] < |files| && files[s.ready[files[j].start]] == files[j]
  }

  /** Skipped if the map has it. */
  lemma SkipFile(files: seq<File>, s: State, j: nat) returns (t: State)
    requires Reached(files, s) && Named(files, s) && At(s, j, Recorded) && OnlyBusy(s, j)
    requires s.lock.None? && Known(files, s, j)
    ensures Reached(files, t) && SameBooks(s, t) && t.stage == s.stage[j := Queued] && t.downloaded == s.downloaded
  {
    StepReached(files, s, Count(j), j);
    var s1 := Next(files, s, Count(j));
    StepReached(files, s1, Insert(j), j);
    t := Next(files, s1, Insert(j));
  }

  /** Otherwise put into the map, taking the merge lock. */
  lemma InsertFile(files: seq<File>, s: State, j: nat) returns (t: State)
    requires Reached(files, s) && Named(files, s) && At(s, j, Recorded) && OnlyBusy(s, j)
    requires s.lock.None? && !Known(files, s, j) && j !in s.flagged
    ensures Reached(files, t) && t.stage == s.stage[j := Inserted] && t.downloaded == s.downloaded
    ensures SameBooks(s.(ready := s.ready[files[j].start := j], lock := Some(j)), t)
  {
    StepReached(files, s, Count(j), j);
    var s1 := Next(files, s, Count(j));
    StepReached(files, s1, Insert(j), j);
    t := Next(files, s1, Insert(j));
  }

  /** And onto the list, giving the lock back. */
  lemma ListFile(files: seq<File>, s: State, j: nat) returns (t: State)
    requires Reached(files, s) && Named(files, s) && At(s, j, Inserted) && OnlyBusy(s, j)
    ensures Reached(files, t) && t.stage == s.stage[j := Queued] && t.downloaded == s.downloaded
    ensures SameBooks(s.(lock := None), t)
  {
    StepReached(files, s, MarkToMerge(j), j);
    var s1 := Next(files, s, MarkToMerge(j));
    StepReached(files, s1, Release(j), j);
    t := Next(files, s1, Release(j));
  }

  /** Either way it is queued, and the map has it under its start. */
  lemma QueueFile(files: seq<File>, s: State, j: nat) returns (t: State)
    requires Reached(files, s) && Named(files, s) && At(s, j, Recorded) && OnlyBusy(s, j)
    requires s.lock.None? && j !in s.flagged
    ensures Reached(files, t) && t.stage == s.stage[j := Queued] && t.downloaded == s.downloaded
    ensures SameBooks(s.(ready := if Known(files, s, j) then s.ready else s.ready[files[j].start := j]), t)
  {
    if Known(files, s, j) {
      t := SkipFile(files, s, j);
    } else {
      var s1 := InsertFile(files, s, j);
      t := ListFile(files, s1, j);
    }
  }

  // ---------------------------------------------------------------------------------
  // The merge worker
  // ---------------------------------------------------------------------------------

  /** No file is in hand, and the merge worker is with file `j`. */
  predicate Merging(files: seq<File>, s: State, j: nat) {
    |s.stage| == |files| && j < |files| && OnlyBusy(s, j) && !Busy(s.stage[j])
  }

  /** The merge worker takes the file whose start is the expected one. */
  lemma MergeFile(files: seq<File>, s: State, j: nat) returns (t: State)
    requires Reached(files, s) && Merging(files, s, j) && s.merger == Idle && s.lock.None?
    requires s.expected in s.ready && s.ready[s.expected] == j && j !in s.flagged
    ensures Reached(files, t) && t.stage == s.stage && t.downloaded == s.downloaded
    ensures SameBooks(s.(ready := s.ready - {s.expected}, applied := s.applied + [files[j]], merger := Applied(j)), t)
  {
    StepReached(files, s, Look, j);
    var s1 := Next(files, s, Look);
    StepReached(files, s1, Remove, j);
    var s2 := Next(files, s1, Remove);
    StepReached(files, s2, Merge(Done), j);
    t := Next(files, s2, Merge(Done));
  }

  /** It is flagged and listed as merged. */
  lemma FlagFile(files: seq<File>, s: State, j: nat) returns (t: State)
    requires Reached(files, s) && Merging(files, s, j) && s.merger == Applied(j)
    ensures Reached(files, t) && t.stage == s.stage && t.downloaded == s.downloaded
    ensures SameBooks(s.(flagged := s.flagged + {j}, merger := MarkedMerged(j)), t)
  {
    StepReached(files, s, SetFlag, j);
    var s1 := Next(files, s, SetFlag);
    StepReached(files, s1, MarkMerged, j);
    t := Next(files, s1, MarkMerged);
  }

  /** It is counted, and the merge worker moves on. */
  lemma CountFile(files: seq<File>, s: State, j: nat) returns (t: State)
    requires Reached(files, s) && Merging(files, s, j) && s.merger == MarkedMerged(j)
    ensures Reached(files, t) && t.stage == s.stage && t.downloaded == s.downloaded
    ensures SameBooks(s.(merger := CountedMerged(j)), t)
  {
    StepReached(files, s, CountMerged, j);
    t := Next(files, s, CountMerged);
  }

  lemma LeaveFile(files: seq<File>, s: State, j: nat) returns (t: State)
    requires Reached(files, s) && Merging(files, s, j) && s.merger == CountedMerged(j)
    ensures Reached(files, t) && t.stage == s.stage && t.downloaded == s.downloaded
    ensures SameBooks(s.(expected := Wrap64(files[j].end + 1), merger := Idle), t)
  {
    StepReached(files, s, Advance, j);
    t := Next(files, s, Advance);
  }

  // ---------------------------------------------------------------------------------
  // A run
  // ---------------------------------------------------------------------------------

  /** The first `i` files are merged, those up to `n` queued, all others still waiting. */
  ghost predicate Paused(files: seq<File>, s: State, i: nat, n: nat) {
    && files != [] && i <= n <= |files| == |s.stage| && s.merger == Idle && s.lock.None?
    && (forall j :: j in s.flagged <==> 0 <= j < i)
    && (forall x | x in s.ready :: i <= s.ready[x] < n)
    && s.expected == StartOf(files, i) && s.applied == files[..i]
    && (forall k | 0 <= k < |files| :: s.stage[k] == if k < n then Queued else Waiting)
    && (forall k | 0 <= k < n :: files[k] in s.downloaded)
  }

  /** The worker brings in the next file. Nothing else changes but the map, where the file
      now stands under its start. */
  lemma QueueNext(files: seq<File>, s: State, i: nat, n: nat) returns (t: State)
    requires Reached(files, s) && Paused(files, s, i, n) && n < |files|
    ensures Reached(files, t) && Paused(files, t, i, n + 1)
    ensures Known(files, t, n)
    ensures s.ready == map[] ==> t.ready == map[files[n].start := n]
  {
    var s1 := StartFile(files, s, n);
    var s2 := RecordFile(files, s1, n);
    t := QueueFile(files, s2, n);
  }

  /** And so on up to file `j`. */
  lemma {:induction false} QueueUpTo(files: seq<File>, s: State, i: nat, n: nat, j: nat) returns (t: State)
    requires Reached(files, s) && Paused(files, s, i, n) && n <= j < |files|
    ensures Reached(files, t) && Paused(files, t, i, j + 1) && Known(files, t, j)
    decreases j - n
  {
    t := QueueNext(files, s, i, n);
    if n < j {
      t := QueueUpTo(files, t, i, n + 1, j);
    }
  }

  /** Every file before `i` queued and merged by itself. */
  lemma {:induction false} MergePrefix(files: seq<File>, i: nat) returns (s: State)
    requires files != [] && Continuous(files) && i < |files|
    ensures Reached(files, s) && Paused(files, s, i, i) && s.ready == map[]
  {
    if i == 0 {
      StartReached(files);
      s := Init(files);
      assert files[..0] == [];
    } else {
      var k := i - 1;
      var s0 := MergePrefix(files, k);
      var s1 := QueueNext(files, s0, k, k);
      var s2 := MergeFile(files, s1, k);
      var s3 := FlagFile(files, s2, k);
      var s4 := CountFile(files, s3, k);
      s := LeaveFile(files, s4, k);
      assert s.ready == map[];
      PausedNext(files, s1, s, k);
    }
  }

  lemma PausedNext(files: seq<File>, s: State, t: State, k: nat)
    requires Continuous(files) && Paused(files, s, k, k + 1) && k + 1 < |files| && t.stage == s.stage && t.ready == map[]
    requires t.downloaded == s.downloaded
    requires SameBooks(s.(ready := map[], applied := s.applied + [files[k]], flagged := s.flagged + {k},
                          expected := Wrap64(files[k].end + 1)), t)
    ensures Paused(files, t, k + 1, k + 1)
  {
    assert Continues(files, k);
    assert files[..k + 1] == files[..k] + [files[k]];
  }

  /** Two different files with one start: the worker brings in both before the merge worker
      looks, and the later one is merged in the earlier one's place. */
  lemma SameStartBreaksOrder(files: seq<File>, i: nat, j: nat) returns (s: State)
    requires Continuous(files) && i < j < |files| && files[i].start == files[j].start && files[i] != files[j]
    ensures Reached(files, s) && s.applied == files[..i] + [files[j]] && !Safe(files, s)
  {
    var s0 := MergePrefix(files, i);
    var s1 := QueueUpTo(files, s0, i, i, j);
    s := MergeFile(files, s1, s1.ready[files[j].start]);
    assert s.applied[i] == files[j];
  }

  /** One file listed twice: while one copy is downloaded the other is marked for download
      again. */
  lemma SameFileBreaksLists(files: seq<File>, i: nat, j: nat) returns (s: State)
    requires i < j < |files| && files[i] == files[j]
    ensures Reached(files, s) && files[j] in s.toDownload && files[j] in s.downloaded && !Safe(files, s)
  {
    StartReached(files);
    assert files[..0] == [];
    var s0 := QueueUpTo(files, Init(files), 0, 0, j - 1);
    s := StartFile(files, s0, j);
    assert files[i] in s.downloaded;
  }

  /** A repeated start - which the continuity check lets by only after a wrap - always has an
      unsafe interleaving. */
  lemma RepeatedStartIsUnsafe(files: seq<File>, workers: nat, i: nat, j: nat)
    requires Continuous(files) && workers > 0 && i < j < |files| && files[i].start == files[j].start
    ensures !AlwaysSafe(files, workers)
  {
    var s;
    if files[i] == files[j] {
      s := SameFileBreaksLists(files, i, j);
    } else {
      s := SameStartBreaksOrder(files, i, j);
    }
    var actions: seq<Action>, states: seq<State> :| IsStaffedRun(files, 1, actions, states) && states[|actions|] == s;
    assert IsStaffedRun(files, workers, actions, states) && !Safe(files, states[|actions|]);
  }

  /** For a continuity-checked list and any number of download workers, every interleaving is
      safe at every point if and only if no two files start at the same block. */
  lemma SafeIffDistinctStarts(files: seq<File>, workers: nat)
    requires files != [] && Continuous(files) && workers > 0
    ensures AlwaysSafe(files, workers) <==> DistinctStarts(files)
  {
    if DistinctStarts(files) {
      forall actions: seq<Action>, states: seq<State>, n: nat |
        IsStaffedRun(files, workers, actions, states) && n <= |actions|
        ensures Safe(files, states[n])
      {
        RunsAreSafe(files, actions, states, n);
      }
    } else {
      var i, j :| 0 <= i < j < |files| && files[i].start == files[j].start;
      RepeatedStartIsUnsafe(files, workers, i, j);
    }
  }
}
