/** Downloading and merging incremental snapshots: several download workers, one merge
    worker, two locks and four status lists. Files must be merged in order, each once,
    whatever the interleaving.

    Every action is one stretch of the program between two points where another worker can
    interfere: a critical section, or the work outside the locks. A file is taken from the
    channel by one worker and followed by it to the merge queue, so the position of that
    worker in its code is kept per file; there may be any number of workers. */
module IncrProtocol {
  import opened Wrappers
  import opened Gas
  import opened IncrDownload

  /** Where the worker of a file stands. From Inserted until Queued it holds the merge lock. */
  datatype Stage =
    | Waiting | Taken | Marked | Fetched | Failed
    | Recorded | Counted | Inserted | Listed | Queued

  datatype ExitReason = AllProcessed | MergeFailed | LastIncomplete | Cancelled

  /** Where the merge worker stands, and with which file. */
  datatype Merger =
    | Idle
    | Missing
    | Found(file: nat)
    | Removed(file: nat)
    | Applied(file: nat)
    | Flagged(file: nat)
    | MarkedMerged(file: nat)
    | CountedMerged(file: nat)
    | Exited(reason: ExitReason)

  datatype State = State(
    stage: seq<Stage>,
    ready: map<int, nat>,
    toDownload: seq<File>, downloaded: seq<File>, toMerge: seq<File>, merged: seq<File>,
    downloadedCount: nat, mergedCount: nat,
    expected: int,
    flagged: set<nat>,
    lock: Option<nat>,
    merger: Merger,
    applied: seq<File>)

  datatype MergeResult = Done | Error | Incomplete

  datatype Action =
    | Take(i: nat)
    | MarkToDownload(i: nat)
    | Fetch(i: nat, ok: bool)
    | MarkDownloaded(i: nat)
    | Count(i: nat)
    | Insert(i: nat)
    | MarkToMerge(i: nat)
    | Release(i: nat)
    | Look
    | CheckCounts
    | Remove
    | Merge(result: MergeResult)
    | SetFlag
    | MarkMerged
    | CountMerged
    | Advance
    | Cancel

  /** A fresh start: all files listed for download, nothing else done. */
  function Init(files: seq<File>): State
    requires files != []
  {
    State(seq(|files|, _ => Waiting), map[], files, [], [], [], 0, 0, files[0].start, {}, None, Idle, [])
  }

  predicate At(s: State, i: nat, stage: Stage) {
    i < |s.stage| && s.stage[i] == stage
  }

  /** Files leave the channel in the order they were sent. */
  predicate NextInLine(s: State, i: nat) {
    At(s, i, Waiting) && forall j | 0 <= j < i && j < |s.stage| :: s.stage[j] != Waiting
  }

  predicate Enabled(files: seq<File>, s: State, a: Action) {
    match a
    case Take(i) => NextInLine(s, i)
    case MarkToDownload(i) => At(s, i, Taken)
    case Fetch(i, _) => At(s, i, Marked)
    case MarkDownloaded(i) => At(s, i, Fetched)
    case Count(i) => At(s, i, Recorded)
    case Insert(i) => At(s, i, Counted) && s.lock.None?
    case MarkToMerge(i) => At(s, i, Inserted)
    case Release(i) => At(s, i, Listed)
    case Look => s.merger == Idle && s.lock.None?
    case CheckCounts => s.merger == Missing
    case Remove => s.merger.Found? && s.lock.None?
    case Merge(result) => s.merger.Removed? && (result == Incomplete ==> s.mergedCount + 1 == |files|)
    case SetFlag => s.merger.Applied?
    case MarkMerged => s.merger.Flagged?
    case CountMerged => s.merger.MarkedMerged?
    case Advance => s.merger.CountedMerged?
    case Cancel => s.merger == Idle
  }

  function Put(s: State, i: nat, stage: Stage): State
    requires i < |s.stage|
  {
    s.(stage := s.stage[i := stage])
  }

  /** The merge worker has applied its file and not yet moved on. */
  predicate Finishing(m: Merger) { m.Applied? || m.Flagged? || m.MarkedMerged? || m.CountedMerged? }

  /** The file the merge worker names exists. */
  predicate Named(files: seq<File>, s: State) {
    |s.stage| == |files| && (Finishing(s.merger) || s.merger.Found? || s.merger.Removed? ==> s.merger.file < |files|)
  }

  function Next(files: seq<File>, s: State, a: Action): State
    requires Named(files, s) && Enabled(files, s, a)
  {
    match a
    case Take(i) => Put(s, i, Taken)
    case MarkToDownload(i) => Put(s, i, Marked).(toDownload := AddOnce(s.toDownload, files[i]))
    case Fetch(i, ok) => Put(s, i, if ok then Fetched else Failed)
    case MarkDownloaded(i) =>
      Put(s, i, Recorded).(downloaded := AddOnce(s.downloaded, files[i]), toDownload := Without(s.toDownload, files[i]))
    case Count(i) => Put(s, i, Counted).(downloadedCount := s.downloadedCount + 1)
    case Insert(i) =>
      // Already in the map under this name, or already merged: nothing is queued.
      if (files[i].start in s.ready && s.ready[files[i].start] < |files| && files[s.ready[files[i].start]] == files[i]) || i in s.flagged
      then Put(s, i, Queued)
      else Put(s, i, Inserted).(ready := s.ready[files[i].start := i], lock := Some(i))
    case MarkToMerge(i) => Put(s, i, Listed).(toMerge := AddOnce(s.toMerge, files[i]))
    case Release(i) => Put(s, i, Queued).(lock := None)
    case Look => s.(merger := if s.expected in s.ready then Found(s.ready[s.expected]) else Missing)
    case CheckCounts =>
      s.(merger := if s.mergedCount == s.downloadedCount && s.downloadedCount == |files| then Exited(AllProcessed) else Idle)
    case Remove =>
      var i := s.merger.file;
      if i in s.flagged then s.(ready := s.ready - {s.expected}, expected := Wrap64(files[i].end + 1), merger := Idle)
      else s.(ready := s.ready - {s.expected}, merger := Removed(i))
    case Merge(result) =>
      var i := s.merger.file;
      if result == Done then s.(merger := Applied(i), applied := s.applied + [files[i]])
      else s.(merger := Exited(if result == Error then MergeFailed else LastIncomplete))
    case SetFlag => s.(flagged := s.flagged + {s.merger.file}, merger := Flagged(s.merger.file))
    case MarkMerged =>
      var f := files[s.merger.file];
      s.(merged := AddOnce(s.merged, f), toMerge := Without(s.toMerge, f), merger := MarkedMerged(s.merger.file))
    case CountMerged => s.(mergedCount := s.mergedCount + 1, merger := CountedMerged(s.merger.file))
    case Advance => s.(expected := Wrap64(files[s.merger.file].end + 1), merger := Idle)
    case Cancel => s.(merger := Exited(Cancelled))
  }

  // ---------------------------------------------------------------------------------
  // The invariant
  // ---------------------------------------------------------------------------------

  predicate Fetching(t: Stage) { t == Waiting || t == Taken || t == Marked || t == Fetched || t == Failed }

  predicate InMap(t: Stage) { t == Inserted || t == Listed || t == Queued }

  /** The merge worker has taken `i` out of the map. */
  predicate Gone(s: State, i: nat) {
    i < |s.applied|
    || (i == |s.applied| && (s.merger.Removed? || s.merger == Exited(MergeFailed) || s.merger == Exited(LastIncomplete)))
  }

  /** What the lists, the map and the lock say about one file, given its worker's position
      and the merge worker's progress. */
  predicate FileOk(files: seq<File>, s: State, i: nat)
    requires i < |files| == |s.stage|
  {
    var t, f := s.stage[i], files[i];
    && (f in s.toDownload <==> Fetching(t))
    && (f in s.downloaded <==> !Fetching(t))
    && (f in s.toMerge <==> (t == Listed || t == Queued) && i >= |s.merged|)
    && (f.start in s.ready <==> InMap(t) && !Gone(s, i))
    && (s.lock == Some(i) <==> t == Inserted || t == Listed)
    && (Gone(s, i) ==> t == Queued)
  }

  /** The start of file `k`; past the list, the block after the last file. */
  function StartOf(files: seq<File>, k: nat): int
    requires k <= |files| && files != []
  {
    if k < |files| then files[k].start else Wrap64(files[|files| - 1].end + 1)
  }

  /** The merge worker's books: how far it has come, by its position in the code. */
  ghost predicate MergerOk(files: seq<File>, s: State)
    requires files != []
  {
    var k, m := |s.applied|, s.merger;
    var reached := if Finishing(m) then k - 1 else k;
    && reached >= 0 && k <= |files| && s.applied == files[..k]
    && (Finishing(m) ==> m.file == k - 1)
    && (m.Found? || m.Removed? ==> m.file == k < |files|)
    && s.merged == files[..if m.Applied? || m.Flagged? then k - 1 else k]
    && s.mergedCount == (if m.Applied? || m.Flagged? || m.MarkedMerged? then k - 1 else k)
    && (forall j :: j in s.flagged <==> 0 <= j < if m.Applied? then k - 1 else k)
    && s.expected == StartOf(files, reached)
    && (m.Found? ==> At(s, k, Queued) && s.expected in s.ready)
    && (m == Exited(AllProcessed) ==> k == |files|)
  }

  /** The worker of the file has counted it as downloaded. */
  predicate Past(t: Stage) { t == Counted || InMap(t) }

  function CountPast(stages: seq<Stage>): (n: nat)
    ensures n <= |stages|
  {
    if stages == [] then 0
    else CountPast(stages[..|stages| - 1]) + if Past(stages[|stages| - 1]) then 1 else 0
  }

  lemma {:induction false} CountAfter(stages: seq<Stage>, i: nat, t: Stage)
    requires i < |stages|
    ensures CountPast(stages[i := t])
            == CountPast(stages) - (if Past(stages[i]) then 1 else 0) + if Past(t) then 1 else 0
  {
    var k := |stages| - 1;
    if i < k {
      CountAfter(stages[..k], i, t);
      assert stages[i := t][..k] == stages[..k][i := t];
    } else {
      assert stages[i := t][..k] == stages[..k];
    }
  }

  lemma {:induction false} CountAll(stages: seq<Stage>)
    requires forall i | 0 <= i < |stages| :: Past(stages[i])
    ensures CountPast(stages) == |stages|
  {
    if stages != [] {
      CountAll(stages[..|stages| - 1]);
    }
  }

  lemma {:induction false} CountNone(stages: seq<Stage>)
    requires forall i | 0 <= i < |stages| :: !Past(stages[i])
    ensures CountPast(stages) == 0
  {
    if stages != [] {
      CountNone(stages[..|stages| - 1]);
    }
  }

  ghost predicate Inv(files: seq<File>, s: State) {
    && files != [] && |s.stage| == |files|
    && s.downloadedCount == CountPast(s.stage)
    && (forall i | 0 <= i < |files| :: FileOk(files, s, i))
    && (forall x | x in s.ready :: s.ready[x] < |files| && files[s.ready[x]].start == x)
    && (forall f | f in s.toDownload :: f in files)
    && MergerOk(files, s)
  }

  /** No two files start at the same block. */
  predicate DistinctStarts(files: seq<File>) {
    forall i, j | 0 <= i < j < |files| :: files[i].start != files[j].start
  }

  /** The file list of a run: continuity-checked, no start twice. */
  ghost predicate Sequence(files: seq<File>) {
    files != [] && Continuous(files) && DistinctStarts(files)
  }

  /** Without a wrap the ranges follow each other, so no start comes twice. */
  lemma NoWrapIsDistinct(files: seq<File>)
    requires Continuous(files) && Ranged(files) && NoWrap(files)
    ensures DistinctStarts(files)
  {
    ContinuousIsGapFree(files);
    forall i, j | 0 <= i < j < |files| ensures files[i].start != files[j].start {
      StartsIncrease(files, i, j);
    }
  }

  lemma InitInv(files: seq<File>)
    requires files != []
    ensures Inv(files, Init(files))
  {
    var s := Init(files);
    forall i | 0 <= i < |files| ensures FileOk(files, s, i) {
      assert files[i] in files;
    }
    assert files[..0] == [];
    CountNone(s.stage);
  }

  // ---------------------------------------------------------------------------------
  // Every action keeps it
  // ---------------------------------------------------------------------------------

  /** `t` differs from `s` in what download workers may change only. */
  predicate MergerSame(s: State, t: State) {
    && t.applied == s.applied && t.merger == s.merger && t.merged == s.merged && t.mergedCount == s.mergedCount
    && t.flagged == s.flagged && t.expected == s.expected && |t.stage| == |s.stage|
    && (forall j | 0 <= j < |s.stage| && s.stage[j] == Queued :: t.stage[j] == Queued)
    && (s.expected in s.ready ==> s.expected in t.ready)
  }

  lemma MergerUndisturbed(files: seq<File>, s: State, t: State)
    requires files != [] && MergerOk(files, s) && MergerSame(s, t)
    ensures MergerOk(files, t)
  {
  }

  /** One worker moves and the lists change for its file only: no other file is affected. */
  lemma OthersUnaffected(files: seq<File>, s: State, t: State, i: nat)
    requires |s.stage| == |files| && i < |files| && (forall j | 0 <= j < |files| :: FileOk(files, s, j))
    requires MergerSame(s, t) && (forall j | 0 <= j < |files| && j != i :: t.stage[j] == s.stage[j])
    requires forall f | f != files[i] ::
      && (f in t.toDownload <==> f in s.toDownload)
      && (f in t.downloaded <==> f in s.downloaded)
      && (f in t.toMerge <==> f in s.toMerge)
    requires forall x | x != files[i].start :: x in t.ready <==> x in s.ready
    requires forall j | 0 <= j < |files| && j != i :: files[j].start != files[i].start && (t.lock == Some(j) <==> s.lock == Some(j))
    requires FileOk(files, t, i)
    ensures forall j | 0 <= j < |files| :: FileOk(files, t, j)
  {
    forall j | 0 <= j < |files| ensures FileOk(files, t, j) {
      assert FileOk(files, s, j);
      if j != i {
        assert files[j] != files[i];
      }
    }
  }

  lemma ListMembers(list: seq<File>, f: File)
    ensures forall g | g != f :: g in AddOnce(list, f) <==> g in list
    ensures forall g | g != f :: g in Without(list, f) <==> g in list
    ensures f in AddOnce(list, f) && f !in Without(list, f)
  {
    forall g ensures g in Without(list, f) <==> g in list && g != f {
      WithoutMembers(list, f, g);
    }
  }

  /** Taking, fetching and counting touch no list. */
  lemma MoveStep(files: seq<File>, s: State, a: Action)
    requires Sequence(files) && Inv(files, s) && Enabled(files, s, a)
    requires a.Take? || a.Fetch? || a.Count?
    ensures Inv(files, Next(files, s, a))
  {
    var t := Next(files, s, a);
    assert FileOk(files, s, a.i);
    CountAfter(s.stage, a.i, t.stage[a.i]);
    OthersUnaffected(files, s, t, a.i);
    MergerUndisturbed(files, s, t);
  }

  lemma MarkToDownloadStep(files: seq<File>, s: State, i: nat)
    requires Sequence(files) && Inv(files, s) && Enabled(files, s, MarkToDownload(i))
    ensures Inv(files, Next(files, s, MarkToDownload(i)))
  {
    var t, f := Next(files, s, MarkToDownload(i)), files[i];
    ListMembers(s.toDownload, f);
    assert FileOk(files, s, i);
    assert FileOk(files, t, i);
    CountAfter(s.stage, i, t.stage[i]);
    OthersUnaffected(files, s, t, i);
    MergerUndisturbed(files, s, t);
  }

  lemma MarkDownloadedStep(files: seq<File>, s: State, i: nat)
    requires Sequence(files) && Inv(files, s) && Enabled(files, s, MarkDownloaded(i))
    ensures Inv(files, Next(files, s, MarkDownloaded(i)))
  {
    var t, f := Next(files, s, MarkDownloaded(i)), files[i];
    ListMembers(s.toDownload, f);
    ListMembers(s.downloaded, f);
    assert FileOk(files, s, i);
    assert FileOk(files, t, i);
    CountAfter(s.stage, i, t.stage[i]);
    OthersUnaffected(files, s, t, i);
    MergerUndisturbed(files, s, t);
  }

  lemma MarkToMergeStep(files: seq<File>, s: State, i: nat)
    requires Sequence(files) && Inv(files, s) && Enabled(files, s, MarkToMerge(i))
    ensures Inv(files, Next(files, s, MarkToMerge(i)))
  {
    var t, f := Next(files, s, MarkToMerge(i)), files[i];
    ListMembers(s.toMerge, f);
    assert FileOk(files, s, i);
    MergedWithinApplied(files, s);
    assert FileOk(files, t, i);
    CountAfter(s.stage, i, t.stage[i]);
    OthersUnaffected(files, s, t, i);
    MergerUndisturbed(files, s, t);
  }

  lemma MergedWithinApplied(files: seq<File>, s: State)
    requires files != [] && MergerOk(files, s)
    ensures |s.merged| <= |s.applied| <= |files|
    ensures forall i | i in s.flagged :: i < |s.applied|
  {
  }

  /** A file that reaches the queue is new to it: neither early return is taken. */
  lemma InsertIsNew(files: seq<File>, s: State, i: nat)
    requires Sequence(files) && Inv(files, s) && Enabled(files, s, Insert(i))
    ensures Next(files, s, Insert(i)) == Put(s, i, Inserted).(ready := s.ready[files[i].start := i], lock := Some(i))
  {
    assert FileOk(files, s, i);
    MergedWithinApplied(files, s);
  }

  lemma QueueStep(files: seq<File>, s: State, i: nat)
    requires Sequence(files) && Inv(files, s) && Enabled(files, s, Insert(i))
    ensures Inv(files, Next(files, s, Insert(i)))
    ensures Next(files, s, Insert(i)).stage[i] == Inserted
  {
    InsertIsNew(files, s, i);
    var t := Next(files, s, Insert(i));
    assert FileOk(files, s, i) && FileOk(files, t, i);
    CountAfter(s.stage, i, t.stage[i]);
    OthersUnaffected(files, s, t, i);
    MergerUndisturbed(files, s, t);
  }

  lemma ReleaseStep(files: seq<File>, s: State, i: nat)
    requires Sequence(files) && Inv(files, s) && Enabled(files, s, Release(i))
    ensures Inv(files, Next(files, s, Release(i)))
  {
    var t := Next(files, s, Release(i));
    assert FileOk(files, s, i) && FileOk(files, t, i);
    CountAfter(s.stage, i, t.stage[i]);
    OthersUnaffected(files, s, t, i);
    MergerUndisturbed(files, s, t);
  }

  /** The merge worker finds exactly the next file of the list, fully queued. */
  lemma LookStep(files: seq<File>, s: State)
    requires Sequence(files) && Inv(files, s) && Enabled(files, s, Look)
    ensures Inv(files, Next(files, s, Look))
  {
    var t := Next(files, s, Look);
    if s.expected in s.ready {
      var i := s.ready[s.expected];
      assert FileOk(files, s, i);
      assert i == |s.applied| by {
        assert !Gone(s, i);
      }
    }
    forall j | 0 <= j < |files| ensures FileOk(files, t, j) {
      assert FileOk(files, s, j);
    }
  }

  lemma RemoveStep(files: seq<File>, s: State)
    requires Sequence(files) && Inv(files, s) && Enabled(files, s, Remove)
    ensures Inv(files, Next(files, s, Remove))
  {
    var t := Next(files, s, Remove);
    MergedWithinApplied(files, s);
    assert t.merger == Removed(|s.applied|);
    forall j | 0 <= j < |files| ensures FileOk(files, t, j) {
      assert FileOk(files, s, j);
    }
  }

  lemma MergeStep(files: seq<File>, s: State, result: MergeResult)
    requires Sequence(files) && Inv(files, s) && Enabled(files, s, Merge(result))
    ensures Inv(files, Next(files, s, Merge(result)))
  {
    var t, k := Next(files, s, Merge(result)), |s.applied|;
    assert files[..k + 1] == files[..k] + [files[k]];
    forall j | 0 <= j < |files| ensures FileOk(files, t, j) {
      assert FileOk(files, s, j);
      assert Gone(t, j) <==> Gone(s, j);
    }
  }

  lemma MarkMergedStep(files: seq<File>, s: State)
    requires Sequence(files) && Inv(files, s) && Enabled(files, s, MarkMerged)
    ensures Inv(files, Next(files, s, MarkMerged))
  {
    var t, k := Next(files, s, MarkMerged), |s.applied| - 1;
    ListMembers(s.toMerge, files[k]);
    assert files[k] !in files[..k];
    assert files[..k + 1] == files[..k] + [files[k]];
    assert t.merged == files[..k + 1];
    forall j | 0 <= j < |files| ensures FileOk(files, t, j) {
      assert FileOk(files, s, j);
      if j != k {
        assert files[j] != files[k];
      }
    }
  }

  lemma AdvanceStep(files: seq<File>, s: State)
    requires Sequence(files) && Inv(files, s) && Enabled(files, s, Advance)
    ensures Inv(files, Next(files, s, Advance))
  {
    var t, k := Next(files, s, Advance), |s.applied|;
    if k < |files| {
      assert Continues(files, k - 1);
    }
    forall j | 0 <= j < |files| ensures FileOk(files, t, j) {
      assert FileOk(files, s, j);
    }
  }

  lemma IdleStep(files: seq<File>, s: State, a: Action)
    requires Sequence(files) && Inv(files, s) && Enabled(files, s, a)
    requires a.CheckCounts? || a.Cancel?
    ensures Inv(files, Next(files, s, a))
  {
    var t := Next(files, s, a);
    forall j | 0 <= j < |files| ensures FileOk(files, t, j) {
      assert FileOk(files, s, j);
    }
  }

  lemma BookStep(files: seq<File>, s: State, a: Action)
    requires Sequence(files) && Inv(files, s) && Enabled(files, s, a)
    requires a.SetFlag? || a.CountMerged?
    ensures Inv(files, Next(files, s, a))
  {
    var t := Next(files, s, a);
    forall j | 0 <= j < |files| ensures FileOk(files, t, j) {
      assert FileOk(files, s, j);
    }
  }

  /** The merge worker's exit test tells exactly whether everything has been merged. */
  lemma ExitTestIsExact(files: seq<File>, s: State)
    requires Sequence(files) && Inv(files, s) && s.merger == Missing
    ensures Next(files, s, CheckCounts).merger == Exited(AllProcessed) <==> s.applied == files
  {
    if |s.applied| == |files| {
      forall i | 0 <= i < |files| ensures Past(s.stage[i]) {
        assert FileOk(files, s, i) && Gone(s, i);
      }
      CountAll(s.stage);
      assert files[..|files|] == files;
    }
  }

  lemma StepInv(files: seq<File>, s: State, a: Action)
    requires Sequence(files) && Inv(files, s) && Enabled(files, s, a)
    ensures Inv(files, Next(files, s, a))
  {
    match a
    case Take(_) => MoveStep(files, s, a);
    case Fetch(_, _) => MoveStep(files, s, a);
    case Count(_) => MoveStep(files, s, a);
    case MarkToDownload(i) => MarkToDownloadStep(files, s, i);
    case MarkDownloaded(i) => MarkDownloadedStep(files, s, i);
    case MarkToMerge(i) => MarkToMergeStep(files, s, i);
    case Insert(i) => QueueStep(files, s, i);
    case Release(i) => ReleaseStep(files, s, i);
    case Look => LookStep(files, s);
    case Remove => RemoveStep(files, s);
    case Merge(result) => MergeStep(files, s, result);
    case MarkMerged => MarkMergedStep(files, s);
    case Advance => AdvanceStep(files, s);
    case CheckCounts => IdleStep(files, s, a);
    case SetFlag => BookStep(files, s, a);
    case CountMerged => BookStep(files, s, a);
    case Cancel => IdleStep(files, s, a);
  }

  // ---------------------------------------------------------------------------------
  // Every run
  // ---------------------------------------------------------------------------------

  /** `states` is a run of the protocol under the interleaving `actions`. */
  ghost predicate IsRun(files: seq<File>, actions: seq<Action>, states: seq<State>) {
    && files != [] && |states| == |actions| + 1 && states[0] == Init(files)
    && forall i | 0 <= i < |actions| ::
        Named(files, states[i]) && Enabled(files, states[i], actions[i]) && states[i + 1] == Next(files, states[i], actions[i])
  }

  /** What is promised between lock releases. */
  ghost predicate Safe(files: seq<File>, s: State) {
    // What has been merged is a prefix of the list, in order, each file once; no gaps.
    && s.applied <= files && (GapFree(files) ==> GapFree(s.applied))
    // The status lists are consistent.
    && s.merged <= s.applied
    && (forall f | f in s.merged :: f in s.downloaded && f !in s.toMerge)
    && (forall f | f in s.toDownload :: f !in s.downloaded)
    // The merge worker reports all files processed only when all have been merged.
    && (s.merger == Exited(AllProcessed) ==> s.applied == files && s.merged == files)
  }

  lemma InvIsSafe(files: seq<File>, s: State)
    requires Sequence(files) && Inv(files, s)
    ensures Safe(files, s)
  {
    MergedWithinApplied(files, s);
    var k, m := |s.applied|, |s.merged|;
    assert s.applied == files[..k] && s.merged == files[..m];
    if GapFree(files) {
      forall i | 0 <= i && i + 1 < k ensures Follows(s.applied, i) {
        assert Follows(files, i);
      }
    }
    forall f | f in s.merged ensures f in s.downloaded && f !in s.toMerge {
      var i :| 0 <= i < m && files[i] == f;
      assert FileOk(files, s, i) && Gone(s, i);
    }
    forall f | f in s.toDownload ensures f !in s.downloaded {
      var i :| 0 <= i < |files| && files[i] == f;
      assert FileOk(files, s, i);
    }
  }

  lemma {:induction false} RunInv(files: seq<File>, actions: seq<Action>, states: seq<State>, n: nat)
    requires Sequence(files) && IsRun(files, actions, states) && n <= |actions|
    ensures Inv(files, states[n])
  {
    if n == 0 {
      InitInv(files);
    } else {
      RunInv(files, actions, states, n - 1);
      StepInv(files, states[n - 1], actions[n - 1]);
    }
  }

  /** From a fresh start on a continuity-checked list without a repeated start, every
      interleaving is safe at every point. */
  lemma RunsAreSafe(files: seq<File>, actions: seq<Action>, states: seq<State>, n: nat)
    requires Continuous(files) && DistinctStarts(files) && IsRun(files, actions, states) && n <= |actions|
    ensures Safe(files, states[n])
  {
    RunInv(files, actions, states, n);
    InvIsSafe(files, states[n]);
  }

  /** In particular, merging is gap-free for ranges of which none but the last ends at the
      largest block number. */
  lemma RunsMergeWithoutGaps(files: seq<File>, actions: seq<Action>, states: seq<State>, n: nat)
    requires Continuous(files) && Ranged(files) && NoWrap(files) && IsRun(files, actions, states) && n <= |actions|
    ensures Safe(files, states[n]) && GapFree(states[n].applied)
  {
    NoWrapIsDistinct(files);
    ContinuousIsGapFree(files);
    RunsAreSafe(files, actions, states, n);
  }
}
