/** Incremental snapshot files: the continuity of their block ranges, and the status lists
    in which their progress is recorded. */
module IncrDownload {
  import opened Wrappers
  import opened Gas

  /** A snapshot file: its name is a prefix and the block range. */
  datatype File = File(prefix: string, start: int, end: int)

  // ---------------------------------------------------------------------------------
  // Continuity
  // ---------------------------------------------------------------------------------

  predicate Continues(files: seq<File>, i: nat)
    requires i + 1 < |files|
  {
    files[i + 1].start == Wrap64(files[i].end + 1)
  }

  ghost predicate Continuous(files: seq<File>) {
    forall i {:trigger Continues(files, i)} | 0 <= i && i + 1 < |files| :: Continues(files, i)
  }

  /** checkFileContinuity. */
  method CheckFileContinuity(files: seq<File>) returns (ok: bool)
    ensures ok <==> Continuous(files)
  {
    if |files| == 0 {
      return true;
    }
    for i := 1 to |files|
      invariant forall j {:trigger Continues(files, j)} | 0 <= j && j + 1 < i :: Continues(files, j)
    {
      var expectedStart := Wrap64(files[i - 1].end + 1);
      assert Continues(files, i - 1) <==> files[i].start == expectedStart;
      if files[i].start != expectedStart {
        return false;
      }
    }
    return true;
  }

  /** 64-bit ranges that are not empty. */
  predicate Ranged(files: seq<File>) {
    forall i | 0 <= i < |files| :: 0 <= files[i].start <= files[i].end <= UINT64_MAX
  }

  predicate Follows(files: seq<File>, i: nat)
    requires i + 1 < |files|
  {
    files[i + 1].start == files[i].end + 1
  }

  /** Each file begins right after the one before it. */
  ghost predicate GapFree(files: seq<File>) {
    forall i {:trigger Follows(files, i)} | 0 <= i && i + 1 < |files| :: Follows(files, i)
  }

  /** No file but the last ends at the largest block number. */
  predicate NoWrap(files: seq<File>) {
    forall i | 0 <= i < |files| - 1 :: files[i].end != UINT64_MAX
  }

  /** The check is made in 64 bits: what it accepts is gap-free exactly when no file but
      the last ends at the largest number, where a file starting at 0 would be let by. */
  lemma ContinuousIsGapFree(files: seq<File>)
    requires Continuous(files) && Ranged(files)
    ensures GapFree(files) <==> NoWrap(files)
  {
    forall i | 0 <= i && i + 1 < |files| ensures Follows(files, i) <==> files[i].end != UINT64_MAX {
      assert Continues(files, i);
      WrapNext(files[i].end);
    }
    if GapFree(files) {
      forall i | 0 <= i < |files| - 1 ensures files[i].end != UINT64_MAX {
        assert Follows(files, i);
      }
    }
  }

  lemma WrapNext(x: Uint64)
    ensures Wrap64(x + 1) == if x == UINT64_MAX then 0 else x + 1
  {
    if x == UINT64_MAX {
      ModShift(0, 1);
    }
  }

  /** A gap-free list of ranges has its starts in strictly increasing order. */
  lemma {:induction false} StartsIncrease(files: seq<File>, i: nat, j: nat)
    requires GapFree(files) && Ranged(files) && i < j < |files|
    ensures files[i].end < files[j].start
    decreases j
  {
    assert Follows(files, j - 1);
    if i < j - 1 {
      StartsIncrease(files, i, j - 1);
    }
  }

  // ---------------------------------------------------------------------------------
  // Status lists
  // ---------------------------------------------------------------------------------

  function AddOnce(list: seq<File>, f: File): seq<File> {
    if f in list then list else list + [f]
  }

  function Without(list: seq<File>, f: File): seq<File> {
    if list == [] then []
    else
      var k := |list| - 1;
      Without(list[..k], f) + if list[k] != f then [list[k]] else []
  }

  lemma {:induction false} WithoutMembers(list: seq<File>, f: File, g: File)
    ensures g in Without(list, f) <==> g in list && g != f
  {
    if list != [] {
      var k := |list| - 1;
      WithoutMembers(list[..k], f, g);
      assert list == list[..k] + [list[k]];
    }
  }

  /** The marking half of the markFileAs functions. */
  method Mark(list: seq<File>, f: File) returns (r: seq<File>)
    ensures r == AddOnce(list, f)
  {
    var found := false;
    for i := 0 to |list|
      invariant !found && f !in list[..i]
    {
      if list[i] == f {
        found := true;
        break;
      }
      assert list[..i + 1] == list[..i] + [list[i]];
    }
    assert list[..|list|] == list;
    r := list;
    if !found {
      r := list + [f];
    }
  }

  /** The removal loops. */
  method Unmark(list: seq<File>, f: File) returns (r: seq<File>)
    ensures r == Without(list, f)
  {
    r := [];
    for i := 0 to |list|
      invariant r == Without(list[..i], f)
    {
      assert list[..i + 1][..i] == list[..i];
      if list[i] != f {
        r := r + [list[i]];
      }
    }
    assert list[..|list|] == list;
  }
}
