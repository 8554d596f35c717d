/** A job that writes a state and later merges another state over it: retrying it writes the first
    state again before merging, and still ends as one uninterrupted run. */
module TerminalJob {
  import opened Chain
  import opened Disk
  import opened Seqs

  /** The writes `output`, then `put`, then `merge`, then `rest`. */
  datatype Shape = Shape(output: seq<Write>, put: Write, merge: Write, rest: seq<Write>)

  ghost predicate Valid(j: Shape) {
    && j.put.PutState? && j.merge.MergeEpoch? && j.put.block == j.merge.terminal && j.merge.prev != j.merge.terminal
    && Consistent(First(j)) && Consistent(j.output + Second(j))
  }

  function First(j: Shape): seq<Write> {
    j.output + [j.put]
  }

  function Second(j: Shape): seq<Write> {
    [j.merge] + j.rest
  }

  function Writes(j: Shape): seq<Write> {
    First(j) + Second(j)
  }

  /** The disk with the state written back. */
  ghost function Unmerged(j: Shape, x: Disk): Disk
    requires Valid(j)
  {
    Exec(j.put, x).value
  }

  /** Merging again after writing the state back restores the disk. */
  lemma {:induction false} MergeAgain(j: Shape, x: Disk)
    requires Valid(j) && Done(j.merge, x)
    ensures Exec(j.merge, Unmerged(j, x)) == Ok(x)
    ensures Exec(j.put, Unmerged(j, x)) == Ok(Unmerged(j, x))
  {
    var back := Unmerged(j, x);
    MergeReads(j.merge.rules, x, back, j.merge.prev, j.merge.terminal);
    assert back.states[j.merge.terminal := x.states[j.merge.terminal]] == x.states;
    assert back.states[j.put.block := j.put.state] == back.states;
  }

  lemma {:induction false} OutputStays(j: Shape, x: Disk)
    requires Valid(j) && AllDone(j.output, x)
    ensures AllDone(j.output, Unmerged(j, x))
  {
    forall i | 0 <= i < |j.output| ensures Done(j.output[i], Unmerged(j, x)) {
      assert First(j)[i] == j.output[i] && First(j)[|j.output|] == j.put;
      DoneStays(j.output[i], j.put, x);
    }
  }

  /** `x` is the disk of a first attempt from `d` that got past the merge. */
  ghost predicate PastMerge(j: Shape, d: Disk, k: nat, x: Disk)
    requires Valid(j)
  {
    && Run(First(j), d).1.None?
    && 0 < k <= |Second(j)|
    && Exec(j.merge, Run(First(j), d).0).Ok?
    && x == Run(Second(j)[..k], Run(First(j), d).0).0
  }

  lemma {:induction false} FirstDone(j: Shape, d: Disk)
    requires Valid(j) && Run(First(j), d).1.None?
    ensures AllDone(j.output, Run(First(j), d).0)
  {
    FirstAttempt(First(j), |First(j)|, d);
    assert First(j)[..|First(j)|] == First(j);
    forall i | 0 <= i < |j.output| ensures Done(j.output[i], Run(First(j), d).0) {
      assert First(j)[i] == j.output[i];
    }
  }

  lemma {:induction false} PastMergeDone(j: Shape, d: Disk, k: nat, x: Disk)
    requires Valid(j) && PastMerge(j, d, k, x)
    ensures AllDone(j.output, x) && Done(j.merge, x)
  {
    var mid, ws := Run(First(j), d).0, Second(j)[..k];
    FirstDone(j, d);
    assert Consistent(j.output + ws) by {
      ConsistentPrefix(j.output + Second(j), |j.output| + k);
      assert (j.output + Second(j))[..|j.output| + k] == j.output + ws;
    }
    ReachDone(j.output, ws, mid);
    var n := Reach(ws, mid);
    assert ws[0] == j.merge && n > 0;
    var all := j.output + ws[..n];
    assert all[|j.output|] == j.merge;
    assert forall i :: 0 <= i < |j.output| ==> all[i] == j.output[i];
  }

  /** Every disk that crashed attempts from `d` can leave: that of an attempt cut off before the
      merge, or one past the merge, possibly with the state written back. */
  ghost predicate Left(j: Shape, d: Disk, y: Disk)
    requires Valid(j)
  {
    || (exists k: nat :: k <= |First(j)| && y == Run(First(j)[..k], d).0)
    || (exists k: nat, x :: PastMerge(j, d, k, x) && (y == x || y == Unmerged(j, x)))
  }

  /** An attempt from the start leaves such a disk. */
  lemma {:induction false} FreshAttempt(j: Shape, d: Disk, k: nat)
    requires Valid(j) && k <= |Writes(j)|
    ensures Left(j, d, Run(Writes(j)[..k], d).0)
  {
    var first := First(j);
    if k <= |first| {
      assert Writes(j)[..k] == first[..k];
    } else {
      var i := k - |first|;
      assert Writes(j)[..k] == first + Second(j)[..i];
      RunStops(first, Second(j)[..i], d);
      assert first[..|first|] == first;
      if Run(first, d).1.None? {
        var mid := Run(first, d).0;
        if Exec(j.merge, mid).Ok? {
          assert PastMerge(j, d, i, Run(Second(j)[..i], mid).0);
        } else {
          assert Second(j)[..i][0] == j.merge;
        }
      }
    }
  }

  /** An attempt after one that never got past the merge goes as one from the start. */
  lemma {:induction false} AttemptBeforeMerge(j: Shape, d: Disk, k: nat, m: nat)
    requires Valid(j) && k <= |First(j)| && m <= |Writes(j)|
    ensures
      var y := Run(First(j)[..k], d).0;
      && Left(j, d, Run(Writes(j)[..m], y).0)
      && Run(Writes(j), y) == Run(Writes(j), d)
  {
    var first := First(j);
    var y := Run(first[..k], d).0;
    TwoAttempts(first, k, |first|, d);
    assert first[..|first|] == first;
    RunStops(first, Second(j), y);
    RunStops(first, Second(j), d);
    if m <= |first| {
      assert Writes(j)[..m] == first[..m];
      TwoAttempts(first, k, m, d);
      assert Max(k, m) <= |first|;
    } else {
      var more := Second(j)[..m - |first|];
      assert Writes(j)[..m] == first + more;
      RunStops(first, more, y);
      RunStops(first, more, d);
      FreshAttempt(j, d, m);
    }
  }

  /** An attempt on a disk past the merge runs its output for nothing, writes the state back and
      merges it away again, and goes on from there. */
  lemma {:induction false} Replayed(j: Shape, x: Disk, y: Disk, more: seq<Write>)
    requires Valid(j) && AllDone(j.output, x) && Done(j.merge, x) && (y == x || y == Unmerged(j, x))
    ensures Run(First(j), y) == (Unmerged(j, x), None)
    ensures Run(First(j) + ([j.merge] + more), y) == Run(more, x)
  {
    MergeAgain(j, x);
    OutputStays(j, x);
    DoneRun(j.output, [j.put], y);
    RunTwo(j.put, j.merge, more, y, Unmerged(j, x), x);
    assert First(j) + ([j.merge] + more) == j.output + ([j.put] + ([j.merge] + more));
    DoneRun(j.output, [j.put] + ([j.merge] + more), y);
  }

  lemma {:induction false} RunTwo(v: Write, w: Write, more: seq<Write>, a: Disk, b: Disk, c: Disk)
    requires Exec(v, a) == Ok(b) && Exec(w, b) == Ok(c)
    ensures Run([v], a) == (b, None)
    ensures Run([v] + ([w] + more), a) == Run(more, c)
  {
    assert [v][1..] == [];
    assert ([v] + ([w] + more))[1..] == [w] + more && ([w] + more)[1..] == more;
    assert Run([v] + ([w] + more), a) == Run([w] + more, b);
  }

  lemma {:induction false} SecondConsistent(j: Shape)
    requires Valid(j)
    ensures Consistent(Second(j))
  {
    var n, second := |j.output|, Second(j);
    forall a, b | 0 <= a < b < |second| ensures Agree(second[a], second[b]) {
      assert second[a] == (j.output + second)[n + a] && second[b] == (j.output + second)[n + b];
    }
  }

  /** Going on with the rest from a disk past the merge is one longer first attempt. */
  lemma {:induction false} OnFromMerge(j: Shape, d: Disk, k: nat, x: Disk, i: nat)
    requires Valid(j) && PastMerge(j, d, k, x) && Done(j.merge, x) && i <= |j.rest|
    ensures Left(j, d, Run(j.rest[..i], x).0)
    ensures i + 1 >= k ==> Run(j.rest[..i], x) == Run(Second(j)[..i + 1], Run(First(j), d).0)
  {
    var mid, second := Run(First(j), d).0, Second(j);
    assert second[..i + 1] == [j.merge] + j.rest[..i];
    assert AllDone([j.merge], x);
    DoneRun([j.merge], j.rest[..i], x);
    SecondConsistent(j);
    TwoAttempts(second, k, i + 1, mid);
    assert PastMerge(j, d, Max(k, i + 1), Run(j.rest[..i], x).0);
  }

  lemma {:induction false} RetryPastMerge(j: Shape, d: Disk, k: nat, x: Disk, y: Disk)
    requires Valid(j) && PastMerge(j, d, k, x) && (y == x || y == Unmerged(j, x))
    ensures Run(Writes(j), y) == Run(Writes(j), d)
  {
    PastMergeDone(j, d, k, x);
    Replayed(j, x, y, j.rest);
    OnFromMerge(j, d, k, x, |j.rest|);
    assert j.rest[..|j.rest|] == j.rest && Second(j)[..|Second(j)|] == Second(j);
    RunStops(First(j), Second(j), d);
  }

  lemma {:induction false} AttemptPastMerge(j: Shape, d: Disk, k: nat, x: Disk, y: Disk, m: nat)
    requires Valid(j) && PastMerge(j, d, k, x) && (y == x || y == Unmerged(j, x)) && m <= |Writes(j)|
    ensures Left(j, d, Run(Writes(j)[..m], y).0)
  {
    PastMergeDone(j, d, k, x);
    var n := |j.output|;
    if m <= n {
      assert Writes(j)[..m] == j.output[..m];
      OutputStays(j, x);
      AppendEmpty(j.output[..m]);
      DoneRun(j.output[..m], [], y);
    } else if m == n + 1 {
      assert Writes(j)[..m] == First(j);
      Replayed(j, x, y, j.rest);
    } else {
      var i := m - n - 2;
      assert Writes(j)[..m] == First(j) + ([j.merge] + j.rest[..i]);
      Replayed(j, x, y, j.rest[..i]);
      OnFromMerge(j, d, k, x, i);
    }
  }

  /** Any number of crashed attempts leave such a disk, and the retry ends as one run. */
  lemma {:induction false} CrashLeft(j: Shape, d: Disk, y: Disk, cuts: seq<nat>)
    requires Valid(j) && Left(j, d, y) && Within(Writes(j), cuts)
    ensures Run(Writes(j), Crash(Writes(j), cuts, y)) == Run(Writes(j), d)
    decreases |cuts|
  {
    var m := if cuts == [] then 0 else cuts[0];
    if k: nat :| k <= |First(j)| && y == Run(First(j)[..k], d).0 {
      AttemptBeforeMerge(j, d, k, m);
    } else {
      var k: nat, x :| PastMerge(j, d, k, x) && (y == x || y == Unmerged(j, x));
      AttemptPastMerge(j, d, k, x, y, m);
      RetryPastMerge(j, d, k, x, y);
    }
    if cuts != [] {
      CrashLeft(j, d, Run(Writes(j)[..m], y).0, cuts[1..]);
    }
  }

  /** A retry after any crashes ends as one uninterrupted run, whatever the merge makes of the
      state. */
  lemma {:induction false} TerminalRetriable(j: Shape)
    requires Valid(j)
    ensures Retriable(Writes(j))
  {
    forall cuts, d | Within(Writes(j), cuts) ensures Run(Writes(j), Crash(Writes(j), cuts, d)) == Run(Writes(j), d) {
      assert First(j)[..0] == [] && d == Run(First(j)[..0], d).0;
      CrashLeft(j, d, d, cuts);
    }
  }

  /** A completed job with a merge leaves all but the overwritten state done. */
  lemma {:induction false} ShapeDone(j: Shape, d: Disk)
    requires Valid(j) && Run(Writes(j), d).1.None?
    ensures AllDone(j.output, Run(Writes(j), d).0) && AllDone(Second(j), Run(Writes(j), d).0)
  {
    RunStops(First(j), Second(j), d);
    var mid, k := Run(First(j), d).0, |Second(j)|;
    assert Second(j)[..k] == Second(j);
    assert Second(j)[0] == j.merge;
    PastMergeDone(j, d, k, Run(Second(j), mid).0);
    SecondConsistent(j);
    RunDone(Second(j), mid);
  }
}
