/** The chain worker's durable state, the single writes that change it, and what crashes
    between those writes can and cannot do. */
module Disk {
  import opened Chain
  import opened Indexing
  import opened IndexDb
  import opened Seqs
  import EpochMerge

  /** States, write batches and hashes are only stored and compared. */
  type OLState = nat
  type Batch = nat
  type Hash = nat

  datatype MmrId = SnarkMsgInbox(account: AccountId) | L1BlockRefs

  datatype Leaf = Leaf(hash: Hash, preimage: Option<Bytes>)

  datatype Disk = Disk(
    batches: map<BlockCommitment, Batch>,
    index: Tables,
    mirrors: map<MmrId, seq<Leaf>>,
    states: map<BlockCommitment, OLState>,
    terminalHeaders: map<BlockId, Header>,
    summaries: map<EpochCommitment, Summary>)

  function Mirror(d: Disk, id: MmrId): seq<Leaf> {
    if id in d.mirrors then d.mirrors[id] else []
  }

  /** What a merge reads besides batches and states: how a batch changes a state, and the header
      store, full blocks over terminal headers. No write here touches the headers it reads. */
  datatype Rules = Rules(apply: (OLState, Batch) -> Option<OLState>, headers: HeaderStore)

  type HeaderStore = h: map<BlockId, Header> | EpochMerge.ParentsPrecede(h) witness map[]

  datatype StoreError =
    | Index(e: IndexDbError)
    | Unindexable(b: IndexError)
    | LeafMismatch(at: nat, expected: Hash, got: Hash)
    | LeafOutOfRange(requested: nat, cur: nat)
    | OverwriteEpoch(commitment: EpochCommitment)
    | MergeFailed(m: EpochMerge.MergeError)
    | HeaderIdMismatch(key: BlockId, computed: BlockId)

  /** One durable step: each is atomic on disk, and the worker can stop between any two.
      `MergeEpoch` reads the batches and states on the disk it finds and writes one state. */
  datatype Write =
    | PutBatch(block: BlockCommitment, batch: Batch)
    | ApplyIndex(epoch: nat, block: BlockCommitment, writes: Writes)
    | ApplyEpochIndex(commitment: EpochCommitment, writes: Writes)
    | AppendLeaf(mmr: MmrId, idx: nat, leaf: Leaf)
    | AppendSentinel(idx: nat, hash: Hash)
    | PutState(block: BlockCommitment, state: OLState)
    | MergeEpoch(prev: BlockCommitment, terminal: BlockCommitment, rules: Rules)
    | PutTerminalHeader(blkid: BlockId, header: Header, computed: BlockId)
    | StampEpoch(commitment: EpochCommitment)
    | PutSummary(summary: Summary)

  function Push(d: Disk, id: MmrId, leaf: Leaf): Disk {
    d.(mirrors := d.mirrors[id := Mirror(d, id) + [leaf]])
  }

  ghost function Merged(rules: Rules, d: Disk, prev: BlockCommitment, terminal: BlockCommitment)
    : Result<OLState, EpochMerge.MergeError>
  {
    EpochMerge.Merge(rules.apply, EpochMerge.Db(rules.headers, d.batches, d.states), prev, terminal)
  }

  ghost function Exec(w: Write, d: Disk): Result<Disk, StoreError> {
    match w
    case PutBatch(block, batch) => Ok(d.(batches := d.batches[block := batch]))
    case ApplyIndex(epoch, block, writes) => (
      match ApplyBlock(d.index, epoch, block, writes)
      case Ok(t) => Ok(d.(index := t))
      case Err(e) => if e == Conflict(block, block) then Ok(d) else Err(Index(e)))
    case ApplyEpochIndex(commitment, writes) => Ok(d.(index := ApplyEpoch(d.index, commitment, writes)))
    case AppendLeaf(id, idx, leaf) =>
      var have := Mirror(d, id);
      if idx < |have| then
        if have[idx].hash == leaf.hash then Ok(d) else Err(LeafMismatch(idx, leaf.hash, have[idx].hash))
      else if idx > |have| then Err(LeafOutOfRange(idx, |have|))
      else Ok(Push(d, id, leaf))
    case AppendSentinel(idx, hash) =>
      if idx < |Mirror(d, L1BlockRefs)| then Ok(d)
      else if idx > |Mirror(d, L1BlockRefs)| then Err(LeafOutOfRange(idx, |Mirror(d, L1BlockRefs)|))
      else Ok(Push(d, L1BlockRefs, Leaf(hash, None)))
    case PutState(block, state) => Ok(d.(states := d.states[block := state]))
    case MergeEpoch(prev, terminal, rules) => (
      match Merged(rules, d, prev, terminal)
      case Ok(state) => Ok(d.(states := d.states[terminal := state]))
      case Err(e) => Err(MergeFailed(e)))
    case PutTerminalHeader(blkid, header, computed) =>
      if computed != blkid then Err(HeaderIdMismatch(blkid, computed))
      else Ok(d.(terminalHeaders := d.terminalHeaders[blkid := header]))
    case StampEpoch(commitment) => (
      match Stamp(d.index, commitment)
      case Ok(t) => Ok(d.(index := t))
      case Err(e) => Err(Index(e)))
    case PutSummary(s) =>
      var c := CommitmentOf(s);
      if c !in d.summaries then Ok(d.(summaries := d.summaries[c := s]))
      else if d.summaries[c] == s then Ok(d)
      else Err(OverwriteEpoch(c))
  }

  /** Runs writes in order up to the first that is refused. */
  ghost function Run(ws: seq<Write>, d: Disk): (Disk, Option<StoreError>) {
    if ws == [] then (d, None)
    else
      match Exec(ws[0], d)
      case Err(e) => (d, Some(e))
      case Ok(next) => Run(ws[1..], next)
  }

  // ---------------------------------------------------------------- idempotence

  /** The disk already holds what the write asks for. */
  ghost predicate Done(w: Write, d: Disk) {
    match w
    case PutBatch(block, batch) => block in d.batches && d.batches[block] == batch
    case ApplyIndex(epoch, block, writes) => Row(d.index, epoch).lastApplied == Some(block)
    case ApplyEpochIndex(commitment, writes) => ApplyEpoch(d.index, commitment, writes) == d.index
    case AppendLeaf(id, idx, leaf) => idx < |Mirror(d, id)| && Mirror(d, id)[idx].hash == leaf.hash
    case AppendSentinel(idx, hash) => idx < |Mirror(d, L1BlockRefs)|
    case PutState(block, state) => block in d.states && d.states[block] == state
    case MergeEpoch(prev, terminal, rules) =>
      terminal in d.states && Merged(rules, d, prev, terminal) == Ok(d.states[terminal])
    case PutTerminalHeader(blkid, header, computed) =>
      computed == blkid && blkid in d.terminalHeaders && d.terminalHeaders[blkid] == header
    case StampEpoch(commitment) => Row(d.index, commitment.epoch).stamp == Some(commitment)
    case PutSummary(s) => CommitmentOf(s) in d.summaries && d.summaries[CommitmentOf(s)] == s
  }

  /** Once `v` is done, `w` does not undo it: the two do not want different things at the same
      place, and `w` does not write what `v` reads. */
  ghost predicate Agree(v: Write, w: Write) {
    match (v, w)
    case (PutBatch(b, x), PutBatch(b', x')) => b == b' ==> x == x'
    case (PutState(b, x), PutState(b', x')) => b == b' ==> x == x'
    case (ApplyIndex(e, b, _), ApplyIndex(e', b', _)) => e == e' ==> b == b'
    case (PutState(b, _), MergeEpoch(prev, t, _)) => b == t ==> prev == t
    case (MergeEpoch(_, _, _), PutBatch(_, _)) => false
    case (MergeEpoch(_, _, _), PutState(_, _)) => false
    case (MergeEpoch(_, _, _), MergeEpoch(_, _, _)) => false
    case (PutTerminalHeader(b, h, _), PutTerminalHeader(b', h', _)) => b == b' ==> h == h'
    case (ApplyEpochIndex(c, w), ApplyEpochIndex(c', w')) => c == c' && w == w'
    case (ApplyEpochIndex(_, _), ApplyIndex(_, _, _)) => false
    case (ApplyIndex(_, _, _), ApplyEpochIndex(_, _)) => false
    case (ApplyEpochIndex(c, _), StampEpoch(c')) => c.epoch == c'.epoch ==> c == c'
    case (StampEpoch(c), ApplyEpochIndex(c', _)) => c.epoch == c'.epoch ==> c == c'
    case (StampEpoch(c), StampEpoch(c')) => c.epoch == c'.epoch ==> c == c'
    case _ => true
  }

  /** No write undoes an earlier one. */
  ghost predicate Consistent(ws: seq<Write>) {
    forall i, j :: 0 <= i < j < |ws| ==> Agree(ws[i], ws[j])
  }

  lemma {:induction false} ExecDone(w: Write, d: Disk)
    requires Exec(w, d).Ok?
    ensures Done(w, Exec(w, d).value)
  {
    if w.ApplyEpochIndex? {
      EpochIndexTwice(d.index, w.commitment, w.writes);
    } else if w.MergeEpoch? {
      MergeReads(w.rules, d, Exec(w, d).value, w.prev, w.terminal);
    }
  }

  /** A merge reads the batches and the state at `prev` only; a merge onto itself keeps the state. */
  lemma {:induction false} MergeReads(rules: Rules, d: Disk, e: Disk, prev: BlockCommitment, terminal: BlockCommitment)
    requires d.batches == e.batches
    ensures
      (prev in d.states <==> prev in e.states) && (prev in d.states ==> d.states[prev] == e.states[prev]) ==>
        Merged(rules, d, prev, terminal) == Merged(rules, e, prev, terminal)
    ensures prev == terminal && terminal in d.states ==> Merged(rules, d, prev, terminal) == Ok(d.states[terminal])
    ensures Merged(rules, d, prev, terminal).Ok? ==> prev in d.states
  {
  }

  lemma {:induction false} InsertTwice<V>(rows: Rows<V>, epoch: nat, m: map<AccountId, seq<V>>)
    ensures Insert(Insert(rows, epoch, m), epoch, m) == Insert(rows, epoch, m)
  {
    var once := Insert(rows, epoch, m);
    var twice := Insert(once, epoch, m);
    forall key: (nat, AccountId) ensures (key in once <==> key in twice) && (key in once ==> once[key] == twice[key]) {
      InsertAt(rows, epoch, m, key);
      InsertAt(once, epoch, m, key);
    }
  }

  lemma {:induction false} EpochIndexTwice(t: Tables, c: EpochCommitment, w: Writes)
    ensures ApplyEpoch(ApplyEpoch(t, c, w), c, w) == ApplyEpoch(t, c, w)
  {
    InsertTwice(t.updates, c.epoch, w.updates);
    InsertTwice(t.inbox, c.epoch, w.inbox);
    var once := ApplyEpoch(t, c, w);
    assert once.creation + CreatedIn(w.created, c.epoch) == once.creation;
  }

  lemma {:induction false} DoneIsNoop(w: Write, d: Disk)
    requires Done(w, d)
    ensures Exec(w, d) == Ok(d)
  {
    match w
    case PutBatch(block, batch) => assert d.batches[block := batch] == d.batches;
    case PutState(block, state) => assert d.states[block := state] == d.states;
    case PutTerminalHeader(blkid, header, _) => assert d.terminalHeaders[blkid := header] == d.terminalHeaders;
    case MergeEpoch(_, terminal, _) => assert d.states[terminal := d.states[terminal]] == d.states;
    case StampEpoch(c) =>
      assert d.index.epochs[c.epoch := d.index.epochs[c.epoch].(stamp := Some(c))] == d.index.epochs;
    case _ =>
  }

  lemma {:induction false} DoneStays(v: Write, w: Write, d: Disk)
    requires Done(v, d) && Agree(v, w) && Exec(w, d).Ok?
    ensures Done(v, Exec(w, d).value)
  {
    if v.ApplyEpochIndex? {
      EpochIndexStays(v, w, d);
    } else if v.AppendLeaf? || v.AppendSentinel? {
      LeafStays(v, w, d);
    } else if v.ApplyIndex? || v.StampEpoch? {
      RowStays(v, w, d);
    } else if v.MergeEpoch? {
      MergeReads(v.rules, d, Exec(w, d).value, v.prev, v.terminal);
    } else if w.MergeEpoch? {
      MergeReads(w.rules, d, d, w.prev, w.terminal);
    }
  }

  lemma {:induction false} LeafStays(v: Write, w: Write, d: Disk)
    requires (v.AppendLeaf? || v.AppendSentinel?) && Done(v, d) && Exec(w, d).Ok?
    ensures Done(v, Exec(w, d).value)
  {
  }

  lemma {:induction false} RowStays(v: Write, w: Write, d: Disk)
    requires (v.ApplyIndex? || v.StampEpoch?) && Done(v, d) && Agree(v, w) && Exec(w, d).Ok?
    ensures Done(v, Exec(w, d).value)
  {
  }

  lemma {:induction false} EpochIndexStays(v: Write, w: Write, d: Disk)
    requires v.ApplyEpochIndex? && Done(v, d) && Agree(v, w) && Exec(w, d).Ok?
    ensures Done(v, Exec(w, d).value)
  {
    var row := EpochRow(Some(v.commitment), Attribute(v.writes.created, None), None);
    assert v.commitment.epoch in d.index.epochs && d.index.epochs[v.commitment.epoch] == row;
    if w.StampEpoch? {
      var next := Exec(w, d).value.index;
      assert next.epochs[v.commitment.epoch := row] == next.epochs;
    }
  }

  ghost predicate AllDone(ws: seq<Write>, d: Disk) {
    forall i :: 0 <= i < |ws| ==> Done(ws[i], d)
  }

  lemma {:induction false} DoneRun(ws: seq<Write>, more: seq<Write>, d: Disk)
    requires AllDone(ws, d)
    ensures Run(ws + more, d) == Run(more, d)
  {
    if ws == [] {
      AppendEmpty(more);
    } else {
      ConsAppend(ws, more);
      DoneIsNoop(ws[0], d);
      DoneRun(ws[1..], more, d);
    }
  }

  /** Where a run stops: after its last successful write. */
  ghost function Reach(ws: seq<Write>, d: Disk): (n: nat)
    ensures n <= |ws|
    ensures n == |ws| <==> Run(ws, d).1.None?
  {
    if ws == [] || Exec(ws[0], d).Err? then 0 else 1 + Reach(ws[1..], Exec(ws[0], d).value)
  }

  lemma {:induction false} ReachDone(done: seq<Write>, ws: seq<Write>, d: Disk)
    requires Consistent(done + ws) && AllDone(done, d)
    ensures AllDone(done + ws[..Reach(ws, d)], Run(ws, d).0)
    ensures Reach(ws, d) < |ws| ==> Exec(ws[Reach(ws, d)], Run(ws, d).0).Err?
                                    && Run(ws, d).1 == Some(Exec(ws[Reach(ws, d)], Run(ws, d).0).error)
    decreases |ws|
  {
    if ws == [] || Exec(ws[0], d).Err? {
      assert done + ws[..0] == done;
    } else {
      var next := Exec(ws[0], d).value;
      var done' := done + [ws[0]];
      assert done' + ws[1..] == done + ws;
      ExecDone(ws[0], d);
      forall i | 0 <= i < |done| ensures Done(done[i], next) {
        assert (done + ws)[i] == done[i] && (done + ws)[|done|] == ws[0];
        DoneStays(done[i], ws[0], d);
      }
      ReachDone(done', ws[1..], next);
      var n := Reach(ws, d);
      assert done' + ws[1..][..n - 1] == done + ws[..n];
    }
  }

  lemma {:induction false} RunStops(ws: seq<Write>, more: seq<Write>, d: Disk)
    ensures Run(ws, d).1.Some? ==> Run(ws + more, d) == Run(ws, d)
    ensures Run(ws, d).1.None? ==> Run(ws + more, d) == Run(more, Run(ws, d).0)
  {
    if ws == [] {
      AppendEmpty(more);
    } else {
      ConsAppend(ws, more);
      if Exec(ws[0], d).Ok? {
        RunStops(ws[1..], more, Exec(ws[0], d).value);
      }
    }
  }

  /** A run cut off after `k` writes, followed by another cut off after `m`, leaves the disk of
      one run cut off after the larger of the two. A refused write is refused again. */
  lemma {:induction false} TwoAttempts(ws: seq<Write>, k: nat, m: nat, d: Disk)
    requires Consistent(ws) && k <= |ws| && m <= |ws|
    ensures Run(ws[..m], Run(ws[..k], d).0).0 == Run(ws[..Max(k, m)], d).0
    ensures m >= k ==> Run(ws[..m], Run(ws[..k], d).0) == Run(ws[..m], d)
  {
    var n := Reach(ws[..k], d);
    FirstAttempt(ws, k, d);
    if m <= n {
      AttemptCovered(ws, k, m, d);
    } else if n < k {
      AttemptStopped(ws, k, m, d);
    } else {
      AttemptCompleted(ws, k, m, d);
    }
  }

  lemma {:induction false} ConsistentPrefix(ws: seq<Write>, k: nat)
    requires Consistent(ws) && k <= |ws|
    ensures Consistent(ws[..k])
  {
    var first := ws[..k];
    forall i, j | 0 <= i < j < |first| ensures Agree(first[i], first[j]) {
      assert first[i] == ws[i] && first[j] == ws[j];
    }
  }

  lemma {:induction false} RunDone(ws: seq<Write>, d: Disk)
    requires Consistent(ws)
    ensures AllDone(ws[..Reach(ws, d)], Run(ws, d).0)
    ensures Reach(ws, d) < |ws| ==> Exec(ws[Reach(ws, d)], Run(ws, d).0).Err?
                                    && Run(ws, d).1 == Some(Exec(ws[Reach(ws, d)], Run(ws, d).0).error)
  {
    AppendEmpty(ws);
    ReachDone([], ws, d);
    AppendEmpty(ws[..Reach(ws, d)]);
  }

  /** An attempt leaves its successful writes done. */
  lemma {:induction false} FirstAttempt(ws: seq<Write>, k: nat, d: Disk)
    requires Consistent(ws) && k <= |ws|
    ensures
      var n, mid := Reach(ws[..k], d), Run(ws[..k], d).0;
      && AllDone(ws[..n], mid)
      && (n < k ==> Exec(ws[n], mid).Err? && Run(ws[..k], d).1 == Some(Exec(ws[n], mid).error))
  {
    var first := ws[..k];
    var n := Reach(first, d);
    ConsistentPrefix(ws, k);
    RunDone(first, d);
    assert first[..n] == ws[..n];
    assert n < k ==> first[n] == ws[n];
  }

  /** The first attempt got at least as far: the second changes nothing. */
  lemma {:induction false} AttemptCovered(ws: seq<Write>, k: nat, m: nat, d: Disk)
    requires Consistent(ws) && k <= |ws| && m <= Reach(ws[..k], d)
    ensures Run(ws[..m], Run(ws[..k], d).0) == (Run(ws[..k], d).0, None)
    ensures m <= k && (m == k ==> Run(ws[..k], d).1.None?)
  {
    var n, mid := Reach(ws[..k], d), Run(ws[..k], d).0;
    FirstAttempt(ws, k, d);
    forall i | 0 <= i < m ensures Done(ws[..m][i], mid) {
      assert ws[..n][i] == ws[..m][i];
    }
    AppendEmpty(ws[..m]);
    DoneRun(ws[..m], [], mid);
  }

  /** The first attempt was refused: the second is refused there too. */
  lemma {:induction false} AttemptStopped(ws: seq<Write>, k: nat, m: nat, d: Disk)
    requires Consistent(ws) && k <= |ws| && Reach(ws[..k], d) < m <= |ws| && Reach(ws[..k], d) < k
    ensures Run(ws[..m], Run(ws[..k], d).0) == Run(ws[..m], d)
    ensures Run(ws[..m], Run(ws[..k], d).0).0 == Run(ws[..Max(k, m)], d).0
  {
    var n, mid := Reach(ws[..k], d), Run(ws[..k], d).0;
    FirstAttempt(ws, k, d);
    PrefixSplit(ws, n, m);
    DoneRun(ws[..n], ws[n..m], mid);
    ExtendStopped(ws, k, m, d);
  }

  /** The first attempt was cut off: the second goes on where it stopped. */
  lemma {:induction false} AttemptCompleted(ws: seq<Write>, k: nat, m: nat, d: Disk)
    requires Consistent(ws) && k < m <= |ws| && Reach(ws[..k], d) == k
    ensures Run(ws[..m], Run(ws[..k], d).0) == Run(ws[..m], d)
  {
    FirstAttempt(ws, k, d);
    PrefixSplit(ws, k, m);
    DoneRun(ws[..k], ws[k..m], Run(ws[..k], d).0);
    RunStops(ws[..k], ws[k..m], d);
  }

  lemma {:induction false} ExtendStopped(ws: seq<Write>, k: nat, m: nat, d: Disk)
    requires k <= |ws| && m <= |ws|
    requires Reach(ws[..k], d) < k && Reach(ws[..k], d) < m
    ensures Run(ws[..m], d) == Run(ws[..k], d) == Run(ws[..Max(k, m)], d)
  {
    if k > 0 && m > 0 && Exec(ws[0], d).Ok? {
      var next := Exec(ws[0], d).value;
      PrefixTail(ws, k);
      PrefixTail(ws, m);
      PrefixTail(ws, Max(k, m));
      ExtendStopped(ws[1..], k - 1, m - 1, next);
    }
  }

  // ---------------------------------------------------------------- crashes and retries

  /** Attempts at the same writes, attempt `i` stopping after `cuts[i]` of them. */
  ghost function Crash(ws: seq<Write>, cuts: seq<nat>, d: Disk): Disk
    requires Within(ws, cuts)
    decreases |cuts|
  {
    if cuts == [] then d else Crash(ws, cuts[1..], Run(ws[..cuts[0]], d).0)
  }

  /** However often the worker crashes and wherever, one retry that runs to its end leaves the
      disk, and returns the result, of a single uninterrupted run. */
  lemma {:induction false} RetryRepairs(ws: seq<Write>, cuts: seq<nat>, d: Disk)
    requires Consistent(ws) && Within(ws, cuts)
    ensures Run(ws, Crash(ws, cuts, d)) == Run(ws, d)
    decreases |cuts|
  {
    if cuts != [] {
      RetryRepairs(ws, cuts[1..], Run(ws[..cuts[0]], d).0);
      TwoAttempts(ws, cuts[0], |ws|, d);
      assert ws[..|ws|] == ws;
    }
  }

  ghost predicate Within(ws: seq<Write>, cuts: seq<nat>) {
    forall i :: 0 <= i < |cuts| ==> cuts[i] <= |ws|
  }

  /** From any disk, and after any crashes, a retry ends as one uninterrupted run. */
  ghost predicate Retriable(ws: seq<Write>) {
    forall cuts, d :: Within(ws, cuts) ==> Run(ws, Crash(ws, cuts, d)) == Run(ws, d)
  }

  lemma {:induction false} ConsistentRetriable(ws: seq<Write>)
    requires Consistent(ws)
    ensures Retriable(ws)
  {
    forall cuts, d | Within(ws, cuts) ensures Run(ws, Crash(ws, cuts, d)) == Run(ws, d) {
      RetryRepairs(ws, cuts, d);
    }
  }

  /** The jobs of a worker's life, one after the other; each is retried until it has run. */
  datatype Job = Job(writes: seq<Write>, cuts: seq<nat>)

  ghost predicate Sane(j: Job) {
    Retriable(j.writes) && Within(j.writes, j.cuts)
  }

  ghost function Eventful(jobs: seq<Job>, d: Disk): Disk
    requires forall i :: 0 <= i < |jobs| ==> Sane(jobs[i])
    decreases |jobs|
  {
    if jobs == [] then d
    else
      assert Sane(jobs[0]);
      Eventful(jobs[1..], Run(jobs[0].writes, Crash(jobs[0].writes, jobs[0].cuts, d)).0)
  }

  ghost function Uneventful(jobs: seq<Job>, d: Disk): Disk
    decreases |jobs|
  {
    if jobs == [] then d else Uneventful(jobs[1..], Run(jobs[0].writes, d).0)
  }

  /** A life with crashes ends on the disk of a life without. */
  lemma {:induction false} CrashesLeaveNoTrace(jobs: seq<Job>, d: Disk)
    requires forall i :: 0 <= i < |jobs| ==> Sane(jobs[i])
    ensures Eventful(jobs, d) == Uneventful(jobs, d)
    decreases |jobs|
  {
    if jobs != [] {
      assert Sane(jobs[0]);
      assert Run(jobs[0].writes, Crash(jobs[0].writes, jobs[0].cuts, d)) == Run(jobs[0].writes, d);
      CrashesLeaveNoTrace(jobs[1..], Run(jobs[0].writes, d).0);
    }
  }

  // ---------------------------------------------------------------- the mirrors

  /** Every mirrored leaf was asked for at the very index where it stands. */
  ghost predicate Explained(ws: seq<Write>, d: Disk) {
    forall id, i :: 0 <= i < |Mirror(d, id)| ==> Explains(ws, id, i, Mirror(d, id)[i])
  }

  ghost predicate Explains(ws: seq<Write>, id: MmrId, i: nat, leaf: Leaf) {
    || AppendLeaf(id, i, leaf) in ws
    || (id == L1BlockRefs && leaf.preimage.None? && AppendSentinel(i, leaf.hash) in ws)
  }

  /** One write leaves a mirror alone or pushes the leaf it asks for. */
  lemma {:induction false} ExecMirror(w: Write, d: Disk, id: MmrId)
    requires Exec(w, d).Ok?
    ensures
      var had, has := Mirror(d, id), Mirror(Exec(w, d).value, id);
      has == had || (|has| == |had| + 1 && has[..|had|] == had && Explains([w], id, |had|, has[|had|]))
  {
    if w.AppendLeaf? {
      assert AppendLeaf(w.mmr, w.idx, w.leaf) in [w];
    } else if w.AppendSentinel? {
      assert AppendSentinel(w.idx, w.hash) in [w];
    }
  }

  lemma {:induction false} ExecExplained(past: seq<Write>, w: Write, d: Disk)
    requires Explained(past, d) && Exec(w, d).Ok?
    ensures Explained(past + [w], Exec(w, d).value)
  {
    var next := Exec(w, d).value;
    forall id, i | 0 <= i < |Mirror(next, id)| ensures Explains(past + [w], id, i, Mirror(next, id)[i]) {
      ExecMirror(w, d, id);
      if i < |Mirror(d, id)| {
        assert Mirror(next, id)[..|Mirror(d, id)|][i] == Mirror(next, id)[i];
        assert Explains(past, id, i, Mirror(d, id)[i]);
      }
    }
  }

  lemma {:induction false} RunExplained(past: seq<Write>, ws: seq<Write>, d: Disk)
    requires Explained(past, d)
    ensures Explained(past + ws, Run(ws, d).0)
    decreases |ws|
  {
    if ws != [] && Exec(ws[0], d).Ok? {
      var past', next := past + [ws[0]], Exec(ws[0], d).value;
      ExecExplained(past, ws[0], d);
      RunExplained(past', ws[1..], next);
      assert past' + ws[1..] == past + ws;
    } else {
      forall id, i | 0 <= i < |Mirror(d, id)| ensures Explains(past + ws, id, i, Mirror(d, id)[i]) {
        assert Explains(past, id, i, Mirror(d, id)[i]);
      }
    }
  }

  /** A whole life: attempts at any jobs, each cut off anywhere or refused. */
  ghost function Life(attempts: seq<seq<Write>>, d: Disk): Disk
    decreases |attempts|
  {
    if attempts == [] then d else Life(attempts[1..], Run(attempts[0], d).0)
  }

  ghost function Flatten(attempts: seq<seq<Write>>): seq<Write> {
    if attempts == [] then [] else attempts[0] + Flatten(attempts[1..])
  }

  lemma {:induction false} LifeExplained(past: seq<Write>, attempts: seq<seq<Write>>, d: Disk)
    requires Explained(past, d)
    ensures Explained(past + Flatten(attempts), Life(attempts, d))
    decreases |attempts|
  {
    if attempts == [] {
      assert past + [] == past;
    } else {
      RunExplained(past, attempts[0], d);
      LifeExplained(past + attempts[0], attempts[1..], Run(attempts[0], d).0);
      assert past + attempts[0] + Flatten(attempts[1..]) == past + Flatten(attempts);
    }
  }

  lemma {:induction false} MirrorsGrow(ws: seq<Write>, d: Disk, id: MmrId)
    ensures Mirror(d, id) <= Mirror(Run(ws, d).0, id)
    decreases |ws|
  {
    if ws != [] && Exec(ws[0], d).Ok? {
      ExecMirror(ws[0], d, id);
      MirrorsGrow(ws[1..], Exec(ws[0], d).value, id);
    }
  }

  lemma {:induction false} LifeGrows(attempts: seq<seq<Write>>, d: Disk, id: MmrId)
    ensures Mirror(d, id) <= Mirror(Life(attempts, d), id)
    decreases |attempts|
  {
    if attempts != [] {
      MirrorsGrow(attempts[0], d, id);
      LifeGrows(attempts[1..], Run(attempts[0], d).0, id);
    }
  }

  /** A leaf that a completed job recorded stands at its index for ever after. */
  lemma {:induction false} RecordedLeavesStay(ws: seq<Write>, later: seq<seq<Write>>, d: Disk, i: nat)
    requires Run(ws, d).1.None?
    requires i < |ws| && ws[i].AppendLeaf?
    ensures
      var mirror := Mirror(Life(later, Run(ws, d).0), ws[i].mmr);
      ws[i].idx < |mirror| && mirror[ws[i].idx].hash == ws[i].leaf.hash
  {
    assert ws == ws[..i] + ws[i..];
    RunStops(ws[..i], ws[i..], d);
    var mid := Run(ws[..i], d).0;
    SuffixCons(ws, i);
    ExecDone(ws[i], mid);
    MirrorsGrow(ws[i + 1..], Exec(ws[i], mid).value, ws[i].mmr);
    LifeGrows(later, Run(ws, d).0, ws[i].mmr);
  }

  // ---------------------------------------------------------------- epoch summaries

  function SummaryWrites(s: Summary): seq<Write> {
    [StampEpoch(CommitmentOf(s)), PutSummary(s)]
  }

  /** Every summary write comes after a stamp of its commitment. */
  ghost predicate StampsFirst(ws: seq<Write>) {
    forall i :: 0 <= i < |ws| && ws[i].PutSummary? ==> StampEpoch(CommitmentOf(ws[i].summary)) in ws[..i]
  }

  /** The commitments stamped by a run. */
  ghost function Stamps(ws: seq<Write>, d: Disk): set<EpochCommitment> {
    if ws == [] || Exec(ws[0], d).Err? then {}
    else StampOf(ws[0]) + Stamps(ws[1..], Exec(ws[0], d).value)
  }

  function StampOf(w: Write): set<EpochCommitment> {
    if w.StampEpoch? then {w.commitment} else {}
  }

  lemma {:induction false} ExecSummaries(w: Write, d: Disk)
    requires Exec(w, d).Ok?
    ensures Exec(w, d).value.summaries.Keys
         <= d.summaries.Keys + if w.PutSummary? then {CommitmentOf(w.summary)} else {}
  {
  }

  lemma {:induction false} StampedBefore(past: seq<Write>, ws: seq<Write>, stamped: set<EpochCommitment>)
    requires ws != [] && StampsFirst(past + ws) && ws[0].PutSummary?
    requires forall c :: StampEpoch(c) in past ==> c in stamped
    ensures CommitmentOf(ws[0].summary) in stamped
  {
    var all := past + ws;
    assert all[|past|] == ws[0] && all[..|past|] == past;
  }

  lemma {:induction false} NextStampsFirst(past: seq<Write>, ws: seq<Write>, d: Disk, stamped: set<EpochCommitment>)
    requires ws != [] && StampsFirst(past + ws) && Exec(ws[0], d).Ok?
    requires forall c :: StampEpoch(c) in past ==> c in stamped
    requires d.summaries.Keys <= stamped
    ensures past + [ws[0]] + ws[1..] == past + ws
    ensures forall c :: StampEpoch(c) in past + [ws[0]] ==> c in stamped + StampOf(ws[0])
    ensures Exec(ws[0], d).value.summaries.Keys <= stamped + StampOf(ws[0])
  {
    ExecSummaries(ws[0], d);
    if ws[0].PutSummary? {
      StampedBefore(past, ws, stamped);
    }
  }

  ghost function LifeStamps(attempts: seq<seq<Write>>, d: Disk): set<EpochCommitment>
    decreases |attempts|
  {
    if attempts == [] then {} else Stamps(attempts[0], d) + LifeStamps(attempts[1..], Run(attempts[0], d).0)
  }

  lemma {:induction false} RunStampsFirst(past: seq<Write>, ws: seq<Write>, d: Disk, stamped: set<EpochCommitment>)
    requires StampsFirst(past + ws)
    requires forall c :: StampEpoch(c) in past ==> c in stamped
    requires d.summaries.Keys <= stamped
    ensures Run(ws, d).0.summaries.Keys <= stamped + Stamps(ws, d)
    decreases |ws|
  {
    if ws != [] && Exec(ws[0], d).Ok? {
      NextStampsFirst(past, ws, d, stamped);
      RunStampsFirst(past + [ws[0]], ws[1..], Exec(ws[0], d).value, stamped + StampOf(ws[0]));
    }
  }

  /** In every reachable state, a stored summary's commitment was stamped. */
  lemma {:induction false} SummariesWereStamped(attempts: seq<seq<Write>>, d: Disk, stamped: set<EpochCommitment>)
    requires forall i :: 0 <= i < |attempts| ==> StampsFirst(attempts[i])
    requires d.summaries.Keys <= stamped
    ensures Life(attempts, d).summaries.Keys <= stamped + LifeStamps(attempts, d)
    decreases |attempts|
  {
    if attempts != [] {
      assert [] + attempts[0] == attempts[0];
      RunStampsFirst([], attempts[0], d, stamped);
      SummariesWereStamped(attempts[1..], Run(attempts[0], d).0, stamped + Stamps(attempts[0], d));
    }
  }

  lemma {:induction false} RunSummary(d: Disk, s: Summary)
    ensures
      var stamp, put := StampEpoch(CommitmentOf(s)), PutSummary(s);
      if Exec(stamp, d).Err? then Run(SummaryWrites(s), d) == (d, Some(Exec(stamp, d).error))
      else
        var mid := Exec(stamp, d).value;
        Run(SummaryWrites(s), d) == if Exec(put, mid).Ok? then (Exec(put, mid).value, None)
        else (mid, Some(Exec(put, mid).error))
  {
    var ws := SummaryWrites(s);
    assert ws[1..] == [PutSummary(s)] && ws[1..][1..] == [];
    if Exec(ws[0], d).Ok? {
      assert Run(ws, d) == Run(ws[1..], Exec(ws[0], d).value);
    }
  }

  /** Storing a stored summary again succeeds and changes nothing exactly when the epoch's row
      still carries its stamp: another fork's summary may have restamped the row. */
  lemma {:induction false} RepeatedSummary(d: Disk, s: Summary)
    requires Done(PutSummary(s), d)
    ensures Run(SummaryWrites(s), d) == (d, None) <==> Row(d.index, s.epoch).stamp == Some(CommitmentOf(s))
  {
    var stamp := StampEpoch(CommitmentOf(s));
    RunSummary(d, s);
    if Done(stamp, d) {
      DoneIsNoop(stamp, d);
      DoneIsNoop(PutSummary(s), d);
    } else if Exec(stamp, d).Ok? {
      ExecDone(stamp, d);
      DoneStays(PutSummary(s), stamp, d);
      DoneIsNoop(PutSummary(s), Exec(stamp, d).value);
    }
  }

  /** Two forks' summaries of one epoch: storing the first again changes the disk. */
  lemma {:induction false} ForkRestamps()
    ensures
      var a := Summary(1, BlockCommitment(10, 7), BlockCommitment(5, 3), 0, 0);
      var b := Summary(1, BlockCommitment(10, 8), BlockCommitment(5, 3), 0, 0);
      var d := EMPTY.(index := EMPTY.index.(epochs := map[1 := EpochRow(None, [], None)]));
      var both := Run(SummaryWrites(b), Run(SummaryWrites(a), d).0).0;
      Done(PutSummary(a), both) && Run(SummaryWrites(a), both).0 != both
  {
    var a := Summary(1, BlockCommitment(10, 7), BlockCommitment(5, 3), 0, 0);
    var b := Summary(1, BlockCommitment(10, 8), BlockCommitment(5, 3), 0, 0);
    var d := EMPTY.(index := EMPTY.index.(epochs := map[1 := EpochRow(None, [], None)]));
    SummaryStored(d, a);
    var first := Run(SummaryWrites(a), d).0;
    SummaryStored(first, b);
    var both := Run(SummaryWrites(b), first).0;
    SummaryStored(both, a);
  }

  lemma {:induction false} SummaryStored(d: Disk, s: Summary)
    requires s.epoch in d.index.epochs
    requires CommitmentOf(s) !in d.summaries || d.summaries[CommitmentOf(s)] == s
    ensures
      var (next, err) := Run(SummaryWrites(s), d);
      && err.None?
      && next.summaries == d.summaries[CommitmentOf(s) := s]
      && next.index.epochs == d.index.epochs[s.epoch := d.index.epochs[s.epoch].(stamp := Some(CommitmentOf(s)))]
  {
    RunSummary(d, s);
    if CommitmentOf(s) in d.summaries {
      assert d.summaries[CommitmentOf(s) := s] == d.summaries;
    }
  }

  /** A different summary for a stored commitment is refused and the old one kept. */
  lemma {:induction false} DifferentSummaryRefused(d: Disk, s: Summary)
    requires CommitmentOf(s) in d.summaries && d.summaries[CommitmentOf(s)] != s
    ensures Run(SummaryWrites(s), d).1
         == Some(if s.epoch in d.index.epochs then OverwriteEpoch(CommitmentOf(s)) else Index(NoEpochRow(s.epoch)))
    ensures Run(SummaryWrites(s), d).0.summaries == d.summaries
  {
    RunSummary(d, s);
  }

  const EMPTY := Disk(map[], Tables(map[], map[], map[], map[]), map[], map[], map[], map[])
}
