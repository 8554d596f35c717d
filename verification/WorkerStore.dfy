/** The chain worker's storage operations as sequences of durable writes. */
module WorkerStore {
  import opened Chain
  import opened Indexing
  import opened IndexDb
  import opened Disk
  import opened Seqs
  import opened TerminalJob
  import EpochMerge

  datatype L1Write = L1Write(height: nat, record: Bytes)

  datatype ExecutionOutput = ExecutionOutput(batch: Batch, indexed: Output, l1: seq<L1Write>)

  /** The hash functions of the two mirrors and of headers, and the sentinel leaf. */
  datatype Hashing = Hashing(entry: Bytes -> Hash, blockRef: Bytes -> Hash, header: Header -> BlockId, sentinel: Hash)

  function InboxLeaf(h: Hashing, w: InboxWrite): Write {
    AppendLeaf(SnarkMsgInbox(w.account), w.index, Leaf(h.entry(w.entry), Some(w.entry)))
  }

  function L1Leaf(h: Hashing, w: L1Write): Write {
    AppendLeaf(L1BlockRefs, w.height, Leaf(h.blockRef(w.record), Some(w.record)))
  }

  function InboxLeaves(h: Hashing, ws: seq<InboxWrite>): seq<Write> {
    seq(|ws|, i requires 0 <= i < |ws| => InboxLeaf(h, ws[i]))
  }

  function L1Leaves(h: Hashing, ws: seq<L1Write>): seq<Write> {
    seq(|ws|, i requires 0 <= i < |ws| => L1Leaf(h, ws[i]))
  }

  function MmrWrites(h: Hashing, o: ExecutionOutput): seq<Write> {
    InboxLeaves(h, o.indexed.inbox) + L1Leaves(h, o.l1)
  }

  /** Every L1 record of the output stands in the mirror at its height, by its hash. */
  ghost predicate L1Mirrored(h: Hashing, l1: seq<L1Write>, d: Disk) {
    forall x :: x in l1 ==>
                  x.height < |Mirror(d, L1BlockRefs)| && Mirror(d, L1BlockRefs)[x.height].hash == h.blockRef(x.record)
  }

  /** Every message of the output stands in its account's mirror at its index, by its hash. */
  ghost predicate InboxMirrored(h: Hashing, inbox: seq<InboxWrite>, d: Disk) {
    forall x :: x in inbox ==>
                  && x.index < |Mirror(d, SnarkMsgInbox(x.account))|
                  && Mirror(d, SnarkMsgInbox(x.account))[x.index].hash == h.entry(x.entry)
  }

  lemma {:induction false} L1LeavesMirrored(h: Hashing, l1: seq<L1Write>, d: Disk)
    requires forall i :: 0 <= i < |l1| ==> Done(L1Leaves(h, l1)[i], d)
    ensures L1Mirrored(h, l1, d)
  {
    forall x | x in l1
      ensures x.height < |Mirror(d, L1BlockRefs)| && Mirror(d, L1BlockRefs)[x.height].hash == h.blockRef(x.record)
    {
      var i :| 0 <= i < |l1| && l1[i] == x;
      assert Done(L1Leaves(h, l1)[i], d);
    }
  }

  lemma {:induction false} InboxLeavesMirrored(h: Hashing, inbox: seq<InboxWrite>, d: Disk)
    requires forall i :: 0 <= i < |inbox| ==> Done(InboxLeaves(h, inbox)[i], d)
    ensures InboxMirrored(h, inbox, d)
  {
    forall x | x in inbox
      ensures && x.index < |Mirror(d, SnarkMsgInbox(x.account))|
              && Mirror(d, SnarkMsgInbox(x.account))[x.index].hash == h.entry(x.entry)
    {
      var i :| 0 <= i < |inbox| && inbox[i] == x;
      assert Done(InboxLeaves(h, inbox)[i], d);
    }
  }

  /** A completed run of leaves leaves each of them in its mirror. */
  lemma {:induction false} LeavesDone(ws: seq<Write>, d: Disk)
    requires (forall i :: 0 <= i < |ws| ==> ws[i].AppendLeaf?) && Run(ws, d).1.None?
    ensures forall i :: 0 <= i < |ws| ==> Done(ws[i], Run(ws, d).0)
  {
    RunDone(ws, d);
    assert ws[..|ws|] == ws;
  }

  /** What storing a block's output writes, its index records being `writes`. */
  function OutputWrites(h: Hashing, epoch: nat, c: BlockCommitment, o: ExecutionOutput, writes: Writes): seq<Write> {
    [PutBatch(c, o.batch), ApplyIndex(epoch, c, writes)] + MmrWrites(h, o)
  }

  /** What closes an epoch: the terminal of the one before it, the final state root, and the rest
      of the summary. */
  datatype Ending = Ending(prev: BlockCommitment, finalState: nat, rest: nat)

  /** The summary of the epoch that block `c` closes. */
  function SummaryFor(epoch: nat, c: BlockCommitment, e: Ending): Summary {
    Summary(epoch, c, e.prev, e.finalState, e.rest)
  }

  /** What a terminal block adds: the merge of the epoch's batches and the epoch's summary. */
  function EndingWrites(rules: Rules, epoch: nat, c: BlockCommitment, e: Ending): seq<Write> {
    [MergeEpoch(e.prev, c, rules)] + SummaryWrites(SummaryFor(epoch, c, e))
  }

  function TerminalWrites(rules: Rules, epoch: nat, c: BlockCommitment, terminal: Option<Ending>): seq<Write> {
    if terminal.None? then [] else EndingWrites(rules, epoch, c, terminal.value)
  }

  /** Executing a block: its output and state and, for a terminal block, what it adds. */
  function BlockJob(
    h: Hashing, rules: Rules, epoch: nat, c: BlockCommitment, o: ExecutionOutput, writes: Writes, state: OLState,
    terminal: Option<Ending>): seq<Write>
  {
    OutputWrites(h, epoch, c, o, writes) + [PutState(c, state)] + TerminalWrites(rules, epoch, c, terminal)
  }

  function HeaderWrites(h: Hashing, s: Summary, header: Header): seq<Write> {
    [PutTerminalHeader(s.terminal.blkid, header, h.header(header))]
  }

  function CheckpointTail(h: Hashing, o: ExecutionOutput, writes: Writes, header: Header, s: Summary): seq<Write> {
    ([ApplyEpochIndex(CommitmentOf(s), writes)] + MmrWrites(h, o))
    + (HeaderWrites(h, s, header) + SummaryWrites(s))
  }

  /** Applying a checkpoint. */
  function CheckpointJob(
    h: Hashing, o: ExecutionOutput, writes: Writes, state: OLState, header: Header, s: Summary): seq<Write>
  {
    [PutState(s.terminal, state)] + CheckpointTail(h, o, writes, header, s)
  }

  function SentinelWrites(h: Hashing, from: nat, to: nat): seq<Write>
    requires from <= to
  {
    seq(to - from, i requires 0 <= i < to - from => AppendSentinel(from + i, h.sentinel))
  }

  lemma {:induction false} SentinelsConsistent(h: Hashing, to: nat)
    ensures Consistent(SentinelWrites(h, 0, to))
  {
  }

  /** Starting the prefill at the first missing sentinel is running it from the start: the rest
      is already there. So it is a job like any other, and a second prefill writes nothing. */
  lemma {:induction false} PrefillResumes(h: Hashing, genesis: nat, d: Disk)
    ensures
      var from := Min(|Mirror(d, L1BlockRefs)|, genesis + 1);
      Run(SentinelWrites(h, 0, genesis + 1), d) == Run(SentinelWrites(h, from, genesis + 1), d)
    ensures |Mirror(d, L1BlockRefs)| > genesis ==> Run(SentinelWrites(h, 0, genesis + 1), d) == (d, None)
  {
    var from := Min(|Mirror(d, L1BlockRefs)|, genesis + 1);
    SentinelsSplit(h, from, genesis + 1);
    var there := SentinelWrites(h, 0, from);
    forall i | 0 <= i < from ensures Done(there[i], d) {
      assert there[i] == AppendSentinel(i, h.sentinel);
    }
    DoneRun(there, SentinelWrites(h, from, genesis + 1), d);
  }

  lemma {:induction false} SentinelsSplit(h: Hashing, from: nat, to: nat)
    requires from <= to
    ensures SentinelWrites(h, 0, to) == SentinelWrites(h, 0, from) + SentinelWrites(h, from, to)
  {
  }

  /** The disks a run passes through, one after each successful write. */
  ghost function Steps(ws: seq<Write>, d: Disk): seq<Disk> {
    if ws == [] || Exec(ws[0], d).Err? then []
    else [Exec(ws[0], d).value] + Steps(ws[1..], Exec(ws[0], d).value)
  }

  /** Each of them is a run cut off there: a crash leaves one of these disks. */
  lemma {:induction false} StepsAreCuts(ws: seq<Write>, d: Disk, k: nat)
    requires 0 < k <= |Steps(ws, d)|
    ensures k <= |ws| && Steps(ws, d)[k - 1] == Run(ws[..k], d).0
  {
    if k > 1 {
      StepsAreCuts(ws[1..], Exec(ws[0], d).value, k - 1);
      assert ws[..k][1..] == ws[1..][..k - 1];
    } else {
      assert ws[..1] == [ws[0]];
      RunOne(ws[0], d);
    }
  }

  lemma {:induction false} StepsJoin(ws: seq<Write>, more: seq<Write>, d: Disk)
    ensures Run(ws, d).1.Some? ==> Run(ws + more, d) == Run(ws, d) && Steps(ws + more, d) == Steps(ws, d)
    ensures Run(ws, d).1.None? ==> Run(ws + more, d) == Run(more, Run(ws, d).0)
                                   && Steps(ws + more, d) == Steps(ws, d) + Steps(more, Run(ws, d).0)
  {
    if ws == [] {
      AppendEmpty(more);
      AppendEmpty(Steps(more, d));
    } else {
      ConsAppend(ws, more);
      if Exec(ws[0], d).Ok? {
        var next := Exec(ws[0], d).value;
        StepsJoin(ws[1..], more, next);
        AppendAssoc([next], Steps(ws[1..], next), Steps(more, Run(ws, d).0));
      }
    }
  }

  lemma {:induction false} RunOne(w: Write, d: Disk)
    ensures Exec(w, d).Ok? ==> Run([w], d) == (Exec(w, d).value, None) && Steps([w], d) == [Exec(w, d).value]
    ensures Exec(w, d).Err? ==> Run([w], d) == (d, Some(Exec(w, d).error)) && Steps([w], d) == []
  {
    assert [w][1..] == [];
  }

  /** A loop over `all`, begun on disk `start` with trace `past`, has done the first `i` writes:
      running the rest from here ends as running all of them from there. */
  ghost predicate Pending(all: seq<Write>, start: Disk, past: seq<Disk>, i: nat, now: Disk, trace: seq<Disk>) {
    && i <= |all|
    && Run(all, start) == Run(all[i..], now)
    && past + Steps(all, start) == trace + Steps(all[i..], now)
  }

  /** What the next write does to that. */
  lemma {:induction false} OneMore(all: seq<Write>, start: Disk, past: seq<Disk>, i: nat, now: Disk, trace: seq<Disk>)
    requires i < |all| && Pending(all, start, past, i, now, trace)
    ensures Exec(all[i], now).Ok? ==>
              var next := Run([all[i]], now).0; Pending(all, start, past, i + 1, next, trace + Steps([all[i]], now))
    ensures Exec(all[i], now).Err? ==>
              && Run(all, start) == Run([all[i]], now)
              && past + Steps(all, start) == trace + Steps([all[i]], now)
  {
    SuffixCons(all, i);
    RunOne(all[i], now);
    StepsJoin([all[i]], all[i + 1..], now);
    AppendAssoc(trace, Steps([all[i]], now), Steps(all[i + 1..], Run([all[i]], now).0));
  }

  lemma {:induction false} NothingPending(all: seq<Write>, start: Disk, past: seq<Disk>, now: Disk, trace: seq<Disk>)
    requires Pending(all, start, past, |all|, now, trace)
    ensures (now, None) == Run(all, start) && trace == past + Steps(all, start)
  {
    AppendEmpty(trace);
  }

  /** Running these writes leads from one disk and trace to another, with result `r`. */
  ghost predicate RanFrom(
    ws: seq<Write>, d: Disk, past: seq<Disk>, now: Disk, trace: seq<Disk>, r: Option<StoreError>)
  {
    (now, r) == Run(ws, d) && trace == past + Steps(ws, d)
  }

  lemma {:induction false} RanThen(
    ws: seq<Write>, more: seq<Write>, d: Disk, past: seq<Disk>, mid: Disk, sofar: seq<Disk>, now: Disk,
    trace: seq<Disk>, r: Option<StoreError>)
    requires RanFrom(ws, d, past, mid, sofar, None) && RanFrom(more, mid, sofar, now, trace, r)
    ensures RanFrom(ws + more, d, past, now, trace, r)
  {
    StepsJoin(ws, more, d);
    AppendAssoc(past, Steps(ws, d), Steps(more, mid));
  }

  lemma {:induction false} RanStop(
    ws: seq<Write>, more: seq<Write>, d: Disk, past: seq<Disk>, now: Disk, trace: seq<Disk>,
    r: Option<StoreError>)
    requires RanFrom(ws, d, past, now, trace, r) && r.Some?
    ensures RanFrom(ws + more, d, past, now, trace, r)
  {
    StepsJoin(ws, more, d);
  }

  class Store {
    const hashing: Hashing
    var batches: map<BlockCommitment, Batch>
    var index: Tables
    var mirrors: map<MmrId, seq<Leaf>>
    var states: map<BlockCommitment, OLState>
    var terminalHeaders: map<BlockId, Header>
    var summaries: map<EpochCommitment, Summary>
    /** The disks passed through so far. */
    ghost var trace: seq<Disk>

    constructor (hashing: Hashing)
      ensures this.hashing == hashing && View() == EMPTY && trace == []
    {
      this.hashing := hashing;
      batches, mirrors, states, terminalHeaders, summaries := map[], map[], map[], map[], map[];
      index := Tables(map[], map[], map[], map[]);
      trace := [];
    }

    ghost function View(): Disk
      reads this
    {
      Disk(batches, index, mirrors, states, terminalHeaders, summaries)
    }

    /** The operation ran these writes: it ends on their disk, returns their result, and passed
        through exactly their intermediate disks. */
    twostate predicate Ran(new ws: seq<Write>, new r: Option<StoreError>)
      reads this
    {
      RanFrom(ws, old(View()), old(trace), View(), trace, r)
    }

    method IdempotentAppendLeaf(id: MmrId, idx: nat, leaf: Leaf) returns (r: Option<StoreError>)
      modifies this
      ensures Ran([AppendLeaf(id, idx, leaf)], r)
      ensures
        var had, has := Mirror(old(View()), id), Mirror(View(), id);
        if idx == |had| then r == None && has == had + [leaf]
        else
          && View() == old(View())
          && r == if idx > |had| then Some(LeafOutOfRange(idx, |had|))
                  else if had[idx].hash != leaf.hash then Some(LeafMismatch(idx, leaf.hash, had[idx].hash)) else None
    {
      RunOne(AppendLeaf(id, idx, leaf), View());
      var have := if id in mirrors then mirrors[id] else [];
      if idx < |have| {
        if have[idx].hash != leaf.hash {
          return Some(LeafMismatch(idx, leaf.hash, have[idx].hash));
        }
      } else if idx > |have| {
        return Some(LeafOutOfRange(idx, |have|));
      } else {
        mirrors := mirrors[id := have + [leaf]];
      }
      trace := trace + [View()];
      r := None;
    }

    method IndexInboxMmrWrites(o: ExecutionOutput) returns (r: Option<StoreError>)
      modifies this
      ensures Ran(InboxLeaves(hashing, o.indexed.inbox), r)
      ensures r.None? ==> InboxMirrored(hashing, o.indexed.inbox, View())
    {
      var i := 0;
      ghost var all := InboxLeaves(hashing, o.indexed.inbox);
      while i < |o.indexed.inbox|
        invariant 0 <= i <= |o.indexed.inbox|
        invariant Pending(all, old(View()), old(trace), i, View(), trace)
      {
        var w := o.indexed.inbox[i];
        OneMore(all, old(View()), old(trace), i, View(), trace);
        r := IdempotentAppendLeaf(SnarkMsgInbox(w.account), w.index, Leaf(hashing.entry(w.entry), Some(w.entry)));
        if r.Some? {
          return;
        }
        i := i + 1;
      }
      NothingPending(all, old(View()), old(trace), View(), trace);
      LeavesDone(all, old(View()));
      InboxLeavesMirrored(hashing, o.indexed.inbox, View());
      r := None;
    }

    method IndexL1BlockRefMmrWrites(o: ExecutionOutput) returns (r: Option<StoreError>)
      modifies this
      ensures Ran(L1Leaves(hashing, o.l1), r)
      ensures r.None? ==> L1Mirrored(hashing, o.l1, View())
    {
      var i := 0;
      ghost var all := L1Leaves(hashing, o.l1);
      while i < |o.l1|
        invariant 0 <= i <= |o.l1|
        invariant Pending(all, old(View()), old(trace), i, View(), trace)
      {
        var w := o.l1[i];
        OneMore(all, old(View()), old(trace), i, View(), trace);
        r := IdempotentAppendLeaf(L1BlockRefs, w.height, Leaf(hashing.blockRef(w.record), Some(w.record)));
        if r.Some? {
          return;
        }
        i := i + 1;
      }
      NothingPending(all, old(View()), old(trace), View(), trace);
      LeavesDone(all, old(View()));
      L1LeavesMirrored(hashing, o.l1, View());
      r := None;
    }

    method IndexMmrWrites(o: ExecutionOutput) returns (r: Option<StoreError>)
      modifies this
      ensures Ran(MmrWrites(hashing, o), r)
    {
      ghost var first, second := InboxLeaves(hashing, o.indexed.inbox), L1Leaves(hashing, o.l1);
      r := IndexInboxMmrWrites(o);
      if r.Some? {
        RanStop(first, second, old(View()), old(trace), View(), trace, r);
        return;
      }
      ghost var mid, sofar := View(), trace;
      r := IndexL1BlockRefMmrWrites(o);
      RanThen(first, second, old(View()), old(trace), mid, sofar, View(), trace, r);
    }

    /** The index manager's transaction: refuses a block at or below the last applied one. */
    method ApplyBlockIndexing(epoch: nat, c: BlockCommitment, writes: Writes) returns (r: Option<IndexDbError>)
      modifies this`index, this`trace
      ensures
        match ApplyBlock(old(index), epoch, c, writes)
        case Ok(t) => r == None && index == t && trace == old(trace) + [View()]
        case Err(e) => r == Some(e) && index == old(index) && trace == old(trace)
    {
      var t := ApplyBlock(index, epoch, c, writes);
      if t.Err? {
        return Some(t.error);
      }
      index := t.value;
      trace := trace + [View()];
      r := None;
    }

    /** Applies the block's records once: the conflict that says this very block came last is a
        retry. */
    method ApplyBlockOnce(epoch: nat, c: BlockCommitment, writes: Writes) returns (r: Option<StoreError>)
      modifies this
      ensures Ran([ApplyIndex(epoch, c, writes)], r)
      ensures
        var last := if epoch in old(index).epochs then old(index).epochs[epoch].lastApplied else None;
        if last.Some? && c.slot <= last.value.slot then
          View() == old(View()) && r == if last.value == c then None else Some(Index(Conflict(c, last.value)))
        else r == None && epoch in index.epochs && index.epochs[epoch].lastApplied == Some(c)
    {
      RunOne(ApplyIndex(epoch, c, writes), View());
      var e := ApplyBlockIndexing(epoch, c, writes);
      if e.None? {
        r := None;
      } else if e.value.Conflict? && e.value.attempted == c && e.value.lastApplied == c {
        trace := trace + [View()];
        r := None;
      } else {
        r := Some(Index(e.value));
      }
    }

    method IndexBlock(
      epoch: nat, c: BlockCommitment, o: ExecutionOutput, writes: Writes) returns (r: Option<StoreError>)
      modifies this
      ensures Ran([ApplyIndex(epoch, c, writes)] + MmrWrites(hashing, o), r)
    {
      ghost var first, second := [ApplyIndex(epoch, c, writes)], MmrWrites(hashing, o);
      r := ApplyBlockOnce(epoch, c, writes);
      if r.Some? {
        RanStop(first, second, old(View()), old(trace), View(), trace, r);
        return;
      }
      ghost var mid, sofar := View(), trace;
      r := IndexMmrWrites(o);
      RanThen(first, second, old(View()), old(trace), mid, sofar, View(), trace, r);
    }

    method PutWriteBatch(c: BlockCommitment, batch: Batch)
      modifies this
      ensures Ran([PutBatch(c, batch)], None)
      ensures View() == old(View()).(batches := old(batches)[c := batch])
    {
      RunOne(PutBatch(c, batch), View());
      batches := batches[c := batch];
      trace := trace + [View()];
    }

    method StoreBlockOutput(epoch: nat, c: BlockCommitment, o: ExecutionOutput) returns (r: Option<StoreError>)
      modifies this
      ensures
        match Build(Some(c), o.indexed)
        case Ok(writes) => Ran(OutputWrites(hashing, epoch, c, o, writes), r)
        case Err(e) => View() == old(View()).(batches := old(batches)[c := o.batch]) && r == Some(Unindexable(e))
    {
      PutWriteBatch(c, o.batch);
      var writes := BuildIndexingWrites(c, o.indexed);
      if writes.Err? {
        return Some(Unindexable(writes.error));
      }
      ghost var mid, sofar := View(), trace;
      r := IndexBlock(epoch, c, o, writes.value);
      ghost var rest := [ApplyIndex(epoch, c, writes.value)] + MmrWrites(hashing, o);
      RanThen([PutBatch(c, o.batch)], rest, old(View()), old(trace), mid, sofar, View(), trace, r);
      assert OutputWrites(hashing, epoch, c, o, writes.value) == [PutBatch(c, o.batch)] + rest;
    }

    method StoreToplevelState(c: BlockCommitment, state: OLState)
      modifies this
      ensures Ran([PutState(c, state)], None)
    {
      RunOne(PutState(c, state), View());
      states := states[c := state];
      trace := trace + [View()];
    }

    method StoreTerminalHeader(blkid: BlockId, header: Header) returns (r: Option<StoreError>)
      modifies this
      ensures Ran([PutTerminalHeader(blkid, header, hashing.header(header))], r)
    {
      RunOne(PutTerminalHeader(blkid, header, hashing.header(header)), View());
      var computed := hashing.header(header);
      if computed != blkid {
        return Some(HeaderIdMismatch(blkid, computed));
      }
      terminalHeaders := terminalHeaders[blkid := header];
      trace := trace + [View()];
      r := None;
    }

    method PersistExecutionOutput(
      epoch: nat, c: BlockCommitment, o: ExecutionOutput, state: OLState) returns (r: Option<StoreError>)
      modifies this
      ensures
        match Build(Some(c), o.indexed)
        case Ok(writes) => Ran(OutputWrites(hashing, epoch, c, o, writes) + [PutState(c, state)], r)
        case Err(e) => View() == old(View()).(batches := old(batches)[c := o.batch]) && r == Some(Unindexable(e))
    {
      ghost var built := Build(Some(c), o.indexed);
      r := StoreBlockOutput(epoch, c, o);
      if r.Some? {
        if built.Ok? {
          RanStop(OutputWrites(hashing, epoch, c, o, built.value), [PutState(c, state)], old(View()), old(trace),
                  View(), trace, r);
        }
        return;
      }
      ghost var mid, sofar := View(), trace;
      StoreToplevelState(c, state);
      RanThen(OutputWrites(hashing, epoch, c, o, built.value), [PutState(c, state)], old(View()), old(trace), mid,
              sofar, View(), trace, None);
    }

    /** Indexes a whole epoch of checkpoint sync. */
    method ApplyEpochIndexing(epoch: EpochCommitment, o: ExecutionOutput) returns (r: Option<StoreError>)
      modifies this
      ensures
        match Build(None, o.indexed)
        case Ok(writes) => Ran([ApplyEpochIndex(epoch, writes)] + MmrWrites(hashing, o), r)
        case Err(e) => View() == old(View()) && r == Some(Unindexable(e))
    {
      var writes := BuildCheckpointIndexingWrites(o.indexed);
      if writes.Err? {
        return Some(Unindexable(writes.error));
      }
      RunOne(ApplyEpochIndex(epoch, writes.value), View());
      index := ApplyEpoch(index, epoch, writes.value);
      trace := trace + [View()];
      ghost var mid, sofar := View(), trace;
      r := IndexMmrWrites(o);
      RanThen([ApplyEpochIndex(epoch, writes.value)], MmrWrites(hashing, o), old(View()), old(trace), mid, sofar,
              View(), trace, r);
    }

    /** The checkpoint manager's insert: never overwrites. */
    method InsertEpochSummary(s: Summary) returns (inserted: bool)
      modifies this`summaries
      ensures inserted == (CommitmentOf(s) !in old(summaries))
      ensures summaries == if inserted then old(summaries)[CommitmentOf(s) := s] else old(summaries)
    {
      inserted := CommitmentOf(s) !in summaries;
      if inserted {
        summaries := summaries[CommitmentOf(s) := s];
      }
    }

    method StoreSummary(s: Summary) returns (r: Option<StoreError>)
      modifies this
      ensures Ran(SummaryWrites(s), r)
    {
      var c := CommitmentOf(s);
      assert SummaryWrites(s) == [StampEpoch(c)] + [PutSummary(s)];
      StepsJoin([StampEpoch(c)], [PutSummary(s)], View());
      RunOne(StampEpoch(c), View());
      var t := Stamp(index, c);
      if t.Err? {
        return Some(Index(t.error));
      }
      index := t.value;
      trace := trace + [View()];
      RunOne(PutSummary(s), View());
      var inserted := InsertEpochSummary(s);
      if !inserted && summaries[c] != s {
        return Some(OverwriteEpoch(c));
      }
      trace := trace + [View()];
      r := None;
    }

    /** Merges the epoch's batches, as stored now, into the state at `c`. */
    method MergeEpochData(rules: Rules, prev: BlockCommitment, c: BlockCommitment) returns (r: Option<StoreError>)
      modifies this
      ensures Ran([MergeEpoch(prev, c, rules)], r)
    {
      RunOne(MergeEpoch(prev, c, rules), View());
      var worker := new EpochMerge.ChainWorker<OLState, Batch>(rules.apply);
      worker.blocks, worker.batches, worker.states := rules.headers, batches, states;
      assert map[] + rules.headers == rules.headers;
      assert worker.View() == EpochMerge.Db(rules.headers, batches, states);
      var merged := worker.MergeEpochData(prev, c);
      if merged.Err? {
        return Some(MergeFailed(merged.error));
      }
      states := worker.states;
      trace := trace + [View()];
      r := None;
    }

    /** What a terminal block adds: the merged state and the summary. */
    method FinishEpoch(rules: Rules, epoch: nat, c: BlockCommitment, e: Ending) returns (r: Option<StoreError>)
      modifies this
      ensures Ran(EndingWrites(rules, epoch, c, e), r)
    {
      ghost var first, second := [MergeEpoch(e.prev, c, rules)], SummaryWrites(SummaryFor(epoch, c, e));
      r := MergeEpochData(rules, e.prev, c);
      if r.Some? {
        RanStop(first, second, old(View()), old(trace), View(), trace, r);
        return;
      }
      ghost var mid, sofar := View(), trace;
      r := StoreSummary(SummaryFor(epoch, c, e));
      RanThen(first, second, old(View()), old(trace), mid, sofar, View(), trace, r);
    }

    /** Executing a block: persists its output and, for a terminal block, the merged state and
        the summary. */
    method CommitBlock(
      rules: Rules, epoch: nat, c: BlockCommitment, o: ExecutionOutput, state: OLState, terminal: Option<Ending>)
      returns (r: Option<StoreError>)
      modifies this
      ensures
        match Build(Some(c), o.indexed)
        case Ok(writes) => Ran(BlockJob(hashing, rules, epoch, c, o, writes, state, terminal), r)
        case Err(e) => View() == old(View()).(batches := old(batches)[c := o.batch]) && r == Some(Unindexable(e))
    {
      ghost var built := Build(Some(c), o.indexed);
      r := PersistExecutionOutput(epoch, c, o, state);
      ghost var first := if built.Ok? then OutputWrites(hashing, epoch, c, o, built.value) + [PutState(c, state)]
      else [];
      AppendEmpty(first);
      if r.Some? {
        if built.Ok? {
          RanStop(first, TerminalWrites(rules, epoch, c, terminal), old(View()), old(trace), View(), trace, r);
        }
        return;
      }
      if terminal.Some? {
        ghost var mid, sofar := View(), trace;
        r := FinishEpoch(rules, epoch, c, terminal.value);
        RanThen(first, TerminalWrites(rules, epoch, c, terminal), old(View()), old(trace), mid, sofar, View(), trace,
                r);
      }
    }

    /** What applying a checkpoint ends with: the terminal header, and the summary last. */
    method FinishCheckpoint(header: Header, s: Summary) returns (r: Option<StoreError>)
      modifies this
      ensures Ran(HeaderWrites(hashing, s, header) + SummaryWrites(s), r)
    {
      ghost var first, second := HeaderWrites(hashing, s, header), SummaryWrites(s);
      r := StoreTerminalHeader(s.terminal.blkid, header);
      if r.Some? {
        RanStop(first, second, old(View()), old(trace), View(), trace, r);
        return;
      }
      ghost var mid, sofar := View(), trace;
      r := StoreSummary(s);
      RanThen(first, second, old(View()), old(trace), mid, sofar, View(), trace, r);
    }

    /** Indexes a checkpoint and finishes it. */
    method IndexCheckpoint(o: ExecutionOutput, header: Header, s: Summary) returns (r: Option<StoreError>)
      modifies this
      ensures
        match Build(None, o.indexed)
        case Ok(writes) => Ran(CheckpointTail(hashing, o, writes, header, s), r)
        case Err(e) => View() == old(View()) && r == Some(Unindexable(e))
    {
      ghost var built := Build(None, o.indexed);
      r := ApplyEpochIndexing(CommitmentOf(s), o);
      ghost var first := if built.Ok? then [ApplyEpochIndex(CommitmentOf(s), built.value)] + MmrWrites(hashing, o)
      else [];
      ghost var last := HeaderWrites(hashing, s, header) + SummaryWrites(s);
      if r.Some? {
        if built.Ok? {
          RanStop(first, last, old(View()), old(trace), View(), trace, r);
        }
        return;
      }
      ghost var mid, sofar := View(), trace;
      r := FinishCheckpoint(header, s);
      RanThen(first, last, old(View()), old(trace), mid, sofar, View(), trace, r);
    }

    /** Applying a checkpoint: state, index, terminal header, and the summary last. */
    method ApplyCheckpoint(
      o: ExecutionOutput, state: OLState, header: Header, s: Summary) returns (r: Option<StoreError>)
      modifies this
      ensures
        match Build(None, o.indexed)
        case Ok(writes) => Ran(CheckpointJob(hashing, o, writes, state, header, s), r)
        case Err(e) => View() == old(View()).(states := old(states)[s.terminal := state]) && r == Some(Unindexable(e))
    {
      ghost var built := Build(None, o.indexed);
      RunOne(PutState(s.terminal, state), View());
      StoreToplevelState(s.terminal, state);
      ghost var mid, sofar := View(), trace;
      r := IndexCheckpoint(o, header, s);
      if built.Ok? {
        RanThen([PutState(s.terminal, state)], CheckpointTail(hashing, o, built.value, header, s),
                old(View()), old(trace), mid, sofar, View(), trace, r);
      }
    }

    method AppendSentinelLeaf() returns (idx: nat)
      modifies this
      ensures idx == |Mirror(old(View()), L1BlockRefs)| && |Mirror(View(), L1BlockRefs)| == idx + 1
      ensures Ran([AppendSentinel(idx, hashing.sentinel)], None)
    {
      var have := if L1BlockRefs in mirrors then mirrors[L1BlockRefs] else [];
      idx := |have|;
      RunOne(AppendSentinel(idx, hashing.sentinel), View());
      mirrors := mirrors[L1BlockRefs := have + [Leaf(hashing.sentinel, None)]];
      trace := trace + [View()];
    }

    /** Fills the L1 mirror with sentinels up to the genesis height. */
    method PrefillL1BlockRefs(genesis: nat)
      modifies this
      ensures Ran(SentinelWrites(hashing, Min(|Mirror(old(View()), L1BlockRefs)|, genesis + 1), genesis + 1), None)
    {
      var leafCount := if L1BlockRefs in mirrors then |mirrors[L1BlockRefs]| else 0;
      ghost var all := SentinelWrites(hashing, Min(leafCount, genesis + 1), genesis + 1);
      var k := 0;
      while leafCount + k <= genesis
        invariant 0 <= k <= |all|
        invariant |Mirror(View(), L1BlockRefs)| == leafCount + k
        invariant Pending(all, old(View()), old(trace), k, View(), trace)
      {
        OneMore(all, old(View()), old(trace), k, View(), trace);
        var idx := AppendSentinelLeaf();
        k := k + 1;
      }
      NothingPending(all, old(View()), old(trace), View(), trace);
    }
  }

  // ---------------------------------------------------------------- the worker's jobs

  lemma {:induction false} MmrWritesAreLeaves(h: Hashing, o: ExecutionOutput)
    ensures forall i :: 0 <= i < |MmrWrites(h, o)| ==> MmrWrites(h, o)[i].AppendLeaf?
  {
  }

  lemma {:induction false} OutputConsistent(
    h: Hashing, epoch: nat, c: BlockCommitment, o: ExecutionOutput, writes: Writes, last: seq<Write>)
    requires forall i :: 0 <= i < |last|
                         ==> last[i].PutState? || last[i].MergeEpoch? || last[i].StampEpoch? || last[i].PutSummary?
    requires Consistent(last)
    ensures Consistent(OutputWrites(h, epoch, c, o, writes) + last)
  {
    var output := OutputWrites(h, epoch, c, o, writes);
    var ws := output + last;
    forall i | 0 <= i < |output|
      ensures ws[i].AppendLeaf? || (i == 0 && ws[i].PutBatch?) || (i == 1 && ws[i].ApplyIndex?) {
      MmrWritesAreLeaves(h, o);
    }
    forall i, j | 0 <= i < j < |ws| ensures Agree(ws[i], ws[j]) {
      if i >= |output| {
        assert ws[i] == last[i - |output|] && ws[j] == last[j - |output|];
      } else if j >= |output| {
        assert ws[j] == last[j - |output|];
      }
    }
  }

  /** A block's job can be retried after any crashes, whether or not the block closes an epoch and
      whatever state the merge then finds. */
  lemma {:induction false} BlockJobRetriable(
    h: Hashing, rules: Rules, epoch: nat, c: BlockCommitment, o: ExecutionOutput, writes: Writes, state: OLState,
    terminal: Option<Ending>)
    ensures Retriable(BlockJob(h, rules, epoch, c, o, writes, state, terminal))
  {
    var output, put := OutputWrites(h, epoch, c, o, writes), PutState(c, state);
    var last := TerminalWrites(rules, epoch, c, terminal);
    AppendAssoc(output, [put], last);
    if terminal.None? || terminal.value.prev == c {
      OutputConsistent(h, epoch, c, o, writes, [put] + last);
      ConsistentRetriable(output + ([put] + last));
    } else {
      OutputConsistent(h, epoch, c, o, writes, [put]);
      OutputConsistent(h, epoch, c, o, writes, last);
      TerminalRetriable(Shape(output, put, last[0], last[1..]));
    }
  }

  lemma {:induction false} CheckpointConsistent(
    h: Hashing, o: ExecutionOutput, writes: Writes, state: OLState, header: Header, s: Summary)
    ensures Consistent(CheckpointJob(h, o, writes, state, header, s))
  {
    var ws := CheckpointJob(h, o, writes, state, header, s);
    forall i | 0 <= i < |ws|
      ensures || ws[i].AppendLeaf? || (i == 0 && ws[i].PutState?) || ws[i] == ApplyEpochIndex(CommitmentOf(s), writes)
              || (ws[i].PutTerminalHeader? && ws[i].header == header) || ws[i] in SummaryWrites(s)
    {
      MmrWritesAreLeaves(h, o);
    }
  }

  /** So can applying a checkpoint. */
  lemma {:induction false} CheckpointJobRetriable(
    h: Hashing, o: ExecutionOutput, writes: Writes, state: OLState, header: Header, s: Summary)
    ensures Retriable(CheckpointJob(h, o, writes, state, header, s))
  {
    CheckpointConsistent(h, o, writes, state, header, s);
    ConsistentRetriable(CheckpointJob(h, o, writes, state, header, s));
  }

  /** A block's job survives any crashes: the retry ends on the disk, and with the result, of one
      uninterrupted run. */
  lemma {:induction false} BlockSurvivesCrashes(
    h: Hashing, rules: Rules, epoch: nat, c: BlockCommitment, o: ExecutionOutput, writes: Writes, state: OLState,
    terminal: Option<Ending>, cuts: seq<nat>, d: Disk)
    requires Within(BlockJob(h, rules, epoch, c, o, writes, state, terminal), cuts)
    ensures
      var job := BlockJob(h, rules, epoch, c, o, writes, state, terminal);
      Run(job, Crash(job, cuts, d)) == Run(job, d)
  {
    BlockJobRetriable(h, rules, epoch, c, o, writes, state, terminal);
  }

  /** Once a block's job has run, each of its L1 records and messages stands at its own height or
      index, for good. */
  lemma {:induction false} BlockLeavesStand(
    h: Hashing, rules: Rules, epoch: nat, c: BlockCommitment, o: ExecutionOutput, writes: Writes, state: OLState,
    terminal: Option<Ending>, later: seq<seq<Write>>, d: Disk)
    requires Run(BlockJob(h, rules, epoch, c, o, writes, state, terminal), d).1.None?
    ensures
      var after := Life(later, Run(BlockJob(h, rules, epoch, c, o, writes, state, terminal), d).0);
      L1Mirrored(h, o.l1, after) && InboxMirrored(h, o.indexed.inbox, after)
  {
    var job := BlockJob(h, rules, epoch, c, o, writes, state, terminal);
    var after := Life(later, Run(job, d).0);
    var n := |o.indexed.inbox|;
    MmrWritesAreLeaves(h, o);
    forall k | 0 <= k < |MmrWrites(h, o)| ensures Done(MmrWrites(h, o)[k], after) {
      assert job[2 + k] == MmrWrites(h, o)[k];
      RecordedLeavesStay(job, later, d, 2 + k);
    }
    assert forall i :: 0 <= i < n ==> MmrWrites(h, o)[i] == InboxLeaves(h, o.indexed.inbox)[i];
    assert forall i :: 0 <= i < |o.l1| ==> MmrWrites(h, o)[n + i] == L1Leaves(h, o.l1)[i];
    InboxLeavesMirrored(h, o.indexed.inbox, after);
    L1LeavesMirrored(h, o.l1, after);
  }

  // ---------------------------------------------------------------- the merged state

  /** The disk after a block's output and state: its batch and its state are there, and no other
      batch or state has changed. */
  lemma {:induction false} PersistedBlock(
    h: Hashing, epoch: nat, c: BlockCommitment, o: ExecutionOutput, writes: Writes, state: OLState, d: Disk)
    requires Run(OutputWrites(h, epoch, c, o, writes) + [PutState(c, state)], d).1.None?
    ensures
      var after := Run(OutputWrites(h, epoch, c, o, writes) + [PutState(c, state)], d).0;
      after.batches == d.batches[c := o.batch] && after.states == d.states[c := state]
  {
    var tail := [ApplyIndex(epoch, c, writes)] + MmrWrites(h, o);
    assert OutputWrites(h, epoch, c, o, writes) == [PutBatch(c, o.batch)] + tail;
    var put := PutBatch(c, o.batch);
    AppendAssoc([put], tail, [PutState(c, state)]);
    RunOne(put, d);
    RunStops([put], tail + [PutState(c, state)], d);
    var first := Run([put], d).0;
    MmrWritesAreLeaves(h, o);
    NoStateWrites(tail, first);
    RunStops(tail, [PutState(c, state)], first);
    RunOne(PutState(c, state), Run(tail, first).0);
  }

  lemma {:induction false} NoStateWrites(ws: seq<Write>, d: Disk)
    requires forall i :: 0 <= i < |ws| ==> ws[i].AppendLeaf? || ws[i].ApplyIndex?
    ensures Run(ws, d).0.batches == d.batches && Run(ws, d).0.states == d.states
    decreases |ws|
  {
    if ws != [] && Exec(ws[0], d).Ok? {
      NoStateWrites(ws[1..], Exec(ws[0], d).value);
    }
  }

  /** Where the blocks of the epoch before `c` were executed on one another and stored, and `c` was
      executed on the last of them, the merge of the epoch finds exactly the executed state. */
  lemma {:induction false} MergedIsExecuted(
    h: Hashing, rules: Rules, epoch: nat, c: BlockCommitment, o: ExecutionOutput, writes: Writes, state: OLState,
    prev: BlockCommitment, path: seq<BlockCommitment>, d: Disk)
    requires EpochMerge.Lineage(rules.headers, prev, path + [c], c)
    requires EpochMerge.ExecutedAlong(rules.apply, EpochMerge.Db(rules.headers, d.batches, d.states), prev, path)
    requires
      var parent := EpochMerge.Before(prev, path, |path|);
      parent in d.states && rules.apply(d.states[parent], o.batch) == Some(state)
    requires Run(OutputWrites(h, epoch, c, o, writes) + [PutState(c, state)], d).1.None?
    ensures Merged(rules, Run(OutputWrites(h, epoch, c, o, writes) + [PutState(c, state)], d).0, prev, c) == Ok(state)
  {
    var after := Run(OutputWrites(h, epoch, c, o, writes) + [PutState(c, state)], d).0;
    PersistedBlock(h, epoch, c, o, writes, state, d);
    var was := EpochMerge.Db(rules.headers, d.batches, d.states);
    var db := EpochMerge.Db(rules.headers, after.batches, after.states);
    var whole := path + [c];
    assert EpochMerge.Linked(rules.headers, prev, whole, |path|);
    forall i: nat | i < |whole| ensures EpochMerge.Executed(rules.apply, db, prev, whole, i) {
      if i < |path| {
        assert EpochMerge.Linked(rules.headers, prev, whole, i);
        assert EpochMerge.Executed(rules.apply, was, prev, path, i);
        assert i > 0 ==> EpochMerge.Linked(rules.headers, prev, whole, i - 1);
      } else {
        assert i > 0 ==> EpochMerge.Linked(rules.headers, prev, whole, i - 1);
      }
    }
    EpochMerge.MergeRefinesExecution(rules.apply, db, prev, whole, c);
  }

  /** So a terminal block's job leaves the state its execution produced. */
  lemma {:induction false} TerminalStateIsExecuted(
    h: Hashing, rules: Rules, epoch: nat, c: BlockCommitment, o: ExecutionOutput, writes: Writes, state: OLState,
    e: Ending, path: seq<BlockCommitment>, d: Disk)
    requires EpochMerge.Lineage(rules.headers, e.prev, path + [c], c)
    requires EpochMerge.ExecutedAlong(rules.apply, EpochMerge.Db(rules.headers, d.batches, d.states), e.prev, path)
    requires
      var parent := EpochMerge.Before(e.prev, path, |path|);
      parent in d.states && rules.apply(d.states[parent], o.batch) == Some(state)
    requires Run(BlockJob(h, rules, epoch, c, o, writes, state, Some(e)), d).1.None?
    ensures Run(BlockJob(h, rules, epoch, c, o, writes, state, Some(e)), d).0.states == d.states[c := state]
  {
    var first, last := OutputWrites(h, epoch, c, o, writes) + [PutState(c, state)], EndingWrites(rules, epoch, c, e);
    RunStops(first, last, d);
    PersistedBlock(h, epoch, c, o, writes, state, d);
    MergedIsExecuted(h, rules, epoch, c, o, writes, state, e.prev, path, d);
    var mid := Run(first, d).0;
    var merge := MergeEpoch(e.prev, c, rules);
    RunOne(merge, mid);
    RunStops([merge], SummaryWrites(SummaryFor(epoch, c, e)), mid);
    RunSummary(Run([merge], mid).0, SummaryFor(epoch, c, e));
    assert d.states[c := state][c := state] == d.states[c := state];
  }

  /** Wherever a job is cut off, it never stored a summary before its stamp. */
  lemma {:induction false} BlockStampsFirst(
    h: Hashing, rules: Rules, epoch: nat, c: BlockCommitment, o: ExecutionOutput, writes: Writes, state: OLState,
    terminal: Option<Ending>, k: nat)
    requires k <= |BlockJob(h, rules, epoch, c, o, writes, state, terminal)|
    ensures StampsFirst(BlockJob(h, rules, epoch, c, o, writes, state, terminal)[..k])
  {
    MmrWritesAreLeaves(h, o);
    var job := BlockJob(h, rules, epoch, c, o, writes, state, terminal);
    if terminal.Some? {
      var summary := SummaryFor(epoch, c, terminal.value);
      assert job[|job| - 2] == StampEpoch(CommitmentOf(summary));
      StampBeforeLast(job, k, summary);
    }
  }

  lemma {:induction false} CheckpointStampsFirst(
    h: Hashing, o: ExecutionOutput, writes: Writes, state: OLState, header: Header, s: Summary, k: nat)
    requires k <= |CheckpointJob(h, o, writes, state, header, s)|
    ensures StampsFirst(CheckpointJob(h, o, writes, state, header, s)[..k])
  {
    MmrWritesAreLeaves(h, o);
    var job := CheckpointJob(h, o, writes, state, header, s);
    assert job[|job| - 2] == StampEpoch(CommitmentOf(s));
    StampBeforeLast(job, k, s);
  }

  lemma {:induction false} StampBeforeLast(ws: seq<Write>, k: nat, s: Summary)
    requires |ws| >= 2 && ws[|ws| - 2] == StampEpoch(CommitmentOf(s)) && ws[|ws| - 1] == PutSummary(s)
    requires forall i :: 0 <= i < |ws| - 1 ==> !ws[i].PutSummary?
    ensures k <= |ws| ==> StampsFirst(ws[..k])
  {
    if k <= |ws| {
      forall i | 0 <= i < k && ws[..k][i].PutSummary?
        ensures StampEpoch(CommitmentOf(ws[..k][i].summary)) in ws[..k][..i] {
        assert i == |ws| - 1 && ws[..k][..i][i - 1] == ws[|ws| - 2];
      }
    }
  }
}
