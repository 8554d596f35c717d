/** What a completed job leaves on disk, place by place, and what a stored summary vouches for. */
module JobResults {
  import opened Chain
  import opened Indexing
  import opened IndexDb
  import opened Disk
  import opened Seqs
  import opened TerminalJob
  import opened WorkerStore
  import EpochMerge

  // ---------------------------------------------------------------- a block

  /** The block's output is on disk: its batch, its place in the index, its L1 records and its
      messages. */
  ghost predicate OutputStored(h: Hashing, epoch: nat, c: BlockCommitment, o: ExecutionOutput, d: Disk) {
    && c in d.batches && d.batches[c] == o.batch
    && epoch in d.index.epochs && d.index.epochs[epoch].lastApplied == Some(c)
    && L1Mirrored(h, o.l1, d) && InboxMirrored(h, o.indexed.inbox, d)
  }

  lemma {:induction false} OutputDone(
    h: Hashing, epoch: nat, c: BlockCommitment, o: ExecutionOutput, writes: Writes, d: Disk)
    requires AllDone(OutputWrites(h, epoch, c, o, writes), d)
    ensures OutputStored(h, epoch, c, o, d)
  {
    var ws, n := OutputWrites(h, epoch, c, o, writes), |o.indexed.inbox|;
    assert ws[0] == PutBatch(c, o.batch) && ws[1] == ApplyIndex(epoch, c, writes);
    assert Done(ws[0], d) && Done(ws[1], d);
    assert forall i :: 0 <= i < n ==> ws[2 + i] == InboxLeaves(h, o.indexed.inbox)[i];
    assert forall i :: 0 <= i < |o.l1| ==> ws[2 + n + i] == L1Leaves(h, o.l1)[i];
    InboxLeavesMirrored(h, o.indexed.inbox, d);
    L1LeavesMirrored(h, o.l1, d);
  }

  /** The epoch that block `c` closes is on disk: stamped, and summarized by the block, the terminal
      before it and the final state. */
  ghost predicate EpochClosed(epoch: nat, c: BlockCommitment, e: Ending, d: Disk) {
    var k := EpochCommitment(epoch, c.slot, c.blkid);
    && epoch in d.index.epochs && d.index.epochs[epoch].stamp == Some(k)
    && k in d.summaries
    && d.summaries[k].epoch == epoch && d.summaries[k].terminal == c && d.summaries[k].prevTerminal == e.prev
    && d.summaries[k].finalState == e.finalState && d.summaries[k].rest == e.rest
  }

  lemma {:induction false} EndingDone(rules: Rules, epoch: nat, c: BlockCommitment, e: Ending, d: Disk)
    requires AllDone(EndingWrites(rules, epoch, c, e), d)
    ensures EpochClosed(epoch, c, e, d)
    ensures c in d.states && Merged(rules, d, e.prev, c) == Ok(d.states[c])
  {
    var ws := EndingWrites(rules, epoch, c, e);
    assert ws[0] == MergeEpoch(e.prev, c, rules) && Done(ws[0], d);
    assert ws[1].StampEpoch? && Done(ws[1], d);
    assert ws[2].PutSummary? && Done(ws[2], d);
  }

  /** A block's completed job leaves its output stored; its state too, unless it closes an epoch: then
      the state is the merge of the epoch's batches as they now stand on disk, and the epoch is
      stamped and summarized. */
  lemma {:induction false} BlockCompleted(
    h: Hashing, rules: Rules, epoch: nat, c: BlockCommitment, o: ExecutionOutput, writes: Writes, state: OLState,
    terminal: Option<Ending>, d: Disk)
    requires Run(BlockJob(h, rules, epoch, c, o, writes, state, terminal), d).1.None?
    ensures
      var after := Run(BlockJob(h, rules, epoch, c, o, writes, state, terminal), d).0;
      && OutputStored(h, epoch, c, o, after) && c in after.states
      && (terminal.None? ==> after.states[c] == state)
      && (terminal.Some? ==>
            && EpochClosed(epoch, c, terminal.value, after)
            && EpochMerge.Merge(rules.apply, EpochMerge.Db(rules.headers, after.batches, after.states),
                                terminal.value.prev, c) == Ok(after.states[c]))
  {
    var output, put := OutputWrites(h, epoch, c, o, writes), PutState(c, state);
    var last := TerminalWrites(rules, epoch, c, terminal);
    var job := BlockJob(h, rules, epoch, c, o, writes, state, terminal);
    AppendAssoc(output, [put], last);
    if terminal.None? || terminal.value.prev == c {
      OutputConsistent(h, epoch, c, o, writes, [put] + last);
      ConsistentJobDone(h, epoch, c, o, writes, put, last, d);
    } else {
      OutputConsistent(h, epoch, c, o, writes, [put]);
      OutputConsistent(h, epoch, c, o, writes, last);
      ShapeDone(Shape(output, put, last[0], last[1..]), d);
      assert [last[0]] + last[1..] == last;
    }
    OutputDone(h, epoch, c, o, writes, Run(job, d).0);
    if terminal.Some? {
      EndingDone(rules, epoch, c, terminal.value, Run(job, d).0);
    }
  }

  lemma {:induction false} ConsistentJobDone(
    h: Hashing, epoch: nat, c: BlockCommitment, o: ExecutionOutput, writes: Writes, put: Write, last: seq<Write>,
    d: Disk)
    requires Consistent(OutputWrites(h, epoch, c, o, writes) + ([put] + last))
    requires Run(OutputWrites(h, epoch, c, o, writes) + ([put] + last), d).1.None?
    ensures
      var after := Run(OutputWrites(h, epoch, c, o, writes) + ([put] + last), d).0;
      AllDone(OutputWrites(h, epoch, c, o, writes), after) && Done(put, after) && AllDone(last, after)
  {
    var output := OutputWrites(h, epoch, c, o, writes);
    var ws := output + ([put] + last);
    RunDone(ws, d);
    assert ws[..|ws|] == ws;
    assert forall i :: 0 <= i < |output| ==> ws[i] == output[i];
    assert ws[|output|] == put;
    assert forall i :: 0 <= i < |last| ==> ws[|output| + 1 + i] == last[i];
  }

  // ---------------------------------------------------------------- a checkpoint

  /** The epoch's records are in the index under its stamp. */
  ghost predicate EpochIndexed(epoch: EpochCommitment, writes: Writes, t: Tables) {
    && epoch.epoch in t.epochs && t.epochs[epoch.epoch].stamp == Some(epoch)
    && (forall a :: a in writes.updates ==>
                      (epoch.epoch, a) in t.updates && t.updates[(epoch.epoch, a)] == writes.updates[a])
    && (forall a :: a in writes.inbox ==>
                      (epoch.epoch, a) in t.inbox && t.inbox[(epoch.epoch, a)] == writes.inbox[a])
    && (forall a :: a in writes.created ==> a in t.creation && t.creation[a] == epoch.epoch)
  }

  lemma {:induction false} EpochIndexDone(epoch: EpochCommitment, writes: Writes, t: Tables)
    requires ApplyEpoch(t, epoch, writes) == t
    ensures EpochIndexed(epoch, writes, t)
  {
    forall a | a in writes.updates
      ensures (epoch.epoch, a) in t.updates && t.updates[(epoch.epoch, a)] == writes.updates[a]
    {
      InsertAt(t.updates, epoch.epoch, writes.updates, (epoch.epoch, a));
    }
    forall a | a in writes.inbox
      ensures (epoch.epoch, a) in t.inbox && t.inbox[(epoch.epoch, a)] == writes.inbox[a]
    {
      InsertAt(t.inbox, epoch.epoch, writes.inbox, (epoch.epoch, a));
    }
    assert t.epochs[epoch.epoch].stamp == Some(epoch);
  }

  /** A completed application of a checkpoint leaves state, records, leaves, terminal header and
      summary, the header under the id it hashes to. */
  lemma {:induction false} CheckpointCompleted(
    h: Hashing, o: ExecutionOutput, writes: Writes, state: OLState, header: Header, s: Summary, d: Disk)
    requires Run(CheckpointJob(h, o, writes, state, header, s), d).1.None?
    ensures
      var after := Run(CheckpointJob(h, o, writes, state, header, s), d).0;
      var k := EpochCommitment(s.epoch, s.terminal.slot, s.terminal.blkid);
      && s.terminal in after.states && after.states[s.terminal] == state
      && EpochIndexed(k, writes, after.index)
      && L1Mirrored(h, o.l1, after) && InboxMirrored(h, o.indexed.inbox, after)
      && s.terminal.blkid in after.terminalHeaders && after.terminalHeaders[s.terminal.blkid] == header
      && h.header(header) == s.terminal.blkid
      && k in after.summaries && after.summaries[k] == s
  {
    var ws, after := CheckpointJob(h, o, writes, state, header, s),
                     Run(CheckpointJob(h, o, writes, state, header, s), d).0;
    CheckpointConsistent(h, o, writes, state, header, s);
    RunDone(ws, d);
    assert ws[..|ws|] == ws;
    CheckpointDone(h, o, writes, state, header, s, after);
  }

  lemma {:induction false} CheckpointDone(
    h: Hashing, o: ExecutionOutput, writes: Writes, state: OLState, header: Header, s: Summary, d: Disk)
    requires AllDone(CheckpointJob(h, o, writes, state, header, s), d)
    ensures
      var k := EpochCommitment(s.epoch, s.terminal.slot, s.terminal.blkid);
      && s.terminal in d.states && d.states[s.terminal] == state
      && EpochIndexed(k, writes, d.index)
      && L1Mirrored(h, o.l1, d) && InboxMirrored(h, o.indexed.inbox, d)
      && s.terminal.blkid in d.terminalHeaders && d.terminalHeaders[s.terminal.blkid] == header
      && h.header(header) == s.terminal.blkid
      && k in d.summaries && d.summaries[k] == s
  {
    var ws, n, m := CheckpointJob(h, o, writes, state, header, s), |o.indexed.inbox|, |o.l1|;
    assert ws[0] == PutState(s.terminal, state) && Done(ws[0], d);
    assert ws[1] == ApplyEpochIndex(CommitmentOf(s), writes) && Done(ws[1], d);
    assert forall i :: 0 <= i < n ==> ws[2 + i] == InboxLeaves(h, o.indexed.inbox)[i];
    assert forall i :: 0 <= i < m ==> ws[2 + n + i] == L1Leaves(h, o.l1)[i];
    assert ws[2 + n + m] == HeaderWrites(h, s, header)[0] && Done(ws[2 + n + m], d);
    assert ws[4 + n + m] == PutSummary(s) && Done(ws[4 + n + m], d);
    EpochIndexDone(CommitmentOf(s), writes, d.index);
    InboxLeavesMirrored(h, o.indexed.inbox, d);
    L1LeavesMirrored(h, o.l1, d);
  }

  // ---------------------------------------------------------------- what a summary vouches for

  /** Writes that store no summary leave the summaries alone. */
  lemma {:induction false} NoSummaryWrites(ws: seq<Write>, d: Disk)
    requires forall i :: 0 <= i < |ws| ==> !ws[i].PutSummary?
    ensures Run(ws, d).0.summaries == d.summaries
    decreases |ws|
  {
    if ws != [] && Exec(ws[0], d).Ok? {
      KeepsSummaries(ws[0], d);
      NoSummaryWrites(ws[1..], Exec(ws[0], d).value);
    }
  }

  lemma {:induction false} KeepsSummaries(w: Write, d: Disk)
    requires !w.PutSummary? && Exec(w, d).Ok?
    ensures Exec(w, d).value.summaries == d.summaries
  {
  }

  /** A job that stores its one summary last: if a run cut off anywhere left a summary that was not
      there before, it was not cut off at all. */
  lemma {:induction false} SummaryComesLast(ws: seq<Write>, k: nat, d: Disk)
    requires k <= |ws| && ws != [] && forall i :: 0 <= i < |ws| - 1 ==> !ws[i].PutSummary?
    requires Run(ws[..k], d).0.summaries != d.summaries
    ensures k == |ws| && Run(ws, d).1.None? && Run(ws[..k], d) == Run(ws, d)
  {
    var n := |ws| - 1;
    if k <= n {
      NoSummaryWrites(ws[..k], d);
    } else {
      assert ws[..k] == ws && ws == ws[..n] + [ws[n]];
      NoSummaryWrites(ws[..n], d);
      RunStops(ws[..n], [ws[n]], d);
      RunOne(ws[n], Run(ws[..n], d).0);
    }
  }

  /** Wherever the job of a terminal block is cut off: if the epoch's summary is then on disk and was
      not before, the whole job is done. */
  lemma {:induction false} SummaryMeansBlockStored(
    h: Hashing, rules: Rules, epoch: nat, c: BlockCommitment, o: ExecutionOutput, writes: Writes, state: OLState,
    e: Ending, k: nat, d: Disk)
    requires k <= |BlockJob(h, rules, epoch, c, o, writes, state, Some(e))|
    requires
      var after := Run(BlockJob(h, rules, epoch, c, o, writes, state, Some(e))[..k], d).0;
      var id := EpochCommitment(epoch, c.slot, c.blkid);
      id in after.summaries && id !in d.summaries
    ensures
      var after := Run(BlockJob(h, rules, epoch, c, o, writes, state, Some(e))[..k], d).0;
      && OutputStored(h, epoch, c, o, after) && EpochClosed(epoch, c, e, after)
      && c in after.states
      && EpochMerge.Merge(rules.apply, EpochMerge.Db(rules.headers, after.batches, after.states), e.prev, c)
         == Ok(after.states[c])
  {
    MmrWritesAreLeaves(h, o);
    var job := BlockJob(h, rules, epoch, c, o, writes, state, Some(e));
    SummaryComesLast(job, k, d);
    BlockCompleted(h, rules, epoch, c, o, writes, state, Some(e), d);
  }

  /** And wherever applying a checkpoint is cut off. */
  lemma {:induction false} SummaryMeansCheckpointApplied(
    h: Hashing, o: ExecutionOutput, writes: Writes, state: OLState, header: Header, s: Summary, k: nat, d: Disk)
    requires k <= |CheckpointJob(h, o, writes, state, header, s)|
    requires
      var after := Run(CheckpointJob(h, o, writes, state, header, s)[..k], d).0;
      var id := EpochCommitment(s.epoch, s.terminal.slot, s.terminal.blkid);
      id in after.summaries && id !in d.summaries
    ensures
      var after := Run(CheckpointJob(h, o, writes, state, header, s)[..k], d).0;
      var id := EpochCommitment(s.epoch, s.terminal.slot, s.terminal.blkid);
      && s.terminal in after.states && after.states[s.terminal] == state
      && EpochIndexed(id, writes, after.index) && after.summaries[id] == s
      && L1Mirrored(h, o.l1, after) && InboxMirrored(h, o.indexed.inbox, after)
      && s.terminal.blkid in after.terminalHeaders && after.terminalHeaders[s.terminal.blkid] == header
  {
    MmrWritesAreLeaves(h, o);
    SummaryComesLast(CheckpointJob(h, o, writes, state, header, s), k, d);
    CheckpointCompleted(h, o, writes, state, header, s, d);
  }

  // ---------------------------------------------------------------- the index

  /** Writes that leave the index rows alone. */
  lemma {:induction false} NoRowWrites(ws: seq<Write>, d: Disk)
    requires forall i :: 0 <= i < |ws| ==> !ws[i].ApplyIndex? && !ws[i].ApplyEpochIndex?
    ensures Run(ws, d).0.index.updates == d.index.updates && Run(ws, d).0.index.inbox == d.index.inbox
    ensures Run(ws, d).0.index.creation == d.index.creation
    decreases |ws|
  {
    if ws != [] && Exec(ws[0], d).Ok? {
      KeepsRows(ws[0], d);
      NoRowWrites(ws[1..], Exec(ws[0], d).value);
    }
  }

  lemma {:induction false} KeepsRows(w: Write, d: Disk)
    requires !w.ApplyIndex? && !w.ApplyEpochIndex? && Exec(w, d).Ok?
    ensures
      var after := Exec(w, d).value.index;
      after.updates == d.index.updates && after.inbox == d.index.inbox && after.creation == d.index.creation
  {
  }

  /** The row of an account, as a query sees it. */
  ghost predicate RowIs<V(!new)>(rows: Rows<V>, key: (nat, AccountId), row: seq<V>) {
    if key in rows then rows[key] == row else row == []
  }

  /** A block's completed job appends the block's records to its epoch's rows once: not at all when
      the block was the last one applied, else behind what was there. */
  lemma {:induction false} BlockIndexedOnce(
    h: Hashing, rules: Rules, epoch: nat, c: BlockCommitment, o: ExecutionOutput, writes: Writes, state: OLState,
    terminal: Option<Ending>, d: Disk, e: nat, a: AccountId, had: seq<UpdateRecord>, held: seq<InboxRecord>)
    requires Run(BlockJob(h, rules, epoch, c, o, writes, state, terminal), d).1.None?
    requires RowIs(d.index.updates, (e, a), had) && RowIs(d.index.inbox, (e, a), held)
    ensures
      var after := Run(BlockJob(h, rules, epoch, c, o, writes, state, terminal), d).0.index;
      var again := epoch in d.index.epochs && d.index.epochs[epoch].lastApplied == Some(c);
      if again || e != epoch then RowIs(after.updates, (e, a), had) && RowIs(after.inbox, (e, a), held)
      else
        && RowIs(after.updates, (e, a), had + if a in writes.updates then writes.updates[a] else [])
        && RowIs(after.inbox, (e, a), held + if a in writes.inbox then writes.inbox[a] else [])
  {
    BlockRows(h, rules, epoch, c, o, writes, state, terminal, d);
    AppliedRows(d.index.updates, epoch, writes.updates, e, a, had);
    AppliedRows(d.index.inbox, epoch, writes.inbox, e, a, held);
    AppendEmpty(had);
    AppendEmpty(held);
  }

  lemma {:induction false} JobSplits(
    h: Hashing, rules: Rules, epoch: nat, c: BlockCommitment, o: ExecutionOutput, writes: Writes, state: OLState,
    terminal: Option<Ending>)
    ensures
      var rest := MmrWrites(h, o) + ([PutState(c, state)] + TerminalWrites(rules, epoch, c, terminal));
      && BlockJob(h, rules, epoch, c, o, writes, state, terminal)
         == [PutBatch(c, o.batch)] + ([ApplyIndex(epoch, c, writes)] + rest)
      && forall i :: 0 <= i < |rest| ==> !rest[i].ApplyIndex? && !rest[i].ApplyEpochIndex?
  {
    MmrWritesAreLeaves(h, o);
  }

  /** The rows after a block's completed job. */
  lemma {:induction false} BlockRows(
    h: Hashing, rules: Rules, epoch: nat, c: BlockCommitment, o: ExecutionOutput, writes: Writes, state: OLState,
    terminal: Option<Ending>, d: Disk)
    requires Run(BlockJob(h, rules, epoch, c, o, writes, state, terminal), d).1.None?
    ensures
      var after := Run(BlockJob(h, rules, epoch, c, o, writes, state, terminal), d).0.index;
      if epoch in d.index.epochs && d.index.epochs[epoch].lastApplied == Some(c) then
        after.updates == d.index.updates && after.inbox == d.index.inbox
      else
        && after.updates == Extend(d.index.updates, epoch, writes.updates)
        && after.inbox == Extend(d.index.inbox, epoch, writes.inbox)
  {
    var job := BlockJob(h, rules, epoch, c, o, writes, state, terminal);
    var first, index := [PutBatch(c, o.batch)], ApplyIndex(epoch, c, writes);
    var rest := MmrWrites(h, o) + ([PutState(c, state)] + TerminalWrites(rules, epoch, c, terminal));
    JobSplits(h, rules, epoch, c, o, writes, state, terminal);
    RunStops(first, [index] + rest, d);
    RunOne(first[0], d);
    var mid := Run(first, d).0;
    RunStops([index], rest, mid);
    RunOne(index, mid);
    NoRowWrites(rest, Run([index], mid).0);
    IndexWrite(epoch, c, writes, mid);
  }

  lemma {:induction false} IndexWrite(epoch: nat, c: BlockCommitment, writes: Writes, d: Disk)
    requires Exec(ApplyIndex(epoch, c, writes), d).Ok?
    ensures
      var after := Exec(ApplyIndex(epoch, c, writes), d).value.index;
      if epoch in d.index.epochs && d.index.epochs[epoch].lastApplied == Some(c) then after == d.index
      else
        && after.updates == Extend(d.index.updates, epoch, writes.updates)
        && after.inbox == Extend(d.index.inbox, epoch, writes.inbox)
  {
  }

  lemma {:induction false} AppliedRows<V(!new)>(
    rows: Rows<V>, epoch: nat, m: map<AccountId, seq<V>>, e: nat, a: AccountId, had: seq<V>)
    requires RowIs(rows, (e, a), had)
    ensures RowIs(Extend(rows, epoch, m), (e, a), had + if e == epoch && a in m then m[a] else [])
  {
  }
}
