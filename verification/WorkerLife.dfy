/** The life of a chain worker: prefills, executed blocks and applied checkpoints, each attempted any
    number of times and cut off anywhere. */
module WorkerLife {
  import opened Chain
  import opened Indexing
  import opened Disk
  import opened Seqs
  import opened WorkerStore

  datatype Work =
    | Prefill
    | Execute(rules: Rules, epoch: nat, block: BlockCommitment, output: ExecutionOutput, writes: Writes,
              state: OLState, terminal: Option<Ending>)
    | Sync(output: ExecutionOutput, writes: Writes, state: OLState, header: Header, summary: Summary)

  ghost function WorkWrites(h: Hashing, genesis: nat, w: Work): seq<Write> {
    match w
    case Prefill => SentinelWrites(h, 0, genesis + 1)
    case Execute(rules, epoch, c, o, writes, state, terminal) =>
      BlockJob(h, rules, epoch, c, o, writes, state, terminal)
    case Sync(o, writes, state, header, s) => CheckpointJob(h, o, writes, state, header, s)
  }

  /** Every work can be retried after any crashes, so a life with crashes ends like one without. */
  lemma {:induction false} WorkRetriable(h: Hashing, genesis: nat, w: Work)
    ensures Retriable(WorkWrites(h, genesis, w))
  {
    match w
    case Prefill =>
      SentinelsConsistent(h, genesis + 1);
      ConsistentRetriable(WorkWrites(h, genesis, w));
    case Execute(rules, epoch, c, o, writes, state, terminal) =>
      BlockJobRetriable(h, rules, epoch, c, o, writes, state, terminal);
    case Sync(o, writes, state, header, s) =>
      CheckpointJobRetriable(h, o, writes, state, header, s);
  }

  datatype Attempt = Attempt(work: Work, cut: nat)

  ghost function AttemptWrites(h: Hashing, genesis: nat, a: Attempt): seq<Write> {
    var ws := WorkWrites(h, genesis, a.work);
    ws[..Min(a.cut, |ws|)]
  }

  ghost function LifeWrites(h: Hashing, genesis: nat, life: seq<Attempt>): seq<seq<Write>> {
    seq(|life|, i requires 0 <= i < |life| => AttemptWrites(h, genesis, life[i]))
  }

  // ---------------------------------------------------------------- where leaves come from

  /** The L1 record that this work mirrors at this index. */
  ghost predicate MirrorsL1(h: Hashing, w: Work, i: nat, leaf: Leaf) {
    && !w.Prefill?
    && exists x :: && x in w.output.l1 && x.height == i
                   && leaf.hash == h.blockRef(x.record) && leaf.preimage == Some(x.record)
  }

  /** The inbox message that this work mirrors at this index. */
  ghost predicate MirrorsInbox(h: Hashing, w: Work, account: AccountId, i: nat, leaf: Leaf) {
    && !w.Prefill?
    && exists x :: && x in w.output.indexed.inbox && x.account == account && x.index == i
                   && leaf.hash == h.entry(x.entry) && leaf.preimage == Some(x.entry)
  }

  lemma {:induction false} LeafOfOutput(h: Hashing, o: ExecutionOutput, w: Write)
    requires w in MmrWrites(h, o)
    ensures w.AppendLeaf?
    ensures (exists x :: x in o.l1 && L1Leaf(h, x) == w) || (exists x :: x in o.indexed.inbox && InboxLeaf(h, x) == w)
  {
    var i :| 0 <= i < |MmrWrites(h, o)| && MmrWrites(h, o)[i] == w;
    var n := |o.indexed.inbox|;
    if i < n {
      assert o.indexed.inbox[i] in o.indexed.inbox;
    } else {
      assert o.l1[i - n] in o.l1;
    }
  }

  /** The leaves a work writes are those of its output; only the prefill writes sentinels. */
  lemma {:induction false} LeafOfWork(h: Hashing, genesis: nat, work: Work, w: Write)
    requires w in WorkWrites(h, genesis, work)
    ensures w.AppendLeaf? ==> !work.Prefill? && w in MmrWrites(h, work.output)
    ensures w.AppendSentinel? ==> work.Prefill? && w.idx <= genesis && w.hash == h.sentinel
  {
  }

  lemma {:induction false} FlattenHas(attempts: seq<seq<Write>>, w: Write)
    requires w in Flatten(attempts)
    ensures exists k :: 0 <= k < |attempts| && w in attempts[k]
    decreases |attempts|
  {
    if w in attempts[0] {
    } else {
      FlattenHas(attempts[1..], w);
      var k :| 0 <= k < |attempts[1..]| && w in attempts[1..][k];
      assert w in attempts[k + 1];
    }
  }

  lemma {:induction false} LifeHas(h: Hashing, genesis: nat, life: seq<Attempt>, w: Write) returns (k: nat)
    requires w in Flatten(LifeWrites(h, genesis, life))
    ensures k < |life| && w in WorkWrites(h, genesis, life[k].work)
  {
    FlattenHas(LifeWrites(h, genesis, life), w);
    k :| 0 <= k < |life| && w in LifeWrites(h, genesis, life)[k];
    assert w in AttemptWrites(h, genesis, life[k]);
  }

  /** In every state of a worker's life the mirror of L1 block references holds the sentinel at each
      index up to the genesis height and, at each height above, a record of that height that some
      work had in its output. The works' records are of heights above genesis. */
  lemma {:induction false} L1MirrorIsByHeight(h: Hashing, genesis: nat, life: seq<Attempt>, i: nat)
    requires forall k, x :: 0 <= k < |life| && !life[k].work.Prefill? && x in life[k].work.output.l1
                            ==> x.height > genesis
    requires i < |Mirror(Life(LifeWrites(h, genesis, life), EMPTY), L1BlockRefs)|
    ensures
      var leaf := Mirror(Life(LifeWrites(h, genesis, life), EMPTY), L1BlockRefs)[i];
      if i <= genesis then leaf == Leaf(h.sentinel, None)
      else exists k :: 0 <= k < |life| && MirrorsL1(h, life[k].work, i, leaf)
  {
    var attempts := LifeWrites(h, genesis, life);
    var leaf := Mirror(Life(attempts, EMPTY), L1BlockRefs)[i];
    LifeExplained([], attempts, EMPTY);
    AppendEmpty(Flatten(attempts));
    assert Explains(Flatten(attempts), L1BlockRefs, i, leaf);
    if AppendLeaf(L1BlockRefs, i, leaf) in Flatten(attempts) {
      var k := LifeHas(h, genesis, life, AppendLeaf(L1BlockRefs, i, leaf));
      LeafOfWork(h, genesis, life[k].work, AppendLeaf(L1BlockRefs, i, leaf));
      LeafOfOutput(h, life[k].work.output, AppendLeaf(L1BlockRefs, i, leaf));
      assert MirrorsL1(h, life[k].work, i, leaf);
    } else {
      var k := LifeHas(h, genesis, life, AppendSentinel(i, leaf.hash));
      LeafOfWork(h, genesis, life[k].work, AppendSentinel(i, leaf.hash));
    }
  }

  // ---------------------------------------------------------------- progress

  /** Leaves for the next free indices of a mirror are all accepted, in order. */
  lemma {:induction false} NextLeaves(ws: seq<Write>, id: MmrId, d: Disk)
    requires forall i :: 0 <= i < |ws| ==> ws[i].AppendLeaf? && ws[i].mmr == id && ws[i].idx == |Mirror(d, id)| + i
    ensures Run(ws, d).1.None? && |Mirror(Run(ws, d).0, id)| == |Mirror(d, id)| + |ws|
    ensures forall i :: 0 <= i < |Mirror(d, id)| ==> Mirror(Run(ws, d).0, id)[i] == Mirror(d, id)[i]
    ensures forall i :: 0 <= i < |ws| ==> Mirror(Run(ws, d).0, id)[|Mirror(d, id)| + i] == ws[i].leaf
    decreases |ws|
  {
    if ws != [] {
      var next := Exec(ws[0], d).value;
      assert Mirror(next, id) == Mirror(d, id) + [ws[0].leaf];
      NextLeaves(ws[1..], id, next);
      forall i | 0 < i < |ws| ensures Mirror(Run(ws, d).0, id)[|Mirror(d, id)| + i] == ws[i].leaf {
        assert ws[i] == ws[1..][i - 1];
      }
    }
  }

  lemma {:induction false} PrefillFills(h: Hashing, from: nat, end: nat, d: Disk)
    requires from == |Mirror(d, L1BlockRefs)| && from <= end
    ensures
      var (after, e) := Run(SentinelWrites(h, from, end), d);
      && e.None? && |Mirror(after, L1BlockRefs)| == end
      && (forall i :: 0 <= i < from ==> Mirror(after, L1BlockRefs)[i] == Mirror(d, L1BlockRefs)[i])
      && forall i :: from <= i < end ==> Mirror(after, L1BlockRefs)[i] == Leaf(h.sentinel, None)
    decreases end - from
  {
    var ws := SentinelWrites(h, from, end);
    if from < end {
      assert ws[0] == AppendSentinel(from, h.sentinel) && ws[1..] == SentinelWrites(h, from + 1, end);
      var next := Exec(ws[0], d).value;
      assert Mirror(next, L1BlockRefs) == Mirror(d, L1BlockRefs) + [Leaf(h.sentinel, None)];
      PrefillFills(h, from + 1, end, next);
    }
  }

  /** After a prefill of a mirror not filled beyond it, the L1 records of the heights that follow
      genesis are all accepted, and stand at their heights behind the sentinels. */
  lemma {:induction false} L1RecordsAccepted(h: Hashing, genesis: nat, l1: seq<L1Write>, d: Disk)
    requires |Mirror(d, L1BlockRefs)| <= genesis + 1
    requires forall i :: 0 <= i < |l1| ==> l1[i].height == genesis + 1 + i
    ensures
      var (after, e) := Run(WorkWrites(h, genesis, Prefill) + L1Leaves(h, l1), d);
      var had, has := Mirror(d, L1BlockRefs), Mirror(after, L1BlockRefs);
      && e.None? && |has| == genesis + 1 + |l1|
      && (forall i :: 0 <= i < |had| ==> has[i] == had[i])
      && (forall i :: |had| <= i <= genesis ==> has[i] == Leaf(h.sentinel, None))
      && (forall i :: 0 <= i < |l1| ==> has[genesis + 1 + i] == Leaf(h.blockRef(l1[i].record), Some(l1[i].record)))
  {
    var from := |Mirror(d, L1BlockRefs)|;
    PrefillResumes(h, genesis, d);
    PrefillFills(h, from, genesis + 1, d);
    RunStops(WorkWrites(h, genesis, Prefill), L1Leaves(h, l1), d);
    var ws := L1Leaves(h, l1);
    NextLeaves(ws, L1BlockRefs, Run(WorkWrites(h, genesis, Prefill), d).0);
    assert forall i :: 0 <= i < |ws| ==> ws[i].leaf == Leaf(h.blockRef(l1[i].record), Some(l1[i].record));
  }

  /** Messages of one account for the next free indices of its mirror are all accepted. */
  lemma {:induction false} MessagesAccepted(h: Hashing, account: AccountId, inbox: seq<InboxWrite>, d: Disk)
    requires forall i :: 0 <= i < |inbox| ==>
                           inbox[i].account == account && inbox[i].index == |Mirror(d, SnarkMsgInbox(account))| + i
    ensures
      var (after, e) := Run(InboxLeaves(h, inbox), d);
      var had, has := Mirror(d, SnarkMsgInbox(account)), Mirror(after, SnarkMsgInbox(account));
      && e.None? && |has| == |had| + |inbox|
      && (forall i :: 0 <= i < |had| ==> has[i] == had[i])
      && (forall i :: 0 <= i < |inbox| ==> has[|had| + i] == Leaf(h.entry(inbox[i].entry), Some(inbox[i].entry)))
  {
    var ws := InboxLeaves(h, inbox);
    NextLeaves(ws, SnarkMsgInbox(account), d);
    assert forall i :: 0 <= i < |ws| ==> ws[i].leaf == Leaf(h.entry(inbox[i].entry), Some(inbox[i].entry));
  }

  // ---------------------------------------------------------------- inbox mirrors

  /** And each account's inbox mirror holds, at each index, a message that some work had for that
      account at that index. */
  lemma {:induction false} InboxMirrorIsByIndex(
    h: Hashing, genesis: nat, life: seq<Attempt>, account: AccountId, i: nat)
    requires i < |Mirror(Life(LifeWrites(h, genesis, life), EMPTY), SnarkMsgInbox(account))|
    ensures
      var leaf := Mirror(Life(LifeWrites(h, genesis, life), EMPTY), SnarkMsgInbox(account))[i];
      exists k :: 0 <= k < |life| && MirrorsInbox(h, life[k].work, account, i, leaf)
  {
    var attempts := LifeWrites(h, genesis, life);
    var leaf := Mirror(Life(attempts, EMPTY), SnarkMsgInbox(account))[i];
    LifeExplained([], attempts, EMPTY);
    AppendEmpty(Flatten(attempts));
    assert Explains(Flatten(attempts), SnarkMsgInbox(account), i, leaf);
    var k := LifeHas(h, genesis, life, AppendLeaf(SnarkMsgInbox(account), i, leaf));
    LeafOfWork(h, genesis, life[k].work, AppendLeaf(SnarkMsgInbox(account), i, leaf));
    LeafOfOutput(h, life[k].work.output, AppendLeaf(SnarkMsgInbox(account), i, leaf));
    assert MirrorsInbox(h, life[k].work, account, i, leaf);
  }

  // ---------------------------------------------------------------- summaries

  /** In every state of a worker's life, a stored summary's commitment was stamped earlier. */
  lemma {:induction false} WorkerStampsFirst(h: Hashing, genesis: nat, life: seq<Attempt>)
    ensures
      var attempts := LifeWrites(h, genesis, life);
      Life(attempts, EMPTY).summaries.Keys <= LifeStamps(attempts, EMPTY)
  {
    var attempts := LifeWrites(h, genesis, life);
    forall i | 0 <= i < |attempts| ensures StampsFirst(attempts[i]) {
      AttemptStampsFirst(h, genesis, life[i]);
    }
    SummariesWereStamped(attempts, EMPTY, {});
  }

  lemma {:induction false} AttemptStampsFirst(h: Hashing, genesis: nat, a: Attempt)
    ensures StampsFirst(AttemptWrites(h, genesis, a))
  {
    var ws := WorkWrites(h, genesis, a.work);
    var k := Min(a.cut, |ws|);
    match a.work
    case Prefill =>
    case Execute(rules, epoch, c, o, writes, state, terminal) =>
      BlockStampsFirst(h, rules, epoch, c, o, writes, state, terminal, k);
    case Sync(o, writes, state, header, s) =>
      CheckpointStampsFirst(h, o, writes, state, header, s, k);
  }

  // ---------------------------------------------------------------- the mirrors of both ways of syncing

  /** The leaves these writes want in one mirror. */
  ghost function Only(ws: seq<Write>, id: MmrId): seq<Write> {
    if ws == [] then [] else (if ws[0].AppendLeaf? && ws[0].mmr == id then [ws[0]] else []) + Only(ws[1..], id)
  }

  /** Appending leaves to one mirror. */
  ghost function Fold(ws: seq<Write>, leaves: seq<Leaf>): Option<seq<Leaf>>
    requires forall i :: 0 <= i < |ws| ==> ws[i].AppendLeaf?
    decreases |ws|
  {
    if ws == [] then Some(leaves)
    else if ws[0].idx == |leaves| then Fold(ws[1..], leaves + [ws[0].leaf])
    else if ws[0].idx < |leaves| && leaves[ws[0].idx].hash == ws[0].leaf.hash then Fold(ws[1..], leaves)
    else None
  }

  lemma {:induction false} OnlyLeaves(ws: seq<Write>, id: MmrId)
    ensures forall i :: 0 <= i < |Only(ws, id)| ==> Only(ws, id)[i].AppendLeaf?
    decreases |ws|
  {
    if ws != [] {
      OnlyLeaves(ws[1..], id);
    }
  }

  lemma {:induction false} OnlyAppend(a: seq<Write>, b: seq<Write>, id: MmrId)
    ensures Only(a + b, id) == Only(a, id) + Only(b, id)
    decreases |a|
  {
    if a == [] {
      AppendEmpty(b);
      AppendEmpty(Only(b, id));
    } else {
      ConsAppend(a, b);
      OnlyAppend(a[1..], b, id);
      var head := if a[0].AppendLeaf? && a[0].mmr == id then [a[0]] else [];
      AppendAssoc(head, Only(a[1..], id), Only(b, id));
    }
  }

  lemma {:induction false} OnlyNone(ws: seq<Write>, id: MmrId)
    requires forall i :: 0 <= i < |ws| ==> !(ws[i].AppendLeaf? && ws[i].mmr == id)
    ensures Only(ws, id) == []
    decreases |ws|
  {
    if ws != [] {
      OnlyNone(ws[1..], id);
    }
  }

  lemma {:induction false} ExecFolds(w: Write, d: Disk, id: MmrId)
    requires Exec(w, d).Ok? && !w.AppendSentinel?
    ensures
      var had, has := Mirror(d, id), Mirror(Exec(w, d).value, id);
      if w.AppendLeaf? && w.mmr == id then
        && w.idx <= |had|
        && has == (if w.idx == |had| then had + [w.leaf] else had)
        && (w.idx < |had| ==> had[w.idx].hash == w.leaf.hash)
      else has == had
  {
  }

  /** A completed run leaves a mirror with the leaves it wants there appended. */
  lemma {:induction false} RunFolds(ws: seq<Write>, d: Disk, id: MmrId)
    requires Run(ws, d).1.None? && forall i :: 0 <= i < |ws| ==> !ws[i].AppendSentinel?
    ensures forall i :: 0 <= i < |Only(ws, id)| ==> Only(ws, id)[i].AppendLeaf?
    ensures Fold(Only(ws, id), Mirror(d, id)) == Some(Mirror(Run(ws, d).0, id))
    decreases |ws|
  {
    OnlyLeaves(ws, id);
    if ws != [] {
      var next, rest := Exec(ws[0], d).value, Only(ws[1..], id);
      ExecFolds(ws[0], d, id);
      RunFolds(ws[1..], next, id);
      if ws[0].AppendLeaf? && ws[0].mmr == id {
        assert Only(ws, id) == [ws[0]] + rest;
        ConsAppend([ws[0]], rest);
        AppendEmpty(rest);
      } else {
        AppendEmpty(rest);
        assert Only(ws, id) == rest;
      }
    }
  }

  /** The inbox messages, and the L1 records, of the blocks in order. */
  ghost function AllInbox(blocks: seq<Work>): seq<InboxWrite>
    requires forall i :: 0 <= i < |blocks| ==> blocks[i].Execute?
    decreases |blocks|
  {
    if blocks == [] then [] else blocks[0].output.indexed.inbox + AllInbox(blocks[1..])
  }

  ghost function AllL1(blocks: seq<Work>): seq<L1Write>
    requires forall i :: 0 <= i < |blocks| ==> blocks[i].Execute?
    decreases |blocks|
  {
    if blocks == [] then [] else blocks[0].output.l1 + AllL1(blocks[1..])
  }

  ghost function AllWrites(h: Hashing, blocks: seq<Work>): seq<Write>
    decreases |blocks|
  {
    if blocks == [] then [] else WorkWrites(h, 0, blocks[0]) + AllWrites(h, blocks[1..])
  }

  /** One mirror sees of an output the leaves of its own kind only. */
  lemma {:induction false} OnlyOutput(h: Hashing, inbox: seq<InboxWrite>, l1: seq<L1Write>, id: MmrId)
    ensures Only(InboxLeaves(h, inbox) + L1Leaves(h, l1), id) ==
            if id.L1BlockRefs? then Only(L1Leaves(h, l1), id) else Only(InboxLeaves(h, inbox), id)
  {
    OnlyAppend(InboxLeaves(h, inbox), L1Leaves(h, l1), id);
    if id.L1BlockRefs? {
      OnlyNone(InboxLeaves(h, inbox), id);
      AppendEmpty(Only(L1Leaves(h, l1), id));
    } else {
      OnlyNone(L1Leaves(h, l1), id);
      AppendEmpty(Only(InboxLeaves(h, inbox), id));
    }
  }

  /** A job's other writes want no leaves. */
  lemma {:induction false} OnlyBlock(h: Hashing, w: Work, id: MmrId)
    requires w.Execute?
    ensures Only(WorkWrites(h, 0, w), id) == Only(MmrWrites(h, w.output), id)
  {
    var first, last := [PutBatch(w.block, w.output.batch), ApplyIndex(w.epoch, w.block, w.writes)],
                       [PutState(w.block, w.state)] + TerminalWrites(w.rules, w.epoch, w.block, w.terminal);
    assert WorkWrites(h, 0, w) == first + (MmrWrites(h, w.output) + last);
    OnlyAppend(first, MmrWrites(h, w.output) + last, id);
    OnlyAppend(MmrWrites(h, w.output), last, id);
    OnlyNone(first, id);
    OnlyNone(last, id);
    AppendEmpty(Only(MmrWrites(h, w.output), id));
  }

  lemma {:induction false} OnlySync(h: Hashing, w: Work, id: MmrId)
    requires w.Sync?
    ensures Only(WorkWrites(h, 0, w), id) == Only(MmrWrites(h, w.output), id)
  {
    var first := [PutState(w.summary.terminal, w.state), ApplyEpochIndex(CommitmentOf(w.summary), w.writes)];
    var last := HeaderWrites(h, w.summary, w.header) + SummaryWrites(w.summary);
    assert WorkWrites(h, 0, w) == first + (MmrWrites(h, w.output) + last);
    OnlyAppend(first, MmrWrites(h, w.output) + last, id);
    OnlyAppend(MmrWrites(h, w.output), last, id);
    OnlyNone(first, id);
    OnlyNone(last, id);
    AppendEmpty(Only(MmrWrites(h, w.output), id));
  }

  /** The leaves of the blocks one after the other are, in the L1 mirror, those of all their L1
      records. */
  lemma {:induction false} OnlyBlocksL1(h: Hashing, blocks: seq<Work>)
    requires forall i :: 0 <= i < |blocks| ==> blocks[i].Execute?
    ensures Only(AllWrites(h, blocks), L1BlockRefs) == Only(L1Leaves(h, AllL1(blocks)), L1BlockRefs)
    decreases |blocks|
  {
    if blocks == [] {
      assert L1Leaves(h, []) == [];
    } else {
      var first, rest := blocks[0], blocks[1..];
      OnlyBlocksL1(h, rest);
      OnlyBlock(h, first, L1BlockRefs);
      OnlyOutput(h, first.output.indexed.inbox, first.output.l1, L1BlockRefs);
      OnlyAppend(WorkWrites(h, 0, first), AllWrites(h, rest), L1BlockRefs);
      L1LeavesAppend(h, first.output.l1, AllL1(rest));
      OnlyAppend(L1Leaves(h, first.output.l1), L1Leaves(h, AllL1(rest)), L1BlockRefs);
    }
  }

  lemma {:induction false} L1LeavesAppend(h: Hashing, a: seq<L1Write>, b: seq<L1Write>)
    ensures L1Leaves(h, a + b) == L1Leaves(h, a) + L1Leaves(h, b)
  {
  }

  /** And in an account's inbox mirror those of all their inbox messages. */
  lemma {:induction false} OnlyBlocksInbox(h: Hashing, blocks: seq<Work>, id: MmrId)
    requires !id.L1BlockRefs? && forall i :: 0 <= i < |blocks| ==> blocks[i].Execute?
    ensures Only(AllWrites(h, blocks), id) == Only(InboxLeaves(h, AllInbox(blocks)), id)
    decreases |blocks|
  {
    if blocks == [] {
      assert InboxLeaves(h, []) == [];
    } else {
      var first, rest := blocks[0], blocks[1..];
      OnlyBlocksInbox(h, rest, id);
      OnlyBlock(h, first, id);
      OnlyOutput(h, first.output.indexed.inbox, first.output.l1, id);
      OnlyAppend(WorkWrites(h, 0, first), AllWrites(h, rest), id);
      InboxLeavesAppend(h, first.output.indexed.inbox, AllInbox(rest));
      OnlyAppend(InboxLeaves(h, first.output.indexed.inbox), InboxLeaves(h, AllInbox(rest)), id);
    }
  }

  lemma {:induction false} InboxLeavesAppend(h: Hashing, a: seq<InboxWrite>, b: seq<InboxWrite>)
    ensures InboxLeaves(h, a + b) == InboxLeaves(h, a) + InboxLeaves(h, b)
  {
  }

  lemma {:induction false} NoSentinels(h: Hashing, blocks: seq<Work>)
    requires forall i :: 0 <= i < |blocks| ==> blocks[i].Execute?
    ensures forall i :: 0 <= i < |AllWrites(h, blocks)| ==> !AllWrites(h, blocks)[i].AppendSentinel?
    decreases |blocks|
  {
    if blocks != [] {
      NoSentinels(h, blocks[1..]);
      forall i | 0 <= i < |WorkWrites(h, 0, blocks[0])| ensures !WorkWrites(h, 0, blocks[0])[i].AppendSentinel? {
        LeafOfWork(h, 0, blocks[0], WorkWrites(h, 0, blocks[0])[i]);
      }
    }
  }

  /** Executing an epoch's blocks and applying its checkpoint leave the same mirrors: from disks with
      the same mirrors, once both have completed, every mirror has the same leaves. */
  lemma {:induction false} BothSyncsLeaveTheSameMirrors(
    h: Hashing, blocks: seq<Work>, sync: Work, d: Disk, e: Disk, id: MmrId)
    requires sync.Sync? && forall i :: 0 <= i < |blocks| ==> blocks[i].Execute?
    requires sync.output.indexed.inbox == AllInbox(blocks) && sync.output.l1 == AllL1(blocks)
    requires Mirror(d, id) == Mirror(e, id)
    requires Run(AllWrites(h, blocks), d).1.None? && Run(WorkWrites(h, 0, sync), e).1.None?
    ensures Mirror(Run(AllWrites(h, blocks), d).0, id) == Mirror(Run(WorkWrites(h, 0, sync), e).0, id)
  {
    NoSentinels(h, blocks);
    RunFolds(AllWrites(h, blocks), d, id);
    forall i | 0 <= i < |WorkWrites(h, 0, sync)| ensures !WorkWrites(h, 0, sync)[i].AppendSentinel? {
      LeafOfWork(h, 0, sync, WorkWrites(h, 0, sync)[i]);
    }
    RunFolds(WorkWrites(h, 0, sync), e, id);
    OnlySync(h, sync, id);
    OnlyOutput(h, AllInbox(blocks), AllL1(blocks), id);
    if id.L1BlockRefs? {
      OnlyBlocksL1(h, blocks);
    } else {
      OnlyBlocksInbox(h, blocks, id);
    }
  }
}
