/** The startup repair of the canonical block index: two backward chain walks, the backfill,
    and the checks of the tip. */
module Startup {
  import opened Chain
  import opened OLStorage
  import opened Seqs

  datatype StartupError =
    | MissingBlock(at: BlockCommitment)
    | SlotMismatch(at: BlockCommitment, slot: nat)
    | NotValid(at: BlockCommitment)
    | NonGenesis(expected: BlockCommitment, got: BlockCommitment)
    | GenesisParent
    | BelowBase(base: BlockCommitment, at: BlockCommitment)
    | BaseLinkage(base: BlockCommitment, at: BlockCommitment)
    | MissingBaseHeader(at: BlockCommitment)
    | BaseHeaderId(at: BlockCommitment, id: BlockId)
    | CanonicalGenesis(expected: BlockCommitment, got: BlockCommitment)
    | Inconsistent(hasClientState: bool)
    | GenesisState
    | GenesisSummary
    | Tip(e: TipError)

  datatype TipError =
    | TipBelowBase
    | TipNotAnchor
    | MissingTip
    | TipParent
    | TipState
    | PreviousSummary
    | Anchor(e: AnchorError)

  datatype AnchorError =
    | NoHeader
    | NoSummary
    | NotTerminal
    | NoCanonicalEpoch
    | CanonicalEpochMismatch
    | HeaderSlot
    | HeaderEpoch
    | HeaderId
    | HeaderState
    | SummaryCommitment
    | NoState
    | StateSlot
    | EpochOverflow
    | StateEpoch

  // ---------------------------------------------------------------- walking down to genesis

  /** The checks of one block of the chain. */
  function CheckBlock(db: Db, at: BlockCommitment): Result<Header, StartupError> {
    if at.blkid !in db.blocks then Err(MissingBlock(at))
    else if db.blocks[at.blkid].slot != at.slot then Err(SlotMismatch(at, db.blocks[at.blkid].slot))
    else if !(at.blkid in db.status && db.status[at.blkid] == Valid) then Err(NotValid(at))
    else Ok(db.blocks[at.blkid])
  }

  function Walk(db: Db, genesis: BlockCommitment, at: BlockCommitment): Result<seq<BlockId>, StartupError>
    decreases at.slot
  {
    match CheckBlock(db, at)
    case Err(e) => Err(e)
    case Ok(h) =>
      if at.slot == 0 then
        if at != genesis then Err(NonGenesis(genesis, at))
        else if h.parent != NULL_ID then Err(GenesisParent)
        else Ok([at.blkid])
      else
        match Walk(db, genesis, BlockCommitment(at.slot - 1, h.parent))
        case Err(e) => Err(e)
        case Ok(ids) => Ok(ids + [at.blkid])
  }

  /** Collects the finalized chain by following parents. */
  method CollectFinalizedCanonicalChain(db: Db, genesis: BlockCommitment, finalized: BlockCommitment)
    returns (r: Result<seq<BlockId>, StartupError>)
    ensures r == Walk(db, genesis, finalized)
  {
    var reversed: seq<BlockId> := [];
    var current := finalized;
    assert forall ids: seq<BlockId> :: ids + [] == ids;
    while true
      invariant
        match Walk(db, genesis, current)
        case Ok(ids) => Walk(db, genesis, finalized) == Ok(ids + Reverse(reversed))
        case Err(e) => Walk(db, genesis, finalized) == Err(e)
      decreases current.slot
    {
      var checked := CheckBlock(db, current);
      if checked.Err? {
        return Err(checked.error);
      }
      ReverseSnoc(reversed, current.blkid);
      assert forall ids: seq<BlockId> :: ids + [current.blkid] + Reverse(reversed)
                                         == ids + ([current.blkid] + Reverse(reversed));
      reversed := reversed + [current.blkid];
      if current.slot == 0 {
        if current != genesis {
          return Err(NonGenesis(genesis, current));
        }
        if checked.value.parent != NULL_ID {
          return Err(GenesisParent);
        }
        return Ok(Reverse(reversed));
      }
      current := BlockCommitment(current.slot - 1, checked.value.parent);
    }
  }

  /** Block `i` of `ids` is stored, at slot `i`, valid, and the child of block `i - 1`. */
  ghost predicate ChainBlock(db: Db, ids: seq<BlockId>, i: nat)
    requires i < |ids|
  {
    && ids[i] in db.blocks && db.blocks[ids[i]].slot == i
    && ids[i] in db.status && db.status[ids[i]] == Valid
    && db.blocks[ids[i]].parent == if i == 0 then NULL_ID else ids[i - 1]
  }

  /** `ids` is the valid, slot-contiguous, parent-linked chain from genesis to `finalized`. */
  ghost predicate IsChain(db: Db, genesis: BlockCommitment, finalized: BlockCommitment, ids: seq<BlockId>) {
    && |ids| == finalized.slot + 1
    && genesis == BlockCommitment(0, ids[0])
    && ids[finalized.slot] == finalized.blkid
    && forall i :: 0 <= i < |ids| ==> ChainBlock(db, ids, i)
  }

  lemma {:induction false} ChainShrinks(db: Db, genesis: BlockCommitment, at: BlockCommitment, ids: seq<BlockId>)
    requires at.slot > 0 && |ids| == at.slot + 1 && ids[at.slot] == at.blkid
    ensures IsChain(db, genesis, at, ids) <==>
            && CheckBlock(db, at).Ok?
            && IsChain(db, genesis, BlockCommitment(at.slot - 1, db.blocks[at.blkid].parent), ids[..at.slot])
  {
    var below := ids[..at.slot];
    if CheckBlock(db, at).Ok? {
      forall i | 0 <= i < |below| ensures ChainBlock(db, below, i) <==> ChainBlock(db, ids, i) {
      }
    }
    if IsChain(db, genesis, at, ids) {
      assert ChainBlock(db, ids, at.slot);
      assert forall i :: 0 <= i < |below| ==> ChainBlock(db, ids, i) && ChainBlock(db, below, i);
    }
    if CheckBlock(db, at).Ok? && IsChain(db, genesis, BlockCommitment(at.slot - 1, db.blocks[at.blkid].parent), below) {
      assert forall i :: 0 <= i < |below| ==> ChainBlock(db, below, i) && ChainBlock(db, ids, i);
      assert ChainBlock(db, ids, at.slot);
    }
  }

  /** The genesis walk is sound and complete, and its answer unique: it succeeds with `ids`
      exactly when `ids` is the chain. */
  lemma {:induction false} WalkFindsTheChain(db: Db, genesis: BlockCommitment, at: BlockCommitment, ids: seq<BlockId>)
    ensures Walk(db, genesis, at) == Ok(ids) <==> IsChain(db, genesis, at, ids)
    decreases at.slot
  {
    if at.slot == 0 {
      if IsChain(db, genesis, at, ids) {
        assert ChainBlock(db, ids, 0);
        assert ids == [at.blkid];
      }
    } else {
      if Walk(db, genesis, at).Ok? {
        var h := db.blocks[at.blkid];
        var found := Walk(db, genesis, at).value;
        WalkFindsTheChain(db, genesis, BlockCommitment(at.slot - 1, h.parent), found[..|found| - 1]);
        assert found[..|found| - 1] + [at.blkid] == found;
        ChainShrinks(db, genesis, at, found);
      }
      if IsChain(db, genesis, at, ids) {
        ChainShrinks(db, genesis, at, ids);
        WalkFindsTheChain(db, genesis, BlockCommitment(at.slot - 1, db.blocks[at.blkid].parent), ids[..at.slot]);
        assert ids[..at.slot] + [at.blkid] == ids;
      }
    }
  }

  // ---------------------------------------------------------------- walking down to the history base

  function CheckBaseHeader(db: Db, blkidOf: Header -> BlockId, at: BlockCommitment): Option<StartupError> {
    if at.blkid !in db.terminalHeaders then Some(MissingBaseHeader(at))
    else
      var h := db.terminalHeaders[at.blkid];
      if h.slot != at.slot then Some(SlotMismatch(at, h.slot))
      else if blkidOf(h) != at.blkid then Some(BaseHeaderId(at, blkidOf(h)))
      else None
  }

  /** The header of the base is stored under its id, at its slot, and hashes to the id. */
  ghost predicate BaseHeaderStored(db: Db, blkidOf: Header -> BlockId, base: BlockCommitment) {
    && base.blkid in db.terminalHeaders
    && db.terminalHeaders[base.blkid].slot == base.slot
    && blkidOf(db.terminalHeaders[base.blkid]) == base.blkid
  }

  function BaseWalk(
    db: Db, blkidOf: Header -> BlockId, base: BlockCommitment, at: BlockCommitment)
    : Result<seq<BlockId>, StartupError>
    decreases at.slot
  {
    if at.slot < base.slot then Err(BelowBase(base, at))
    else if at.slot == base.slot then
      if at != base then Err(BaseLinkage(base, at))
      else if CheckBaseHeader(db, blkidOf, at).Some? then Err(CheckBaseHeader(db, blkidOf, at).value)
      else Ok([at.blkid])
    else
      match CheckBlock(db, at)
      case Err(e) => Err(e)
      case Ok(h) =>
        match BaseWalk(db, blkidOf, base, BlockCommitment(at.slot - 1, h.parent))
        case Err(e) => Err(e)
        case Ok(ids) => Ok(ids + [at.blkid])
  }

  method CollectFinalizedCanonicalChainFromHistoryBase(
    db: Db, blkidOf: Header -> BlockId, historyBase: EpochCommitment, finalized: BlockCommitment)
    returns (r: Result<seq<BlockId>, StartupError>)
    ensures r == BaseWalk(db, blkidOf, Terminal(historyBase), finalized)
  {
    var base := Terminal(historyBase);
    var reversed: seq<BlockId> := [];
    var current := finalized;
    assert forall ids: seq<BlockId> :: ids + [] == ids;
    while true
      invariant
        match BaseWalk(db, blkidOf, base, current)
        case Ok(ids) => BaseWalk(db, blkidOf, base, finalized) == Ok(ids + Reverse(reversed))
        case Err(e) => BaseWalk(db, blkidOf, base, finalized) == Err(e)
      decreases current.slot
    {
      ReverseSnoc(reversed, current.blkid);
      assert forall ids: seq<BlockId> :: ids + [current.blkid] + Reverse(reversed)
                                         == ids + ([current.blkid] + Reverse(reversed));
      if current.slot < base.slot {
        return Err(BelowBase(base, current));
      }
      if current.slot == base.slot {
        if current != base {
          return Err(BaseLinkage(base, current));
        }
        var e := CheckBaseHeader(db, blkidOf, current);
        if e.Some? {
          return Err(e.value);
        }
        reversed := reversed + [current.blkid];
        return Ok(Reverse(reversed));
      }
      var checked := CheckBlock(db, current);
      if checked.Err? {
        return Err(checked.error);
      }
      reversed := reversed + [current.blkid];
      current := BlockCommitment(current.slot - 1, checked.value.parent);
    }
  }

  /** Block `i` of `ids`, counted from the base, is stored at its slot, valid, and the child of
      block `i - 1`. */
  ghost predicate BaseChainBlock(db: Db, base: BlockCommitment, ids: seq<BlockId>, i: nat)
    requires 0 < i < |ids|
  {
    && ids[i] in db.blocks && db.blocks[ids[i]].slot == base.slot + i
    && ids[i] in db.status && db.status[ids[i]] == Valid
    && db.blocks[ids[i]].parent == ids[i - 1]
  }

  /** `ids` leads from the base, of which only the header need be stored, to `finalized`. */
  ghost predicate IsBaseChain(
    db: Db, blkidOf: Header -> BlockId, base: BlockCommitment, finalized: BlockCommitment, ids: seq<BlockId>)
  {
    && base.slot <= finalized.slot && |ids| == finalized.slot - base.slot + 1
    && ids[0] == base.blkid && ids[|ids| - 1] == finalized.blkid
    && BaseHeaderStored(db, blkidOf, base)
    && forall i :: 0 < i < |ids| ==> BaseChainBlock(db, base, ids, i)
  }

  lemma {:induction false} BaseChainShrinks(
    db: Db, blkidOf: Header -> BlockId, base: BlockCommitment, at: BlockCommitment, ids: seq<BlockId>)
    requires at.slot > base.slot && |ids| == at.slot - base.slot + 1 && ids[|ids| - 1] == at.blkid
    ensures IsBaseChain(db, blkidOf, base, at, ids) <==>
            && CheckBlock(db, at).Ok?
            && IsBaseChain(db, blkidOf, base, BlockCommitment(at.slot - 1, db.blocks[at.blkid].parent),
                           ids[..|ids| - 1])
  {
    var n := |ids| - 1;
    var below := ids[..n];
    assert forall i :: 0 < i < n ==> (BaseChainBlock(db, base, below, i) <==> BaseChainBlock(db, base, ids, i));
    if IsBaseChain(db, blkidOf, base, at, ids) {
      assert BaseChainBlock(db, base, ids, n);
    }
    if CheckBlock(db, at).Ok?
       && IsBaseChain(db, blkidOf, base, BlockCommitment(at.slot - 1, db.blocks[at.blkid].parent), below) {
      assert BaseChainBlock(db, base, ids, n);
    }
  }

  lemma {:induction false} BaseWalkFindsTheChain(
    db: Db, blkidOf: Header -> BlockId, base: BlockCommitment, at: BlockCommitment, ids: seq<BlockId>)
    ensures BaseWalk(db, blkidOf, base, at) == Ok(ids) <==> IsBaseChain(db, blkidOf, base, at, ids)
    decreases at.slot
  {
    if at.slot == base.slot {
      if IsBaseChain(db, blkidOf, base, at, ids) {
        assert ids == [at.blkid];
      }
    } else if at.slot > base.slot {
      if BaseWalk(db, blkidOf, base, at).Ok? {
        var h := db.blocks[at.blkid];
        var found := BaseWalk(db, blkidOf, base, at).value;
        BaseWalkFindsTheChain(db, blkidOf, base, BlockCommitment(at.slot - 1, h.parent), found[..|found| - 1]);
        assert found[..|found| - 1] + [at.blkid] == found;
        BaseChainShrinks(db, blkidOf, base, at, found);
      }
      if IsBaseChain(db, blkidOf, base, at, ids) {
        BaseChainShrinks(db, blkidOf, base, at, ids);
        BaseWalkFindsTheChain(db, blkidOf, base, BlockCommitment(at.slot - 1, db.blocks[at.blkid].parent),
                              ids[..|ids| - 1]);
        assert ids[..|ids| - 1] + [at.blkid] == ids;
      }
    }
  }

  /** Where the genesis walk succeeds, the history-base walk succeeds exactly when the base is
      on the chain and its header is in order, and then returns the chain from the base on. */
  lemma {:induction false} WalksAgree(
    db: Db, blkidOf: Header -> BlockId, genesis: BlockCommitment, base: BlockCommitment,
    finalized: BlockCommitment)
    requires Walk(db, genesis, finalized).Ok?
    ensures
      var full := Walk(db, genesis, finalized).value;
      var part := BaseWalk(db, blkidOf, base, finalized);
      && (part.Ok? <==> base.slot < |full| && full[base.slot] == base.blkid && BaseHeaderStored(db, blkidOf, base))
      && (part.Ok? ==> part.value == full[base.slot..])
  {
    var full := Walk(db, genesis, finalized).value;
    var part := BaseWalk(db, blkidOf, base, finalized);
    WalkFindsTheChain(db, genesis, finalized, full);
    if part.Ok? {
      BaseWalkFindsTheChain(db, blkidOf, base, finalized, part.value);
      SameDownToBase(db, blkidOf, genesis, base, finalized, full, part.value, 0);
    }
    if base.slot < |full| && full[base.slot] == base.blkid && BaseHeaderStored(db, blkidOf, base) {
      var suffix := full[base.slot..];
      forall i | 0 < i < |suffix| ensures BaseChainBlock(db, base, suffix, i) {
        assert ChainBlock(db, full, base.slot + i);
      }
      BaseWalkFindsTheChain(db, blkidOf, base, finalized, suffix);
    }
  }

  lemma {:induction false} SameDownToBase(
    db: Db, blkidOf: Header -> BlockId, genesis: BlockCommitment, base: BlockCommitment, finalized: BlockCommitment,
    full: seq<BlockId>, part: seq<BlockId>, i: nat)
    requires IsChain(db, genesis, finalized, full) && IsBaseChain(db, blkidOf, base, finalized, part)
    requires i < |part|
    ensures part[i] == full[base.slot + i]
    decreases |part| - i
  {
    if i < |part| - 1 {
      SameDownToBase(db, blkidOf, genesis, base, finalized, full, part, i + 1);
      assert ChainBlock(db, full, base.slot + i + 1);
      assert BaseChainBlock(db, base, part, i + 1);
    }
  }

  /** `at` is `finalized` or an ancestor of it, the parent of a stored block being one slot below. */
  ghost predicate Below(db: Db, finalized: BlockCommitment, at: BlockCommitment)
    decreases finalized.slot
  {
    at == finalized || (
      && finalized.slot > 0 && finalized.blkid in db.blocks
      && Below(db, BlockCommitment(finalized.slot - 1, db.blocks[finalized.blkid].parent), at))
  }

  /** What an error of a walk down from `finalized` says is so: it names a block on the way and what
      is wrong with it. */
  ghost predicate WalkCause(
    db: Db, blkidOf: Header -> BlockId, end: BlockCommitment, finalized: BlockCommitment, e: StartupError)
  {
    match e
    case MissingBlock(at) => Below(db, finalized, at) && at.blkid !in db.blocks
    case SlotMismatch(at, slot) =>
      && Below(db, finalized, at) && slot != at.slot
      && ((at.blkid in db.blocks && db.blocks[at.blkid].slot == slot)
          || (at == end && at.blkid in db.terminalHeaders && db.terminalHeaders[at.blkid].slot == slot))
    case NotValid(at) => Below(db, finalized, at) && !(at.blkid in db.status && db.status[at.blkid] == Valid)
    case NonGenesis(expected, got) => expected == end && Below(db, finalized, got) && got.slot == 0 && got != end
    case GenesisParent => end.blkid in db.blocks && db.blocks[end.blkid].parent != NULL_ID
    case BelowBase(base, at) => base == end && Below(db, finalized, at) && at.slot < base.slot
    case BaseLinkage(base, at) => base == end && Below(db, finalized, at) && at.slot == base.slot && at != base
    case MissingBaseHeader(at) => at == end && at.blkid !in db.terminalHeaders
    case BaseHeaderId(at, id) =>
      && at == end && at.blkid in db.terminalHeaders
      && blkidOf(db.terminalHeaders[at.blkid]) == id && id != at.blkid
    case _ => false
  }

  /** An error of the genesis walk tells what is so. */
  lemma {:induction false} WalkErrorIsTrue(
    db: Db, blkidOf: Header -> BlockId, genesis: BlockCommitment, at: BlockCommitment)
    requires Walk(db, genesis, at).Err?
    ensures WalkCause(db, blkidOf, genesis, at, Walk(db, genesis, at).error)
    decreases at.slot
  {
    if CheckBlock(db, at).Ok? && at.slot > 0 {
      WalkErrorIsTrue(db, blkidOf, genesis, BlockCommitment(at.slot - 1, db.blocks[at.blkid].parent));
    }
  }

  /** And so does an error of the history-base walk. */
  lemma {:induction false} BaseWalkErrorIsTrue(
    db: Db, blkidOf: Header -> BlockId, base: BlockCommitment, at: BlockCommitment)
    requires BaseWalk(db, blkidOf, base, at).Err?
    ensures WalkCause(db, blkidOf, base, at, BaseWalk(db, blkidOf, base, at).error)
    decreases at.slot
  {
    if at.slot > base.slot && CheckBlock(db, at).Ok? {
      BaseWalkErrorIsTrue(db, blkidOf, base, BlockCommitment(at.slot - 1, db.blocks[at.blkid].parent));
    }
  }

  // ---------------------------------------------------------------- repairing the index

  /** The declared final epoch's terminal, or `base` when none is declared. */
  function FinalizedOr(base: BlockCommitment, declared: Option<EpochCommitment>): BlockCommitment {
    if declared.Some? && declared.value.lastBlkid != NULL_ID then Terminal(declared.value) else base
  }

  function EnsureGenesis(db: Db, genesis: BlockCommitment): Result<Db, StartupError> {
    match CanonicalAt(db, 0)
    case Some(c) => if c != genesis then Err(CanonicalGenesis(genesis, c)) else Ok(db)
    case None => Ok(db.(canonical := ReplaceSuffix(db.canonical, 0, [genesis.blkid])))
  }

  function EnsureIndex(db: Db, genesis: BlockCommitment, declared: Option<EpochCommitment>): Result<Db, StartupError> {
    var finalized := FinalizedOr(genesis, declared);
    if CanonicalAt(db, finalized.slot) == Some(finalized) then Ok(db)
    else
      match Walk(db, genesis, finalized)
      case Err(e) => Err(e)
      case Ok(ids) => Ok(db.(canonical := ReplaceSuffix(db.canonical, 0, ids)))
  }

  function EnsureIndexFromBase(
    db: Db, blkidOf: Header -> BlockId, base: EpochCommitment, declared: Option<EpochCommitment>)
    : Result<Db, StartupError>
  {
    var finalized := FinalizedOr(Terminal(base), declared);
    if CanonicalAt(db, finalized.slot) == Some(finalized) then Ok(db)
    else
      match BaseWalk(db, blkidOf, Terminal(base), finalized)
      case Err(e) => Err(e)
      case Ok(ids) => Ok(db.(canonical := ReplaceSuffix(db.canonical, base.lastSlot, ids)))
  }

  function Repair(
    db: Db, blkidOf: Header -> BlockId, genesis: BlockCommitment, declared: Option<EpochCommitment>,
    isSequencer: bool)
    : (Db, Option<StartupError>)
  {
    match EnsureGenesis(db, genesis)
    case Err(e) => (db, Some(e))
    case Ok(seeded) =>
      if !isSequencer then (seeded, None)
      else
        var r := if db.historyBase.Some? then EnsureIndexFromBase(seeded, blkidOf, db.historyBase.value, declared)
                 else EnsureIndex(seeded, genesis, declared);
        match r
        case Err(e) => (seeded, Some(e))
        case Ok(repaired) => (repaired, None)
  }

  /** The block a sequencer's repair makes canonical. */
  function RepairTarget(db: Db, genesis: BlockCommitment, declared: Option<EpochCommitment>): BlockCommitment {
    FinalizedOr(if db.historyBase.Some? then Terminal(db.historyBase.value) else genesis, declared)
  }

  lemma {:induction false} BackfillTop(canonical: map<nat, BlockId>, start: nat, ids: seq<BlockId>)
    requires ids != []
    ensures
      var after := ReplaceSuffix(canonical, start, ids);
      && IsTip(after, start + |ids| - 1)
      && after[start + |ids| - 1] == ids[|ids| - 1]
      && start in after && after[start] == ids[0]
      && (forall i :: 0 <= i < |ids| ==> start + i in after && after[start + i] == ids[i])
      && forall s :: s < start ==> (s in after <==> s in canonical) && (s in after ==> after[s] == canonical[s])
  {
    var after := ReplaceSuffix(canonical, start, ids);
    assert start + |ids| - 1 in Range(start, |ids|);
    forall i | 0 <= i < |ids| ensures start + i in after && after[start + i] == ids[i] {
      assert start + i in Range(start, |ids|);
    }
    assert start + 0 in after;
    assert start + (|ids| - 1) in after;
  }

  lemma {:induction false} GenesisSeeded(db: Db, genesis: BlockCommitment)
    requires genesis.slot == 0 && EnsureGenesis(db, genesis).Ok?
    ensures
      var seeded := EnsureGenesis(db, genesis).value;
      CanonicalAt(seeded, 0) == Some(genesis) && seeded == db.(canonical := seeded.canonical)
  {
    BackfillTop(db.canonical, 0, [genesis.blkid]);
  }

  /** The index after a backfill from `base` up to `finalized`. */
  lemma {:induction false} Backfilled(
    canonical: map<nat, BlockId>, base: BlockCommitment, finalized: BlockCommitment, ids: seq<BlockId>)
    requires base.slot <= finalized.slot && |ids| == finalized.slot - base.slot + 1
    requires ids[0] == base.blkid && ids[|ids| - 1] == finalized.blkid && 0 in canonical
    ensures
      var after := ReplaceSuffix(canonical, base.slot, ids);
      && IsTip(after, finalized.slot) && after[finalized.slot] == finalized.blkid
      && 0 in after && after[0] == if base.slot == 0 then base.blkid else canonical[0]
  {
    BackfillTop(canonical, base.slot, ids);
  }

  lemma {:induction false} IndexEnsured(db: Db, genesis: BlockCommitment, declared: Option<EpochCommitment>)
    requires CanonicalAt(db, 0) == Some(genesis)
    requires EnsureIndex(db, genesis, declared).Ok?
    ensures
      var after := EnsureIndex(db, genesis, declared).value;
      var finalized := FinalizedOr(genesis, declared);
      && CanonicalAt(after, finalized.slot) == Some(finalized)
      && CanonicalAt(after, 0) == Some(genesis)
      && after == db.(canonical := after.canonical)
      && (after == db || IsTip(after.canonical, finalized.slot))
  {
    var finalized := FinalizedOr(genesis, declared);
    if CanonicalAt(db, finalized.slot) != Some(finalized) {
      var ids := Walk(db, genesis, finalized).value;
      WalkFindsTheChain(db, genesis, finalized, ids);
      Backfilled(db.canonical, genesis, finalized, ids);
    }
  }

  lemma {:induction false} BaseIndexEnsured(
    db: Db, blkidOf: Header -> BlockId, base: EpochCommitment, declared: Option<EpochCommitment>)
    requires 0 in db.canonical
    requires EnsureIndexFromBase(db, blkidOf, base, declared).Ok?
    ensures
      var after := EnsureIndexFromBase(db, blkidOf, base, declared).value;
      var finalized := FinalizedOr(Terminal(base), declared);
      && CanonicalAt(after, finalized.slot) == Some(finalized)
      && after == db.(canonical := after.canonical)
      && CanonicalAt(after, 0)
         == (if after != db && base.lastSlot == 0 then Some(Terminal(base)) else CanonicalAt(db, 0))
      && (after == db || IsTip(after.canonical, finalized.slot))
  {
    var finalized := FinalizedOr(Terminal(base), declared);
    if CanonicalAt(db, finalized.slot) != Some(finalized) {
      var ids := BaseWalk(db, blkidOf, Terminal(base), finalized).value;
      BaseWalkFindsTheChain(db, blkidOf, Terminal(base), finalized, ids);
      Backfilled(db.canonical, Terminal(base), finalized, ids);
    }
  }

  /** The block that a sequencer's pass has to make canonical: the terminal of the declared final
      epoch or, if none is declared, of the history base, or else genesis. */
  ghost predicate IsFinalized(
    db: Db, genesis: BlockCommitment, declared: Option<EpochCommitment>, b: BlockCommitment)
  {
    if declared.Some? && declared.value.lastBlkid != NULL_ID then
      b.slot == declared.value.lastSlot && b.blkid == declared.value.lastBlkid
    else if db.historyBase.Some? then
      b.slot == db.historyBase.value.lastSlot && b.blkid == db.historyBase.value.lastBlkid
    else b == genesis
  }

  /** The index names the block at its slot. */
  ghost predicate Names(index: map<nat, BlockId>, b: BlockCommitment) {
    b.slot in index && index[b.slot] == b.blkid
  }

  ghost predicate FinalizedNamed(
    db: Db, genesis: BlockCommitment, declared: Option<EpochCommitment>, index: map<nat, BlockId>)
  {
    exists b :: IsFinalized(db, genesis, declared, b) && Names(index, b)
  }

  /** The index to begin with: that of the storage or, if it has no entry for slot 0, genesis alone. */
  function StartIndex(db: Db, genesis: BlockCommitment): map<nat, BlockId> {
    if 0 in db.canonical then db.canonical else map[0 := genesis.blkid]
  }

  /** `ids` are the blocks that lead from slot `start` to `b`: from the history base if there is
      one, else from genesis. */
  ghost predicate LeadsTo(
    db: Db, blkidOf: Header -> BlockId, genesis: BlockCommitment, b: BlockCommitment, start: nat, ids: seq<BlockId>)
  {
    if db.historyBase.Some? then
      var base := db.historyBase.value;
      start == base.lastSlot && IsBaseChain(db, blkidOf, BlockCommitment(base.lastSlot, base.lastBlkid), b, ids)
    else start == 0 && IsChain(db, genesis, b, ids)
  }

  /** The index has the ids from `start` on, ends with them, and below is as before. */
  ghost predicate Refilled(before: map<nat, BlockId>, start: nat, ids: seq<BlockId>, after: map<nat, BlockId>) {
    && (forall s :: s in after <==> if s < start then s in before else s < start + |ids|)
    && (forall s :: s in after ==> after[s] == if s < start then before[s] else ids[s - start])
  }

  /** A valid chain leads to the block. */
  ghost predicate Connected(db: Db, blkidOf: Header -> BlockId, genesis: BlockCommitment, b: BlockCommitment) {
    exists start: nat, ids :: LeadsTo(db, blkidOf, genesis, b, start, ids)
  }

  /** The chain that leads to the block is in the index. */
  ghost predicate ChainIndexed(
    db: Db, blkidOf: Header -> BlockId, genesis: BlockCommitment, b: BlockCommitment, after: map<nat, BlockId>)
  {
    exists start: nat, ids ::
      LeadsTo(db, blkidOf, genesis, b, start, ids) && Refilled(StartIndex(db, genesis), start, ids, after)
  }

  /** The outcome of a sequencer's pass. It succeeds exactly when slot 0 is free or genesis and the
      finalized block is already indexed or connected to the base or genesis by a valid chain; then
      it leaves the index as it was in the first case, and in the second the chain in it. */
  lemma {:induction false} RepairOutcome(
    db: Db, blkidOf: Header -> BlockId, genesis: BlockCommitment, declared: Option<EpochCommitment>,
    b: BlockCommitment)
    requires genesis.slot == 0 && IsFinalized(db, genesis, declared, b)
    ensures
      var (after, e) := Repair(db, blkidOf, genesis, declared, true);
      && (e.None? <==>
          && (0 in db.canonical ==> db.canonical[0] == genesis.blkid)
          && (Names(StartIndex(db, genesis), b) || Connected(db, blkidOf, genesis, b)))
      && after == db.(canonical := after.canonical)
      && (e.None? && Names(StartIndex(db, genesis), b) ==> after.canonical == StartIndex(db, genesis))
      && (e.None? && !Names(StartIndex(db, genesis), b) ==>
            ChainIndexed(db, blkidOf, genesis, b, after.canonical))
  {
    if 0 in db.canonical ==> db.canonical[0] == genesis.blkid {
      GenesisStarts(db, genesis);
      var seeded := EnsureGenesis(db, genesis).value;
      assert FinalizedOr(if db.historyBase.Some? then Terminal(db.historyBase.value) else genesis, declared) == b;
      if Names(StartIndex(db, genesis), b) {
        assert CanonicalAt(seeded, b.slot) == Some(b);
      } else {
        WalkOutcome(db, seeded, blkidOf, genesis, b, declared);
      }
    }
  }

  /** A pass that finds the finalized block not indexed. */
  lemma {:induction false} WalkOutcome(
    db: Db, seeded: Db, blkidOf: Header -> BlockId, genesis: BlockCommitment, b: BlockCommitment,
    declared: Option<EpochCommitment>)
    requires EnsureGenesis(db, genesis) == Ok(seeded) && seeded == db.(canonical := StartIndex(db, genesis))
    requires b == FinalizedOr(if db.historyBase.Some? then Terminal(db.historyBase.value) else genesis, declared)
    requires !Names(seeded.canonical, b)
    ensures
      var (after, e) := Repair(db, blkidOf, genesis, declared, true);
      && (e.None? <==> Connected(db, blkidOf, genesis, b)) && after == db.(canonical := after.canonical)
      && (e.None? ==> ChainIndexed(db, blkidOf, genesis, b, after.canonical))
  {
    if db.historyBase.Some? {
      BaseWalkOutcome(db, seeded, blkidOf, genesis, Terminal(db.historyBase.value), b);
    } else {
      GenesisWalkOutcome(db, seeded, blkidOf, genesis, b);
    }
  }

  lemma {:induction false} GenesisStarts(db: Db, genesis: BlockCommitment)
    requires genesis.slot == 0 && (0 in db.canonical ==> db.canonical[0] == genesis.blkid)
    ensures EnsureGenesis(db, genesis) == Ok(db.(canonical := StartIndex(db, genesis)))
  {
    if 0 !in db.canonical {
      var seeded := ReplaceSuffix(db.canonical, 0, [genesis.blkid]);
      forall s: nat ensures s in seeded <==> s == 0 {
        ReplaceAt(db.canonical, 0, [genesis.blkid], s);
      }
      ReplaceAt(db.canonical, 0, [genesis.blkid], 0);
      assert seeded == map[0 := genesis.blkid];
    }
  }

  lemma {:induction false} Refills(before: map<nat, BlockId>, start: nat, ids: seq<BlockId>)
    ensures Refilled(before, start, ids, ReplaceSuffix(before, start, ids))
  {
    forall s: nat
      ensures s in ReplaceSuffix(before, start, ids) <==> if s < start then s in before else s < start + |ids|
      ensures s in ReplaceSuffix(before, start, ids) ==>
                ReplaceSuffix(before, start, ids)[s] == if s < start then before[s] else ids[s - start]
    {
      ReplaceAt(before, start, ids, s);
    }
  }

  /** The chain walks look at blocks, statuses and terminal headers only. */
  lemma {:induction false} GenesisWalkOutcome(
    db: Db, seeded: Db, blkidOf: Header -> BlockId, genesis: BlockCommitment, b: BlockCommitment)
    requires db.historyBase.None? && seeded == db.(canonical := seeded.canonical)
    ensures Walk(seeded, genesis, b).Ok? <==> Connected(db, blkidOf, genesis, b)
    ensures Walk(seeded, genesis, b).Ok? ==>
              var ids := Walk(seeded, genesis, b).value;
              && LeadsTo(db, blkidOf, genesis, b, 0, ids)
              && Refilled(seeded.canonical, 0, ids, ReplaceSuffix(seeded.canonical, 0, ids))
  {
    if Walk(seeded, genesis, b).Ok? {
      var ids := Walk(seeded, genesis, b).value;
      WalkFindsTheChain(seeded, genesis, b, ids);
      SameChains(db, seeded, genesis, b, ids);
      Refills(seeded.canonical, 0, ids);
      assert LeadsTo(db, blkidOf, genesis, b, 0, ids);
    }
    if Connected(db, blkidOf, genesis, b) {
      var start: nat, ids :| LeadsTo(db, blkidOf, genesis, b, start, ids);
      SameChains(db, seeded, genesis, b, ids);
      WalkFindsTheChain(seeded, genesis, b, ids);
    }
  }

  lemma {:induction false} SameChains(
    db: Db, other: Db, genesis: BlockCommitment, b: BlockCommitment, ids: seq<BlockId>)
    requires other == db.(canonical := other.canonical)
    ensures IsChain(db, genesis, b, ids) <==> IsChain(other, genesis, b, ids)
  {
    assert forall i :: 0 <= i < |ids| ==> (ChainBlock(db, ids, i) <==> ChainBlock(other, ids, i));
  }

  lemma {:induction false} SameBaseChains(
    db: Db, other: Db, blkidOf: Header -> BlockId, base: BlockCommitment, b: BlockCommitment, ids: seq<BlockId>)
    requires other == db.(canonical := other.canonical)
    ensures IsBaseChain(db, blkidOf, base, b, ids) <==> IsBaseChain(other, blkidOf, base, b, ids)
  {
    assert forall i :: 0 < i < |ids| ==> (BaseChainBlock(db, base, ids, i) <==> BaseChainBlock(other, base, ids, i));
  }

  lemma {:induction false} BaseWalkOutcome(
    db: Db, seeded: Db, blkidOf: Header -> BlockId, genesis: BlockCommitment, base: BlockCommitment,
    b: BlockCommitment)
    requires db.historyBase.Some? && seeded == db.(canonical := seeded.canonical)
    requires base == BlockCommitment(db.historyBase.value.lastSlot, db.historyBase.value.lastBlkid)
    ensures BaseWalk(seeded, blkidOf, base, b).Ok? <==> Connected(db, blkidOf, genesis, b)
    ensures BaseWalk(seeded, blkidOf, base, b).Ok? ==>
              var ids := BaseWalk(seeded, blkidOf, base, b).value;
              && LeadsTo(db, blkidOf, genesis, b, base.slot, ids)
              && Refilled(seeded.canonical, base.slot, ids, ReplaceSuffix(seeded.canonical, base.slot, ids))
  {
    if BaseWalk(seeded, blkidOf, base, b).Ok? {
      var ids := BaseWalk(seeded, blkidOf, base, b).value;
      BaseWalkFindsTheChain(seeded, blkidOf, base, b, ids);
      SameBaseChains(db, seeded, blkidOf, base, b, ids);
      Refills(seeded.canonical, base.slot, ids);
      assert LeadsTo(db, blkidOf, genesis, b, base.slot, ids);
    }
    if Connected(db, blkidOf, genesis, b) {
      var start: nat, ids :| LeadsTo(db, blkidOf, genesis, b, start, ids);
      SameBaseChains(db, seeded, blkidOf, base, b, ids);
      BaseWalkFindsTheChain(seeded, blkidOf, base, b, ids);
    }
  }

  /** A sequencer's repair that succeeds leaves the finalized block canonical at its slot, so the
      tip is at or above it, and changes nothing but the canonical index. */
  lemma {:induction false} RepairEstablishes(
    db: Db, blkidOf: Header -> BlockId, genesis: BlockCommitment, declared: Option<EpochCommitment>,
    b: BlockCommitment, tip: nat)
    requires genesis.slot == 0 && IsFinalized(db, genesis, declared, b)
    requires Repair(db, blkidOf, genesis, declared, true).1.None?
    ensures
      var after := Repair(db, blkidOf, genesis, declared, true).0;
      && Names(after.canonical, b)
      && (IsTip(after.canonical, tip) ==> b.slot <= tip)
      && after == db.(canonical := after.canonical)
  {
    RepairOutcome(db, blkidOf, genesis, declared, b);
    if !Names(StartIndex(db, genesis), b) {
      var after := Repair(db, blkidOf, genesis, declared, true).0;
      var start: nat, ids :| LeadsTo(db, blkidOf, genesis, b, start, ids)
                             && Refilled(StartIndex(db, genesis), start, ids, after.canonical);
      assert b.slot == start + |ids| - 1;
    }
  }

  /** With the finalized block and slot 0 already indexed, a pass changes nothing: the
      unfinalized suffix stays. */
  lemma {:induction false} IndexedIsUntouched(
    db: Db, blkidOf: Header -> BlockId, genesis: BlockCommitment, declared: Option<EpochCommitment>)
    requires CanonicalAt(db, 0) == Some(genesis)
    requires FinalizedNamed(db, genesis, declared, db.canonical)
    ensures Repair(db, blkidOf, genesis, declared, true) == (db, None)
  {
    var b :| IsFinalized(db, genesis, declared, b) && Names(db.canonical, b);
    assert CanonicalAt(db, b.slot) == Some(b);
  }

  /** The first pass did not have to write a history base other than genesis at slot 0: a caller
      can tell from the storage before it. */
  ghost predicate GenesisKept(db: Db, genesis: BlockCommitment, declared: Option<EpochCommitment>) {
    || db.historyBase.None? || db.historyBase.value.lastSlot > 0 || db.historyBase.value.lastBlkid == genesis.blkid
    || FinalizedNamed(db, genesis, declared, StartIndex(db, genesis))
  }

  /** After a successful pass, a second one succeeds and changes nothing if and only if the first
      kept genesis at slot 0; otherwise the second one fails on it. */
  lemma {:induction false} SecondPassIsIdle(
    db: Db, blkidOf: Header -> BlockId, genesis: BlockCommitment, declared: Option<EpochCommitment>)
    requires genesis.slot == 0
    requires Repair(db, blkidOf, genesis, declared, true).1.None?
    ensures
      var after := Repair(db, blkidOf, genesis, declared, true).0;
      && (Repair(after, blkidOf, genesis, declared, true) == (after, None) <==> GenesisKept(db, genesis, declared))
      && (!GenesisKept(db, genesis, declared) ==>
            Repair(after, blkidOf, genesis, declared, true)
            == (after, Some(CanonicalGenesis(genesis, Terminal(db.historyBase.value)))))
  {
    var after, b := Repair(db, blkidOf, genesis, declared, true).0, RepairTarget(db, genesis, declared);
    RepairEstablishes(db, blkidOf, genesis, declared, b, 0);
    SlotZeroAfter(db, blkidOf, genesis, declared, b);
    if Names(after.canonical, genesis) {
      assert IsFinalized(after, genesis, declared, b);
      IndexedIsUntouched(after, blkidOf, genesis, declared);
    }
  }

  /** What a successful pass leaves at slot 0. */
  lemma {:induction false} SlotZeroAfter(
    db: Db, blkidOf: Header -> BlockId, genesis: BlockCommitment, declared: Option<EpochCommitment>,
    b: BlockCommitment)
    requires genesis.slot == 0 && IsFinalized(db, genesis, declared, b)
    requires Repair(db, blkidOf, genesis, declared, true).1.None?
    ensures
      var after := Repair(db, blkidOf, genesis, declared, true).0;
      if GenesisKept(db, genesis, declared) then Names(after.canonical, genesis)
      else 0 in after.canonical && after.canonical[0] == db.historyBase.value.lastBlkid != genesis.blkid
           && db.historyBase.value.lastSlot == 0
  {
    RepairOutcome(db, blkidOf, genesis, declared, b);
    var after := Repair(db, blkidOf, genesis, declared, true).0;
    if !Names(StartIndex(db, genesis), b) {
      forall x | IsFinalized(db, genesis, declared, x) ensures x == b {
      }
      var start: nat, ids :| LeadsTo(db, blkidOf, genesis, b, start, ids)
                             && Refilled(StartIndex(db, genesis), start, ids, after.canonical);
    }
  }

  /** A storage with a terminal header of id 2 as history base at slot 0, over a genesis of id 1: the
      first pass succeeds and every later one fails. */
  lemma {:induction false} ForeignBaseAtSlotZero(blkidOf: Header -> BlockId, h: Header)
    requires h.slot == 0 && blkidOf(h) == 2
    ensures
      var genesis, base := BlockCommitment(0, 1), EpochCommitment(0, 0, 2);
      var db := Db(map[], map[], map[], map[2 := h], map[0 := 1], Some(base), None, map[], map[]);
      var (after, e) := Repair(db, blkidOf, genesis, None, true);
      && e.None?
      && Repair(after, blkidOf, genesis, None, true) == (after, Some(CanonicalGenesis(genesis, Terminal(base))))
  {
    var genesis, base := BlockCommitment(0, 1), EpochCommitment(0, 0, 2);
    var db := Db(map[], map[], map[], map[2 := h], map[0 := 1], Some(base), None, map[], map[]);
    assert EnsureGenesis(db, genesis) == Ok(db);
    assert BaseWalk(db, blkidOf, Terminal(base), Terminal(base)) == Ok([2]);
    SecondPassIsIdle(db, blkidOf, genesis, None);
  }

  // ---------------------------------------------------------------- checking the tip

  function VerifyAnchorHeaderSummary(
    blkidOf: Header -> BlockId, base: EpochCommitment, h: Header, s: Summary): Option<AnchorError>
  {
    if h.slot != s.terminal.slot then Some(HeaderSlot)
    else if h.epoch != s.epoch then Some(HeaderEpoch)
    else if blkidOf(h) != s.terminal.blkid then Some(HeaderId)
    else if h.stateRoot != s.finalState then Some(HeaderState)
    else if CommitmentOf(s) != base then Some(SummaryCommitment)
    else None
  }

  function VerifyAnchorSummaryAndState(
    db: Db, blkidOf: Header -> BlockId, base: EpochCommitment, h: Header, s: Summary): Option<AnchorError>
  {
    if !h.isTerminal then Some(NotTerminal)
    else if CanonicalEpoch(db, base.epoch).None? then Some(NoCanonicalEpoch)
    else if CanonicalEpoch(db, base.epoch).value != base then Some(CanonicalEpochMismatch)
    else if VerifyAnchorHeaderSummary(blkidOf, base, h, s).Some? then VerifyAnchorHeaderSummary(blkidOf, base, h, s)
    else if Terminal(base) !in db.states then Some(NoState)
    else if db.states[Terminal(base)].slot != h.slot then Some(StateSlot)
    else if h.epoch >= U32_MAX then Some(EpochOverflow)
    else if db.states[Terminal(base)].epoch != h.epoch + 1 then Some(StateEpoch)
    else None
  }

  function VerifyHistoryAnchor(db: Db, blkidOf: Header -> BlockId, base: EpochCommitment): Result<Header, AnchorError> {
    if base.lastBlkid !in db.terminalHeaders then Err(NoHeader)
    else
      var h := db.terminalHeaders[base.lastBlkid];
      if SummaryOf(db, base).None? then Err(NoSummary)
      else
        match VerifyAnchorSummaryAndState(db, blkidOf, base, h, SummaryOf(db, base).value)
        case Some(e) => Err(e)
        case None => Ok(h)
  }

  function VerifyPreviousSummary(db: Db, epoch: nat): Option<TipError> {
    if epoch == 0 then None
    else if CanonicalEpoch(db, epoch - 1).None? then Some(PreviousSummary)
    else if SummaryOf(db, CanonicalEpoch(db, epoch - 1).value).None? then Some(PreviousSummary)
    else None
  }

  /** The checks of a tip that is a full block; `parentStored` says whether its parent counts as
      stored. */
  function VerifyTipBlock(db: Db, tip: BlockCommitment, parentStored: BlockId -> bool): Option<TipError> {
    if tip.blkid !in db.blocks then Some(MissingTip)
    else
      var h := db.blocks[tip.blkid];
      if (if tip.slot == 0 then h.parent != NULL_ID else !parentStored(h.parent)) then Some(TipParent)
      else if tip !in db.states then Some(TipState)
      else VerifyPreviousSummary(db, h.epoch)
  }

  function VerifyTipFromHistoryBase(
    db: Db, blkidOf: Header -> BlockId, tip: BlockCommitment, base: EpochCommitment): Option<TipError>
  {
    if tip.slot < base.lastSlot then Some(TipBelowBase)
    else if tip.slot == base.lastSlot && tip != Terminal(base) then Some(TipNotAnchor)
    else if tip == Terminal(base) then
      match VerifyHistoryAnchor(db, blkidOf, base)
      case Err(e) => Some(Anchor(e))
      case Ok(h) => VerifyPreviousSummary(db, h.epoch)
    else VerifyTipBlock(db, tip, (id: BlockId) => HeaderOf(db, id).Some?)
  }

  function VerifyTip(db: Db, blkidOf: Header -> BlockId, tip: BlockCommitment): Option<TipError> {
    if db.historyBase.Some? then VerifyTipFromHistoryBase(db, blkidOf, tip, db.historyBase.value)
    else VerifyTipBlock(db, tip, (id: BlockId) => id in db.blocks)
  }

  // ---------------------------------------------------------------- what the checks of the tip ask for

  lemma {:induction false} FirstSummaryFound(ss: seq<Summary>, terminal: BlockCommitment)
    requires ss != [] && ss[0].terminal == terminal
    ensures FindSummary(ss, terminal) == Some(ss[0])
  {
  }

  lemma {:induction false} SummaryFound(ss: seq<Summary>, terminal: BlockCommitment)
    ensures FindSummary(ss, terminal).Some? <==> exists i :: 0 <= i < |ss| && ss[i].terminal == terminal
    decreases |ss|
  {
    if ss != [] && ss[0].terminal != terminal {
      SummaryFound(ss[1..], terminal);
      assert forall i :: 0 < i < |ss| ==> ss[i] == ss[1..][i - 1];
    }
  }

  /** The anchor is stored and in order, field by field: a terminal header of its slot and epoch that
      hashes to its id, a first summary of its epoch that names it and the header's state root, and
      its state, at its slot and already in the next epoch. */
  ghost predicate AnchorInOrder(db: Db, blkidOf: Header -> BlockId, base: EpochCommitment) {
    && base.lastBlkid in db.terminalHeaders
    && base.epoch in db.summaries && db.summaries[base.epoch] != []
    && var h, s, at := db.terminalHeaders[base.lastBlkid], db.summaries[base.epoch][0],
                       BlockCommitment(base.lastSlot, base.lastBlkid);
    && h.isTerminal && h.slot == base.lastSlot && h.epoch == base.epoch && blkidOf(h) == base.lastBlkid
    && s.epoch == base.epoch && s.terminal.slot == base.lastSlot && s.terminal.blkid == base.lastBlkid
    && s.finalState == h.stateRoot
    && at in db.states && db.states[at].slot == base.lastSlot
    && base.epoch < U32_MAX && db.states[at].epoch == base.epoch + 1
  }

  /** Exactly which anchors verify. */
  lemma {:induction false} AnchorVerifies(db: Db, blkidOf: Header -> BlockId, base: EpochCommitment)
    ensures VerifyHistoryAnchor(db, blkidOf, base).Ok? <==> AnchorInOrder(db, blkidOf, base)
    ensures AnchorInOrder(db, blkidOf, base) ==>
              && SummaryOf(db, base) == Some(db.summaries[base.epoch][0])
              && VerifyHistoryAnchor(db, blkidOf, base) == Ok(db.terminalHeaders[base.lastBlkid])
  {
    var ss := SummariesAt(db, base.epoch);
    if ss != [] && ss[0].terminal == Terminal(base) {
      FirstSummaryFound(ss, Terminal(base));
    }
  }

  /** The epoch before this one, if any, is summarized: its first summary names a terminal that is
      summarized under that summary's epoch. */
  ghost predicate PreviousSummarized(db: Db, epoch: nat) {
    epoch == 0 || (
      && epoch - 1 in db.summaries && db.summaries[epoch - 1] != []
      && var s := db.summaries[epoch - 1][0];
      && s.epoch in db.summaries
      && exists i :: 0 <= i < |db.summaries[s.epoch]| && db.summaries[s.epoch][i].terminal == s.terminal)
  }

  lemma {:induction false} PreviousPasses(db: Db, epoch: nat)
    ensures VerifyPreviousSummary(db, epoch).None? <==> PreviousSummarized(db, epoch)
  {
    if epoch > 0 && SummariesAt(db, epoch - 1) != [] {
      var s := db.summaries[epoch - 1][0];
      SummaryFound(SummariesAt(db, s.epoch), s.terminal);
    }
  }

  /** The tip is in order. At the history base: it is the base, which is in order as an anchor. Above
      it, or without one: it is a stored block with its state, whose parent is stored too (above a
      base a terminal header will do) or, at slot 0, is null. The previous epoch is summarized. */
  ghost predicate TipInOrder(db: Db, blkidOf: Header -> BlockId, tip: BlockCommitment) {
    if db.historyBase.Some? && tip.slot <= db.historyBase.value.lastSlot then
      var base := db.historyBase.value;
      && tip.slot == base.lastSlot && tip.blkid == base.lastBlkid
      && AnchorInOrder(db, blkidOf, base) && PreviousSummarized(db, base.epoch)
    else
      && tip.blkid in db.blocks && tip in db.states
      && var h := db.blocks[tip.blkid];
      && (if tip.slot == 0 then h.parent == NULL_ID
          else h.parent in db.blocks || (db.historyBase.Some? && h.parent in db.terminalHeaders))
      && PreviousSummarized(db, h.epoch)
  }

  /** Exactly which tips pass. */
  lemma {:induction false} TipPasses(db: Db, blkidOf: Header -> BlockId, tip: BlockCommitment)
    ensures VerifyTip(db, blkidOf, tip).None? <==> TipInOrder(db, blkidOf, tip)
  {
    if db.historyBase.Some? && tip.slot <= db.historyBase.value.lastSlot {
      AnchorVerifies(db, blkidOf, db.historyBase.value);
      PreviousPasses(db, db.historyBase.value.epoch);
    } else if tip.blkid in db.blocks {
      PreviousPasses(db, db.blocks[tip.blkid].epoch);
    }
  }

  /** What an error of the anchor's checks says is so. The summary compared is a stored one of the
      anchor's terminal. */
  ghost predicate AnchorErrorCause(db: Db, blkidOf: Header -> BlockId, base: EpochCommitment, e: AnchorError) {
    var at := BlockCommitment(base.lastSlot, base.lastBlkid);
    var ss := if base.epoch in db.summaries then db.summaries[base.epoch] else [];
    if base.lastBlkid !in db.terminalHeaders then e == NoHeader
    else
      var h := db.terminalHeaders[base.lastBlkid];
      match e
      case NoHeader => false
      case NoSummary => forall i :: 0 <= i < |ss| ==> ss[i].terminal != at
      case NotTerminal => !h.isTerminal
      case NoCanonicalEpoch => ss == []
      case CanonicalEpochMismatch => ss != [] && !(ss[0].epoch == base.epoch && ss[0].terminal == at)
      case HeaderSlot => h.slot != base.lastSlot
      case HeaderEpoch => exists i :: 0 <= i < |ss| && ss[i].terminal == at && h.epoch != ss[i].epoch
      case HeaderId => blkidOf(h) != base.lastBlkid
      case HeaderState => exists i :: 0 <= i < |ss| && ss[i].terminal == at && h.stateRoot != ss[i].finalState
      case SummaryCommitment => exists i :: 0 <= i < |ss| && ss[i].terminal == at && ss[i].epoch != base.epoch
      case NoState => at !in db.states
      case StateSlot => at in db.states && db.states[at].slot != h.slot
      case EpochOverflow => h.epoch >= U32_MAX
      case StateEpoch => at in db.states && db.states[at].epoch != h.epoch + 1
  }

  lemma {:induction false} AnchorErrorIsTrue(db: Db, blkidOf: Header -> BlockId, base: EpochCommitment)
    requires VerifyHistoryAnchor(db, blkidOf, base).Err?
    ensures AnchorErrorCause(db, blkidOf, base, VerifyHistoryAnchor(db, blkidOf, base).error)
  {
    var ss := SummariesAt(db, base.epoch);
    SummaryFound(ss, Terminal(base));
    if SummaryOf(db, base).Some? {
      var i := FoundAt(ss, Terminal(base));
    }
  }

  lemma {:induction false} FoundAt(ss: seq<Summary>, terminal: BlockCommitment) returns (i: nat)
    requires FindSummary(ss, terminal).Some?
    ensures i < |ss| && ss[i].terminal == terminal && FindSummary(ss, terminal) == Some(ss[i])
    decreases |ss|
  {
    i := 0;
    if ss[0].terminal != terminal {
      var j := FoundAt(ss[1..], terminal);
      i := j + 1;
    }
  }

  /** What an error of the tip's checks says is so. */
  ghost predicate TipCause(db: Db, blkidOf: Header -> BlockId, tip: BlockCommitment, e: TipError) {
    match e
    case TipBelowBase => db.historyBase.Some? && tip.slot < db.historyBase.value.lastSlot
    case TipNotAnchor =>
      && db.historyBase.Some?
      && tip.slot == db.historyBase.value.lastSlot && tip.blkid != db.historyBase.value.lastBlkid
    case MissingTip => tip.blkid !in db.blocks
    case TipParent =>
      && tip.blkid in db.blocks
      && var parent := db.blocks[tip.blkid].parent;
      if tip.slot == 0 then parent != NULL_ID
      else parent !in db.blocks && (db.historyBase.Some? ==> parent !in db.terminalHeaders)
    case TipState => tip !in db.states
    case PreviousSummary =>
      if db.historyBase.Some? && tip.slot <= db.historyBase.value.lastSlot
      then !PreviousSummarized(db, db.historyBase.value.epoch)
      else tip.blkid in db.blocks && !PreviousSummarized(db, db.blocks[tip.blkid].epoch)
    case Anchor(a) => db.historyBase.Some? && AnchorErrorCause(db, blkidOf, db.historyBase.value, a)
  }

  lemma {:induction false} TipErrorIsTrue(db: Db, blkidOf: Header -> BlockId, tip: BlockCommitment)
    requires VerifyTip(db, blkidOf, tip).Some?
    ensures TipCause(db, blkidOf, tip, VerifyTip(db, blkidOf, tip).value)
  {
    if db.historyBase.Some? && tip.slot <= db.historyBase.value.lastSlot {
      AnchorVerifies(db, blkidOf, db.historyBase.value);
      if VerifyHistoryAnchor(db, blkidOf, db.historyBase.value).Err? {
        AnchorErrorIsTrue(db, blkidOf, db.historyBase.value);
      }
      PreviousPasses(db, db.historyBase.value.epoch);
    } else if tip.blkid in db.blocks {
      PreviousPasses(db, db.blocks[tip.blkid].epoch);
    }
  }

  /** An anchor that verifies is what the history-base walk wants at its end. */
  lemma {:induction false} AnchorSatisfiesWalk(db: Db, blkidOf: Header -> BlockId, base: EpochCommitment)
    requires VerifyHistoryAnchor(db, blkidOf, base).Ok?
    ensures BaseWalk(db, blkidOf, Terminal(base), Terminal(base)) == Ok([base.lastBlkid])
  {
    assert VerifyAnchorHeaderSummary(blkidOf, base, db.terminalHeaders[base.lastBlkid],
                                     SummaryOf(db, base).value).None?;
  }

  // ---------------------------------------------------------------- the whole startup

  function OLGenesis(db: Db): Option<BlockCommitment> {
    if 0 in db.heights && db.heights[0] != [] then Some(BlockCommitment(0, db.heights[0][0])) else None
  }

  /** The outcome of the checks: the storage they leave and the first failure. `client` is the
      stored client state's declared final epoch, if there is a client state. */
  ghost predicate Checked(
    db: Db, blkidOf: Header -> BlockId, client: Option<Option<EpochCommitment>>, isSequencer: bool,
    after: Db, failure: Option<StartupError>)
  {
    var genesis := OLGenesis(db);
    if client.Some? != genesis.Some? then after == db && failure == Some(Inconsistent(client.Some?))
    else if genesis.None? then after == db && failure == None
    else if genesis.value !in db.states then after == db && failure == Some(GenesisState)
    else if SummaryOf(db, EpochCommitment(0, 0, genesis.value.blkid)).None? then
      after == db && failure == Some(GenesisSummary)
    else
      var (repaired, e) := Repair(db, blkidOf, genesis.value, client.value, isSequencer);
      && after == repaired
      && (e.Some? ==> failure == e)
      && (e.None? ==> exists tip :: CheckedTip(after, blkidOf, tip, failure))
  }

  ghost predicate CheckedTip(db: Db, blkidOf: Header -> BlockId, tip: nat, failure: Option<StartupError>) {
    && IsTip(db.canonical, tip)
    && failure ==
       match VerifyTip(db, blkidOf, BlockCommitment(tip, db.canonical[tip]))
       case None => None
       case Some(e) => Some(Tip(e))
  }

  /** Genesis is the first block stored at slot 0, with its state and its summary. */
  ghost predicate GenesisStored(db: Db, genesis: BlockCommitment) {
    && genesis.slot == 0 && 0 in db.heights && db.heights[0] != [] && db.heights[0][0] == genesis.blkid
    && genesis in db.states
    && 0 in db.summaries && exists i :: 0 <= i < |db.summaries[0]| && db.summaries[0][i].terminal == genesis
  }

  /** The finalized block is indexed or a valid chain leads to it. */
  ghost predicate Repairable(
    db: Db, blkidOf: Header -> BlockId, genesis: BlockCommitment, declared: Option<EpochCommitment>)
  {
    exists b :: && IsFinalized(db, genesis, declared, b)
                && (Names(StartIndex(db, genesis), b) || Connected(db, blkidOf, genesis, b))
  }

  /** Exactly when the startup checks pass: on an empty node, or when genesis is stored and, if
      indexed at all, at slot 0, a sequencer's index can be repaired, and the tip of the index they
      leave is in order. */
  lemma {:induction false} StartupPasses(
    db: Db, blkidOf: Header -> BlockId, client: Option<Option<EpochCommitment>>, isSequencer: bool, after: Db,
    failure: Option<StartupError>)
    requires Checked(db, blkidOf, client, isSequencer, after, failure)
    ensures
      failure.None? <==>
      || (client.None? && (0 !in db.heights || db.heights[0] == []))
      || (client.Some? && exists genesis ::
            && GenesisStored(db, genesis) && (0 in db.canonical ==> db.canonical[0] == genesis.blkid)
            && (isSequencer ==> Repairable(db, blkidOf, genesis, client.value))
            && forall tip :: IsTip(after.canonical, tip) ==>
                               TipInOrder(after, blkidOf, BlockCommitment(tip, after.canonical[tip])))
  {
    if client.Some? && OLGenesis(db).Some? {
      var genesis := OLGenesis(db).value;
      SummaryFound(SummariesAt(db, 0), genesis);
      assert GenesisStored(db, genesis) <==>
             genesis in db.states && SummaryOf(db, EpochCommitment(0, 0, genesis.blkid)).Some?;
      if GenesisStored(db, genesis) {
        RepairPasses(db, blkidOf, genesis, client.value, isSequencer);
        if Repair(db, blkidOf, genesis, client.value, isSequencer).1.None? {
          var tip :| CheckedTip(after, blkidOf, tip, failure);
          TipPasses(after, blkidOf, BlockCommitment(tip, after.canonical[tip]));
        }
      }
    }
  }

  lemma {:induction false} RepairPasses(
    db: Db, blkidOf: Header -> BlockId, genesis: BlockCommitment, declared: Option<EpochCommitment>, isSequencer: bool)
    requires genesis.slot == 0
    ensures Repair(db, blkidOf, genesis, declared, isSequencer).1.None? <==>
            && (0 in db.canonical ==> db.canonical[0] == genesis.blkid)
            && (isSequencer ==> Repairable(db, blkidOf, genesis, declared))
  {
    if isSequencer {
      var b := RepairTarget(db, genesis, declared);
      RepairOutcome(db, blkidOf, genesis, declared, b);
      forall x | IsFinalized(db, genesis, declared, x) ensures x == b {
      }
    }
  }

  lemma {:induction false} ReplaceSnoc(canonical: map<nat, BlockId>, start: nat, ids: seq<BlockId>, i: nat)
    requires i < |ids|
    ensures ReplaceSuffix(canonical, start, ids[..i + 1])
         == ReplaceSuffix(canonical, start, ids[..i])[start + i := ids[i]]
  {
    var longer, shorter := ReplaceSuffix(canonical, start, ids[..i + 1]),
                           ReplaceSuffix(canonical, start, ids[..i])[start + i := ids[i]];
    forall s: nat ensures (s in longer <==> s in shorter) && (s in longer ==> longer[s] == shorter[s]) {
      ReplaceAt(canonical, start, ids[..i + 1], s);
      ReplaceAt(canonical, start, ids[..i], s);
    }
  }

  lemma {:induction false} KeptBelow(canonical: map<nat, BlockId>, start: nat, kept: map<nat, BlockId>)
    requires kept == map s | s in canonical && s < start :: canonical[s]
    ensures kept == ReplaceSuffix(canonical, start, [])
  {
    var cut := ReplaceSuffix(canonical, start, []);
    forall s: nat ensures (s in kept <==> s in cut) && (s in kept ==> kept[s] == cut[s]) {
      ReplaceAt(canonical, start, [], s);
    }
  }

  lemma {:induction false} ReplaceAt(canonical: map<nat, BlockId>, start: nat, ids: seq<BlockId>, s: nat)
    ensures s in ReplaceSuffix(canonical, start, ids) <==> if s < start then s in canonical else s < start + |ids|
    ensures s in ReplaceSuffix(canonical, start, ids) ==>
              ReplaceSuffix(canonical, start, ids)[s] == if s < start then canonical[s] else ids[s - start]
  {
    assert start <= s < start + |ids| ==> s in Range(start, |ids|);
  }

  lemma {:induction false} EnsuredNames(db: Db, genesis: BlockCommitment, declared: Option<EpochCommitment>)
    ensures EnsureIndex(db, genesis, declared).Ok? ==>
              Names(EnsureIndex(db, genesis, declared).value.canonical,
                    if declared.Some? && declared.value.lastBlkid != NULL_ID
                    then BlockCommitment(declared.value.lastSlot, declared.value.lastBlkid) else genesis)
  {
    var finalized := FinalizedOr(genesis, declared);
    if CanonicalAt(db, finalized.slot) != Some(finalized) && Walk(db, genesis, finalized).Ok? {
      var ids := Walk(db, genesis, finalized).value;
      WalkFindsTheChain(db, genesis, finalized, ids);
      BackfillTop(db.canonical, 0, ids);
    }
  }

  lemma {:induction false} BaseEnsuredNames(
    db: Db, blkidOf: Header -> BlockId, base: EpochCommitment, declared: Option<EpochCommitment>)
    ensures EnsureIndexFromBase(db, blkidOf, base, declared).Ok? ==>
              Names(EnsureIndexFromBase(db, blkidOf, base, declared).value.canonical,
                    if declared.Some? && declared.value.lastBlkid != NULL_ID
                    then BlockCommitment(declared.value.lastSlot, declared.value.lastBlkid)
                    else BlockCommitment(base.lastSlot, base.lastBlkid))
  {
    var finalized := FinalizedOr(Terminal(base), declared);
    if CanonicalAt(db, finalized.slot) != Some(finalized)
       && BaseWalk(db, blkidOf, Terminal(base), finalized).Ok? {
      var ids := BaseWalk(db, blkidOf, Terminal(base), finalized).value;
      BaseWalkFindsTheChain(db, blkidOf, Terminal(base), finalized, ids);
      BackfillTop(db.canonical, base.lastSlot, ids);
    }
  }

  class NodeStorage {
    const blkidOf: Header -> BlockId
    var db: Db

    constructor (blkidOf: Header -> BlockId, db: Db)
      ensures this.blkidOf == blkidOf && this.db == db
    {
      this.blkidOf, this.db := blkidOf, db;
    }

    method ReplaceCanonicalSuffixFrom(start: nat, ids: seq<BlockId>)
      modifies this
      ensures db == old(db).(canonical := ReplaceSuffix(old(db).canonical, start, ids))
    {
      var canonical: map<nat, BlockId> := map s | s in db.canonical && s < start :: db.canonical[s];
      KeptBelow(db.canonical, start, canonical);
      var i := 0;
      assert ids[..0] == [];
      while i < |ids|
        invariant 0 <= i <= |ids|
        invariant db == old(db) && canonical == ReplaceSuffix(db.canonical, start, ids[..i])
      {
        ReplaceSnoc(db.canonical, start, ids, i);
        canonical := canonical[start + i := ids[i]];
        i := i + 1;
      }
      assert ids[..|ids|] == ids;
      db := db.(canonical := canonical);
    }

    method EnsureGenesisCanonicalEntry(genesis: BlockCommitment) returns (r: Option<StartupError>)
      modifies this
      ensures
        match EnsureGenesis(old(db), genesis)
        case Ok(next) => db == next && r == None
        case Err(e) => db == old(db) && r == Some(e)
    {
      var have := CanonicalAt(db, 0);
      if have.Some? {
        return if have.value != genesis then Some(CanonicalGenesis(genesis, have.value)) else None;
      }
      ReplaceCanonicalSuffixFrom(0, [genesis.blkid]);
      r := None;
    }

    /** The finalized block is indexed and the tip is not below it. */
    method AlreadyIndexed(finalized: BlockCommitment) returns (b: bool)
      ensures b <==> CanonicalAt(db, finalized.slot) == Some(finalized)
    {
      b := false;
      if CanonicalAt(db, finalized.slot) == Some(finalized) {
        var tip := CanonicalTip(db.canonical);
        b := tip.Some? && tip.value.slot >= finalized.slot;
      }
    }

    method EnsureCanonicalBlockIndex(
      genesis: BlockCommitment, declared: Option<EpochCommitment>) returns (r: Option<StartupError>)
      modifies this
      ensures
        match EnsureIndex(old(db), genesis, declared)
        case Ok(next) => db == next && r == None
        case Err(e) => db == old(db) && r == Some(e)
      ensures r.None? ==>
                Names(db.canonical, if declared.Some? && declared.value.lastBlkid != NULL_ID
                      then BlockCommitment(declared.value.lastSlot, declared.value.lastBlkid) else genesis)
    {
      EnsuredNames(db, genesis, declared);
      var finalized := FinalizedOr(genesis, declared);
      var done := AlreadyIndexed(finalized);
      if done {
        return None;
      }
      var chain := CollectFinalizedCanonicalChain(db, genesis, finalized);
      if chain.Err? {
        return Some(chain.error);
      }
      ReplaceCanonicalSuffixFrom(0, chain.value);
      r := None;
    }

    method EnsureCanonicalBlockIndexFromHistoryBase(
      base: EpochCommitment, declared: Option<EpochCommitment>) returns (r: Option<StartupError>)
      modifies this
      ensures
        match EnsureIndexFromBase(old(db), blkidOf, base, declared)
        case Ok(next) => db == next && r == None
        case Err(e) => db == old(db) && r == Some(e)
      ensures r.None? ==>
                Names(db.canonical, if declared.Some? && declared.value.lastBlkid != NULL_ID
                      then BlockCommitment(declared.value.lastSlot, declared.value.lastBlkid)
                      else BlockCommitment(base.lastSlot, base.lastBlkid))
    {
      BaseEnsuredNames(db, blkidOf, base, declared);
      var finalized := FinalizedOr(Terminal(base), declared);
      var done := AlreadyIndexed(finalized);
      if done {
        return None;
      }
      var chain := CollectFinalizedCanonicalChainFromHistoryBase(db, blkidOf, base, finalized);
      if chain.Err? {
        return Some(chain.error);
      }
      ReplaceCanonicalSuffixFrom(base.lastSlot, chain.value);
      r := None;
    }

    method RepairIndex(
      genesis: BlockCommitment, declared: Option<EpochCommitment>, isSequencer: bool)
      returns (r: Option<StartupError>)
      modifies this
      ensures (db, r) == Repair(old(db), blkidOf, genesis, declared, isSequencer)
    {
      r := EnsureGenesisCanonicalEntry(genesis);
      if r.Some? || !isSequencer {
        return;
      }
      if db.historyBase.Some? {
        r := EnsureCanonicalBlockIndexFromHistoryBase(db.historyBase.value, declared);
      } else {
        r := EnsureCanonicalBlockIndex(genesis, declared);
      }
    }

    method RunStartupChecks(
      client: Option<Option<EpochCommitment>>, isSequencer: bool) returns (r: Option<StartupError>)
      modifies this
      ensures Checked(old(db), blkidOf, client, isSequencer, db, r)
    {
      var genesis := OLGenesis(db);
      if client.Some? != genesis.Some? {
        return Some(Inconsistent(client.Some?));
      }
      if genesis.None? {
        return None;
      }
      if genesis.value !in db.states {
        return Some(GenesisState);
      }
      if SummaryOf(db, EpochCommitment(0, 0, genesis.value.blkid)).None? {
        return Some(GenesisSummary);
      }
      r := RepairIndex(genesis.value, client.value, isSequencer);
      if r.Some? {
        return;
      }
      RepairKeepsSlotZero(old(db), blkidOf, genesis.value, client.value, isSequencer);
      var tip := CanonicalTip(db.canonical);
      var e := VerifyTip(db, blkidOf, tip.value);
      r := if e.Some? then Some(Tip(e.value)) else None;
      assert CheckedTip(db, blkidOf, tip.value.slot, r);
    }
  }

  lemma {:induction false} RepairKeepsSlotZero(
    db: Db, blkidOf: Header -> BlockId, genesis: BlockCommitment, declared: Option<EpochCommitment>, isSequencer: bool)
    requires genesis.slot == 0 && Repair(db, blkidOf, genesis, declared, isSequencer).1.None?
    ensures 0 in Repair(db, blkidOf, genesis, declared, isSequencer).0.canonical
  {
    GenesisSeeded(db, genesis);
    var seeded := EnsureGenesis(db, genesis).value;
    if isSequencer && db.historyBase.Some? {
      BaseIndexEnsured(seeded, blkidOf, db.historyBase.value, declared);
    } else if isSequencer {
      IndexEnsured(seeded, genesis, declared);
    }
  }
}
