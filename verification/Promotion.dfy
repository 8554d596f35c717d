/** The one-shot promotion of a checkpoint-synced data directory to a sequencer's history
    anchor, and what it leaves for the startup checks. */
module Promotion {
  import opened Chain
  import opened OLStorage
  import opened Seqs
  import opened Startup

  /** The tip a checkpoint payload claims, and the parts of its terminal header it carries. */
  datatype Payload = Payload(epoch: nat, tip: BlockCommitment, parent: BlockId, rest: nat)

  /** What promotion reads besides the OL storage. `client` is the latest client state's declared
      final epoch; `verifiedTip` is the checkpoint section of the canonical ASM state. */
  datatype Environment = Environment(
    client: Option<Option<EpochCommitment>>,
    asmStored: bool,
    verifiedTip: Option<(nat, BlockCommitment)>,
    l1Refs: map<EpochCommitment, L1Ref>,
    l1Canonical: map<nat, nat>,
    l1Tip: Option<nat>,
    payloads: map<EpochCommitment, Payload>)

  datatype PromotionError =
    | NoClientState
    | NoFinalEpoch
    | NoAsmState
    | NoCheckpointSection
    | InFlightRef
    | InFlightL1Tip
    | InFlight(epoch: nat, height: nat, remaining: nat)
    | TipMismatch(verified: EpochCommitment, anchor: EpochCommitment)
    | NoPayload
    | NoL1Ref
    | L1NotCanonical
    | NoAnchorSummary
    | NoTerminalHeader
    | Reconstruction
    | HeaderMismatch
    | BadAnchor(e: AnchorError)
    | StateRoot
    | NoCanonicalTip
    | TipAbove
    | BlocksAbove
    | Watermark
    | BaseConflict(current: EpochCommitment)

  function ReconstructTerminalHeader(blkidOf: Header -> BlockId, p: Payload, stateRoot: nat): Option<Header> {
    var h := Header(p.tip.slot, p.epoch, p.parent, stateRoot, true, p.rest);
    if blkidOf(h) != p.tip.blkid then None else Some(h)
  }

  /** L1 confirmations of a block at `height`, counting itself; none above the tip. */
  function ConfirmationDepth(height: nat, tip: nat): nat {
    if height > tip then 0 else tip - height + 1
  }

  function InFlightError(env: Environment, verified: EpochCommitment, safeDepth: nat): PromotionError {
    if verified !in env.l1Refs then InFlightRef
    else if env.l1Tip.None? then InFlightL1Tip
    else
      var height := env.l1Refs[verified].height;
      var required := RequiredDepth(safeDepth);
      var depth := ConfirmationDepth(height, env.l1Tip.value);
      InFlight(verified.epoch, height, if required < depth then 0 else required - depth)
  }

  function RequiredDepth(safeDepth: nat): nat {
    if safeDepth < 1 then 1 else safeDepth
  }

  /** For a checkpoint in flight, the number reported is the least number of further L1 blocks that
      buries it deep enough (`height` counts, at the tip, as one), exactly when its block is at most
      one above the L1 tip: higher up, the blocks still missing below it are not counted. */
  lemma {:induction false} RemainingBlocks(env: Environment, verified: EpochCommitment, safeDepth: nat)
    requires InFlightError(env, verified, safeDepth).InFlight?
    ensures
      var height, tip, required := env.l1Refs[verified].height, env.l1Tip.value, Max(safeDepth, 1);
      var report := InFlightError(env, verified, safeDepth);
      var reached := tip + report.remaining;
      && report.epoch == verified.epoch && report.height == height
      && (height <= tip + 1 <==>
          reached + 1 >= height + required && (report.remaining > 0 ==> reached < height + required))
  {
    var height, tip, required := env.l1Refs[verified].height, env.l1Tip.value, Max(safeDepth, 1);
    var reached := tip + InFlightError(env, verified, safeDepth).remaining;
    if height <= tip + 1 {
      assert reached + 1 >= height + required;
    } else {
      assert reached + 1 < height + required;
    }
  }

  /** The highest slot with a full block is above `slot`. */
  ghost predicate BlocksAboveSlot(db: Db, slot: nat) {
    exists s :: s in db.heights && db.heights[s] != [] && s > slot
  }

  class Promoter {
    const blkidOf: Header -> BlockId
    var db: Db
    var env: Environment

    constructor (blkidOf: Header -> BlockId, db: Db, env: Environment)
      ensures this.blkidOf == blkidOf && this.db == db && this.env == env
    {
      this.blkidOf, this.db, this.env := blkidOf, db, env;
    }

    /** The block manager's transaction: publishes the anchor and the index entry for it, or finds
        an anchor already there. */
    method PromoteToHistoryAnchor(anchor: EpochCommitment) returns (r: Option<PromotionError>)
      modifies this`db
      ensures old(db).historyBase.None? ==> r == None && db == Promoted(old(db), anchor)
      ensures old(db).historyBase.Some? ==> db == old(db)
      ensures old(db).historyBase.Some?
              ==> r == if old(db).historyBase == Some(anchor) then None
                       else Some(BaseConflict(old(db).historyBase.value))
    {
      if db.historyBase.Some? {
        return if db.historyBase.value == anchor then None else Some(BaseConflict(db.historyBase.value));
      }
      db := db.(canonical := ReplaceSuffix(db.canonical, anchor.lastSlot, [anchor.lastBlkid]),
      historyBase := Some(anchor));
      r := None;
    }

    method HighestBlockSlot() returns (r: Option<nat>)
      ensures r.Some? ==> r.value in db.heights && db.heights[r.value] != []
      ensures forall s :: s in db.heights && db.heights[s] != [] ==> r.Some? && s <= r.value
    {
      var todo := db.heights.Keys;
      r := None;
      while todo != {}
        invariant todo <= db.heights.Keys
        invariant r.Some? ==> r.value in db.heights && db.heights[r.value] != []
        invariant forall s :: s in db.heights && s !in todo && db.heights[s] != [] ==> r.Some? && s <= r.value
        decreases todo
      {
        var s :| s in todo;
        if db.heights[s] != [] && (r.None? || r.value < s) {
          r := Some(s);
        }
        todo := todo - {s};
      }
    }

    /** The checks of the anchor's checkpoint, header, summary and state. */
    method CheckAnchor(anchor: EpochCommitment) returns (r: Option<PromotionError>)
      ensures r == AnchorFault(db, env, blkidOf, anchor)
      ensures r.None? <==> AnchorReady(db, env, blkidOf, anchor)
    {
      NoFaultMeansReady(db, env, blkidOf, anchor);
      if anchor !in env.payloads {
        return Some(NoPayload);
      }
      if anchor !in env.l1Refs {
        return Some(NoL1Ref);
      }
      var ref := env.l1Refs[anchor];
      if ref.height !in env.l1Canonical || env.l1Canonical[ref.height] != ref.blkid {
        return Some(L1NotCanonical);
      }
      var summary := SummaryOf(db, anchor);
      if summary.None? {
        return Some(NoAnchorSummary);
      }
      if anchor.lastBlkid !in db.terminalHeaders {
        return Some(NoTerminalHeader);
      }
      var stored := db.terminalHeaders[anchor.lastBlkid];
      var rebuilt := ReconstructTerminalHeader(blkidOf, env.payloads[anchor], summary.value.finalState);
      if rebuilt.None? {
        return Some(Reconstruction);
      }
      if rebuilt.value != stored {
        return Some(HeaderMismatch);
      }
      var e := VerifyAnchorSummaryAndState(db, blkidOf, anchor, stored, summary.value);
      if e.Some? {
        return Some(BadAnchor(e.value));
      }
      if db.states[Terminal(anchor)].root != stored.stateRoot {
        return Some(StateRoot);
      }
      r := None;
    }

    /** The checks that nothing lies above the anchor. */
    method CheckNothingAbove(slot: nat) returns (r: Option<PromotionError>)
      ensures r == AboveFault(db, slot)
      ensures r.None? <==> NothingAbove(db, slot)
    {
      var tip := CanonicalTip(db.canonical);
      if tip.None? {
        return Some(NoCanonicalTip);
      }
      if tip.value.slot > slot {
        return Some(TipAbove);
      }
      var highest := HighestBlockSlot();
      if highest.Some? && highest.value > slot {
        return Some(BlocksAbove);
      }
      if db.watermark.Some? {
        return Some(Watermark);
      }
      r := None;
    }

    /** Promotion. A run either finds an anchor already there, or publishes the declared final
        epoch as the anchor exactly when every guard holds, or fails; in the first and the last
        case nothing changes. */
    method PromoteFromCheckpointStorage(safeDepth: nat) returns (r: Option<PromotionError>)
      modifies this`db
      ensures old(db).historyBase.Some? ==> r == None && db == old(db)
      ensures r.Some? ==> db == old(db)
      ensures old(db).historyBase.None? ==> (r == None <==> Promotable(old(db), env, blkidOf))
      ensures old(db).historyBase.None? ==> r == Fault(old(db), env, blkidOf, safeDepth)
      ensures old(db).historyBase.None? && r == None ==> db == Promoted(old(db), env.client.value.value)
    {
      if db.historyBase.Some? {
        return None;
      }
      if env.client.None? {
        return Some(NoClientState);
      }
      if env.client.value.None? {
        return Some(NoFinalEpoch);
      }
      var anchor := env.client.value.value;
      if !env.asmStored {
        return Some(NoAsmState);
      }
      if env.verifiedTip.None? {
        return Some(NoCheckpointSection);
      }
      var verified := FromTerminal(env.verifiedTip.value.0, env.verifiedTip.value.1);
      if verified.epoch > anchor.epoch {
        return Some(InFlightError(env, verified, safeDepth));
      }
      if verified != anchor {
        return Some(TipMismatch(verified, anchor));
      }
      r := CheckAnchor(anchor);
      if r.Some? {
        return;
      }
      r := CheckNothingAbove(anchor.lastSlot);
      if r.Some? {
        return;
      }
      r := PromoteToHistoryAnchor(anchor);
    }
  }

  /** The first of the anchor's guards that fails: observed payload, L1 reference and its block,
      summary, stored and reconstructed header, anchor checks, state root. */
  function AnchorFault(
    db: Db, env: Environment, blkidOf: Header -> BlockId, anchor: EpochCommitment): Option<PromotionError>
  {
    if anchor !in env.payloads then Some(NoPayload)
    else if anchor !in env.l1Refs then Some(NoL1Ref)
    else if !(env.l1Refs[anchor].height in env.l1Canonical
              && env.l1Canonical[env.l1Refs[anchor].height] == env.l1Refs[anchor].blkid) then Some(L1NotCanonical)
    else if SummaryOf(db, anchor).None? then Some(NoAnchorSummary)
    else if anchor.lastBlkid !in db.terminalHeaders then Some(NoTerminalHeader)
    else
      var h, s := db.terminalHeaders[anchor.lastBlkid], SummaryOf(db, anchor).value;
      var rebuilt := ReconstructTerminalHeader(blkidOf, env.payloads[anchor], s.finalState);
      if rebuilt.None? then Some(Reconstruction)
      else if rebuilt.value != h then Some(HeaderMismatch)
      else
        match VerifyAnchorSummaryAndState(db, blkidOf, anchor, h, s)
        case Some(e) => Some(BadAnchor(e))
        case None => if db.states[Terminal(anchor)].root != h.stateRoot then Some(StateRoot) else None
  }

  /** What an error of the anchor's guards says is so. */
  ghost predicate AnchorCause(
    db: Db, env: Environment, blkidOf: Header -> BlockId, anchor: EpochCommitment, e: PromotionError)
  {
    var at := BlockCommitment(anchor.lastSlot, anchor.lastBlkid);
    match e
    case NoPayload => anchor !in env.payloads
    case NoL1Ref => anchor !in env.l1Refs
    case L1NotCanonical =>
      && anchor in env.l1Refs
      && var ref := env.l1Refs[anchor]; !(ref.height in env.l1Canonical && env.l1Canonical[ref.height] == ref.blkid)
    case NoAnchorSummary =>
      anchor.epoch in db.summaries ==>
        forall i :: 0 <= i < |db.summaries[anchor.epoch]| ==> db.summaries[anchor.epoch][i].terminal != at
    case NoTerminalHeader => anchor.lastBlkid !in db.terminalHeaders
    case Reconstruction =>
      && anchor in env.payloads
      && var id := env.payloads[anchor].tip.blkid; RebuiltDiffers(db, env, anchor, h => blkidOf(h) != id)
    case HeaderMismatch =>
      && anchor.lastBlkid in db.terminalHeaders
      && var stored := db.terminalHeaders[anchor.lastBlkid]; RebuiltDiffers(db, env, anchor, h => h != stored)
    case BadAnchor(a) => AnchorErrorCause(db, blkidOf, anchor, a)
    case StateRoot =>
      && anchor.lastBlkid in db.terminalHeaders && at in db.states
      && db.states[at].root != db.terminalHeaders[anchor.lastBlkid].stateRoot
    case _ => false
  }

  /** The header rebuilt from the payload and the root of a stored summary of the anchor is off. */
  ghost predicate RebuiltDiffers(db: Db, env: Environment, anchor: EpochCommitment, off: Header -> bool) {
    && anchor in env.payloads && anchor.epoch in db.summaries
    && var p := env.payloads[anchor];
    exists i ::
      && 0 <= i < |db.summaries[anchor.epoch]|
      && db.summaries[anchor.epoch][i].terminal == BlockCommitment(anchor.lastSlot, anchor.lastBlkid)
      && off(Header(p.tip.slot, p.epoch, p.parent, db.summaries[anchor.epoch][i].finalState, true, p.rest))
  }

  /** An error of the anchor's guards tells what is so. */
  lemma {:induction false} AnchorFaultIsTrue(
    db: Db, env: Environment, blkidOf: Header -> BlockId, anchor: EpochCommitment)
    requires AnchorFault(db, env, blkidOf, anchor).Some?
    ensures AnchorCause(db, env, blkidOf, anchor, AnchorFault(db, env, blkidOf, anchor).value)
  {
    SummaryFound(SummariesAt(db, anchor.epoch), Terminal(anchor));
    if VerifyHistoryAnchor(db, blkidOf, anchor).Err? {
      AnchorErrorIsTrue(db, blkidOf, anchor);
    }
    if SummaryOf(db, anchor).Some? {
      var i := FoundAt(SummariesAt(db, anchor.epoch), Terminal(anchor));
    }
  }

  /** The first sign of something above the anchor: no index, its tip, a full block, the high
      watermark. */
  ghost function AboveFault(db: Db, slot: nat): Option<PromotionError> {
    if db.canonical == map[] then Some(NoCanonicalTip)
    else if exists s :: s in db.canonical && s > slot then Some(TipAbove)
    else if BlocksAboveSlot(db, slot) then Some(BlocksAbove)
    else if db.watermark.Some? then Some(Watermark)
    else None
  }

  /** The first guard of a promotion that fails. */
  ghost function Fault(db: Db, env: Environment, blkidOf: Header -> BlockId, safeDepth: nat): Option<PromotionError> {
    if env.client.None? then Some(NoClientState)
    else if env.client.value.None? then Some(NoFinalEpoch)
    else if !env.asmStored then Some(NoAsmState)
    else if env.verifiedTip.None? then Some(NoCheckpointSection)
    else
      var anchor, verified := env.client.value.value, FromTerminal(env.verifiedTip.value.0, env.verifiedTip.value.1);
      if verified.epoch > anchor.epoch then Some(InFlightError(env, verified, safeDepth))
      else if verified != anchor then Some(TipMismatch(verified, anchor))
      else if AnchorFault(db, env, blkidOf, anchor).Some? then AnchorFault(db, env, blkidOf, anchor)
      else AboveFault(db, anchor.lastSlot)
  }

  function Promoted(db: Db, anchor: EpochCommitment): Db {
    db.(canonical := ReplaceSuffix(db.canonical, anchor.lastSlot, [anchor.lastBlkid]), historyBase := Some(anchor))
  }

  /** The anchor's checkpoint was observed in a canonical L1 block, the anchor is in order, and its
      payload and state agree with its stored header. */
  ghost predicate AnchorReady(db: Db, env: Environment, blkidOf: Header -> BlockId, anchor: EpochCommitment) {
    && anchor in env.payloads
    && anchor in env.l1Refs
    && (var ref := env.l1Refs[anchor]; ref.height in env.l1Canonical && env.l1Canonical[ref.height] == ref.blkid)
    && AnchorInOrder(db, blkidOf, anchor)
    && var h, p := db.terminalHeaders[anchor.lastBlkid], env.payloads[anchor];
    && p.tip.slot == h.slot && p.tip.blkid == anchor.lastBlkid
    && p.epoch == h.epoch && p.parent == h.parent && p.rest == h.rest
    && db.states[BlockCommitment(anchor.lastSlot, anchor.lastBlkid)].root == h.stateRoot
  }

  /** No guard fails exactly when the anchor is ready. */
  lemma {:induction false} NoFaultMeansReady(
    db: Db, env: Environment, blkidOf: Header -> BlockId, anchor: EpochCommitment)
    ensures AnchorFault(db, env, blkidOf, anchor).None? <==> AnchorReady(db, env, blkidOf, anchor)
  {
    AnchorVerifies(db, blkidOf, anchor);
    if AnchorFault(db, env, blkidOf, anchor).None? {
      assert VerifyHistoryAnchor(db, blkidOf, anchor).Ok?;
    }
  }

  ghost predicate NothingAbove(db: Db, slot: nat) {
    && db.canonical != map[]
    && (forall s :: s in db.canonical ==> s <= slot)
    && !BlocksAboveSlot(db, slot)
    && db.watermark.None?
  }

  ghost predicate Promotable(db: Db, env: Environment, blkidOf: Header -> BlockId) {
    && env.client.Some? && env.client.value.Some?
    && env.asmStored && env.verifiedTip.Some?
    && var anchor := env.client.value.value;
    && env.verifiedTip.value.0 == anchor.epoch
    && env.verifiedTip.value.1.slot == anchor.lastSlot && env.verifiedTip.value.1.blkid == anchor.lastBlkid
    && AnchorReady(db, env, blkidOf, anchor)
    && NothingAbove(db, anchor.lastSlot)
  }

  /** The checks of summaries and states do not look at the index or the base. */
  lemma {:induction false} PromotedReads(
    db: Db, blkidOf: Header -> BlockId, anchor: EpochCommitment, canonical: map<nat, BlockId>, epoch: nat)
    ensures
      var after := Promoted(db, anchor).(canonical := canonical);
      && VerifyHistoryAnchor(after, blkidOf, anchor) == VerifyHistoryAnchor(db, blkidOf, anchor)
      && VerifyPreviousSummary(after, epoch) == VerifyPreviousSummary(db, epoch)
  {
  }

  lemma {:induction false} ReadyAnchorVerifies(
    db: Db, env: Environment, blkidOf: Header -> BlockId, anchor: EpochCommitment)
    requires AnchorReady(db, env, blkidOf, anchor)
    ensures VerifyHistoryAnchor(db, blkidOf, anchor) == Ok(db.terminalHeaders[anchor.lastBlkid])
    ensures db.terminalHeaders[anchor.lastBlkid].epoch == anchor.epoch
    ensures BaseWalk(db, blkidOf, Terminal(anchor), Terminal(anchor)) == Ok([anchor.lastBlkid])
  {
    AnchorVerifies(db, blkidOf, anchor);
    AnchorSatisfiesWalk(db, blkidOf, anchor);
  }

  /** With the base at the top of the index, the tip check passes exactly when the anchor's
      previous epoch is summarized or there is no such epoch. */
  lemma {:induction false} TipAtBase(
    db: Db, env: Environment, blkidOf: Header -> BlockId, anchor: EpochCommitment, canonical: map<nat, BlockId>)
    requires AnchorReady(db, env, blkidOf, anchor)
    ensures VerifyTip(Promoted(db, anchor).(canonical := canonical), blkidOf, Terminal(anchor)).None?
       <==> VerifyPreviousSummary(db, anchor.epoch).None?
  {
    ReadyAnchorVerifies(db, env, blkidOf, anchor);
    PromotedReads(db, blkidOf, anchor, canonical, anchor.epoch);
  }

  /** What a promotion leaves: the base is both the declared final epoch and the verified tip, the
      anchor verifies, the tip is the anchor, the backfill has nothing to do, and the tip check
      passes exactly when the previous epoch's summary is there or there is no such epoch. */
  lemma {:induction false} PromotionPreparesStartup(db: Db, env: Environment, blkidOf: Header -> BlockId)
    requires Promotable(db, env, blkidOf)
    ensures
      var anchor := env.client.value.value;
      var after := Promoted(db, anchor);
      && after.historyBase == Some(anchor)
      && VerifyHistoryAnchor(after, blkidOf, anchor) == Ok(db.terminalHeaders[anchor.lastBlkid])
      && IsTip(after.canonical, anchor.lastSlot)
      && after.canonical[anchor.lastSlot] == anchor.lastBlkid
      && (forall s :: s in after.canonical && s < anchor.lastSlot <==> s in db.canonical && s < anchor.lastSlot)
      && (forall s :: s in db.canonical && s < anchor.lastSlot ==> after.canonical[s] == db.canonical[s])
      && after == db.(canonical := after.canonical, historyBase := after.historyBase)
      && EnsureIndexFromBase(after, blkidOf, anchor, Some(anchor)) == Ok(after)
      && (VerifyTip(after, blkidOf, Terminal(anchor)).None? <==> PreviousSummarized(db, anchor.epoch))
  {
    PreviousPasses(db, env.client.value.value.epoch);
    var anchor := env.client.value.value;
    var after := Promoted(db, anchor);
    BackfillTop(db.canonical, anchor.lastSlot, [anchor.lastBlkid]);
    ReadyAnchorVerifies(db, env, blkidOf, anchor);
    PromotedReads(db, blkidOf, anchor, after.canonical, anchor.epoch);
    TipAtBase(db, env, blkidOf, anchor, after.canonical);
  }

  /** The repair of the first startup: it succeeds, seeding genesis if its entry is missing, and
      leaves the anchor at the top of the index. */
  lemma {:induction false} RepairAfterPromotion(
    db: Db, env: Environment, blkidOf: Header -> BlockId, genesis: BlockCommitment)
    requires Promotable(db, env, blkidOf) && genesis.slot == 0
    requires
      var canonical := Promoted(db, env.client.value.value).canonical;
      0 in canonical ==> canonical[0] == genesis.blkid
    ensures
      var anchor := env.client.value.value;
      var promoted := Promoted(db, anchor);
      var (repaired, e) := Repair(promoted, blkidOf, genesis, Some(anchor), true);
      && e.None? && repaired == promoted.(canonical := repaired.canonical)
      && IsTip(repaired.canonical, anchor.lastSlot) && repaired.canonical[anchor.lastSlot] == anchor.lastBlkid
  {
    var anchor := env.client.value.value;
    var promoted, b := Promoted(db, anchor), BlockCommitment(anchor.lastSlot, anchor.lastBlkid);
    BackfillTop(db.canonical, anchor.lastSlot, [anchor.lastBlkid]);
    AnchorConnected(promoted, blkidOf, genesis, anchor);
    RepairOutcome(promoted, blkidOf, genesis, Some(anchor), b);
    if !Names(StartIndex(promoted, genesis), b) {
      var after := Repair(promoted, blkidOf, genesis, Some(anchor), true).0.canonical;
      var start: nat, ids :| LeadsTo(promoted, blkidOf, genesis, b, start, ids)
                             && Refilled(StartIndex(promoted, genesis), start, ids, after);
      assert start == anchor.lastSlot && ids == [anchor.lastBlkid];
    }
  }

  /** A base whose header is stored is connected to itself. */
  lemma {:induction false} AnchorConnected(
    db: Db, blkidOf: Header -> BlockId, genesis: BlockCommitment, anchor: EpochCommitment)
    requires db.historyBase == Some(anchor) && AnchorInOrder(db, blkidOf, anchor)
    ensures Connected(db, blkidOf, genesis, BlockCommitment(anchor.lastSlot, anchor.lastBlkid))
  {
    var b := BlockCommitment(anchor.lastSlot, anchor.lastBlkid);
    assert LeadsTo(db, blkidOf, genesis, b, anchor.lastSlot, [anchor.lastBlkid]);
  }

  /** Genesis is stored with its state and its summary and has slot 0, if anything has. */
  ghost predicate GenesisInOrder(db: Db, genesis: BlockCommitment) {
    GenesisStored(db, genesis) && (0 in db.canonical ==> db.canonical[0] == genesis.blkid)
  }

  lemma {:induction false} GenesisFound(db: Db)
    ensures OLGenesis(db).Some? ==>
              var g := OLGenesis(db).value;
              GenesisStored(db, g) <==> g in db.states && SummaryOf(db, EpochCommitment(0, 0, g.blkid)).Some?
    ensures forall g :: GenesisStored(db, g) ==> OLGenesis(db) == Some(g)
  {
    if OLGenesis(db).Some? {
      SummaryFound(SummariesAt(db, 0), OLGenesis(db).value);
    }
  }

  /** A promotion above slot 0 leaves genesis alone; one at slot 0 leaves it in order only if the
      anchor is genesis. */
  lemma {:induction false} GenesisAfterPromotion(db: Db, anchor: EpochCommitment, genesis: BlockCommitment)
    ensures anchor.lastSlot > 0 ==> (GenesisInOrder(Promoted(db, anchor), genesis) <==> GenesisInOrder(db, genesis))
    ensures anchor.lastSlot == 0 && GenesisInOrder(Promoted(db, anchor), genesis) ==> genesis.blkid == anchor.lastBlkid
  {
    BackfillTop(db.canonical, anchor.lastSlot, [anchor.lastBlkid]);
    assert GenesisStored(Promoted(db, anchor), genesis) <==> GenesisStored(db, genesis);
  }

  /** Checks that find genesis out of order fail. */
  lemma {:induction false} GenesisNeeded(
    db: Db, blkidOf: Header -> BlockId, client: Option<Option<EpochCommitment>>, after: Db,
    failure: Option<StartupError>)
    requires client.Some? && Checked(db, blkidOf, client, true, after, failure)
    ensures failure.None? ==> OLGenesis(db).Some? && GenesisInOrder(db, OLGenesis(db).value)
  {
    GenesisFound(db);
  }

  /** The sequencer's first startup after any promotion passes exactly when genesis is in order in
      the promoted storage and the previous epoch's summary is there. For an anchor above slot 0
      that is genesis in order before the promotion; at slot 0 the anchor must be genesis. */
  lemma {:induction false} StartupAfterPromotion(
    db: Db, env: Environment, blkidOf: Header -> BlockId, after: Db, failure: Option<StartupError>)
    requires Promotable(db, env, blkidOf)
    requires Checked(Promoted(db, env.client.value.value), blkidOf, env.client, true, after, failure)
    ensures
      var anchor := env.client.value.value;
      var summarized := PreviousSummarized(db, anchor.epoch);
      && (failure.None? <==> (exists g :: GenesisInOrder(Promoted(db, anchor), g)) && summarized)
      && (anchor.lastSlot > 0 ==> (failure.None? <==> (exists g :: GenesisInOrder(db, g)) && summarized))
      && (anchor.lastSlot == 0 && failure.None? ==> GenesisInOrder(Promoted(db, anchor), Terminal(anchor)))
  {
    var anchor := env.client.value.value;
    var promoted := Promoted(db, anchor);
    PreviousPasses(db, anchor.epoch);
    GenesisFound(promoted);
    GenesisNeeded(promoted, blkidOf, env.client, after, failure);
    forall g ensures anchor.lastSlot > 0 ==> (GenesisInOrder(promoted, g) <==> GenesisInOrder(db, g))
      ensures anchor.lastSlot == 0 && GenesisInOrder(promoted, g) ==> g == Terminal(anchor)
    {
      GenesisAfterPromotion(db, anchor, g);
    }
    if genesis :| GenesisInOrder(promoted, genesis) {
      RepairAfterPromotion(db, env, blkidOf, genesis);
      TipAtBase(db, env, blkidOf, anchor, after.canonical);
      var tip :| CheckedTip(after, blkidOf, tip, failure);
      assert tip == anchor.lastSlot;
    }
  }

  /** Promotable storages exist: one with an anchor of epoch 3 at slot 30, over the terminal of epoch
      2 at slot 20, whose state is at epoch 4. */
  lemma {:induction false} PromotableExample(blkidOf: Header -> BlockId)
    requires blkidOf(Header(30, 3, 8, 77, true, 0)) == 9
    ensures
      var anchor, at := EpochCommitment(3, 30, 9), BlockCommitment(30, 9);
      var summary := Summary(3, at, BlockCommitment(20, 5), 77, 0);
      var db := Db(map[], map[], map[], map[9 := Header(30, 3, 8, 77, true, 0)], map[0 := 1], None, None,
                   map[at := ChainState(30, 4, 77)], map[3 := [summary]]);
      var env := Environment(Some(Some(anchor)), true, Some((3, at)), map[anchor := L1Ref(100, 6)], map[100 := 6],
                             Some(120), map[anchor := Payload(3, at, 8, 0)]);
      Promotable(db, env, blkidOf)
  {
    var canonical: map<nat, BlockId> := map[0 := 1];
    assert 0 in canonical && canonical != map[];
  }

  // ---------------------------------------------------------------- over any sequence of runs

  /** One promotion run, as storage sees it. */
  ghost function RunOnce(db: Db, env: Environment, blkidOf: Header -> BlockId): Db {
    if db.historyBase.None? && Promotable(db, env, blkidOf) then Promoted(db, env.client.value.value) else db
  }

  /** A promotion run, or anything else the node writes: nothing else writes the history base. */
  datatype Event = Promote(env: Environment) | Other(next: Db)

  ghost function Apply(db: Db, blkidOf: Header -> BlockId, e: Event): Db {
    match e
    case Promote(env) => RunOnce(db, env, blkidOf)
    case Other(next) => next.(historyBase := db.historyBase)
  }

  ghost function Replay(db: Db, blkidOf: Header -> BlockId, events: seq<Event>): Db
    decreases |events|
  {
    if events == [] then db else Replay(Apply(db, blkidOf, events[0]), blkidOf, events[1..])
  }

  /** Event `i` is a promotion run that could and did make `base` the history base. */
  ghost predicate SetAt(db: Db, blkidOf: Header -> BlockId, events: seq<Event>, base: EpochCommitment, i: nat) {
    && i < |events| && events[i].Promote? && events[i].env.client == Some(Some(base))
    && Promotable(Replay(db, blkidOf, events[..i]), events[i].env, blkidOf)
  }

  lemma {:induction false} SetLater(
    db: Db, blkidOf: Header -> BlockId, events: seq<Event>, base: EpochCommitment, i: nat)
    requires events != [] && SetAt(Apply(db, blkidOf, events[0]), blkidOf, events[1..], base, i)
    ensures SetAt(db, blkidOf, events, base, i + 1)
  {
    var prefix := events[..i + 1];
    assert prefix[1..] == events[1..][..i] && prefix[0] == events[0];
  }

  /** Over any sequence of runs and other writes, the base is set at most once, to an epoch that
      was declared final and verified at that moment, and never changes again. */
  lemma {:induction false} BaseIsSetOnce(db: Db, blkidOf: Header -> BlockId, events: seq<Event>)
    ensures
      var base := Replay(db, blkidOf, events).historyBase;
      && (db.historyBase.Some? ==> base == db.historyBase)
      && (db.historyBase.None? && base.Some? ==> exists i: nat :: SetAt(db, blkidOf, events, base.value, i))
    decreases |events|
  {
    if events != [] {
      var next := Apply(db, blkidOf, events[0]);
      BaseIsSetOnce(next, blkidOf, events[1..]);
      var base := Replay(db, blkidOf, events).historyBase;
      if db.historyBase.None? && base.Some? {
        if next.historyBase.Some? {
          assert events[..0] == [];
          assert SetAt(db, blkidOf, events, base.value, 0);
        } else {
          var i: nat :| SetAt(next, blkidOf, events[1..], base.value, i);
          SetLater(db, blkidOf, events, base.value, i);
        }
      }
    }
  }
}
