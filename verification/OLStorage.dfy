/** What the node's storage holds about the orchestration layer, as the startup checks and the
    checkpoint promotion see it. */
module OLStorage {
  import opened Chain

  datatype BlockStatus = Unchecked | Valid | Invalid

  /** A stored chain state: the slot and epoch it is at, and its tree-hash root. */
  datatype ChainState = ChainState(slot: nat, epoch: nat, root: nat)

  datatype Db = Db(
    blocks: map<BlockId, Header>,
    status: map<BlockId, BlockStatus>,
    heights: map<nat, seq<BlockId>>,
    terminalHeaders: map<BlockId, Header>,
    canonical: map<nat, BlockId>,
    historyBase: Option<EpochCommitment>,
    watermark: Option<BlockCommitment>,
    states: map<BlockCommitment, ChainState>,
    summaries: map<nat, seq<Summary>>)

  function CanonicalAt(db: Db, slot: nat): Option<BlockCommitment> {
    if slot in db.canonical then Some(BlockCommitment(slot, db.canonical[slot])) else None
  }

  /** A full block's header if there is one, else a terminal header. */
  function HeaderOf(db: Db, id: BlockId): Option<Header> {
    if id in db.blocks then Some(db.blocks[id])
    else if id in db.terminalHeaders then Some(db.terminalHeaders[id])
    else None
  }

  function SummariesAt(db: Db, epoch: nat): seq<Summary> {
    if epoch in db.summaries then db.summaries[epoch] else []
  }

  function FindSummary(ss: seq<Summary>, terminal: BlockCommitment): Option<Summary> {
    if ss == [] then None else if ss[0].terminal == terminal then Some(ss[0]) else FindSummary(ss[1..], terminal)
  }

  function SummaryOf(db: Db, c: EpochCommitment): Option<Summary> {
    FindSummary(SummariesAt(db, c.epoch), Terminal(c))
  }

  /** The first summary stored for an epoch names the canonical one. */
  function CanonicalEpoch(db: Db, epoch: nat): Option<EpochCommitment> {
    if SummariesAt(db, epoch) == [] then None else Some(CommitmentOf(SummariesAt(db, epoch)[0]))
  }

  // ---------------------------------------------------------------- the canonical index

  /** Drops every entry from `start` on and writes `ids` from there. */
  function ReplaceSuffix(canonical: map<nat, BlockId>, start: nat, ids: seq<BlockId>): map<nat, BlockId> {
    map s: nat | s in canonical.Keys + Range(start, |ids|) && (s < start || s < start + |ids|) ::
      if s < start then canonical[s] else ids[s - start]
  }

  function Range(start: nat, n: nat): (r: set<nat>)
    ensures forall s :: s in r <==> start <= s < start + n
  {
    if n == 0 then {} else Range(start, n - 1) + {start + n - 1}
  }

  ghost predicate IsTip(canonical: map<nat, BlockId>, slot: nat) {
    slot in canonical && forall s :: s in canonical ==> s <= slot
  }

  /** The entry at the highest slot. */
  method CanonicalTip(canonical: map<nat, BlockId>) returns (tip: Option<BlockCommitment>)
    ensures tip.None? <==> canonical == map[]
    ensures tip.Some? ==> IsTip(canonical, tip.value.slot) && canonical[tip.value.slot] == tip.value.blkid
  {
    var todo := canonical.Keys;
    tip := None;
    while todo != {}
      invariant todo <= canonical.Keys
      invariant tip.None? ==> todo == canonical.Keys
      invariant tip.Some? ==>
                  && tip.value.slot in canonical && canonical[tip.value.slot] == tip.value.blkid
                  && forall s :: s in canonical && s !in todo ==> s <= tip.value.slot
      decreases todo
    {
      var s :| s in todo;
      if tip.None? || tip.value.slot < s {
        tip := Some(BlockCommitment(s, canonical[s]));
      }
      todo := todo - {s};
    }
  }
}
