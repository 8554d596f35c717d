/** Identifiers and headers shared by the orchestration-layer (OL) modules. */
module Chain {

  datatype Option<+T> = None | Some(value: T)

  datatype Result<+T, +E> = Ok(value: T) | Err(error: E)

  /** Block ids are hashes; only equality and the all-zero id matter here. */
  type BlockId = nat

  const NULL_ID: BlockId := 0

  datatype BlockCommitment = BlockCommitment(slot: nat, blkid: BlockId)

  const NULL_COMMITMENT := BlockCommitment(0, NULL_ID)

  datatype EpochCommitment = EpochCommitment(epoch: nat, lastSlot: nat, lastBlkid: BlockId)

  /** The commitment to an epoch's terminal block. */
  function Terminal(c: EpochCommitment): BlockCommitment {
    BlockCommitment(c.lastSlot, c.lastBlkid)
  }

  function FromTerminal(epoch: nat, terminal: BlockCommitment): EpochCommitment {
    EpochCommitment(epoch, terminal.slot, terminal.blkid)
  }

  /** A block of L1, by height and id. */
  datatype L1Ref = L1Ref(height: nat, blkid: nat)

  const U8_MAX: nat := 0xff
  const U32_MAX: nat := 0xffff_ffff
  const U64_MAX: nat := 0xffff_ffff_ffff_ffff

  /** `rest` stands for the fields that are only stored and compared. */
  datatype Summary = Summary(epoch: nat, terminal: BlockCommitment, prevTerminal: BlockCommitment, finalState: nat,
                             rest: nat)

  function CommitmentOf(s: Summary): EpochCommitment {
    FromTerminal(s.epoch, s.terminal)
  }

  /** `rest` stands for the fields no check in these modules looks at. */
  datatype Header = Header(slot: nat, epoch: nat, parent: BlockId, stateRoot: nat, isTerminal: bool, rest: nat)
}
