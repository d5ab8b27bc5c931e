/** The turn envelope and what rides on it. */
module Messages {
  import opened Basics

  type SlotId = byte

  datatype BufferDirective = BufferDirective(
    bufferTurns: u32, applyAtFrame: u32, decisionSeq: u32, authorityRelayId: Option<u64>)

  datatype StateHashReport = StateHashReport(step: u64, hash: u64)

  datatype Payload = Payload(
    seqNo: nat,
    slot: u32,
    commands: seq<byte>,
    gameFrameCount: Option<u32>,
    syncGeneration: Option<u64>,
    stateHash: Option<StateHashReport>,
    bufferDirective: Option<BufferDirective>)
}
