/** Data pages with the header fields which readout tags them with. */
module DataBlocks {
  import opened Rdh

  const UNDEFINED_TIMEFRAME: nat := 0
  const UNDEFINED_LINK: nat := 0xFF
  const UNDEFINED_EQUIPMENT: nat := 0xFFFF

  datatype DataBlock = DataBlock(
    payload: Bytes,
    timeframeId: nat,
    equipmentId: nat,
    linkId: nat,
    flagEndOfTimeframe: bool,
    bufferSize: nat)   // of the page which holds the payload

  type DataSet = seq<DataBlock>

  function MemoryOf(blocks: DataSet): nat {
    if blocks == [] then 0 else MemoryOf(blocks[..|blocks| - 1]) + blocks[|blocks| - 1].bufferSize
  }

  function Payloads(blocks: DataSet): seq<Bytes> {
    seq(|blocks|, i requires 0 <= i < |blocks| => blocks[i].payload)
  }
}
