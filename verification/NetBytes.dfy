/** Bytes off the network. */
module NetBytes {
  import opened Collections
  import opened Wrappers

  type Byte = b: int | 0 <= b < 256

  type Bytes = seq<Byte>

  function Load8(data: Bytes, at: nat): Option<nat> {
    if at < |data| then Some(data[at]) else None
  }

  /** Two bytes in network order. */
  function Load16(data: Bytes, at: nat): Option<nat> {
    if at + 1 < |data| then Some(256 * (data[at] as int) + data[at + 1]) else None
  }

  /** A slice as Python takes it: bounds past the end are cut off, and bounds that cross give nothing. */
  function Slice(data: Bytes, from: nat, to: nat): (r: Bytes)
    ensures from <= to <= |data| ==> r == data[from..to]
  {
    var hi := Min(to, |data|);
    if from < hi then data[from..hi] else []
  }

  function Drop(data: Bytes, from: nat): Bytes {
    Slice(data, from, |data|)
  }
}
