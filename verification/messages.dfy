/** struct emi_msg and a lossless connection (include/emi.h, emi_sock.c). */
module Messages {
  const EMI_MSG_TYPE_CMD: bv32 := 0x0000_0001
  const EMI_MSG_TYPE_DATA: bv32 := 0x0000_0002
  const EMI_MSG_FLAG_BLOCK: bv32 := 0x0000_0100
  const EMI_MSG_FLAG_BLOCK_RETURN: bv32 := 0x0000_0200
  const EMI_MSG_FLAG_NONBLOCK: bv32 := 0x0000_0400
  const EMI_MSG_CMD_REGISTER: bv32 := 0x0000_4000
  const EMI_MSG_CMD_SUCCEEDED: bv32 := 0x0001_0000

  predicate Has(flag: bv32, bit: bv32) { flag & bit != 0 }

  function SetBit(flag: bv32, bit: bv32): bv32 { flag | bit }

  function ClearBit(flag: bv32, bit: bv32): bv32 { flag & !bit }

  /**
   * The fields that matter for a reply. data is the memory that begins at the data of the message: the buffer of a
   * sender, or the segment from there on; it may exceed size.
   */
  datatype Content = Content(flag: bv32, size: nat, cmd: bv32, msg: bv32, data: seq<bv8>)

  /** b written to the start of data; what does not fit is written behind data, which is not part of this model. */
  function Overwritten(data: seq<bv8>, b: seq<bv8>): (r: seq<bv8>)
    ensures |r| == |data|
    ensures |b| <= |data| <==> b <= r
    ensures forall i | 0 <= i < |data| :: r[i] == if i < |b| then b[i] else data[i]
  {
    if |b| <= |data| then b + data[|b|..] else b[..|data|]
  }

  class Message {
    var flag: bv32
    var size: nat
    var cmd: bv32
    var msg: bv32
    var data: seq<bv8>

    function Value(): Content
      reads this
    {
      Content(flag, size, cmd, msg, data)
    }
  }

  /** One write of a struct, or of data bytes. */
  datatype Item = Head(flag: bv32, size: nat, cmd: bv32, msg: bv32) | Bytes(bytes: seq<bv8>)

  /** One direction of a connection: a read that finds what was written gets all of it, a read past the end is short. */
  class Socket {
    var items: seq<Item>

    constructor ()
      ensures items == []
    {
      items := [];
    }

    method WriteHead(m: Message)
      modifies this
      ensures items == old(items) + [Head(m.flag, m.size, m.cmd, m.msg)]
    {
      items := items + [Head(m.flag, m.size, m.cmd, m.msg)];
    }

    method WriteData(m: Message)
      requires m.size <= |m.data|
      modifies this
      ensures items == old(items) + [Bytes(m.data[..m.size])]
    {
      items := items + [Bytes(m.data[..m.size])];
    }

    method ReadHead(m: Message) returns (full: bool)
      modifies this, m
      ensures full == (old(items) != [] && old(items)[0].Head?)
      ensures full ==> items == old(items)[1..] && old(items)[0] == Head(m.flag, m.size, m.cmd, m.msg)
      ensures !full ==> items == old(items) && m.Value() == old(m.Value())
      ensures m.data == old(m.data)
    {
      full := items != [] && items[0].Head?;
      if full {
        var Head(flag, size, cmd, msg) := items[0];
        m.flag, m.size, m.cmd, m.msg, items := flag, size, cmd, msg, items[1..];
      }
    }

    method ReadData(m: Message) returns (full: bool)
      modifies this, m`data
      ensures full == (old(items) != [] && old(items)[0].Bytes? && |old(items)[0].bytes| == m.size)
      ensures full ==> items == old(items)[1..] && m.data == Overwritten(old(m.data), old(items)[0].bytes)
      ensures !full ==> items == old(items) && m.data == old(m.data)
    {
      full := items != [] && items[0].Bytes? && |items[0].bytes| == m.size;
      if full {
        m.data, items := Overwritten(m.data, items[0].bytes), items[1..];
      }
    }
  }
}
