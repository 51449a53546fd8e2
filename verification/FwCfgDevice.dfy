/** The fw_cfg device: a selector register and a data port. Nothing is assumed about its answers; what it will say from
    now on is one arbitrary stream of bytes, so it may answer the same question differently each time. */
module FwCfgDevice {
  import opened Bytes

  type Stream = nat -> byte

  /** The selector of the directory, the size of one of its entries, and how many it may have. */
  const FILE_DIR := 0x19
  const DIR_ENTRY_SIZE := 64
  const MAXIMUM_SLOTS := 0x20

  datatype Access = Select(key: nat) | Fetch(data: bytes)

  /** The next `n` bytes the device gives. */
  function Answer(stream: Stream, pos: nat, n: nat): (b: bytes)
    ensures |b| == n
  {
    seq(n, i requires 0 <= i < n => stream(pos + i))
  }

  /** A big-endian integer. */
  function UnBe(b: bytes): (n: nat)
    ensures n < Pow256(|b|)
  {
    if b == [] then 0 else UnBe(b[..|b| - 1]) * 256 + b[|b| - 1]
  }

  /** Characters up to the terminator. */
  function CString(b: bytes): string {
    if b == [] || b[0] == 0 then "" else [b[0] as char] + CString(b[1..])
  }

  class Device {
    const stream: Stream
    var pos: nat
    var trace: seq<Access>

    constructor (stream: Stream)
      ensures this.stream == stream && pos == 0 && trace == []
    {
      this.stream := stream;
      pos, trace := 0, [];
    }

    method SelectItem(key: nat)
      modifies this
      ensures pos == old(pos) && trace == old(trace) + [Select(key)]
    {
      trace := trace + [Select(key)];
    }

    method ReadBytes(n: nat) returns (b: bytes)
      modifies this
      ensures b == Answer(stream, old(pos), n) && pos == old(pos) + n && trace == old(trace) + [Fetch(b)]
    {
      b := Answer(stream, pos, n);
      pos, trace := pos + n, trace + [Fetch(b)];
    }
  }
}
