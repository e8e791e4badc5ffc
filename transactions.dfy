/**
  The two register transactions every driver operation is made of, stated as
  shapes of the calls they append to the transport's log, and what the driver
  returns given the answers the transport recorded there.
*/
module Transactions {
  import opened Wrappers
  import opened Transport
  import opened Registers

  /** ReadByteData records its address write and, only when that write
      succeeds, a one-byte read: one or two calls. */
  function ReadSpan(ext: seq<Exchange>): nat
  {
    if |ext| > 0 && ext[0].reply.failed then 1 else 2
  }

  /** `ext` is ReadByteData(reg): Write([reg]), then Read of a 1-byte buffer
      unless the write returned an error. */
  predicate IsReadTxn(ext: seq<Exchange>, reg: byte)
  {
    |ext| == ReadSpan(ext) && ext[0].op == WriteOp([reg]) && (|ext| == 2 ==> ext[1].op == ReadOp(1))
  }

  /** What ReadByteData returns after `ext`: 0 and an error when either call
      failed, otherwise the buffer's byte after the read (the read's count is
      not checked, so an empty answer leaves `reg` there). */
  function ReadResult(ext: seq<Exchange>, reg: byte): (result: (byte, Option<Error>))
    requires IsReadTxn(ext, reg)
    ensures result.1.Some? <==> exists i :: 0 <= i < |ext| && ext[i].reply.failed
    ensures result.1.Some? ==> result.0 == 0
    ensures result.1.None? ==>
      |ext| == 2 && result.0 == if |ext[1].reply.data| > 0 then ext[1].reply.data[0] else reg
  {
    if ext[0].reply.failed then (0, Some(AddressWriteFailed(ext[0].reply.count)))
    else if ext[1].reply.failed then (0, Some(ReadFailed))
    else (Copy([reg], ext[1].reply.data)[0], None)
  }

  /** `ext` is WriteByteData(reg, value): exactly one Write of [reg, value]. */
  predicate IsWriteTxn(ext: seq<Exchange>, reg: byte, value: byte)
  {
    |ext| == 1 && ext[0].op == WriteOp([reg, value])
  }

  /** WriteByteData's error: that of the transport's Write, whatever count it reports. */
  function WriteResult(ext: seq<Exchange>): (err: Option<Error>)
    requires |ext| == 1
    ensures err.Some? <==> ext[0].reply.failed
  {
    if ext[0].reply.failed then Some(WriteFailed(ext[0].reply.count)) else None
  }

  /** `ext` is a pin operation's read-modify-write on `reg`: a ReadByteData and,
      only when it succeeded, one WriteByteData back to the same register. */
  predicate IsRmwTxn(ext: seq<Exchange>, reg: byte)
  {
    var j := ReadSpan(ext);
    j <= |ext| && IsReadTxn(ext[..j], reg) &&
    if ReadResult(ext[..j], reg).1.Some? then |ext| == j
    else |ext| == j + 1 && ext[j].op.WriteOp? && |ext[j].op.data| == 2 && ext[j].op.data[0] == reg
  }

  /** The byte a read-modify-write read and the read's error. */
  function RmwRead(ext: seq<Exchange>, reg: byte): (byte, Option<Error>)
    requires IsRmwTxn(ext, reg)
  {
    ReadResult(ext[..ReadSpan(ext)], reg)
  }

  /** The byte a read-modify-write wrote back. */
  function RmwWritten(ext: seq<Exchange>, reg: byte): byte
    requires IsRmwTxn(ext, reg) && RmwRead(ext, reg).1.None?
  {
    ext[2].op.data[1]
  }

  /** The error of a read-modify-write whose read succeeded: its write's. */
  function RmwWriteResult(ext: seq<Exchange>, reg: byte): Option<Error>
    requires IsRmwTxn(ext, reg) && RmwRead(ext, reg).1.None?
  {
    WriteResult(ext[2..])
  }

  /** A read transaction followed by a write of `value` to the same register,
      made only when the read succeeded, is a read-modify-write that wrote `value`. */
  lemma {:induction false} RmwCompose(read: seq<Exchange>, write: seq<Exchange>, reg: byte, value: byte)
    requires IsReadTxn(read, reg)
    requires ReadResult(read, reg).1.Some? ==> write == []
    requires ReadResult(read, reg).1.None? ==> IsWriteTxn(write, reg, value)
    ensures IsRmwTxn(read + write, reg) && RmwRead(read + write, reg) == ReadResult(read, reg)
    ensures ReadResult(read, reg).1.None? ==>
      RmwWritten(read + write, reg) == value && RmwWriteResult(read + write, reg) == WriteResult(write)
  {
    var ext := read + write;
    assert ReadSpan(ext) == |read|;
    assert ext[..|read|] == read;
    if ReadResult(read, reg).1.None? {
      assert ext[2..] == write;
    }
  }

  /** A log that grew twice grew by the two extensions in turn. */
  lemma Extend(l0: seq<Exchange>, l1: seq<Exchange>, l2: seq<Exchange>)
    requires l0 <= l1 <= l2
    ensures l2[|l0|..] == l1[|l0|..] + l2[|l1|..]
  {
  }

  /** `ext` is a pin operation on `reg`: it reads the register as r and, only
      when that read succeeded, writes back `update(r)`. A failed read's error
      is reported through `wrap`; otherwise the write's error is reported. */
  predicate IsPinUpdate(ext: seq<Exchange>, reg: byte, update: byte -> byte, wrap: Error -> Error, err: Option<Error>)
  {
    IsRmwTxn(ext, reg) &&
    var (r, e) := RmwRead(ext, reg);
    if e.Some? then err == Some(wrap(e.value))
    else RmwWritten(ext, reg) == update(r) && err == RmwWriteResult(ext, reg)
  }

  /** `ext` is a port operation of `kind` writing `value`: one WriteByteData to
      the port's register, or, for a value that is not a port, no call at all. */
  predicate IsPortWrite(ext: seq<Exchange>, kind: RegKind, port: Port, value: byte, err: Option<Error>)
  {
    match Register(kind, port)
    case Some(reg) => IsWriteTxn(ext, reg, value) && err == WriteResult(ext)
    case None => ext == [] && err == Some(InvalidPort(port))
  }

  /** `ext` is ReadPort(port) returning (v, err): a ReadByteData of the port's
      GPIO register, or, for a value that is not a port, no call and 0x00. */
  predicate IsPortRead(ext: seq<Exchange>, port: Port, v: byte, err: Option<Error>)
  {
    match Register(Gpio, port)
    case Some(reg) => IsReadTxn(ext, reg) && (v, err) == ReadResult(ext, reg)
    case None => ext == [] && v == 0 && err == Some(InvalidPort(port))
  }

  /** Board initialisation: IOCON := 0x22, both ports input, pull-ups off,
      normal polarity, in this order. */
  const InitWrites: seq<Op> := [
    WriteOp([IOCON, 0x22]),
    WriteOp([IODIRA, Input]), WriteOp([IODIRB, Input]),
    WriteOp([GPPUA, PullupDisabled]), WriteOp([GPPUB, PullupDisabled]),
    WriteOp([IPOLA, PolarityNormal]), WriteOp([IPOLB, PolarityNormal])
  ]

  /** The initialisation writes as the bytes that go over the wire. */
  lemma InitWritesOnTheWire()
    ensures InitWrites == [
      WriteOp([0x0A, 0x22]),
      WriteOp([0x00, 0xFF]), WriteOp([0x01, 0xFF]),
      WriteOp([0x0C, 0x00]), WriteOp([0x0D, 0x00]),
      WriteOp([0x02, 0x00]), WriteOp([0x03, 0x00])
    ]
  {
  }

  /** Seven single writes in a row, as the seven calls of driverInit make them. */
  lemma InitOps(l0: seq<Exchange>, l1: seq<Exchange>, l2: seq<Exchange>, l3: seq<Exchange>,
                l4: seq<Exchange>, l5: seq<Exchange>, l6: seq<Exchange>, l7: seq<Exchange>)
    requires l0 <= l1 <= l2 <= l3 <= l4 <= l5 <= l6 <= l7
    requires IsWriteTxn(l1[|l0|..], IOCON, 0x22)
    requires IsWriteTxn(l2[|l1|..], IODIRA, Input) && IsWriteTxn(l3[|l2|..], IODIRB, Input)
    requires IsWriteTxn(l4[|l3|..], GPPUA, PullupDisabled) && IsWriteTxn(l5[|l4|..], GPPUB, PullupDisabled)
    requires IsWriteTxn(l6[|l5|..], IPOLA, PolarityNormal) && IsWriteTxn(l7[|l6|..], IPOLB, PolarityNormal)
    ensures OpsOf(l7[|l0|..]) == InitWrites
  {
    var ext := l7[|l0|..];
    assert |ext| == 7;
    assert ext[0] == l1[|l0|..][0] && ext[1] == l2[|l1|..][0] && ext[2] == l3[|l2|..][0];
    assert ext[3] == l4[|l3|..][0] && ext[4] == l5[|l4|..][0];
    assert ext[5] == l6[|l5|..][0] && ext[6] == l7[|l6|..][0];
  }
}
