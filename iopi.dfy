/**
  The current revision of the driver (iopi.go): bit and pin addressing, and a
  `Device` that turns port and pin operations into register transactions on
  its transport.
*/
module Iopi {
  import opened Wrappers
  import opened Transport
  import opened Registers
  import opened Transactions

  /** Go's byte-typed `1 << bit`: 0 once the bit index is 8 or more. */
  function Mask(bit: byte): byte
  {
    if bit < 8 then 1 << bit else 0
  }

  /** Bit number `bit` of `b` is 1; no bit of a byte has an index of 8 or more. */
  predicate IsSet(b: byte, bit: byte)
  {
    b & Mask(bit) != 0
  }

  /** A byte is determined by its eight bits. */
  lemma ByteDeterminedByBits(a: byte, b: byte)
    requires forall i :: i < 8 ==> IsSet(a, i) == IsSet(b, i)
    ensures a == b
  {
    assert IsSet(a, 0) == IsSet(b, 0) && IsSet(a, 1) == IsSet(b, 1);
    assert IsSet(a, 2) == IsSet(b, 2) && IsSet(a, 3) == IsSet(b, 3);
    assert IsSet(a, 4) == IsSet(b, 4) && IsSet(a, 5) == IsSet(b, 5);
    assert IsSet(a, 6) == IsSet(b, 6) && IsSet(a, 7) == IsSet(b, 7);
  }

  /** SetBit: a nonzero value sets the bit, 0 clears it, the other bits are
      kept; a bit index of 8 or more leaves the byte as it is. */
  function SetBit(byt: byte, bit: byte, value: int): (r: byte)
    ensures bit < 8 ==> (IsSet(r, bit) <==> value != 0)
    ensures forall other :: other != bit ==> IsSet(r, other) == IsSet(byt, other)
    ensures bit >= 8 ==> r == byt
  {
    if value == 0 then byt & !Mask(bit) else byt | Mask(bit)
  }

  /** GetBit: 1 when the bit is set, 0 when it is clear or the index is 8 or more. */
  function GetBit(byt: byte, bit: byte): (r: byte)
    ensures r == if IsSet(byt, bit) then 1 else 0
    ensures bit >= 8 ==> r == 0
  {
    if byt & Mask(bit) > 0 then 1 else 0
  }

  /** Reading back a bit just set gives 1 exactly when the value was nonzero. */
  lemma GetBitOfSetBit(b: byte, bit: byte, value: int)
    requires bit < 8
    ensures GetBit(SetBit(b, bit, value), bit) == if value != 0 then 1 else 0
  {
  }

  /** Setting a bit twice is setting it once. */
  lemma SetBitIdempotent(b: byte, bit: byte, value: int)
    ensures SetBit(SetBit(b, bit, value), bit, value) == SetBit(b, bit, value)
  {
    ByteDeterminedByBits(SetBit(SetBit(b, bit, value), bit, value), SetBit(b, bit, value));
  }

  /** Setting a bit to the value GetBit reports for it gives the byte back. */
  lemma SetBitOfGetBit(b: byte, bit: byte)
    ensures SetBit(b, bit, GetBit(b, bit) as int) == b
  {
    ByteDeterminedByBits(SetBit(b, bit, GetBit(b, bit) as int), b);
  }

  /** Setting one bit does not change what GetBit reports for any other bit. */
  lemma SetBitKeepsOtherBits(b: byte, bit: byte, value: int, other: byte)
    requires other != bit
    ensures GetBit(SetBit(b, bit, value), other) == GetBit(b, other)
  {
  }

  /** GetPinPort: pin p maps to bit p-1 of port A for 1..8 and bit p-9 of
      port B above 8, in uint8 arithmetic, so pin 0 wraps to bit 255. */
  function GetPinPort(pin: byte): (r: (byte, Port))
    ensures 1 <= pin <= 8 ==> r == (pin - 1, PortA)
    ensures 9 <= pin <= 16 ==> r == (pin - 9, PortB)
    ensures pin == 0 ==> r == (255, PortA)
    ensures r.1 == PortA || r.1 == PortB
    ensures r.1 == PortB <==> pin > 8
    ensures r.0 < 8 <==> 1 <= pin <= 16
  {
    if pin > 8 then (pin - 1 - 8, PortB) else (pin - 1, PortA)
  }

  /** The pin number of a bit of a port, the inverse of GetPinPort. */
  function PinNumber(bit: byte, port: Port): byte
    requires bit < 8 && (port == PortA || port == PortB)
  {
    if port == PortA then bit + 1 else bit + 9
  }

  /** GetPinPort is a bijection between pins 1..16 and the 16 (bit, port) pairs. */
  lemma GetPinPortIsBijective(pin: byte, bit: byte, port: Port)
    ensures 1 <= pin <= 16 ==> PinNumber(GetPinPort(pin).0, GetPinPort(pin).1) == pin
    ensures bit < 8 && (port == PortA || port == PortB) ==> GetPinPort(PinNumber(bit, port)) == (bit, port)
  {
  }

  /** A pin operation that updates with SetBit(_, bit, v): when its read
      fails nothing but that read's calls are made; otherwise the one write
      goes to the register read, with bit `bit` set or cleared as v says and
      every other bit as read. */
  lemma PinUpdateTouchesOnlyItsBit(ext: seq<Exchange>, reg: byte, bit: byte, v: int,
                                   wrap: Error -> Error, err: Option<Error>)
    requires IsPinUpdate(ext, reg, r => SetBit(r, bit, v), wrap, err)
    ensures RmwRead(ext, reg).1.Some? ==>
      err.Some? && |ext| <= 2 && ext[0].op == WriteOp([reg]) &&
      forall i :: 1 <= i < |ext| ==> ext[i].op == ReadOp(1)
    ensures RmwRead(ext, reg).1.None? ==>
      var (r, w) := (RmwRead(ext, reg).0, RmwWritten(ext, reg));
      |ext| == 3 && ext[2].op == WriteOp([reg, w]) &&
      (bit < 8 ==> (IsSet(w, bit) <==> v != 0)) &&
      (forall other :: other != bit ==> IsSet(w, other) == IsSet(r, other)) &&
      err == WriteResult(ext[2..])
  {
    var j := ReadSpan(ext);
    assert ext[..j][0] == ext[0];
    if RmwRead(ext, reg).1.None? {
      assert ext[..j][1] == ext[1];
      assert ext[2].op.data == [reg, RmwWritten(ext, reg)];
    }
  }

  class Device<S> {
    var Address: byte
    var Path: string
    var bus: Bus<S>

    /** NewDevice: bind a device address to an already open transport. */
    constructor (file: Bus<S>, addr: byte)
      ensures Address == addr && Path == file.name && bus == file
    {
      Address := addr;
      Path := file.name;
      bus := file;
    }

    /** Init with the outcomes of its OS calls as parameters: `file` is the
        file the open of Path produced (null when it failed) and `bindFailed`
        whether the I2C_SLAVE ioctl failed. The opened file always replaces
        the bus. Errors of the initialisation writes are discarded. */
    method Init(file: Bus?<S>, bindFailed: bool) returns (err: Option<Error>)
      requires file != null ==> file.Valid()
      modifies this, file
      ensures Address == old(Address) && Path == old(Path)
      ensures file == null ==> err == Some(OpenFailed) && bus == old(bus)
      ensures file != null ==> bus == file && bus.Valid() && old(file.Log) <= bus.Log
      ensures file != null && bindFailed ==> err == Some(BindFailed) && bus.Log == old(file.Log)
      ensures file != null && !bindFailed ==> err == None && OpsOf(bus.Log[|old(file.Log)|..]) == InitWrites
    {
      if file == null {
        return Some(OpenFailed);
      }
      bus := file;
      if bindFailed {
        return Some(BindFailed);
      }
      DriverInit();
      return None;
    }

    /** driverInit: the seven initialisation writes, in order, whatever each returns. */
    method DriverInit()
      requires bus.Valid()
      modifies bus
      ensures bus.Valid() && old(bus.Log) <= bus.Log
      ensures OpsOf(bus.Log[|old(bus.Log)|..]) == InitWrites
    {
      ghost var l0 := bus.Log;
      var _ := WriteByteData(IOCON, 0x22);
      ghost var l1 := bus.Log;
      var _ := SetPortMode(PortA, Input);
      ghost var l2 := bus.Log;
      var _ := SetPortMode(PortB, Input);
      ghost var l3 := bus.Log;
      var _ := SetPortPullup(PortA, PullupDisabled);
      ghost var l4 := bus.Log;
      var _ := SetPortPullup(PortB, PullupDisabled);
      ghost var l5 := bus.Log;
      var _ := SetPortPolarity(PortA, PolarityNormal);
      ghost var l6 := bus.Log;
      var _ := SetPortPolarity(PortB, PolarityNormal);
      InitOps(l0, l1, l2, l3, l4, l5, l6, bus.Log);
    }

    /** ReadByteData: Write([reg]), then, if that succeeded, Read one byte into
        the same buffer and return it; 0 and an error when either call fails. */
    method ReadByteData(reg: byte) returns (v: byte, err: Option<Error>)
      requires bus.Valid()
      modifies bus
      ensures bus.Valid() && old(bus.Log) <= bus.Log
      ensures IsReadTxn(bus.Log[|old(bus.Log)|..], reg)
      ensures (v, err) == ReadResult(bus.Log[|old(bus.Log)|..], reg)
    {
      var buf := new byte[1];
      buf[0] := reg;
      var n, failed := bus.Write(buf);
      if failed {
        return 0, Some(AddressWriteFailed(n));
      }
      n, failed := bus.Read(buf);
      if failed {
        return 0, Some(ReadFailed);
      }
      return buf[0], None;
    }

    /** WriteByteData: one Write of [reg, value]; its error is returned, the
        count it reports is not checked. */
    method WriteByteData(reg: byte, value: byte) returns (err: Option<Error>)
      requires bus.Valid()
      modifies bus
      ensures bus.Valid() && old(bus.Log) <= bus.Log
      ensures IsWriteTxn(bus.Log[|old(bus.Log)|..], reg, value)
      ensures err == WriteResult(bus.Log[|old(bus.Log)|..])
    {
      var buf := new byte[2];
      buf[0], buf[1] := reg, value;
      var n, failed := bus.Write(buf);
      if failed {
        return Some(WriteFailed(n));
      }
      return None;
    }

    method SetPortPullup(port: Port, state: byte) returns (err: Option<Error>)
      requires bus.Valid()
      modifies bus
      ensures bus.Valid() && old(bus.Log) <= bus.Log
      ensures IsPortWrite(bus.Log[|old(bus.Log)|..], Pullup, port, state, err)
    {
      if port == PortA {
        err := WriteByteData(GPPUA, state);
      } else if port == PortB {
        err := WriteByteData(GPPUB, state);
      } else {
        err := Some(InvalidPort(port));
      }
    }

    method SetPinPullup(pin: byte, enabledState: byte) returns (err: Option<Error>)
      requires bus.Valid()
      modifies bus
      ensures bus.Valid() && old(bus.Log) <= bus.Log
      ensures var (bit, port) := GetPinPort(pin);
        IsPinUpdate(bus.Log[|old(bus.Log)|..], PinRegister(Pullup, port),
          r => SetBit(r, bit, enabledState as int), e => SetPinFailed(Pullup, e), err)
    {
      ghost var l0 := bus.Log;
      var (bit, port) := GetPinPort(pin);
      var reg: byte;
      if port == PortA {
        reg := GPPUA;
      } else {
        reg := GPPUB;
      }
      var state, e := ReadByteData(reg);
      ghost var l1 := bus.Log;
      if e.Some? {
        assert l1[|l0|..] + [] == l1[|l0|..];
        RmwCompose(l1[|l0|..], [], reg, 0);
        return Some(SetPinFailed(Pullup, e.value));
      }
      state := SetBit(state, bit, enabledState as int);
      err := SetPortPullup(port, state);
      Extend(l0, l1, bus.Log);
      RmwCompose(l1[|l0|..], bus.Log[|l1|..], reg, state);
    }

    method SetPortPolarity(port: Port, pol: byte) returns (err: Option<Error>)
      requires bus.Valid()
      modifies bus
      ensures bus.Valid() && old(bus.Log) <= bus.Log
      ensures IsPortWrite(bus.Log[|old(bus.Log)|..], Polarity, port, pol, err)
    {
      if port == PortA {
        err := WriteByteData(IPOLA, pol);
      } else if port == PortB {
        err := WriteByteData(IPOLB, pol);
      } else {
        err := Some(InvalidPort(port));
      }
    }

    method SetPinPolarity(pin: byte, pol: byte) returns (err: Option<Error>)
      requires bus.Valid()
      modifies bus
      ensures bus.Valid() && old(bus.Log) <= bus.Log
      ensures var (bit, port) := GetPinPort(pin);
        IsPinUpdate(bus.Log[|old(bus.Log)|..], PinRegister(Polarity, port),
          r => SetBit(r, bit, pol as int), e => SetPinFailed(Polarity, e), err)
    {
      ghost var l0 := bus.Log;
      var (bit, port) := GetPinPort(pin);
      var reg: byte;
      if port == PortA {
        reg := IPOLA;
      } else {
        reg := IPOLB;
      }
      var state, e := ReadByteData(reg);
      ghost var l1 := bus.Log;
      if e.Some? {
        assert l1[|l0|..] + [] == l1[|l0|..];
        RmwCompose(l1[|l0|..], [], reg, 0);
        return Some(SetPinFailed(Polarity, e.value));
      }
      err := WriteByteData(reg, SetBit(state, bit, pol as int));
      Extend(l0, l1, bus.Log);
      RmwCompose(l1[|l0|..], bus.Log[|l1|..], reg, SetBit(state, bit, pol as int));
    }

    method SetPortMode(port: Port, mode: byte) returns (err: Option<Error>)
      requires bus.Valid()
      modifies bus
      ensures bus.Valid() && old(bus.Log) <= bus.Log
      ensures IsPortWrite(bus.Log[|old(bus.Log)|..], Direction, port, mode, err)
    {
      if port == PortA {
        err := WriteByteData(IODIRA, mode);
      } else if port == PortB {
        err := WriteByteData(IODIRB, mode);
      } else {
        err := Some(InvalidPort(port));
      }
    }

    method SetPinMode(pin: byte, mode: byte) returns (err: Option<Error>)
      requires bus.Valid()
      modifies bus
      ensures bus.Valid() && old(bus.Log) <= bus.Log
      ensures var (bit, port) := GetPinPort(pin);
        IsPinUpdate(bus.Log[|old(bus.Log)|..], PinRegister(Direction, port),
          r => SetBit(r, bit, mode as int), e => SetPinFailed(Direction, e), err)
    {
      ghost var l0 := bus.Log;
      var (bit, port) := GetPinPort(pin);
      var reg: byte;
      if port == PortA {
        reg := IODIRA;
      } else {
        reg := IODIRB;
      }
      var state, e := ReadByteData(reg);
      ghost var l1 := bus.Log;
      if e.Some? {
        assert l1[|l0|..] + [] == l1[|l0|..];
        RmwCompose(l1[|l0|..], [], reg, 0);
        return Some(SetPinFailed(Direction, e.value));
      }
      err := WriteByteData(reg, SetBit(state, bit, mode as int));
      Extend(l0, l1, bus.Log);
      RmwCompose(l1[|l0|..], bus.Log[|l1|..], reg, SetBit(state, bit, mode as int));
    }

    method WritePort(port: Port, state: byte) returns (err: Option<Error>)
      requires bus.Valid()
      modifies bus
      ensures bus.Valid() && old(bus.Log) <= bus.Log
      ensures IsPortWrite(bus.Log[|old(bus.Log)|..], Gpio, port, state, err)
    {
      if port == PortA {
        err := WriteByteData(GPIOA, state);
      } else if port == PortB {
        err := WriteByteData(GPIOB, state);
      } else {
        err := Some(InvalidPort(port));
      }
    }

    /** ReadPort: the port's GPIO register; 0x00 and an error for a value that
        is not a port. */
    method ReadPort(port: Port) returns (v: byte, err: Option<Error>)
      requires bus.Valid()
      modifies bus
      ensures bus.Valid() && old(bus.Log) <= bus.Log
      ensures IsPortRead(bus.Log[|old(bus.Log)|..], port, v, err)
    {
      if port == PortA {
        v, err := ReadByteData(GPIOA);
      } else if port == PortB {
        v, err := ReadByteData(GPIOB);
      } else {
        v, err := 0x00, Some(InvalidPort(port));
      }
    }

    /** WritePin: read the port, set the pin's bit, write the port back. The
        error of a failed read names the bit index, which shadows the pin. */
    method WritePin(pin: byte, state: byte) returns (err: Option<Error>)
      requires bus.Valid()
      modifies bus
      ensures bus.Valid() && old(bus.Log) <= bus.Log
      ensures var (bit, port) := GetPinPort(pin);
        IsPinUpdate(bus.Log[|old(bus.Log)|..], PinRegister(Gpio, port),
          r => SetBit(r, bit, state as int), e => WritePinFailed(bit, e), err)
    {
      ghost var l0 := bus.Log;
      var (bit, port) := GetPinPort(pin);
      ghost var reg := PinRegister(Gpio, port);
      var portState, e := ReadPort(port);
      ghost var l1 := bus.Log;
      if e.Some? {
        assert l1[|l0|..] + [] == l1[|l0|..];
        RmwCompose(l1[|l0|..], [], reg, 0);
        return Some(WritePinFailed(bit, e.value));
      }
      var newState := SetBit(portState, bit, state as int);
      err := WritePort(port, newState);
      Extend(l0, l1, bus.Log);
      RmwCompose(l1[|l0|..], bus.Log[|l1|..], reg, newState);
    }

    /** ReadPin: the pin's bit of its port's GPIO register, and the read's
        error; 0 when the read failed. */
    method ReadPin(pin: byte) returns (s: byte, err: Option<Error>)
      requires bus.Valid()
      modifies bus
      ensures bus.Valid() && old(bus.Log) <= bus.Log
      ensures var (bit, port) := GetPinPort(pin); var ext := bus.Log[|old(bus.Log)|..];
        IsReadTxn(ext, PinRegister(Gpio, port)) &&
        s == GetBit(ReadResult(ext, PinRegister(Gpio, port)).0, bit) &&
        err == ReadResult(ext, PinRegister(Gpio, port)).1
      ensures err.Some? ==> s == 0
    {
      var (bit, port) := GetPinPort(pin);
      var portState, e := ReadPort(port);
      return GetBit(portState, bit), e;
    }
  }
}
