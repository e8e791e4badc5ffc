/**
  The older revision of the driver (main.go): the same bit and pin
  addressing, and an `I2CDevice` over an `*os.File` that is either supplied or
  opened by Init from a path. Its SetPinPullup differs from the current
  revision: the register read overwrites the caller's `state`.
*/
module Legacy {
  import opened Wrappers
  import opened Transport
  import opened Registers
  import opened Transactions
  import Iopi

  /** setBit has the bit semantics of the current revision's SetBit. */
  function SetBit(byt: byte, bit: byte, value: int): (r: byte)
    ensures r == Iopi.SetBit(byt, bit, value)
  {
    if value == 0 then byt & !Iopi.Mask(bit) else byt | Iopi.Mask(bit)
  }

  /** getBit has the bit semantics of the current revision's GetBit. */
  function GetBit(byt: byte, bit: byte): (r: byte)
    ensures r == Iopi.GetBit(byt, bit)
  {
    if byt & Iopi.Mask(bit) > 0 then 1 else 0
  }

  /** translatePin is the current revision's GetPinPort. */
  function TranslatePin(pin: byte): (r: (byte, Port))
    ensures r == Iopi.GetPinPort(pin)
  {
    if pin > 8 then (pin - 1 - 8, PortB) else (pin - 1, PortA)
  }

  /** The byte SetPinPullup writes back after reading `r` from the register:
      setBit(r, bit, int(r)). The caller's state plays no part. */
  function PullupWritten(r: byte, bit: byte): byte
  {
    SetBit(r, bit, r as int)
  }

  /** A register that read 0 is written back as 0; any other value is written
      back with the pin's bit set. */
  lemma PullupWrittenIgnoresState(r: byte, bit: byte)
    ensures PullupWritten(r, bit) == if r == 0 then 0 else r | Iopi.Mask(bit)
    ensures r == 0 ==> forall other :: !Iopi.IsSet(PullupWritten(r, bit), other)
    ensures r != 0 ==> Iopi.IsSet(PullupWritten(r, bit), bit) == (bit < 8)
  {
  }

  /** Two inputs on which the as-written SetPinPullup writes a byte other than
      the one the current revision writes: enabling pin 7 over a register that
      reads 0x00, and disabling pin 2 over a register that reads 0x01. */
  lemma PullupDivergesFromCurrentRevision()
    ensures PullupWritten(0x00, TranslatePin(7).0) == 0x00
    ensures Iopi.SetBit(0x00, Iopi.GetPinPort(7).0, PullupEnabled as int) == 0x40
    ensures PullupWritten(0x01, TranslatePin(2).0) == 0x03
    ensures Iopi.SetBit(0x01, Iopi.GetPinPort(2).0, PullupDisabled as int) == 0x01
  {
  }

  class I2CDevice<S> {
    var Address: byte
    var Path: string
    /** The open file, or null until Init opens `Path`. */
    var bus: Bus?<S>

    /** NewI2CDevice given a path: no file yet. */
    constructor FromPath(path: string, addr: byte)
      ensures Address == addr && Path == path && bus == null
    {
      Address := addr;
      Path := path;
      bus := null;
    }

    /** NewI2CDevice given an open file: share it and take its name as the path. */
    constructor FromFile(file: Bus<S>, addr: byte)
      ensures Address == addr && Path == file.name && bus == file
    {
      Address := addr;
      Path := file.name;
      bus := file;
    }

    /** Init with the outcomes of its OS calls as parameters: `file` is what
        opening Path would produce (null when the open fails), used only when
        no file was supplied, and `bindFailed` whether the I2C_SLAVE ioctl
        failed. Once bound, the board is initialised and nil is returned. */
    method Init(file: Bus?<S>, bindFailed: bool) returns (err: Option<Error>)
      requires bus != null ==> bus.Valid()
      requires bus == null && file != null ==> file.Valid()
      modifies this, bus, if bus == null then {file} else {}
      ensures Address == old(Address) && Path == old(Path)
      ensures old(bus) != null ==> bus == old(bus)
      ensures old(bus) == null ==> bus == file
      ensures bus == null ==> err == Some(OpenFailed)
      ensures bus != null ==>
        var before := if old(bus) != null then old(bus.Log) else old(file.Log);
        bus.Valid() && before <= bus.Log &&
        (bindFailed ==> err == Some(BindFailed) && bus.Log == before) &&
        (!bindFailed ==> err == None && OpsOf(bus.Log[|before|..]) == InitWrites)
    {
      if bus == null {
        if file == null {
          return Some(OpenFailed);
        }
        bus := file;
      }
      if bindFailed {
        return Some(BindFailed);
      }
      BoardInit();
      return None;
    }

    /** The board initialisation of Init: the seven writes, in order, whatever
        each returns. */
    method BoardInit()
      requires bus != null && bus.Valid()
      modifies bus
      ensures bus.Valid() && old(bus.Log) <= bus.Log
      ensures OpsOf(bus.Log[|old(bus.Log)|..]) == InitWrites
    {
      ghost var l0 := bus.Log;
      var _ := WriteByteData(IOCON, 0x22);
      ghost var l1 := bus.Log;
      var _ := SetPortDirection(PortA, Input);
      ghost var l2 := bus.Log;
      var _ := SetPortDirection(PortB, Input);
      ghost var l3 := bus.Log;
      var _ := SetPortPullups(PortA, 0x00);
      ghost var l4 := bus.Log;
      var _ := SetPortPullups(PortB, 0x00);
      ghost var l5 := bus.Log;
      var _ := SetPortPolarity(PortA, PolarityNormal);
      ghost var l6 := bus.Log;
      var _ := SetPortPolarity(PortB, PolarityNormal);
      InitOps(l0, l1, l2, l3, l4, l5, l6, bus.Log);
    }

    /** ReadByteData: Write([reg]), then, if that succeeded, Read one byte into
        the same buffer and return it; 0 and an error when either call fails. */
    method ReadByteData(reg: byte) returns (v: byte, err: Option<Error>)
      requires bus != null && bus.Valid()
      modifies bus
      ensures bus.Valid() && old(bus.Log) <= bus.Log
      ensures IsReadTxn(bus.Log[|old(bus.Log)|..], reg)
      ensures (v, err) == ReadResult(bus.Log[|old(bus.Log)|..], reg)
    {
      var buf := new byte[1];
      buf[0] := reg;
      var n, failed := bus.Write(buf);
      if failed {
        return 0, Some(AddressWriteFailed(n));
      }
      n, failed := bus.Read(buf);
      if failed {
        return 0, Some(ReadFailed);
      }
      return buf[0], None;
    }

    /** WriteByteData: one Write of [reg, value]; its error is returned, the
        count it reports is not checked. */
    method WriteByteData(reg: byte, value: byte) returns (err: Option<Error>)
      requires bus != null && bus.Valid()
      modifies bus
      ensures bus.Valid() && old(bus.Log) <= bus.Log
      ensures IsWriteTxn(bus.Log[|old(bus.Log)|..], reg, value)
      ensures err == WriteResult(bus.Log[|old(bus.Log)|..])
    {
      var buf := new byte[2];
      buf[0], buf[1] := reg, value;
      var n, failed := bus.Write(buf);
      if failed {
        return Some(WriteFailed(n));
      }
      return None;
    }

    method SetPortPullups(port: Port, state: byte) returns (err: Option<Error>)
      requires bus != null && bus.Valid()
      modifies bus
      ensures bus.Valid() && old(bus.Log) <= bus.Log
      ensures IsPortWrite(bus.Log[|old(bus.Log)|..], Pullup, port, state, err)
    {
      if port == PortA {
        err := WriteByteData(GPPUA, state);
      } else if port == PortB {
        err := WriteByteData(GPPUB, state);
      } else {
        err := Some(InvalidPort(port));
      }
    }

    /** SetPinPullup as written: the read's result takes the place of `state`,
        so the register is written back as PullupWritten(r, bit). */
    method SetPinPullup(pin: byte, state: byte) returns (err: Option<Error>)
      requires bus != null && bus.Valid()
      modifies bus
      ensures bus.Valid() && old(bus.Log) <= bus.Log
      ensures var (bit, port) := TranslatePin(pin);
        IsPinUpdate(bus.Log[|old(bus.Log)|..], PinRegister(Pullup, port),
          r => PullupWritten(r, bit), e => SetPinFailed(Pullup, e), err)
    {
      ghost var l0 := bus.Log;
      var (bit, port) := TranslatePin(pin);
      var reg: byte;
      if port == PortA {
        reg := GPPUA;
      } else {
        reg := GPPUB;
      }
      var state, e := ReadByteData(reg);
      ghost var l1 := bus.Log;
      if e.Some? {
        assert l1[|l0|..] + [] == l1[|l0|..];
        RmwCompose(l1[|l0|..], [], reg, 0);
        return Some(SetPinFailed(Pullup, e.value));
      }
      err := WriteByteData(reg, SetBit(state, bit, state as int));
      Extend(l0, l1, bus.Log);
      RmwCompose(l1[|l0|..], bus.Log[|l1|..], reg, SetBit(state, bit, state as int));
    }

    method SetPortPolarity(port: Port, pol: byte) returns (err: Option<Error>)
      requires bus != null && bus.Valid()
      modifies bus
      ensures bus.Valid() && old(bus.Log) <= bus.Log
      ensures IsPortWrite(bus.Log[|old(bus.Log)|..], Polarity, port, pol, err)
    {
      if port == PortA {
        err := WriteByteData(IPOLA, pol);
      } else if port == PortB {
        err := WriteByteData(IPOLB, pol);
      } else {
        err := Some(InvalidPort(port));
      }
    }

    method SetPinPolarity(pin: byte, pol: byte) returns (err: Option<Error>)
      requires bus != null && bus.Valid()
      modifies bus
      ensures bus.Valid() && old(bus.Log) <= bus.Log
      ensures var (bit, port) := TranslatePin(pin);
        IsPinUpdate(bus.Log[|old(bus.Log)|..], PinRegister(Polarity, port),
          r => SetBit(r, bit, pol as int), e => SetPinFailed(Polarity, e), err)
    {
      ghost var l0 := bus.Log;
      var (bit, port) := TranslatePin(pin);
      var reg: byte;
      if port == PortA {
        reg := IPOLA;
      } else {
        reg := IPOLB;
      }
      var state, e := ReadByteData(reg);
      ghost var l1 := bus.Log;
      if e.Some? {
        assert l1[|l0|..] + [] == l1[|l0|..];
        RmwCompose(l1[|l0|..], [], reg, 0);
        return Some(SetPinFailed(Polarity, e.value));
      }
      err := WriteByteData(reg, SetBit(state, bit, pol as int));
      Extend(l0, l1, bus.Log);
      RmwCompose(l1[|l0|..], bus.Log[|l1|..], reg, SetBit(state, bit, pol as int));
    }

    method SetPortDirection(port: Port, mode: byte) returns (err: Option<Error>)
      requires bus != null && bus.Valid()
      modifies bus
      ensures bus.Valid() && old(bus.Log) <= bus.Log
      ensures IsPortWrite(bus.Log[|old(bus.Log)|..], Direction, port, mode, err)
    {
      if port == PortA {
        err := WriteByteData(IODIRA, mode);
      } else if port == PortB {
        err := WriteByteData(IODIRB, mode);
      } else {
        err := Some(InvalidPort(port));
      }
    }

    method SetPinDirection(pin: byte, mode: byte) returns (err: Option<Error>)
      requires bus != null && bus.Valid()
      modifies bus
      ensures bus.Valid() && old(bus.Log) <= bus.Log
      ensures var (bit, port) := TranslatePin(pin);
        IsPinUpdate(bus.Log[|old(bus.Log)|..], PinRegister(Direction, port),
          r => SetBit(r, bit, mode as int), e => SetPinFailed(Direction, e), err)
    {
      ghost var l0 := bus.Log;
      var (bit, port) := TranslatePin(pin);
      var reg: byte;
      if port == PortA {
        reg := IODIRA;
      } else {
        reg := IODIRB;
      }
      var state, e := ReadByteData(reg);
      ghost var l1 := bus.Log;
      if e.Some? {
        assert l1[|l0|..] + [] == l1[|l0|..];
        RmwCompose(l1[|l0|..], [], reg, 0);
        return Some(SetPinFailed(Direction, e.value));
      }
      err := WriteByteData(reg, SetBit(state, bit, mode as int));
      Extend(l0, l1, bus.Log);
      RmwCompose(l1[|l0|..], bus.Log[|l1|..], reg, SetBit(state, bit, mode as int));
    }

    method WritePort(port: Port, state: byte) returns (err: Option<Error>)
      requires bus != null && bus.Valid()
      modifies bus
      ensures bus.Valid() && old(bus.Log) <= bus.Log
      ensures IsPortWrite(bus.Log[|old(bus.Log)|..], Gpio, port, state, err)
    {
      if port == PortA {
        err := WriteByteData(GPIOA, state);
      } else if port == PortB {
        err := WriteByteData(GPIOB, state);
      } else {
        err := Some(InvalidPort(port));
      }
    }

    /** ReadPort: the port's GPIO register; 0x00 and an error for a value that
        is not a port. */
    method ReadPort(port: Port) returns (v: byte, err: Option<Error>)
      requires bus != null && bus.Valid()
      modifies bus
      ensures bus.Valid() && old(bus.Log) <= bus.Log
      ensures IsPortRead(bus.Log[|old(bus.Log)|..], port, v, err)
    {
      if port == PortA {
        v, err := ReadByteData(GPIOA);
      } else if port == PortB {
        v, err := ReadByteData(GPIOB);
      } else {
        v, err := 0x00, Some(InvalidPort(port));
      }
    }

    /** WritePin: read the port, set the pin's bit from the int-typed PinState,
        write the port back. */
    method WritePin(pin: byte, state: int) returns (err: Option<Error>)
      requires bus != null && bus.Valid()
      modifies bus
      ensures bus.Valid() && old(bus.Log) <= bus.Log
      ensures var (bit, port) := TranslatePin(pin);
        IsPinUpdate(bus.Log[|old(bus.Log)|..], PinRegister(Gpio, port),
          r => SetBit(r, bit, state), e => WritePinFailed(bit, e), err)
    {
      ghost var l0 := bus.Log;
      var (bit, port) := TranslatePin(pin);
      ghost var reg := PinRegister(Gpio, port);
      var portState, e := ReadPort(port);
      ghost var l1 := bus.Log;
      if e.Some? {
        assert l1[|l0|..] + [] == l1[|l0|..];
        RmwCompose(l1[|l0|..], [], reg, 0);
        return Some(WritePinFailed(bit, e.value));
      }
      var newState := SetBit(portState, bit, state);
      err := WritePort(port, newState);
      Extend(l0, l1, bus.Log);
      RmwCompose(l1[|l0|..], bus.Log[|l1|..], reg, newState);
    }

    /** ReadPin: the pin's bit of its port's GPIO register as an int-typed
        PinState, and the read's error; 0 when the read failed. */
    method ReadPin(pin: byte) returns (s: int, err: Option<Error>)
      requires bus != null && bus.Valid()
      modifies bus
      ensures bus.Valid() && old(bus.Log) <= bus.Log
      ensures var (bit, port) := TranslatePin(pin); var ext := bus.Log[|old(bus.Log)|..];
        IsReadTxn(ext, PinRegister(Gpio, port)) &&
        s == GetBit(ReadResult(ext, PinRegister(Gpio, port)).0, bit) as int &&
        err == ReadResult(ext, PinRegister(Gpio, port)).1
      ensures s == 0 || s == 1
      ensures err.Some? ==> s == 0
    {
      var (bit, port) := TranslatePin(pin);
      var portState, e := ReadPort(port);
      return GetBit(portState, bit) as int, e;
    }
  }
}
