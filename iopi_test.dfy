/**
  The two scenarios of iopi_test.go, run against the fake file: the current
  revision's Device over a transport whose peer is `Spy.FakeStep`, starting
  from a fresh FakeFile's buffer and named by its Name().
*/
module IopiTest {
  import opened Wrappers
  import opened Transport
  import opened Registers
  import opened Spy
  import opened Iopi

  /** TestWrite: after a stray one-byte Read of [0x12], WriteByteData(0x42,
      0x11) succeeds and leaves the fake's buffer as [0x42, 0x11]. */
  method TestWrite() returns (err: Option<Error>, buf: seq<byte>, ops: seq<Op>)
    ensures err == None && buf == [0x42, 0x11]
    ensures ops == [ReadOp(1), WriteOp([0x42, 0x11])]
  {
    var fake := new FakeFile();
    var file := new Bus(FakeStep, fake.Buf[..], fake.Name());
    var dev := new Device(file, 0x20);
    var stray := new byte[1];
    stray[0] := 0x12;
    var _, _ := file.Read(stray);
    err := dev.WriteByteData(0x42, 0x11);
    buf, ops := file.state, OpsOf(file.Log);
    assert ops[..1] == [ReadOp(1)] && ops[..0] == [];
    assert file.step == FakeStep;
    assert Run(file.step, [0, 0], ops[..1]).0 == [0, 0];
    assert FakeStep([0, 0], WriteOp([0x42, 0x11])).0 == [0x42, 0x11];
  }

  /** ReadByteData(reg) on a fresh fake: the address write puts reg in the
      buffer's first byte and the one-byte read returns it, so the byte read
      is reg itself and the buffer is [reg, 0x00]. */
  method ReadOnFreshFake(reg: byte) returns (v: byte, err: Option<Error>, buf: seq<byte>, ops: seq<Op>, path: string)
    ensures err == None && v == reg && buf == [reg, 0x00]
    ensures ops == [WriteOp([reg]), ReadOp(1)]
    ensures path == "fake"
  {
    var fake := new FakeFile();
    var file := new Bus(FakeStep, fake.Buf[..], fake.Name());
    var dev := new Device(file, 0x20);
    v, err := dev.ReadByteData(reg);
    buf, ops, path := file.state, OpsOf(file.Log), dev.Path;
    assert ops[..1] == [WriteOp([reg])] && ops[..0] == [];
    assert file.step == FakeStep;
    assert FakeStep([0, 0], WriteOp([reg])).0 == [reg, 0];
    assert Run(file.step, [0, 0], ops[..1]).0 == [reg, 0];
  }

  /** TestRead: ReadByteData(0x42) first writes the register address, so the
      fake's buffer becomes [0x42, 0x00]. */
  method TestRead() returns (err: Option<Error>, buf: seq<byte>)
    ensures err == None && buf == [0x42, 0x00]
  {
    var _, e, b, _, _ := ReadOnFreshFake(0x42);
    err, buf := e, b;
  }
}
