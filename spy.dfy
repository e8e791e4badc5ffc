/**
  The fake file of the tests (test_utils.go): a two-byte buffer that Write
  copies into and Read copies out of, and a history of every call with the
  caller's own slice as its argument.

  `FakeStep` is the same behaviour as a peer of the transport
  (`Transport.Bus`), and the methods of `FakeFile` are proved to behave as it
  says, so a driver run over `Bus(FakeStep, [0, 0], "fake")` sees what it
  would see over a fresh FakeFile.
*/
module Spy {
  import opened Wrappers
  import opened Transport
  import opened Registers

  /** The fake file as a peer: what a request does to the buffer and what it
      answers. A write copies into the front of the buffer, a read delivers
      the buffer and leaves it; both report the number of bytes copied and
      never fail. */
  function FakeStep(buf: seq<byte>, op: Op): (r: (seq<byte>, Reply))
    ensures |r.0| == |buf| && !r.1.failed
    ensures op.WriteOp? ==>
      r.1.count == Min(|op.data|, |buf|) &&
      (forall i :: 0 <= i < |buf| ==> r.0[i] == if i < |op.data| then op.data[i] else buf[i])
    ensures op.ReadOp? ==> r.0 == buf && r.1.count == Min(op.size, |buf|) && r.1.data == buf
  {
    match op
    case WriteOp(data) => (Copy(buf, data), Reply(Min(|data|, |buf|), false, []))
    case ReadOp(size) => (buf, Reply(Min(size, |buf|), false, buf))
  }

  /** On a fresh fake, a write of [r] followed by a one-byte read delivers r
      and leaves the buffer as [r, 0x00]. */
  lemma FakeEcho(r: byte)
    ensures var (s1, w) := FakeStep([0, 0], WriteOp([r]));
      var (s2, rd) := FakeStep(s1, ReadOp(1));
      w.count == 1 && s2 == [r, 0] && Copy([0], rd.data) == [r] && rd.count == 1
  {
    var (s1, w) := FakeStep([0, 0], WriteOp([r]));
    assert s1 == [r, 0];
  }

  /** The fake keeps io.Writer's rule only for writes that fit its buffer: a
      write reports fewer bytes than given exactly when it is longer than the
      buffer, and then it still reports no error. */
  lemma FakeShortWrite(buf: seq<byte>, data: seq<byte>)
    ensures var (_, w) := FakeStep(buf, WriteOp(data));
      !w.failed && (w.count < |data| <==> |data| > |buf|) &&
      (|data| <= |buf| ==> w.count == |data|)
  {
  }

  /** One recorded call: the function's name and the caller's slice itself. */
  datatype Call = Call(Fn: string, Arg: array<byte>)

  /** A recorded call has this name and these bytes. Its printed form agrees
      with Call{fn, arg}'s in exactly these cases, except that an empty
      argument and the single byte 0x00 print alike; they differ here. */
  predicate SameCall(c: Call, fn: string, arg: seq<byte>)
    reads c.Arg
  {
    c.Fn == fn && c.Arg[..] == arg
  }

  class FakeFile {
    var Buf: array<byte>
    var CallHistory: seq<Call>

    /** NewFakeFile: a buffer of two zero bytes and no calls. */
    constructor ()
      ensures fresh(Buf) && Buf[..] == [0, 0] && CallHistory == []
    {
      Buf := new byte[2](_ => 0);
      CallHistory := [];
    }

    /** recordCall: append one call to the history. */
    method RecordCall(fn: string, arg: array<byte>)
      modifies this`CallHistory
      ensures CallHistory == old(CallHistory) + [Call(fn, arg)]
    {
      CallHistory := CallHistory + [Call(fn, arg)];
    }

    /** HasCall: some recorded call has this name and, now, these bytes. */
    method HasCall(fn: string, arg: array<byte>) returns (found: bool)
      ensures found <==> exists i :: 0 <= i < |CallHistory| && SameCall(CallHistory[i], fn, arg[..])
    {
      var i := 0;
      while i < |CallHistory|
        invariant 0 <= i <= |CallHistory|
        invariant forall j :: 0 <= j < i ==> !SameCall(CallHistory[j], fn, arg[..])
      {
        if SameCall(CallHistory[i], fn, arg[..]) {
          return true;
        }
        i := i + 1;
      }
      return false;
    }

    /** Read(b): record the call, copy the buffer into `b`, as FakeStep answers. */
    method Read(b: array<byte>) returns (n: int, failed: bool)
      modifies this`CallHistory, b
      ensures CallHistory == old(CallHistory) + [Call("Read", b)]
      ensures var (s, reply) := FakeStep(old(Buf[..]), ReadOp(b.Length));
        Buf[..] == s && n == reply.count && failed == reply.failed &&
        b[..] == Copy(old(b[..]), reply.data)
    {
      RecordCall("Read", b);
      var src := Buf[..];
      var delivered := Copy(b[..], src);
      forall i | 0 <= i < b.Length {
        b[i] := delivered[i];
      }
      n, failed := Min(b.Length, |src|), false;
    }

    /** Write(b): record the call, copy `b` into the front of the buffer, as
        FakeStep answers. */
    method Write(b: array<byte>) returns (n: int, failed: bool)
      modifies this`CallHistory, Buf
      ensures CallHistory == old(CallHistory) + [Call("Write", b)]
      ensures var (s, reply) := FakeStep(old(Buf[..]), WriteOp(old(b[..])));
        Buf[..] == s && n == reply.count && failed == reply.failed
    {
      RecordCall("Write", b);
      var src := b[..];
      var stored := Copy(Buf[..], src);
      forall i | 0 <= i < Buf.Length {
        Buf[i] := stored[i];
      }
      n, failed := Min(|src|, Buf.Length), false;
    }

    /** Reset: zero every byte of the buffer; the history is kept. */
    method Reset()
      modifies Buf
      ensures Buf[..] == seq(Buf.Length, _ => 0)
      ensures CallHistory == old(CallHistory)
    {
      var i := 0;
      while i < Buf.Length
        invariant 0 <= i <= Buf.Length
        invariant forall j :: 0 <= j < i ==> Buf[j] == 0
      {
        Buf[i] := 0;
        i := i + 1;
      }
    }

    /** Close: nothing to release; a nil error. */
    function Close(): Option<Error>
    {
      None
    }

    /** Fd: no descriptor. */
    function Fd(): nat
    {
      0
    }

    /** Name: the fake's name, which NewDevice takes as the device's path. */
    function Name(): string
    {
      "fake"
    }
  }

  /** The fake's file accessors: Close returns nil, Fd is 0, Name is "fake". */
  lemma FakeFileAccessors(f: FakeFile)
    ensures f.Close() == None && f.Fd() == 0 && f.Name() == "fake"
  {
  }

  /** A fresh fake written with [r] and then read into a one-byte buffer
      delivers r, keeps [r, 0x00] and has recorded both calls. */
  method EchoOnFreshFake(r: byte) returns (v: byte, buf: seq<byte>, calls: seq<string>, sawWrite: bool)
    ensures v == r && buf == [r, 0] && calls == ["Write", "Read"] && sawWrite
  {
    var f := new FakeFile();
    var b := new byte[1];
    b[0] := r;
    var _, _ := f.Write(b);
    var _, _ := f.Read(b);
    v, buf := b[0], f.Buf[..];
    calls := [f.CallHistory[0].Fn, f.CallHistory[1].Fn];
    sawWrite := f.HasCall("Write", b);
  }
}
