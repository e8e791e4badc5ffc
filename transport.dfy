/**
  The transport the driver talks to (the `ReadWriteCloserSpecial` interface of
  the current revision, the `*os.File` of the older one), as the driver sees it:
  a byte-oriented `Write`/`Read` pair whose answers come from the other side of
  the wire.

  The other side is modelled as a deterministic peer: a hidden state `state`
  and a step function `step` that answers each request and moves to a new
  state. Every request and its answer are appended to `Log`, so an operation of
  the driver can say exactly which calls it made, and a test can run the
  driver against a particular peer (the fake file of the tests, `Spy.FakeStep`).
*/
module Transport {

  type byte = bv8

  /** A request made to the transport. */
  datatype Op =
    | WriteOp(data: seq<byte>)  // Write(b) with b's contents at the time of the call
    | ReadOp(size: nat)         // Read(b) with len(b) == size

  /** The transport's answer: the count it reports, whether it returned an
      error, and (for a read) the bytes it delivers into the caller's buffer. */
  datatype Reply = Reply(count: int, failed: bool, data: seq<byte>)

  /** One call as it went over the wire. */
  datatype Exchange = Exchange(op: Op, reply: Reply)

  function Min(a: int, b: int): int
  {
    if a < b then a else b
  }

  /** The contents of `dst` after Go's `copy(dst, src)`: the first
      min(len dst, len src) bytes come from `src`, the rest of `dst` is kept. */
  function Copy(dst: seq<byte>, src: seq<byte>): (r: seq<byte>)
    ensures |r| == |dst|
    ensures forall i :: 0 <= i < |r| ==> r[i] == if i < |src| then src[i] else dst[i]
  {
    if |src| < |dst| then src + dst[|src|..] else src[..|dst|]
  }

  /** The requests of a log, in order. */
  function OpsOf(log: seq<Exchange>): (ops: seq<Op>)
    ensures |ops| == |log|
    ensures forall i :: 0 <= i < |log| ==> ops[i] == log[i].op
  {
    seq(|log|, i requires 0 <= i < |log| => log[i].op)
  }

  /** The state a peer that starts in `s0` reaches after answering `ops`, and
      the transcript of requests and answers it produces. */
  function Run<S>(step: (S, Op) -> (S, Reply), s0: S, ops: seq<Op>): (S, seq<Exchange>)
    decreases |ops|
  {
    if ops == [] then (s0, [])
    else
      var (s, log) := Run(step, s0, ops[..|ops| - 1]);
      var (s', reply) := step(s, ops[|ops| - 1]);
      (s', log + [Exchange(ops[|ops| - 1], reply)])
  }

  /** Running one more request extends the transcript by that request's answer. */
  lemma {:induction false} RunAppend<S>(step: (S, Op) -> (S, Reply), s0: S, log: seq<Exchange>, s: S, op: Op)
    requires Run(step, s0, OpsOf(log)) == (s, log)
    ensures Run(step, s0, OpsOf(log + [Exchange(op, step(s, op).1)])) == (step(s, op).0, log + [Exchange(op, step(s, op).1)])
  {
    var log' := log + [Exchange(op, step(s, op).1)];
    assert OpsOf(log')[..|log|] == OpsOf(log);
  }

  class Bus<S> {
    /** The name of the transport, Go's `Name()`. */
    const name: string
    /** The peer's behaviour and the state it started in. */
    const step: (S, Op) -> (S, Reply)
    ghost const start: S
    /** The peer's current state. */
    var state: S
    /** Every request made so far, with its answer, in call order. */
    var Log: seq<Exchange>

    /** The log is the transcript of the peer running from its start state. */
    ghost predicate Valid()
      reads this
    {
      Run(step, start, OpsOf(Log)) == (state, Log)
    }

    constructor (step: (S, Op) -> (S, Reply), s0: S, name: string)
      ensures Valid() && Log == [] && state == s0
      ensures this.step == step && start == s0 && this.name == name
    {
      this.name := name;
      this.step := step;
      start := s0;
      state := s0;
      Log := [];
    }

    /** Write(b): the peer answers the bytes of `b`; `n` and the error are its answer. */
    method Write(b: array<byte>) returns (n: int, failed: bool)
      requires Valid()
      modifies this
      ensures Valid()
      ensures state == step(old(state), WriteOp(b[..])).0
      ensures Log == old(Log) + [Exchange(WriteOp(b[..]), step(old(state), WriteOp(b[..])).1)]
      ensures n == Log[|Log| - 1].reply.count && failed == Log[|Log| - 1].reply.failed
    {
      var op := WriteOp(b[..]);
      var (s', reply) := step(state, op);
      RunAppend(step, start, Log, state, op);
      Log := Log + [Exchange(op, reply)];
      state := s';
      n, failed := reply.count, reply.failed;
    }

    /** Read(b): the peer's answer is copied into `b` as Go's `copy` would. */
    method Read(b: array<byte>) returns (n: int, failed: bool)
      requires Valid()
      modifies this, b
      ensures Valid()
      ensures state == step(old(state), ReadOp(b.Length)).0
      ensures Log == old(Log) + [Exchange(ReadOp(b.Length), step(old(state), ReadOp(b.Length)).1)]
      ensures n == Log[|Log| - 1].reply.count && failed == Log[|Log| - 1].reply.failed
      ensures b[..] == Copy(old(b[..]), Log[|Log| - 1].reply.data)
    {
      var op := ReadOp(b.Length);
      var (s', reply) := step(state, op);
      RunAppend(step, start, Log, state, op);
      Log := Log + [Exchange(op, reply)];
      state := s';
      var delivered := Copy(b[..], reply.data);
      forall i | 0 <= i < b.Length {
        b[i] := delivered[i];
      }
      n, failed := reply.count, reply.failed;
    }
  }
}
