# MCP23017 GPIO expander driver, modelled in Dafny

This project models the driver for the MCP23017, a 16-pin GPIO expander that
is reached over I2C. It captures how the driver turns port and pin operations
into register reads and writes. The driver exists in two revisions, and both
are modelled:

- the current package `iopi` (`iopi.go`);
- the older stand-alone program (`main.go`).

The fake file that the package's tests use as a spy (`test_utils.go`) is
modelled too.

Modules:

- `Transport` models the transport, a `Write`/`Read` pair on byte slices, as
  the class `Bus`.
  - Every call is appended, with its answer, to the call log `Log`.
  - The other end of the wire is a deterministic peer. It is given as a step
    function and a state.
  - `Valid()` says that the log is the peer's own transcript.
  - Go's `copy` into the read buffer is the pure function `Copy`.
- `Registers`:
  - the MCP23017 register map with IOCON.BANK = 0 (IODIRA/B, IPOLA/B, IOCON,
    GPPUA/B, GPIOA/B);
  - the mode, polarity and pull-up values;
  - the errors the driver returns. Go's error strings are replaced by the
    `Error` datatype, and a nil error is `None`.
- `Transactions` states the two register transactions as shapes of the calls
  an operation appends to the log:
  - `ReadByteData`: a `Write([reg])`, then a one-byte `Read` only if that
    write did not fail;
  - `WriteByteData`: one `Write([reg, value])`;
  - the read-modify-write of the pin operations;
  - the seven board-initialisation writes.
- `Iopi` covers `iopi.go`:
  - `SetBit`, `GetBit`, `GetPinPort`;
  - the class `Device`, whose methods are proved to append exactly those
    shapes. Pin results are stated relative to the byte the read returned.
- `Legacy` covers `main.go`: `setBit`, `getBit`, `translatePin` and the class
  `I2CDevice`. This includes the `SetPinPullup` that ignores its `state`
  argument.
- `Spy` covers `test_utils.go`:
  - the class `FakeFile`, with an `array` buffer and a call history. Each
    recorded call keeps the caller's own array, with the aliasing the source
    has.
  - `FakeStep`, the same behaviour as a pure peer for `Bus`. The `Read` and
    `Write` methods of `FakeFile` are proved to do what `FakeStep` says.
- `IopiTest` contains the two scenarios of `iopi_test.go`. In each, a
  `Device` runs over a `Bus` whose peer is `FakeStep`, started from a fresh
  `FakeFile`'s buffer.

Parameters stand in for the OS:

- The `Init` methods take the outcome of opening the device and of the
  `I2C_SLAVE` ioctl as parameters.
  - `file` is the opened file, or null when the open fails.
  - `bindFailed` says whether the ioctl failed.
- Go's `uint8` arithmetic is `bv8` arithmetic. Pin 0 therefore maps to bit
  255, and `1 << bit` is 0 for bit indices of 8 or more.

### Short transfers

Neither revision checks the count that `Write` or `Read` returns. Only the
returned error is checked, so a short transfer is not an error:

- `WriteResult` fails only when the write reported an error.
- A read that succeeds but delivers no bytes leaves the register address in
  the buffer, so `ReadByteData` returns that address (`ReadResult`).

The transport interface at iopi.go:66-70 embeds `io.Writer`, whose contract
requires a non-nil error whenever fewer bytes than given are written. With
`*os.File`, and with `FakeFile` for writes of at most two bytes (every write
the driver makes), a short write is still an error. A longer write to
`FakeFile` returns fewer bytes and no error (`FakeShortWrite`), and only a
short read passes silently. `Bus` admits peers that break the rule, so the
model covers those transports too.

## Model

| member | source | states |
|---|---|---|
| Transport.Copy | test_utils.go:46 | Go's `copy(dst, src)`: the result has the length of `dst`. Its first min(len dst, len src) bytes come from `src`, and the rest are those of `dst`. |
| Transport.Bus.constructor | iopi.go:66-70 | A transport whose peer starts in `s0`, with an empty log and the given name. |
| Transport.Bus.Write | iopi.go:66-70 | One `Write(b)`. It appends exactly one call, carrying b's bytes, with the peer's answer. The count and error returned are that answer. The log stays the peer's transcript. |
| Transport.Bus.Read | iopi.go:66-70 | One `Read(b)` with len(b) as its size. It appends exactly one call, and `b` becomes `copy(b, answer)`. The count and error returned are the peer's. |
| Registers.Register | iopi.go:19-27 | The A and B register of each kind (direction 0x00/0x01, polarity 0x02/0x03, pull-up 0x0C/0x0D, GPIO 0x12/0x13). There is a register exactly when the port is PortA or PortB, which is the `default:` error branch of the port switches. |
| Registers.RegisterMapIsInjective | iopi.go:19-27 | Distinct (kind, port) pairs have distinct registers. None of them is IOCON, and port B's register is port A's plus one (the BANK = 0 layout). |
| Registers.PinRegister | iopi.go:182-187 | A pin operation's register: on PortA or PortB it is that port's register of the kind. |
| Transactions.ReadResult | iopi.go:127-146 | What ReadByteData returns from the calls it made. It returns an error exactly when one of those calls failed, and then the byte is 0. Otherwise both calls were made, and the byte is the first byte delivered, or `reg` if nothing was delivered. |
| Transactions.WriteResult | iopi.go:151-164 | WriteByteData returns an error exactly when its one Write failed. The count is not checked. |
| Transactions.RmwCompose | iopi.go:189-196 | A read transaction followed by a write of `value` to the same register, made only if the read succeeded, is a read-modify-write that read what the read returned and wrote `value`. |
| Transactions.InitWritesOnTheWire | iopi.go:107-117 | The seven initialisation writes are the pairs [0x0A,0x22], [0x00,0xFF], [0x01,0xFF], [0x0C,0x00], [0x0D,0x00], [0x02,0x00], [0x03,0x00], in this order. |
| Transactions.InitOps | iopi.go:110-116 | Seven single writes in a row, with the registers and values of the initialisation, make up exactly the initialisation sequence. |
| Iopi.SetBit | iopi.go:316-322 | For bit < 8, the result has that bit set iff value != 0. Every other bit is unchanged. For bit >= 8 the byte is returned unchanged. |
| Iopi.GetBit | iopi.go:325-331 | 1 when the bit is set and 0 otherwise, so only 0 or 1. It is always 0 when bit >= 8. |
| Iopi.GetBitOfSetBit | iopi.go:316-331 | For bit < 8, GetBit(SetBit(b, bit, v), bit) is 1 iff v != 0, and 0 otherwise. |
| Iopi.SetBitIdempotent | iopi.go:316-322 | SetBit applied twice with the same arguments equals SetBit applied once. |
| Iopi.SetBitOfGetBit | iopi.go:316-331 | Setting a bit to the value GetBit reports for it gives back the same byte. |
| Iopi.SetBitKeepsOtherBits | iopi.go:316-331 | SetBit on one bit does not change what GetBit reports for any other bit. |
| Iopi.GetPinPort | iopi.go:300-306 | Pins 1..8 map to (p-1, PortA) and 9..16 to (p-9, PortB); pin 0 wraps to (255, PortA). The port is always A or B, and it is B iff the pin is above 8. The bit is < 8 iff the pin is in 1..16. |
| Iopi.GetPinPortIsBijective | iopi.go:299-306 | GetPinPort is a bijection between pins 1..16 and the sixteen pairs (bit < 8, port A or B). |
| Iopi.PinUpdateTouchesOnlyItsBit | iopi.go:179-297 | In a pin operation that updates with SetBit(_, bit, v), a failed read makes no write and returns an error. Otherwise exactly one write goes to the register that was read. The written byte has `bit` set iff v != 0, and every other bit as it was read. |
| Iopi.Device.constructor | iopi.go:75-84 | NewDevice: the address, the transport, and the transport's name as the path. |
| Iopi.Device.Init | iopi.go:88-105 | A failed open returns an error and keeps the old transport. Otherwise the opened file always becomes the bus. A failed bind then returns an error with no transport call. Otherwise the seven initialisation writes are made and nil is returned. |
| Iopi.Device.DriverInit | iopi.go:107-117 | The calls appended are exactly the seven initialisation writes, in order, whatever each returns. |
| Iopi.Device.ReadByteData | iopi.go:127-146 | One address write of [reg] and then, only if it succeeded, one 1-byte read. The result is the ReadResult of those calls. |
| Iopi.Device.WriteByteData | iopi.go:151-164 | Exactly one Write of [reg, value], and the error is that Write's. |
| Iopi.Device.SetPortPullup | iopi.go:167-176 | One write of the value to GPPUA/GPPUB. For any other port value: an invalid-port error and no call. |
| Iopi.Device.SetPinPullup | iopi.go:179-197 | Read the pin's pull-up register as r. If that read fails, return a wrapped error and write nothing. Otherwise write SetBit(r, bit, enabledState) back to the same register and return that write's error. |
| Iopi.Device.SetPortPolarity | iopi.go:201-210 | One write of the value to IPOLA/IPOLB. For any other port value: an invalid-port error and no call. |
| Iopi.Device.SetPinPolarity | iopi.go:213-229 | A read-modify-write of the pin's polarity register that writes SetBit(r, bit, pol), or only the failed read. |
| Iopi.Device.SetPortMode | iopi.go:232-241 | One write of the value to IODIRA/IODIRB. For any other port value: an invalid-port error and no call. |
| Iopi.Device.SetPinMode | iopi.go:244-260 | A read-modify-write of the pin's direction register that writes SetBit(r, bit, mode), or only the failed read. |
| Iopi.Device.WritePort | iopi.go:263-272 | One write of the value to GPIOA/GPIOB. For any other port value: an invalid-port error and no call. |
| Iopi.Device.ReadPort | iopi.go:276-285 | A read of GPIOA/GPIOB. For any other port value: 0x00, an invalid-port error and no call. |
| Iopi.Device.WritePin | iopi.go:288-297 | Read the port's GPIO register as r, then write SetBit(r, bit, state) through WritePort. A failed read gives an error that carries the bit index and makes no write. |
| Iopi.Device.ReadPin | iopi.go:309-313 | One read of the pin's GPIO register, returning GetBit of the byte read and the read's error. When the read fails the result is 0. |
| Legacy.SetBit | main.go:293-299 | setBit is the current revision's SetBit. |
| Legacy.GetBit | main.go:302-308 | getBit is the current revision's GetBit. |
| Legacy.TranslatePin | main.go:277-283 | translatePin is the current revision's GetPinPort, pin 0 wrapping to bit 255 included. |
| Legacy.PullupWrittenIgnoresState | main.go:168-173 | The byte SetPinPullup writes back after reading r is 0 when r is 0. Otherwise it is r with the pin's bit set. The caller's state plays no part. |
| Legacy.PullupDivergesFromCurrentRevision | main.go:158-173 | Two inputs on which the older SetPinPullup writes a byte the current revision does not. Pin 7 with state 0xFF over 0x00: 0x00 instead of 0x40. Pin 2 with state 0x00 over 0x01: 0x03 instead of 0x01. |
| Legacy.I2CDevice.FromPath | main.go:54-63 | NewI2CDevice with a path: the address and path are set and there is no file yet. |
| Legacy.I2CDevice.FromFile | main.go:54-67 | NewI2CDevice with an open file: the file is shared and its name becomes the path. |
| Legacy.I2CDevice.Init | main.go:74-102 | The file is opened only if none was supplied, and a failed open is an error. A failed bind is an error with no transport call. Otherwise the seven initialisation writes are made and nil is returned. |
| Legacy.I2CDevice.BoardInit | main.go:91-101 | The calls appended are exactly the seven initialisation writes, in order, whatever each returns. |
| Legacy.I2CDevice.ReadByteData | main.go:112-128 | An address write of [reg], then a 1-byte read only if it succeeded. The result is the ReadResult of those calls. |
| Legacy.I2CDevice.WriteByteData | main.go:133-143 | Exactly one Write of [reg, value], and the error is that Write's. |
| Legacy.I2CDevice.SetPortPullups | main.go:146-155 | One write to GPPUA/GPPUB. For any other port value: an invalid-port error and no call. |
| Legacy.I2CDevice.SetPinPullup | main.go:158-174 | As written: a read-modify-write of the pin's pull-up register that writes setBit(r, bit, r), or only the failed read. |
| Legacy.I2CDevice.SetPortPolarity | main.go:178-187 | One write to IPOLA/IPOLB. For any other port value: an invalid-port error and no call. |
| Legacy.I2CDevice.SetPinPolarity | main.go:190-206 | A read-modify-write of the pin's polarity register that writes setBit(r, bit, pol), or only the failed read. |
| Legacy.I2CDevice.SetPortDirection | main.go:209-218 | One write to IODIRA/IODIRB. For any other port value: an invalid-port error and no call. |
| Legacy.I2CDevice.SetPinDirection | main.go:221-237 | A read-modify-write of the pin's direction register that writes setBit(r, bit, mode), or only the failed read. |
| Legacy.I2CDevice.WritePort | main.go:240-249 | One write to GPIOA/GPIOB. For any other port value: an invalid-port error and no call. |
| Legacy.I2CDevice.ReadPort | main.go:253-262 | A read of GPIOA/GPIOB. For any other port value: 0x00, an invalid-port error and no call. |
| Legacy.I2CDevice.WritePin | main.go:265-274 | Read the port's GPIO register as r, then write setBit(r, bit, state) with the int-typed state. A failed read makes no write. |
| Legacy.I2CDevice.ReadPin | main.go:286-290 | One read of the pin's GPIO register, returning getBit of the byte read (0 or 1) and the read's error. When the read fails the result is 0. |
| Spy.FakeStep | test_utils.go:43-57 | As a peer, a write copies into the front of the buffer and keeps the rest. A read delivers the buffer and leaves it unchanged. Both report min(len b, len Buf) and never fail. |
| Spy.FakeShortWrite | test_utils.go:50-57 | A write never fails, and it reports fewer bytes than given exactly when it is longer than the buffer (two bytes in NewFakeFile); a write that fits reports its full length. |
| Spy.FakeEcho | test_utils.go:43-57 | On a fresh fake, Write([r]) and then a 1-byte Read deliver r, and the buffer is left as [r, 0x00]. |
| Spy.FakeFile.constructor | test_utils.go:16-20 | NewFakeFile: Buf is two zero bytes and the history is empty. |
| Spy.FakeFile.RecordCall | test_utils.go:27-30 | Appends exactly one Call{fn, arg}, with the caller's array itself and not a copy. |
| Spy.FakeFile.HasCall | test_utils.go:34-41 | True iff some recorded call has the same name and the same bytes now. The recorded slice is the caller's own, so later writes to it count. The history is not modified. |
| Spy.FakeFile.Read | test_utils.go:43-48 | One call, "Read" with b itself, is recorded. Then b becomes copy(b, Buf), Buf is unchanged and the count is min(len b, len Buf), with no error. This is FakeStep's read. |
| Spy.FakeFile.Write | test_utils.go:50-57 | One call, "Write" with b itself, is recorded. Then Buf becomes copy(Buf, b) and the count is min(len b, len Buf), with no error. This is FakeStep's write. |
| Spy.FakeFile.Reset | test_utils.go:71-75 | Every byte of Buf is 0 and its length is kept. The history is unchanged. |
| Spy.FakeFileAccessors | test_utils.go:59-69 | Close returns nil, Fd returns 0 and Name returns "fake". |
| Spy.EchoOnFreshFake | test_utils.go:16-57 | With the FakeFile class itself: a fresh fake written with [r] and read into one byte delivers r and keeps [r, 0x00]. It has recorded "Write" then "Read", and HasCall finds the write. |
| IopiTest.TestWrite | iopi_test.go:8-23 | After a stray Read of [0x12], WriteByteData(0x42, 0x11) succeeds. The fake's buffer, which is the `Bus` state under `FakeStep` and not the `FakeFile` object used only for its initial buffer and name, is left as [0x42, 0x11]. |
| IopiTest.ReadOnFreshFake | iopi_test.go:31-41 | Over the fake, ReadByteData(reg) succeeds and returns reg itself. The fake's buffer, which is the `Bus` state under `FakeStep`, is then [reg, 0x00]. The calls are [Write([reg]), Read(1 byte)], and the path is "fake". |
| IopiTest.TestRead | iopi_test.go:26-42 | ReadByteData(0x42) succeeds and leaves the fake's buffer, which is the `Bus` state under `FakeStep`, as [0x42, 0x00]. |

## Left out

- Locking with `sync.Mutex` (iopi.go:63, 131-132, 155-156) is not modelled. The model is sequential, so a lock taken around each single call cannot be observed. The race between a pin operation's read and its write is likewise out of scope.
- Opening the device file and the `I2C_SLAVE` ioctl are OS calls. Their outcomes are parameters of `Init`, and the address given to the ioctl is not modelled.
- Iopi.Device.Init: the current revision always reopens `Path` and discards any transport given to NewDevice. The model records this, with the opened file becoming the bus. Whether that file is the same device cannot be stated.
- The text of the `fmt.Errorf` messages and `Call.String`'s hex formatting are not modelled. Errors are the `Error` datatype.
  - HasCall compares the name and the bytes. Apart from one case, this is what comparing the printed forms amounts to. `%02x` pads an empty slice to "00", so an empty argument prints like the single byte 0x00, and the model tells the two apart. The driver never records an empty slice, so this does not change any driver-level statement.
- `Close` of `Device` and of `I2CDevice` only pass on the transport's `Close`. The transport in this model has no close, so they are not modelled.
- The `main()` polling loop with its printing and `time.Sleep` (main.go:310-351) and the LED demo program are not modelled. They are demonstration code.
- NewI2CDevice given a value of any other type leaves the device with no path and no file (main.go:60-67). This gives `FromPath` with an empty path, so it is not modelled as a separate constructor.
- Legacy.I2CDevice methods other than Init require an open file. In Go a nil `*os.File` makes each `Write` and `Read` return `ErrInvalid` with 0 bytes, so every transaction on a device built from a path would fail before Init without any I/O. The model does not cover that path. `main()` always calls Init first and panics if it fails.
- The transport's `Fd` is used only for the ioctl, so it is not part of `Bus`.
- The Go tests call `NewDevice(file, 0x20)` with two arguments, which is one fewer than iopi.go:75 takes. IopiTest states their assertions and does not model that call's mutex argument.

## Findings

| source | as written | input that shows it | evidently intended | confidence | as-written member | corrected member |
|---|---|---|---|---|---|---|
| main.go:168-173 | `state, err := dev.ReadByteData(reg)` overwrites the parameter `state` with the register's byte r, and setBit(r, bit, int(r)) is written back | SetPinPullup(7, 0xFF) over a pull-up register that reads 0x00 writes 0x00, where enabling pin 7 should write 0x40 | write setBit(r, bit, int(state)) with the caller's state, as iopi.go:189-196 does | not executed | Legacy.I2CDevice.SetPinPullup | Iopi.Device.SetPinPullup |
