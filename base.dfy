/** Machine integers, bytes, errors and the configuration values that the
    session and its streams share. */
module Base {

  const TwoTo32: int := 0x1_0000_0000

  /** A C# `byte`. */
  type byte = x: int | 0 <= x < 0x100

  /** A C# `uint`. */
  type uint32 = x: int | 0 <= x < TwoTo32

  /** A strictly positive `int?` value, the only kind a timeout setter keeps. */
  type posint = x: int | x > 0 witness 1

  datatype Option<+T> = None | Some(value: T)

  /** Success, or the error a C# method would have thrown. */
  datatype Outcome = Pass | Fail(error: Error)

  /** The `SmuxException` messages of the core, plus the
      `OperationCanceledException` a cancelled wait raises. */
  datatype Error =
    | ErrMaxReceiveBuffer
    | ErrClosedPipe
    | ErrInvalidProtocol
    | ErrGoAway
    | ErrEof
    | ErrReadTimeout
    | ErrWriteTimeout
    | OperationCanceled

  /** `uint` addition in an unchecked context: wraps modulo 2^32. */
  function Add32(a: uint32, b: uint32): (r: uint32)
    ensures a + b < TwoTo32 ==> r == a + b
    ensures a + b >= TwoTo32 ==> r == a + b - TwoTo32
  {
    (a + b) % TwoTo32
  }

  /** `uint` subtraction in an unchecked context: wraps modulo 2^32. */
  function Sub32(a: uint32, b: uint32): (r: uint32)
    ensures b <= a ==> r == a - b
    ensures a < b ==> r == a - b + TwoTo32
  {
    (a - b) % TwoTo32
  }

  /** The unchecked cast `(uint)x` of an `int`. */
  function ToUInt32(x: int): (r: uint32)
    ensures 0 <= x < TwoTo32 ==> r == x
    ensures -TwoTo32 <= x < 0 ==> r == x + TwoTo32
  {
    x % TwoTo32
  }

  /** The unchecked cast `(int)x` of a `uint`: values from 2^31 up read as negative. */
  function ToInt32(x: uint32): (r: int)
    ensures -0x8000_0000 <= r < 0x8000_0000
    ensures r % TwoTo32 == x
  {
    if x < 0x8000_0000 then x else x - TwoTo32
  }

  /** The unchecked cast `(byte)x` of an `int`: its low eight bits. */
  function ToByte(x: int): (r: byte)
    ensures 0 <= x < 0x100 ==> r == x
    ensures -0x100 <= x < 0 ==> r == x + 0x100
  {
    x % 0x100
  }

  /** C# `int` division, which truncates toward zero. */
  function DivTrunc(a: int, b: int): (q: int)
    requires b > 0
    ensures a >= 0 ==> q == a / b
    ensures a < 0 ==> q <= 0
    ensures -b < a < 0 ==> q == 0
  {
    if a >= 0 then a / b else -((-a) / b)
  }

  function Min(a: int, b: int): int {
    if a <= b then a else b
  }

  /** The session configuration. `Config.Verify` is not part of this model;
      `Verified` is what the rest of the model relies on it having checked. */
  datatype Config = Config(
    version: int,
    maxFrameSize: int,
    maxReceiveBuffer: int,
    maxStreamBuffer: int,
    keepAliveDisabled: bool)
  {
    ghost predicate Verified() {
      && (version == 1 || version == 2)
      && 0 < maxFrameSize <= 0xFFFF
      && 0 < maxReceiveBuffer < 0x8000_0000
      && 0 < maxStreamBuffer < 0x8000_0000
    }
  }
}
