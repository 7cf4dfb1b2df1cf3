/** Values shared by every layer: bytes, optional values, the errors the
    Python code raises, and the SEEK_* whence constants. */
module Common {

  /** One octet of a backend object. */
  newtype byte = x: int | 0 <= x < 256

  datatype Option<+T> = None | Some(value: T)

  /** The exceptions the core raises, one constructor per distinct cause.
      `PythonClass` names the exception class that carries it. */
  datatype Error =
    | UnknownMode        // ValueError("Unknown mode ...")
    | EmptyDataset       // RuntimeError("Empty dataset !")
    | NotReadable        // RuntimeError("... not readable ...")
    | NotWritable        // RuntimeError("... not writable ...")
    | Closed             // RuntimeError("... closed")
    | NotAligned         // RuntimeError("File size not aligned ...")
    | Broken             // RuntimeError("Dataset is broken ...")
    | InvalidWhence      // ValueError("Invalid whence ...")
    | NegativeCount      // ValueError from bytearray(negative length)
    | StructRange        // struct.error: value does not fit or buffer is not 8 bytes
    | OutOfRange         // IndexError
    | NotAnIndex         // TypeError("Dataset index must be int")
    | EndOfStream        // EOFError
    | Exhausted          // StopIteration
    | UnboundWhence      // UnboundLocalError: `ds_offset` never assigned
    | MissingSession     // KeyError: no pipe registered under that serial
    | RelayNotEmpty      // AssertionError: pipes left when the client count is 0
    | MissingDataset     // ValueError("Dataset not exists") / ("Object storage not exists")
    | NoLatestVersion    // ValueError("No available version found ...")
    | UnknownVersion     // ValueError("... version ... not found ...")
    | TrunkIdError       // KaraStorageException("Trunk_id error ...")
    | InvalidOffset      // KaraStorageException("Invalid offset ...")
    | ZeroDivision       // ZeroDivisionError from `%` by zero
    | ReadLength         // ValueError("read length must be non-negative or -1")

  datatype PythonClass =
    ValueErrorClass | RuntimeErrorClass | IndexErrorClass | TypeErrorClass | EOFErrorClass
    | StopIterationClass | StructErrorClass | UnboundLocalErrorClass | KeyErrorClass
    | AssertionErrorClass | KaraStorageExceptionClass | ZeroDivisionErrorClass

  function PythonClassOf(e: Error): PythonClass
  {
    match e
    case UnknownMode | InvalidWhence | NegativeCount | MissingDataset | NoLatestVersion | UnknownVersion
      | ReadLength =>
      ValueErrorClass
    case EmptyDataset | NotReadable | NotWritable | Closed | NotAligned | Broken => RuntimeErrorClass
    case StructRange => StructErrorClass
    case OutOfRange => IndexErrorClass
    case NotAnIndex => TypeErrorClass
    case EndOfStream => EOFErrorClass
    case Exhausted => StopIterationClass
    case UnboundWhence => UnboundLocalErrorClass
    case MissingSession => KeyErrorClass
    case RelayNotEmpty => AssertionErrorClass
    case TrunkIdError | InvalidOffset => KaraStorageExceptionClass
    case ZeroDivision => ZeroDivisionErrorClass
  }

  datatype Result<+T> = Ok(value: T) | Err(error: Error)

  /** io.SEEK_SET, io.SEEK_CUR, io.SEEK_END */
  const SEEK_SET: int := 0
  const SEEK_CUR: int := 1
  const SEEK_END: int := 2

  function Min(a: int, b: int): int { if a <= b then a else b }
  function Max(a: int, b: int): int { if a <= b then b else a }

  /** The two-step clamp the Python code writes as
      `if x < lo: x = lo` followed by `if x > hi: x = hi`. */
  function Clamp(x: int, lo: int, hi: int): (r: int)
    ensures r <= hi
    ensures lo <= hi ==> lo <= r
    ensures lo <= x <= hi ==> r == x
    ensures x < lo <= hi ==> r == lo
    ensures hi < x && lo <= hi ==> r == hi
  {
    var y := if x < lo then lo else x;
    if y > hi then hi else y
  }

  /** Integer division is monotone in the dividend. */
  lemma {:induction false} DivMonotone(a: nat, b: nat, n: nat)
    requires a <= b && n > 0
    ensures a / n <= b / n
  {
    QuotientBound(a / n, b, n);
  }

  /** A multiple of `n` below `x` is at most `(x / n) * n`. */
  lemma {:induction false} QuotientBound(q: nat, x: nat, n: nat)
    requires n > 0 && q * n <= x
    ensures q <= x / n
  {
    var d := x / n;
    assert x == d * n + x % n && x % n < n;
    assert x < (d + 1) * n;
    MulCancel(q, d + 1, n);
  }

  /** Multiplying by a positive factor keeps a strict order both ways. */
  lemma {:induction false} MulCancel(a: int, b: int, n: int)
    requires n > 0 && a * n < b * n
    ensures a < b
  {
    assert (b - a) * n == b * n - a * n > 0;
  }

  /** Two quotients add up to at most the quotient of the sum. */
  lemma {:induction false} DivAdd(a: nat, b: nat, n: nat)
    requires n > 0
    ensures a / n + b / n <= (a + b) / n
  {
    assert a / n * n <= a && b / n * n <= b;
    assert (a / n + b / n) * n == a / n * n + b / n * n;
    QuotientBound(a / n + b / n, a + b, n);
  }

  /** Multiplying by a nonnegative factor keeps a weak order. */
  lemma {:induction false} MulLe(t: nat, a: nat, b: nat)
    requires a <= b
    ensures t * a <= t * b
  {
    assert t * b - t * a == t * (b - a) >= 0;
  }

  /** An exact multiple divides back to its factor. */
  lemma {:induction false} QuotientExact(t: nat, n: nat)
    requires n > 0
    ensures t * n / n == t
  {
    QuotientBound(t, t * n, n);
    var d := t * n / n;
    assert d * n <= t * n < (t + 1) * n;
    MulCancel(d, t + 1, n);
  }
}
