/**
 * Shared vocabulary of the model: the outcome of an operation that Python
 * would end with an exception, the copies of the code base whose behaviour
 * differs, and the number conversions that Python's `int()` and `round()`
 * perform on a (here exact, `real`) time stamp.
 */
module Common {

  /** The way an operation of the pipeline fails. */
  datatype Error =
    | LengthMismatch        // values/starts/stops differ in length (the `-1` return), or arrays cannot be compared
    | IndexOutOfRange       // an IndexError
    | ParseError            // int()/float() refused a token
    | EmptyReduction        // argmin/min/max of an empty array
    | AssertionFailed       // a failing `assert`
    | CodeMismatch(count: nat) // TTL codes of the event file and the DAQ log disagree in `count` places
    | UnboundResult         // UnboundLocalError: a result variable was never assigned
    | FieldCountMismatch    // unpacking `split` into a fixed number of names failed
    | NotMonotonic          // histogram edges that decrease
    | NegativeCount         // linspace with a negative number of samples
    | DegenerateFit         // a line through points that all share one x value
    | MalformedFile         // a binary file whose size does not fit its record layout
    | ZeroDivision          // a division by zero whose quotient `int()` cannot convert
    | MissingKey            // a KeyError: a dictionary lacks the key looked up

  datatype Result<T> = Ok(value: T) | Err(error: Error)
  {
    predicate IsFailure() { Err? }
    function PropagateFailure<U>(): Result<U> requires Err? { Err(error) }
    function Extract(): T requires Ok? { value }
  }

  datatype Option<T> = None | Some(value: T)

  /**
   * The repository carries several copies of the same pipeline that differ in
   * small details:
   *   Packaged — the installable package under src/epiphyte/,
   *   Legacy   — the top-level preprocessing/, annotation/ and database/ trees,
   *   Pilot    — the oldest scripts under data_preprocessing/.
   * The Pilot scripts only have the segment and indicator functions and the
   * continuous-watch clipping; an operation they lack treats Pilot like
   * Legacy.
   */
  datatype Copy = Packaged | Legacy | Pilot

  /** Python's `int(x)` on a float: truncation toward zero. */
  function Trunc(x: real): int
  {
    if x >= 0.0 then x.Floor else -((-x).Floor)
  }

  /** Truncation moves toward zero by less than one. */
  lemma {:induction false} TruncBounds(x: real)
    ensures 0.0 <= x ==> 0 <= Trunc(x) && Trunc(x) as real <= x < Trunc(x) as real + 1.0
    ensures x <= 0.0 ==> Trunc(x) <= 0 && Trunc(x) as real - 1.0 < x <= Trunc(x) as real
  {
  }

  /** Python's `round(x)` / NumPy's `np.round(x)`: to the nearest integer, ties to even. */
  function RoundHalfEven(x: real): (r: int)
    ensures x - 0.5 <= r as real <= x + 0.5
    ensures (r as real == x - 0.5 || r as real == x + 0.5) ==> r % 2 == 0
  {
    var f := x.Floor;
    var d := x - f as real;
    if d < 0.5 then f
    else if d > 0.5 then f + 1
    else if f % 2 == 0 then f else f + 1
  }

  predicate StrictlyIncreasing(s: seq<real>)
  {
    forall i, j :: 0 <= i < j < |s| ==> s[i] < s[j]
  }

  predicate NonDecreasing(s: seq<real>)
  {
    forall i, j :: 0 <= i < j < |s| ==> s[i] <= s[j]
  }

  /** Strictly increasing integer index lists, the shape `np.where` returns. */
  predicate Ascending(s: seq<int>)
  {
    forall i, j :: 0 <= i < j < |s| ==> s[i] < s[j]
  }

  function Abs(x: real): real { if x < 0.0 then -x else x }

  function Max(a: int, b: int): int { if a < b then b else a }

  function Min(a: int, b: int): int { if a < b then a else b }
}
