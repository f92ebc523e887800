/**
 * Model of mem01/src/utilities/cudaUtility.h: the status check `cudaSafeCall2`
 * (both overloads) and the saturating integer cast `clampCast` with its
 * `LimitProxy` bounds for `int16_t` and `uint8_t`.
 */
module CudaUtility {
  import opened Optional

  /**
   * The numeric code of a failure other than the two the destructor tells
   * apart: never `cudaSuccess` (0), `cudaErrorCudartUnloading` (4) or
   * `cudaErrorNotReady` (600), which have constructors of their own.
   */
  type FailureCode = c: int | c != 0 && c != 4 && c != 600 witness 1

  /** Runtime status codes, reduced to the cases the core tells apart; each status has one spelling. */
  datatype CudaError = Success | NotReady | CudartUnloading | OtherError(code: FailureCode)

  /** What the check hands to the logging sink when a runtime call failed. */
  datatype ErrorReport = ErrorReport(err: CudaError, file: string, line: int, func: string, createdBy: Option<string>)

  /** The boolean the check returns, and the report it logged (if any). */
  datatype CheckResult = CheckResult(ok: bool, report: Option<ErrorReport>)

  /** `cudaSafeCall2(err, file, line, func)`: true iff the call succeeded; a failure is reported. */
  function CudaSafeCall2(err: CudaError, file: string, line: int, func: string): (r: CheckResult)
    ensures r.ok <==> err == Success
    ensures r.report.Some? <==> !r.ok
    ensures r.report.Some? ==> r.report.value == ErrorReport(err, file, line, func, None)
  {
    if err != Success then CheckResult(false, Some(ErrorReport(err, file, line, func, None)))
    else CheckResult(true, None)
  }

  /** The overload that also names the container that triggered the call (`name` may be null). */
  function CudaSafeCall2Named(err: CudaError, file: string, line: int, func: string, name: Option<string>): (r: CheckResult)
    ensures r.ok <==> err == Success
    ensures r.report.Some? <==> !r.ok
    ensures r.report.Some? ==> r.report.value == ErrorReport(err, file, line, func, name)
  {
    if err != Success then CheckResult(false, Some(ErrorReport(err, file, line, func, name)))
    else CheckResult(true, None)
  }

  /** With a null name the named overload logs and returns exactly what the plain one does. */
  lemma NamedCheckWithoutName(err: CudaError, file: string, line: int, func: string)
    ensures CudaSafeCall2Named(err, file, line, func, None) == CudaSafeCall2(err, file, line, func)
  {
  }

  // ---------------------------------------------------------------------------
  // Fixed-width integers

  datatype Width = W8 | W16 | W32 | W64
  {
    function Modulus(): (m: int)
      ensures m >= 256 && m % 2 == 0
    {
      match this
      case W8 => 0x100
      case W16 => 0x1_0000
      case W32 => 0x1_0000_0000
      case W64 => 0x1_0000_0000_0000_0000
    }
  }

  /** A C++ fixed-width integer type (`int8_t`, `uint16_t`, ...). */
  datatype IntType = IntType(width: Width, signed: bool)
  {
    function Min(): int {
      if signed then -(width.Modulus() / 2) else 0
    }

    function Max(): int {
      if signed then width.Modulus() / 2 - 1 else width.Modulus() - 1
    }

    predicate Contains(x: int) {
      Min() <= x <= Max()
    }

    /**
     * `static_cast` to this type: reduction modulo 2^width into the type's range
     * (the two's-complement conversion C++20 prescribes and earlier compilers used).
     */
    function Cast(x: int): (r: int)
      ensures Contains(r)
      ensures (r - x) % width.Modulus() == 0
      ensures Contains(x) ==> r == x
    {
      var m := width.Modulus();
      if signed then
        assert m == 2 * (m / 2);
        WrapCentred(x, m / 2);
        (x + m / 2) % m - m / 2
      else
        WrapFromZero(x, m);
        x % m
    }
  }

  /** A multiple of `m` leaves no remainder. */
  lemma MultipleHasNoRemainder(k: int, m: int)
    requires m > 0
    ensures (k * m) % m == 0
  {
    var t := k * m;
    var d := k - t / m;
    assert t % m == d * m;
  }

  /** Reduction into `[0, m)` moves a value by a multiple of `m` and fixes the values already there. */
  lemma WrapFromZero(x: int, m: int)
    requires m > 0
    ensures 0 <= x % m < m
    ensures (x % m - x) % m == 0
    ensures 0 <= x < m ==> x % m == x
  {
    MultipleHasNoRemainder(-(x / m), m);
    assert x % m - x == -(x / m) * m;
  }

  /** Reduction into `[-h, h)` moves a value by a multiple of `2 * h` and fixes the values already there. */
  lemma WrapCentred(x: int, h: int)
    requires h > 0
    ensures -h <= (x + h) % (2 * h) - h < h
    ensures ((x + h) % (2 * h) - h - x) % (2 * h) == 0
    ensures -h <= x < h ==> (x + h) % (2 * h) - h == x
  {
    WrapFromZero(x + h, 2 * h);
  }

  const Int16: IntType := IntType(W16, true)
  const Uint8: IntType := IntType(W8, false)

  /** The two integer specialisations of `LimitProxy` (the `float` one is not modelled). */
  datatype ClampTarget = ToInt16 | ToUint8
  {
    /** `LimitProxy<ResultType>::min()`: note -32767, not -32768, for `int16_t`. */
    function LimitMin(): int {
      if ToInt16? then -32767 else 0
    }

    /** `LimitProxy<ResultType>::max()`. */
    function LimitMax(): int {
      if ToInt16? then 32767 else 255
    }

    function ResultType(): IntType {
      if ToInt16? then Int16 else Uint8
    }
  }

  /** `std::max(a, b)`: `(a < b) ? b : a`. */
  function StdMax(a: int, b: int): (r: int)
    ensures r >= a && r >= b && (r == a || r == b)
  {
    if a < b then b else a
  }

  /** `std::min(a, b)`: `(b < a) ? b : a`. */
  function StdMin(a: int, b: int): (r: int)
    ensures r <= a && r <= b && (r == a || r == b)
  {
    if b < a then b else a
  }

  /**
   * `clampCast<ResultType>(x)` for an argument `x` of integer type `input`: the
   * limits are first cast to the input type, the clamp is done there, and the
   * clamped value is cast to the result type.
   */
  function ClampCast(target: ClampTarget, input: IntType, x: int): (r: int)
    requires input.Contains(x)
    ensures target.ResultType().Contains(r)
    ensures target.LimitMin() <= r <= target.LimitMax()
  {
    var lo := input.Cast(target.LimitMin());
    var hi := input.Cast(target.LimitMax());
    target.ResultType().Cast(StdMin(StdMax(x, lo), hi))
  }

  /** The input type can represent both limits (every wide input type: `int`, `int32_t`, ...). */
  predicate HoldsLimits(input: IntType, target: ClampTarget) {
    input.Contains(target.LimitMin()) && input.Contains(target.LimitMax())
  }

  /** Saturation: inside the limits the cast is the identity; outside, it is the nearer limit. */
  lemma ClampCastSaturates(target: ClampTarget, input: IntType, x: int)
    requires input.Contains(x) && HoldsLimits(input, target)
    ensures var r := ClampCast(target, input, x);
      && target.LimitMin() <= r <= target.LimitMax()
      && (x < target.LimitMin() ==> r == target.LimitMin())
      && (x > target.LimitMax() ==> r == target.LimitMax())
      && (target.LimitMin() <= x <= target.LimitMax() ==> r == x)
  {
    var v := StdMin(StdMax(x, target.LimitMin()), target.LimitMax());
    assert target.ResultType().Contains(v);
  }

  /** Clamping an already clamped value (now of the result type) changes nothing, whatever the first input type. */
  lemma ClampCastIdempotent(target: ClampTarget, input: IntType, x: int)
    requires input.Contains(x)
    ensures var r := ClampCast(target, input, x);
      ClampCast(target, target.ResultType(), r) == r
  {
    var r := ClampCast(target, input, x);
    ClampCastSaturates(target, target.ResultType(), r);
  }

  /** The cast is monotone non-decreasing, for every input type. */
  lemma ClampCastMonotone(target: ClampTarget, input: IntType, x: int, y: int)
    requires input.Contains(x) && input.Contains(y)
    requires x <= y
    ensures ClampCast(target, input, x) <= ClampCast(target, input, y)
  {
  }

  /**
   * As written, with an input type too narrow for the limits the limits wrap:
   * `clampCast<uint8_t>` of any `int8_t` is 255, and `clampCast<int16_t>` of the
   * `uint8_t` 0 is 1.
   */
  lemma ClampCastNarrowInput()
    ensures ClampCast(ToUint8, IntType(W8, true), 0) == 255
    ensures ClampCast(ToUint8, IntType(W8, true), -5) == 255
    ensures ClampCast(ToInt16, Uint8, 0) == 1
  {
    assert IntType(W8, true).Cast(0) == 0 && IntType(W8, true).Cast(255) == -1;
    assert Uint8.Cast(-1) == 255;
    assert Uint8.Cast(-32767) == 1 && Uint8.Cast(32767) == 255;
    assert Int16.Cast(1) == 1;
  }

  /**
   * As written, every unsigned input type of 16 bits or more makes
   * `clampCast<int16_t>` a constant: the lower limit wraps above the upper one.
   */
  lemma ClampCastUnsignedToInt16(width: Width, x: int)
    requires width != W8 && IntType(width, false).Contains(x)
    ensures ClampCast(ToInt16, IntType(width, false), x) == 32767
  {
  }

  /** The clamp the limits evidently intend: compared in a type wide enough for both. */
  function ClampCastWide(target: ClampTarget, x: int): (r: int)
    ensures target.LimitMin() <= r <= target.LimitMax()
    ensures target.LimitMin() <= x <= target.LimitMax() ==> r == x
    ensures x < target.LimitMin() ==> r == target.LimitMin()
    ensures x > target.LimitMax() ==> r == target.LimitMax()
  {
    StdMin(StdMax(x, target.LimitMin()), target.LimitMax())
  }

  /** Wherever the input type holds the limits, the source's cast is the intended one. */
  lemma ClampCastAgreesWhenWide(target: ClampTarget, input: IntType, x: int)
    requires input.Contains(x) && HoldsLimits(input, target)
    ensures ClampCast(target, input, x) == ClampCastWide(target, x)
  {
    ClampCastSaturates(target, input, x);
  }

  /** `clampCaster<ResultType, InputType>`: the function object around `clampCast`. */
  datatype ClampCaster = ClampCaster(target: ClampTarget, input: IntType)
  {
    function Apply(a: int): (r: int)
      requires input.Contains(a)
      ensures r == ClampCast(target, input, a)
      ensures HoldsLimits(input, target) ==> target.LimitMin() <= r <= target.LimitMax()
    {
      if HoldsLimits(input, target) then
        ClampCastSaturates(target, input, a);
        ClampCast(target, input, a)
      else
        ClampCast(target, input, a)
    }
  }
}
