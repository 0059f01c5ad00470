/**
 * The conversion of an amount and a time unit into the duration of a
 * time-to-live index. Durations are whole seconds; a month is fixed at 30 days
 * and a year at 365 days.
 */
module ExpireTime {
  import opened Wrappers
  import opened Exceptions

  /** C#'s 32-bit `int`. */
  newtype int32 = x: int | -0x8000_0000 <= x < 0x8000_0000

  /**
   * The library's time-unit enumeration. A C# enum variable can hold any value
   * of its underlying integer type, so a value outside the six named members is
   * kept as `Undefined`.
   */
  datatype TimeUnit = Second | Minute | Day | Week | Month | Year | Undefined(code: int)

  const SecondsPerMinute: int := 60
  const SecondsPerDay: int := 86400

  /** A TimeSpan counts 100-nanosecond ticks in a signed 64-bit integer. */
  const TicksPerSecond: int := 10_000_000
  const Int64Min: int := -0x8000_0000_0000_0000
  const Int64Max: int := 0x7FFF_FFFF_FFFF_FFFF

  /** Whether a duration of `seconds` seconds can be held by a TimeSpan. */
  predicate InTimeSpanRange(seconds: int) {
    Int64Min <= seconds * TicksPerSecond <= Int64Max
  }

  /** Reference table: the length of one unit in seconds. */
  function UnitSeconds(unit: TimeUnit): nat
    requires !unit.Undefined?
  {
    match unit
    case Second => 1
    case Minute => 60
    case Day => 86_400
    case Week => 604_800
    case Month => 2_592_000
    case Year => 31_536_000
  }

  // TimeSpan.FromSeconds, FromMinutes and FromDays for a whole number of units.

  function FromSeconds(seconds: int): Result<int, Exception> {
    if InTimeSpanRange(seconds) then Success(seconds) else Failure(Overflow)
  }

  function FromMinutes(minutes: int): Result<int, Exception> {
    FromSeconds(minutes * SecondsPerMinute)
  }

  function FromDays(days: int): Result<int, Exception> {
    FromSeconds(days * SecondsPerDay)
  }

  /**
   * GetExpireTime, with the products of `value` by 7, 30 and 365 taken
   * exactly. A unit outside the named members throws ArgumentOutOfRange; a
   * duration too long for a TimeSpan throws Overflow.
   */
  function GetExpireTime(value: int32, unit: TimeUnit): (r: Result<int, Exception>)
    ensures r == Failure(ArgumentOutOfRange) <==> unit.Undefined?
    ensures !unit.Undefined? ==>
              (r.Success? <==> InTimeSpanRange(value as int * UnitSeconds(unit)))
    ensures !unit.Undefined? && r.Failure? ==> r.error == Overflow
    ensures r.Success? ==> !unit.Undefined? && r.value == value as int * UnitSeconds(unit)
  {
    var v := value as int;
    match unit
    case Second => FromSeconds(v)
    case Minute => FromMinutes(v)
    case Day => FromDays(v)
    case Week => FromDays(v * 7)
    case Month => FromDays(v * 30)
    case Year => FromDays(v * 365)
    case Undefined(_) => Failure(ArgumentOutOfRange)
  }

  /** The durations of the source's table, for a concrete amount. */
  lemma UnitTableExamples()
    ensures GetExpireTime(30, Day) == Success(2_592_000)
    ensures GetExpireTime(1, Month) == GetExpireTime(30, Day)
    ensures GetExpireTime(1, Week) == GetExpireTime(7, Day)
    ensures GetExpireTime(1, Year) == GetExpireTime(365, Day)
    ensures GetExpireTime(1, Day) == GetExpireTime(1440, Minute)
    ensures GetExpireTime(1, Minute) == GetExpireTime(60, Second)
  {
  }

  /** Seconds and minutes never overflow a TimeSpan, whatever the 32-bit amount. */
  lemma SecondsAndMinutesFit(value: int32, unit: TimeUnit)
    requires unit == Second || unit == Minute
    ensures GetExpireTime(value, unit) == Success(value as int * UnitSeconds(unit))
  {
  }

  /** A day amount fits a TimeSpan exactly when it is at most 10,675,199 days either way. */
  lemma DayRange(value: int32)
    ensures GetExpireTime(value, Day).Success? <==> -10_675_199 <= value as int <= 10_675_199
  {
  }

  /** C#'s unchecked 32-bit multiplication: the product reduced into `int32`. */
  function Wrap32(x: int): (r: int32)
    ensures (r as int - x) % 0x1_0000_0000 == 0
    ensures -0x8000_0000 <= x < 0x8000_0000 ==> r as int == x
  {
    ((x + 0x8000_0000) % 0x1_0000_0000 - 0x8000_0000) as int32
  }

  /**
   * GetExpireTime as the source writes it: `value * 7`, `value * 30` and
   * `value * 365` are `int` products, which C# computes modulo 2^32 unless
   * overflow checking is switched on.
   */
  function GetExpireTimeAsWritten(value: int32, unit: TimeUnit): (r: Result<int, Exception>)
    ensures r == Failure(ArgumentOutOfRange) <==> unit.Undefined?
  {
    var v := value as int;
    match unit
    case Second => FromSeconds(v)
    case Minute => FromMinutes(v)
    case Day => FromDays(v)
    case Week => FromDays(Wrap32(v * 7) as int)
    case Month => FromDays(Wrap32(v * 30) as int)
    case Year => FromDays(Wrap32(v * 365) as int)
    case Undefined(_) => Failure(ArgumentOutOfRange)
  }

  /** Whether the day count that the source computes in 32 bits is the true day count. */
  predicate DayProductFits(value: int32, unit: TimeUnit) {
    var v := value as int;
    match unit
    case Week => -0x8000_0000 <= v * 7 < 0x8000_0000
    case Month => -0x8000_0000 <= v * 30 < 0x8000_0000
    case Year => -0x8000_0000 <= v * 365 < 0x8000_0000
    case _ => true
  }

  /** Where the 32-bit day count does not wrap, the source computes the intended duration. */
  lemma AsWrittenAgreesWhenNoWrap(value: int32, unit: TimeUnit)
    requires DayProductFits(value, unit)
    ensures GetExpireTimeAsWritten(value, unit) == GetExpireTime(value, unit)
  {
  }

  /**
   * Where the 32-bit day count wraps, the intended duration is already too
   * long for a TimeSpan: the two versions differ only on inputs that should
   * have thrown Overflow.
   */
  lemma WrapOnlyWhereIntendedOverflows(value: int32, unit: TimeUnit)
    requires !DayProductFits(value, unit)
    ensures GetExpireTime(value, unit) == Failure(Overflow)
  {
  }

  /**
   * 613,566,757 weeks is 4,294,967,299 days, which wraps to 3 days in 32 bits:
   * the source yields a 3-day duration where the intended result is Overflow.
   */
  lemma WeekProductWraps()
    ensures GetExpireTimeAsWritten(613_566_757, Week) == Success(259_200)
    ensures GetExpireTime(613_566_757, Week) == Failure(Overflow)
  {
    assert Wrap32(613_566_757 * 7) == 3;
  }
}
