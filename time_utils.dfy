/**
 * Clock and calendar arithmetic of src/core/time_utils.py.
 *
 * An instant is a whole number of microseconds since 1970-01-01T00:00:00Z.
 * A calendar date is its day number counted from 1970-01-01. Python's
 * `time` and `datetime` values keep their clock fields (hour, minute,
 * second, microsecond) and an optional tzinfo, which is abstracted as a
 * fixed UTC offset in microseconds.
 */
module TimeUtils {
  import opened Wrappers

  const MicrosPerSecond: int := 1_000_000
  const MicrosPerMinute: int := 60_000_000
  const MicrosPerHour: int := 3_600_000_000
  const MicrosPerDay: int := 86_400_000_000

  type Hour = h: int | 0 <= h < 24
  type Minute = m: int | 0 <= m < 60
  type Second = s: int | 0 <= s < 60
  type Micro = u: int | 0 <= u < 1_000_000
  /** A UTC offset; Python requires it to lie strictly within one day. */
  type Offset = o: int | -86_400_000_000 < o < 86_400_000_000
  /** Day number since 1970-01-01. */
  type Date = int
  /** Microseconds since 1970-01-01T00:00:00Z. */
  type Instant = int

  /** The clock fields of a `time` or `datetime`. */
  datatype Clock = Clock(hour: Hour, minute: Minute, second: Second, micro: Micro)

  /** Python's `datetime.time`: a clock reading, possibly carrying a tzinfo. */
  datatype Time = Time(clock: Clock, tzinfo: Option<Offset>)

  /** Python's `datetime.datetime`: a date, a clock reading and an optional tzinfo. */
  datatype DateTime = DateTime(date: Date, clock: Clock, tzinfo: Option<Offset>) {
    /** Aware values denote an instant; naive ones cannot be compared with them. */
    predicate IsAware() { tzinfo.Some? }
  }

  /** Microseconds elapsed since midnight at clock reading `c`. */
  function ClockMicros(c: Clock): (n: int)
    ensures 0 <= n < MicrosPerDay
  {
    c.hour * 3_600_000_000 + c.minute * 60_000_000 + c.second * 1_000_000 + c.micro
  }

  /** The clock reading `n` microseconds after midnight. */
  function ClockAt(n: int): (c: Clock)
    requires 0 <= n < MicrosPerDay
    ensures ClockMicros(c) == n
  {
    var seconds := n / 1_000_000;
    var minutes := seconds / 60;
    Clock(minutes / 60, minutes % 60, seconds % 60, n % 1_000_000)
  }

  /** Reading a clock back from its microsecond count gives the same clock. */
  lemma {:induction false} ClockAtMicros(c: Clock)
    ensures ClockAt(ClockMicros(c)) == c
  {
    var n := ClockMicros(c);
    var seconds := (c.hour * 60 + c.minute) * 60 + c.second;
    DivModUnique(n, 1_000_000, seconds, c.micro);
    DivModUnique(seconds, 60, c.hour * 60 + c.minute, c.second);
    DivModUnique(c.hour * 60 + c.minute, 60, c.hour, c.minute);
  }

  /** Python's `<` on two naive `time` values: lexicographic on the clock fields. */
  predicate ClockBefore(a: Clock, b: Clock)
    ensures ClockBefore(a, b) <==> ClockMicros(a) < ClockMicros(b)
  {
    || a.hour < b.hour
    || (a.hour == b.hour && a.minute < b.minute)
    || (a.hour == b.hour && a.minute == b.minute && a.second < b.second)
    || (a.hour == b.hour && a.minute == b.minute && a.second == b.second && a.micro < b.micro)
  }

  /** Python's `<` on clock readings is a strict total order. */
  lemma ClockBeforeIsStrictOrder(a: Clock, b: Clock, c: Clock)
    ensures !ClockBefore(a, a)
    ensures ClockBefore(a, b) ==> !ClockBefore(b, a)
    ensures ClockBefore(a, b) && ClockBefore(b, c) ==> ClockBefore(a, c)
    ensures a != b ==> ClockBefore(a, b) || ClockBefore(b, a)
  {
  }

  /** `normalize_time`: drop the tzinfo and keep the clock digits. */
  function NormalizeTime(t: Time): (r: Time)
    ensures r.tzinfo.None? && r.clock == t.clock
    ensures t.tzinfo.None? ==> r == t
  {
    if t.tzinfo.None? then t else t.(tzinfo := None)
  }

  /** Normalizing a normalized time changes nothing. */
  lemma NormalizeTimeIdempotent(t: Time)
    ensures NormalizeTime(NormalizeTime(t)) == NormalizeTime(t)
  {
  }

  /** The wall-clock reading of `v` as microseconds since 1970-01-01 00:00, ignoring tzinfo. */
  function WallMicros(v: DateTime): int
  {
    v.date * 86_400_000_000 + ClockMicros(v.clock)
  }

  /** The datetime whose wall-clock reading is `w`, with tzinfo `tz`. */
  function FromWall(w: int, tz: Option<Offset>): (v: DateTime)
    ensures WallMicros(v) == w && v.tzinfo == tz
  {
    DateTime(w / 86_400_000_000, ClockAt(w % 86_400_000_000), tz)
  }

  /** A datetime is determined by its wall-clock reading and its tzinfo. */
  lemma {:induction false} FromWallOfWall(v: DateTime)
    ensures FromWall(WallMicros(v), v.tzinfo) == v
  {
    var w := WallMicros(v);
    assert w / 86_400_000_000 == v.date;
    assert w % 86_400_000_000 == ClockMicros(v.clock);
    ClockAtMicros(v.clock);
  }

  /** The instant an aware datetime denotes. */
  function InstantOf(v: DateTime): Instant
    requires v.IsAware()
  {
    WallMicros(v) - v.tzinfo.value
  }

  /**
   * `combine_local`: the normalized clock of `t` on date `d`, in the
   * application timezone (a fixed offset).
   */
  function CombineLocal(appOffset: Offset, d: Date, t: Time): (r: DateTime)
    ensures r.date == d && r.clock == NormalizeTime(t).clock && r.tzinfo == Some(appOffset)
    ensures InstantOf(r) == d * MicrosPerDay + ClockMicros(t.clock) - appOffset
  {
    DateTime(d, NormalizeTime(t).clock, Some(appOffset))
  }

  /**
   * `to_utc`: a naive value is read as UTC with the same clock; an aware
   * value keeps its instant and is re-expressed with offset zero.
   */
  function ToUtc(v: DateTime): (r: DateTime)
    ensures r.tzinfo == Some(0)
    ensures !v.IsAware() ==> r.date == v.date && r.clock == v.clock
    ensures v.IsAware() ==> InstantOf(r) == InstantOf(v)
  {
    if !v.IsAware() then v.(tzinfo := Some(0)) else FromWall(InstantOf(v), Some(0))
  }

  /** Converting to UTC twice is converting once. */
  lemma {:induction false} ToUtcIdempotent(v: DateTime)
    ensures ToUtc(ToUtc(v)) == ToUtc(v)
  {
    FromWallOfWall(ToUtc(v));
  }

  /** `v + timedelta(minutes=minutes)`: wall-clock arithmetic that keeps the tzinfo. */
  function AddMinutes(v: DateTime, minutes: int): (r: DateTime)
    ensures r.tzinfo == v.tzinfo
    ensures WallMicros(r) == WallMicros(v) + minutes * MicrosPerMinute
    ensures v.IsAware() ==> InstantOf(r) == InstantOf(v) + minutes * MicrosPerMinute
  {
    FromWall(WallMicros(v) + minutes * 60_000_000, v.tzinfo)
  }

  /** `is_past`: strictly earlier than now. */
  predicate IsPast(v: DateTime, now: Instant)
    requires v.IsAware()
    ensures IsPast(v, now) <==> InstantOf(ToUtc(v)) < now
  {
    InstantOf(v) < now
  }

  /** `is_within_horizon`: no later than `maxDaysAhead` days after now. */
  predicate IsWithinHorizon(v: DateTime, maxDaysAhead: int, now: Instant)
    requires v.IsAware()
    ensures IsWithinHorizon(v, maxDaysAhead, now) <==> InstantOf(ToUtc(v)) - now <= maxDaysAhead * MicrosPerDay
  {
    InstantOf(v) <= now + maxDaysAhead * 86_400_000_000
  }

  /**
   * `is_valid_slot_time`: the minute of the hour is a multiple of the slot
   * size and the seconds and microseconds are zero. Dafny's `%` differs from
   * Python's for a negative divisor, but both are zero exactly when the
   * divisor divides the minute. A zero slot size raises in Python.
   */
  predicate IsValidSlotTime(v: DateTime, slotMinutes: int)
    requires slotMinutes != 0
    ensures IsValidSlotTime(v, slotMinutes) <==>
      v.clock.minute % slotMinutes == 0 && ClockMicros(v.clock) % MicrosPerMinute == 0
  {
    var c := v.clock;
    DivModUnique(ClockMicros(c), MicrosPerMinute, c.hour * 60 + c.minute, c.second * 1_000_000 + c.micro);
    c.minute % slotMinutes == 0 && c.second == 0 && c.micro == 0
  }

  /** The window checks at their boundaries: now is not past, the horizon is inclusive. */
  lemma WindowBoundaries(v: DateTime, maxDaysAhead: int)
    requires v.IsAware()
    ensures !IsPast(v, InstantOf(v)) && IsPast(v, InstantOf(v) + 1)
    ensures IsWithinHorizon(v, maxDaysAhead, InstantOf(v) - maxDaysAhead * MicrosPerDay)
    ensures !IsWithinHorizon(v, maxDaysAhead, InstantOf(v) - maxDaysAhead * MicrosPerDay - 1)
  {
  }

  /** Slot alignment looks at the minute of the hour only, never at the hour. */
  lemma SlotTimeIgnoresHour(v: DateTime, slotMinutes: int, h: Hour)
    requires slotMinutes != 0
    ensures IsValidSlotTime(v, slotMinutes) == IsValidSlotTime(v.(clock := v.clock.(hour := h)), slotMinutes)
  {
  }

  /**
   * On a grid whose size divides the hour, an aligned clock reading is
   * exactly one whose time since midnight is a whole number of slots.
   */
  lemma {:induction false} SlotTimeIsOnGrid(v: DateTime, slotMinutes: int)
    requires 0 < slotMinutes && 60 % slotMinutes == 0
    ensures IsValidSlotTime(v, slotMinutes) <==> ClockMicros(v.clock) % (slotMinutes * MicrosPerMinute) == 0
  {
    var c := v.clock;
    var q := 60 / slotMinutes;
    assert 60 == q * slotMinutes;
    var g := slotMinutes * 60_000_000;
    var n := ClockMicros(c);
    assert n == (c.hour * q * slotMinutes + c.minute) * 60_000_000 + c.second * 1_000_000 + c.micro;
    var rest := c.second * 1_000_000 + c.micro;
    assert 0 <= rest < 60_000_000;
    var m0 := c.minute / slotMinutes;
    var m1 := c.minute % slotMinutes;
    assert c.minute == m0 * slotMinutes + m1;
    assert n == (c.hour * q + m0) * g + (m1 * 60_000_000 + rest);
    assert 0 <= m1 * 60_000_000 + rest < g;
    DivModUnique(n, g, c.hour * q + m0, m1 * 60_000_000 + rest);
  }

  /** Euclidean quotient and remainder are determined by any quotient-remainder split. */
  lemma {:induction false} DivModUnique(n: int, g: int, q: int, r: int)
    requires 0 < g && n == q * g + r && 0 <= r < g
    ensures n / g == q && n % g == r
  {
    var k := q - n / g;
    assert k * g == n % g - r;
    if k > 0 {
      MulAtLeast(k, g);
    } else if k < 0 {
      MulAtLeast(-k, g);
    }
  }

  /** A positive multiple of a positive number is at least that number. */
  lemma {:induction false} MulAtLeast(k: int, g: int)
    requires 0 < k && 0 < g
    ensures k * g >= g
  {
    assert k * g == (k - 1) * g + g;
  }
}
