/**
 The environment clock of the game page: a minute-of-day counter that ticks
 forward by one and wraps at midnight, the time-of-day phase derived from its
 hour, and the fixed lighting and sky-colour tables indexed by that phase.
 */
module Clock {
  import Js

  const MinutesPerHour: int := 60
  const MinutesPerDay: int := 1440

  /** The counter's initial value: noon. */
  const Noon: int := 720

  /** A counter value the clock can hold: a minute of the day. */
  predicate InDay(t: int) {
    0 <= t < MinutesPerDay
  }

  /** One firing of the interval callback: `(prev + 1) % 1440` with JavaScript's `%`. */
  function Tick(t: int): (r: int)
    ensures InDay(t) ==> InDay(r)
    ensures InDay(t) && t < MinutesPerDay - 1 ==> r == t + 1
    ensures t == MinutesPerDay - 1 ==> r == 0
  {
    Js.Rem(t + 1, MinutesPerDay)
  }

  /** The counter after `n` ticks. */
  function Ticks(t: int, n: nat): (r: int)
    ensures InDay(t) ==> InDay(r)
    decreases n
  {
    if n == 0 then t else Tick(Ticks(t, n - 1))
  }

  /** From a minute of the day, `n` ticks land `n` minutes later, modulo a day. */
  lemma {:induction false} TicksAdvance(t: int, n: nat)
    requires InDay(t)
    ensures Ticks(t, n) == (t + n) % MinutesPerDay
  {
    if n > 0 {
      TicksAdvance(t, n - 1);
      var p := (t + n - 1) % MinutesPerDay;
      assert Ticks(t, n) == Tick(p);
      if p == MinutesPerDay - 1 {
        assert (t + n) % MinutesPerDay == 0;
      } else {
        assert (t + n) % MinutesPerDay == p + 1;
      }
    }
  }

  /** Every value the clock reaches from noon is a minute of the day. */
  lemma ReachableInDay(n: nat)
    ensures InDay(Ticks(Noon, n))
  {
    TicksAdvance(Noon, n);
  }

  /** The clock is periodic: a further full day of ticks brings the counter, and so the phase, back to where it was. */
  lemma FullDayReturns(t: int, n: nat)
    requires InDay(t)
    ensures Ticks(t, n + MinutesPerDay) == Ticks(t, n)
    ensures PhaseOf(Ticks(t, n + MinutesPerDay)) == PhaseOf(Ticks(t, n))
  {
    TicksAdvance(t, n + MinutesPerDay);
    TicksAdvance(t, n);
    AddDayKeepsRemainder(t + n);
  }

  lemma AddDayKeepsRemainder(x: int)
    ensures (x + MinutesPerDay) % MinutesPerDay == x % MinutesPerDay
  {
    var q, r := x / MinutesPerDay, x % MinutesPerDay;
    assert x + MinutesPerDay == (q + 1) * MinutesPerDay + r;
  }

  /** `Math.floor(gameTime / 60)`. */
  function Hour(t: int): (h: int)
    ensures h * MinutesPerHour <= t < h * MinutesPerHour + MinutesPerHour
    ensures InDay(t) ==> 0 <= h < 24
  {
    Js.FloorDiv(t, MinutesPerHour)
  }

  datatype Phase = Dawn | Day | Dusk | Night

  /** The boundary table on hours, tested in the source's order. */
  function PhaseOfHour(h: int): (p: Phase)
    ensures p == Night <==> h < 5 || 21 <= h
    ensures p == Day <==> 8 <= h < 18
  {
    if 5 <= h < 8 then Dawn
    else if 8 <= h < 18 then Day
    else if 18 <= h < 21 then Dusk
    else Night
  }

  /**
   The phase of a counter value. Its contract restates the hour table as
   minute intervals: dawn 05:00-07:59, day 08:00-17:59, dusk 18:00-20:59,
   night otherwise (including any value outside the day).
   */
  function PhaseOf(t: int): (p: Phase)
    ensures p == Dawn <==> 300 <= t < 480
    ensures p == Day <==> 480 <= t < 1080
    ensures p == Dusk <==> 1080 <= t < 1260
    ensures p == Night <==> t < 300 || 1260 <= t
  {
    PhaseOfHour(Hour(t))
  }

  /** The phase is a function of the hour: every minute of an hour shares the phase of its first minute. */
  lemma PhaseConstantWithinHour(t: int)
    ensures PhaseOf(t) == PhaseOf(Hour(t) * MinutesPerHour)
  {
    assert Hour(Hour(t) * MinutesPerHour) == Hour(t);
  }

  /** Hours 0 to 4 and 21 to 23 are night. */
  lemma NightHours(t: int)
    requires InDay(t)
    requires Hour(t) < 5 || 21 <= Hour(t)
    ensures PhaseOf(t) == Night
  {
  }

  /** The initial counter is a minute of the day and falls in the day phase. */
  lemma NoonIsDay()
    ensures InDay(Noon) && PhaseOf(Noon) == Day
  {
  }

  /** Light intensities, in the units three.js takes. */
  datatype Lighting = Lighting(ambient: real, directional: real)

  /** The per-phase lighting table. */
  function LightingOf(p: Phase): (l: Lighting)
    ensures 0.0 < l.ambient < l.directional <= 1.0
  {
    match p
    case Dawn => Lighting(0.3, 0.6)
    case Day => Lighting(0.5, 1.0)
    case Dusk => Lighting(0.4, 0.7)
    case Night => Lighting(0.2, 0.3)
  }

  /** The phases ordered from darkest to brightest: night, dawn, dusk, day. */
  function Brightness(p: Phase): nat {
    match p
    case Night => 0
    case Dawn => 1
    case Dusk => 2
    case Day => 3
  }

  /** A brighter phase has strictly more of both kinds of light, so day is brightest and night darkest. */
  lemma LightingFollowsBrightness(p: Phase, q: Phase)
    requires Brightness(p) < Brightness(q)
    ensures LightingOf(p).ambient < LightingOf(q).ambient
    ensures LightingOf(p).directional < LightingOf(q).directional
  {
  }

  predicate IsHexDigit(c: char) {
    '0' <= c <= '9' || 'A' <= c <= 'F'
  }

  /** A CSS colour written `#RRGGBB` in upper-case hexadecimal. */
  predicate IsHexColor(s: string) {
    |s| == 7 && s[0] == '#' && forall i :: 1 <= i < 7 ==> IsHexDigit(s[i])
  }

  /** The per-phase background (and fog) colour table. */
  function BackgroundColor(p: Phase): (c: string)
    ensures IsHexColor(c)
  {
    match p
    case Dawn => "#FFB347"
    case Day => "#87CEEB"
    case Dusk => "#FF6347"
    case Night => "#191970"
  }

  /** The four phases have four different colours. */
  lemma BackgroundColorInjective(p: Phase, q: Phase)
    requires p != q
    ensures BackgroundColor(p) != BackgroundColor(q)
  {
  }

  /**
   The page's time read-out: the hour unpadded, a colon, then
   `String(gameTime % 60).padStart(2, "0")`.
   */
  function ClockLabel(t: int): string {
    Js.IntToString(Hour(t)) + ":" + Js.PadStart(Js.IntToString(Js.Rem(t, MinutesPerHour)), 2, '0')
  }

  /**
   For a minute of the day, the read-out is the hour's digits, a colon, and
   exactly two digits whose value is the minute within the hour.
   */
  lemma ClockLabelShape(t: int)
    requires InDay(t)
    ensures var s := ClockLabel(t);
      var k := |s| - 3;
      (|s| == 4 || |s| == 5)
      && (|s| == 4 <==> t < 600)
      && s[k] == ':'
      && Js.AllDigits(s[..k]) && Js.DigitsValue(s[..k]) == t / MinutesPerHour
      && Js.AllDigits(s[k + 1..]) && Js.DigitsValue(s[k + 1..]) == t % MinutesPerHour
  {
    var h := Js.IntToString(Hour(t));
    var m := Js.PadStart(Js.IntToString(Js.Rem(t, MinutesPerHour)), 2, '0');
    Js.TwoDigits(t % MinutesPerHour);
    Js.NatToStringRoundTrip(t / MinutesPerHour);
    var s := h + ":" + m;
    assert s[..|h|] == h;
    assert s[|h| + 1..] == m;
    var mm := [Js.DigitChar(t % MinutesPerHour / 10), Js.DigitChar(t % MinutesPerHour % 10)];
    assert mm[..1][..0] == [];
    assert Js.DigitsValue(mm) == t % MinutesPerHour;
  }

}
