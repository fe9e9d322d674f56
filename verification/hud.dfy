/**
 The heads-up display's pure helpers: the `HH:MM` clock read-out, the colour
 bands of the health and stamina bars, and the open/closed state of the three
 panels, driven by the I, C, Q and Escape keys and by the panel buttons.
 */
module Hud {
  import Js
  import Clock
  import opened Wrappers

  /** The component's default `gameTime`, used when its caller passes none. */
  const DefaultGameTime: int := 720

  /** `formatGameTime`: the hour and the minute, each printed and zero-padded to two places. */
  function FormatGameTime(t: int): string {
    var hour := Js.FloorDiv(t, Clock.MinutesPerHour);
    var minute := Js.Rem(t, Clock.MinutesPerHour);
    Js.PadStart(Js.IntToString(hour), 2, '0') + ":" + Js.PadStart(Js.IntToString(minute), 2, '0')
  }

  /** Reads an `HH:MM` read-out back as a minute count. */
  function ParseGameTime(s: string): Option<int> {
    if |s| == 5 && s[2] == ':' && Js.AllDigits(s[..2]) && Js.AllDigits(s[3..]) then
      Some(Js.DigitsValue(s[..2]) * 60 + Js.DigitsValue(s[3..]))
    else
      None
  }

  /** For a minute of the day, the read-out is the two digits of the hour, a colon and the two digits of the minute. */
  lemma FormatGameTimeDigits(t: int)
    requires Clock.InDay(t)
    ensures FormatGameTime(t) == Js.Digits2(t / 60) + ":" + Js.Digits2(t % 60)
  {
    assert Js.FloorDiv(t, 60) == t / 60 && Js.Rem(t, 60) == t % 60;
    Js.TwoDigits(t / 60);
    Js.TwoDigits(t % 60);
  }

  /** For a minute of the day, the read-out is five characters: two hour digits, a colon, two minute digits. */
  lemma FormatGameTimeShape(t: int)
    requires Clock.InDay(t)
    ensures var s := FormatGameTime(t);
      |s| == 5 && s[2] == ':' && s[..2] == Js.Digits2(t / 60) && s[3..] == Js.Digits2(t % 60)
  {
    assert Js.FloorDiv(t, 60) == t / 60 && Js.Rem(t, 60) == t % 60;
    FormatGameTimeDigits(t);
    var hh, mm := Js.Digits2(t / 60), Js.Digits2(t % 60);
    var s := FormatGameTime(t);
    assert s == hh + ":" + mm;
    assert s[..2] == hh && s[3..] == mm && s[2] == ':';
  }

  /** Reading the read-out back recovers the minute count: `HH * 60 + MM == gameTime`. */
  lemma FormatParseRoundTrip(t: int)
    requires Clock.InDay(t)
    ensures ParseGameTime(FormatGameTime(t)) == Some(t)
  {
    FormatGameTimeShape(t);
    var s := FormatGameTime(t);
    Js.Digits2Value(t / 60);
    Js.Digits2Value(t % 60);
    assert Js.DigitsValue(s[..2]) == t / 60;
    assert Js.DigitsValue(s[3..]) == t % 60;
    assert ParseGameTime(s) == Some(t);
  }

  /** Distinct minutes of the day are shown differently. */
  lemma FormatGameTimeInjective(a: int, b: int)
    requires Clock.InDay(a) && Clock.InDay(b)
    requires FormatGameTime(a) == FormatGameTime(b)
    ensures a == b
  {
    FormatParseRoundTrip(a);
    FormatParseRoundTrip(b);
  }

  /**
   The other direction: a well-formed read-out (hour below 24, minute below
   60) is exactly what the minute count it denotes is shown as.
   */
  lemma ParseFormatRoundTrip(s: string)
    requires ParseGameTime(s).Some?
    requires Js.DigitsValue(s[..2]) < 24 && Js.DigitsValue(s[3..]) < 60
    ensures Clock.InDay(ParseGameTime(s).value)
    ensures FormatGameTime(ParseGameTime(s).value) == s
  {
    var h, m := Js.DigitsValue(s[..2]), Js.DigitsValue(s[3..]);
    var t := h * 60 + m;
    assert ParseGameTime(s).value == t;
    assert t / 60 == h && t % 60 == m;
    assert Js.FloorDiv(t, 60) == h && Js.Rem(t, 60) == m;
    FormatGameTimeDigits(t);
    Js.TwoDigitsValue(s[..2]);
    Js.TwoDigitsValue(s[3..]);
    var f := FormatGameTime(t);
    assert f == s[..2] + ":" + s[3..];
    assert s == s[..2] + [s[2]] + s[3..];
  }

  /** The default read-out is noon. */
  lemma DefaultShowsNoon()
    ensures FormatGameTime(DefaultGameTime) == "12:00"
  {
    var t := DefaultGameTime;
    assert Js.FloorDiv(t, 60) == 12 && Js.Rem(t, 60) == 0;
    FormatGameTimeDigits(t);
    assert Js.Digits2(t / 60) == "12";
    assert Js.Digits2(t % 60) == "00";
  }

  /**
   The display's read-out and the page's own read-out agree on the minutes;
   they differ only in that the display pads hours before 10:00 with a zero.
   */
  lemma FormatAgreesWithClockLabel(t: int)
    requires Clock.InDay(t)
    ensures t < 600 ==> FormatGameTime(t) == "0" + Clock.ClockLabel(t)
    ensures t >= 600 ==> FormatGameTime(t) == Clock.ClockLabel(t)
  {
    var h := t / 60;
    Js.TwoDigits(h);
    if h >= 10 {
      assert Js.IntToString(h) == [Js.DigitChar(h / 10), Js.DigitChar(h % 10)];
    } else {
      assert Js.IntToString(h) == [Js.DigitChar(h)];
    }
  }

  /** The Tailwind colours a status bar can take. */
  datatype BarColor = Green | Yellow | Orange | Blue | Red

  /** The CSS class the display puts on a bar of the given colour. */
  function ClassName(c: BarColor): string {
    match c
    case Green => "bg-green-500"
    case Yellow => "bg-yellow-500"
    case Orange => "bg-orange-500"
    case Blue => "bg-blue-500"
    case Red => "bg-red-500"
  }

  /** Different colours get different classes. */
  lemma ClassNameInjective(c: BarColor, d: BarColor)
    requires c != d
    ensures ClassName(c) != ClassName(d)
  {
  }

  /** `getHealthColor`: green above 70, yellow above 30, red otherwise. */
  function HealthColor(health: real): (c: BarColor)
    ensures c == Green <==> health > 70.0
    ensures c == Yellow <==> 30.0 < health <= 70.0
    ensures c == Red <==> health <= 30.0
  {
    if health > 70.0 then Green
    else if health > 30.0 then Yellow
    else Red
  }

  /** `getStaminaColor`: blue above 50, orange above 20, red otherwise. */
  function StaminaColor(stamina: real): (c: BarColor)
    ensures c == Blue <==> stamina > 50.0
    ensures c == Orange <==> 20.0 < stamina <= 50.0
    ensures c == Red <==> stamina <= 20.0
  {
    if stamina > 50.0 then Blue
    else if stamina > 20.0 then Orange
    else Red
  }

  /** How alarming a bar colour is: 0 for the top band, 2 for red. */
  function Severity(c: BarColor): nat {
    match c
    case Green => 0
    case Blue => 0
    case Yellow => 1
    case Orange => 1
    case Red => 2
  }

  /** Losing health or stamina never makes its bar look less alarming. */
  lemma ColorsMonotone(x: real, y: real)
    requires x <= y
    ensures Severity(HealthColor(y)) <= Severity(HealthColor(x))
    ensures Severity(StaminaColor(y)) <= Severity(StaminaColor(x))
  {
  }

  /** Which of the three panels are open. */
  datatype Panels = Panels(inventory: bool, crafting: bool, quests: bool)

  const AllClosed: Panels := Panels(false, false, false)

  /**
   `handleKeyPress` on a `KeyboardEvent.code`: the four tests run one after the
   other, as in the source; each code meets at most one of them.
   */
  function PanelKey(p: Panels, code: string): (r: Panels)
    ensures code == "KeyI" ==> r == p.(inventory := !p.inventory)
    ensures code == "KeyC" ==> r == p.(crafting := !p.crafting)
    ensures code == "KeyQ" ==> r == p.(quests := !p.quests)
    ensures code == "Escape" ==> r == AllClosed
    ensures code !in {"KeyI", "KeyC", "KeyQ", "Escape"} ==> r == p
  {
    var p1 := if code == "KeyI" then p.(inventory := !p.inventory) else p;
    var p2 := if code == "KeyC" then p1.(crafting := !p1.crafting) else p1;
    var p3 := if code == "KeyQ" then p2.(quests := !p2.quests) else p2;
    if code == "Escape" then AllClosed else p3
  }

  /** Pressing a panel key twice puts every panel back as it was. */
  lemma PanelKeyTwice(p: Panels, code: string)
    requires code in {"KeyI", "KeyC", "KeyQ"}
    ensures PanelKey(PanelKey(p, code), code) == p
  {
  }

  /** Escape closes everything, and a second Escape changes nothing. */
  lemma EscapeIdempotent(p: Panels)
    ensures PanelKey(p, "Escape") == AllClosed
    ensures PanelKey(PanelKey(p, "Escape"), "Escape") == PanelKey(p, "Escape")
  {
  }

  datatype PanelName = InventoryPanel | CraftingPanel | QuestPanel

  function IsOpen(p: Panels, n: PanelName): bool {
    match n
    case InventoryPanel => p.inventory
    case CraftingPanel => p.crafting
    case QuestPanel => p.quests
  }

  /**
   The panel buttons: "Craft [C]" and "Quests [Q]" open their panel, each
   panel's close control closes it, and the "Inventory [I]" button toggles the
   inventory panel (`SetPanel(p, InventoryPanel, !p.inventory)`); the other
   panels are untouched.
   */
  function SetPanel(p: Panels, n: PanelName, open: bool): (r: Panels)
    ensures IsOpen(r, n) == open
    ensures forall m :: m != n ==> IsOpen(r, m) == IsOpen(p, m)
  {
    match n
    case InventoryPanel => p.(inventory := open)
    case CraftingPanel => p.(crafting := open)
    case QuestPanel => p.(quests := open)
  }

}
