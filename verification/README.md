# Floating-island adventure game: game-state core in Dafny

This project models the sequential game-state logic of a React/three.js
exploration game and proves properties of it. The rendering and the scene
are not modelled. The model has three parts:

- **Environment clock** (`app/page.tsx`, module `Clock`). A minute-of-day
  counter starts at noon (720) and ticks `(prev + 1) % 1440`. The hour picks
  one of four phases: dawn, day, dusk or night. The phase then indexes a
  lighting table and a background-colour table. The page also shows the time
  as `H:MM`.
- **Heads-up display helpers** (`components/game/GameUI.tsx`, modules `Hud`,
  `Notices` and `Inventory`):
  - the `HH:MM` read-out;
  - the colour bands of the health and stamina bars;
  - the inventory/crafting/quest panel flags;
  - the notification list (append, and expiry by id);
  - the quest-completion handler, which credits rewards to a copy of the
    wood/stone/crystal inventory.
- **Player controller** (`components/game/PlayerController.tsx`, module
  `Controller`):
  - key flags for w/a/s/d/shift/space;
  - the local movement direction and speed;
  - the jump gate;
  - pointer-lock gating of mouse look, with the pitch clamp;
  - the event machine that ties these together.

JavaScript's own semantics are written out in module `Js`: `Math.floor`
division, the truncating `%` operator, `Number.prototype.toString` on
integers, `padStart`, and lower-casing. Module `Wrappers` holds `Option`.

The clock only ticks by one. Quest rewards are a plain addition. `space` is a
level flag: every frame in which it is set and |vy| < 0.1 jumps, and only a
key-up clears it. As written, no key sets it (see Findings). Yaw is never
wrapped.

## Model

| member | source | states |
|---|---|---|
| Js.FloorDiv | app/page.tsx:137 | `Math.floor(a / n)` for a positive divisor; lemma FloorDivIsFloor states that it rounds down |
| Js.FloorDivIsFloor | app/page.tsx:137 | `Math.floor(t / 60)` is the greatest q with q·60 ≤ t, for every integer t |
| Js.Rem | app/page.tsx:132 | JavaScript `a % n` for a positive divisor, whose remainder takes the sign of `a`; lemma RemIsTruncatedRemainder states it |
| Js.RemIsTruncatedRemainder | app/page.tsx:132 | JavaScript `%` gives the remainder of division truncated toward zero. The result lies in [0, n) for a non-negative dividend and in (-n, 0] for a negative one |
| Js.NatToStringRoundTrip | components/game/GameUI.tsx:107 | reading back the digits `toString` prints for a natural number gives that number |
| Js.IntToString | components/game/GameUI.tsx:107 | `Number.prototype.toString` on an integer; lemma IntToStringRoundTrip states what it prints |
| Js.IntToStringRoundTrip | components/game/GameUI.tsx:107 | `toString` of an integer is its digits, with a leading '-' exactly when it is negative. Reading the digits back gives its magnitude |
| Js.PadStart | components/game/GameUI.tsx:107 | `padStart(width, fill)`; lemma PadStartShape states its shape |
| Js.PadStartShape | components/game/GameUI.tsx:107 | `padStart` keeps the string as a suffix and puts only the fill character before it. The length is the width, or the original length if that is longer |
| Js.TwoDigits | components/game/GameUI.tsx:107 | a number below 100, printed and zero-padded to 2, is its tens digit followed by its units digit |
| Js.ToLower | components/game/PlayerController.tsx:44 | ASCII lower-casing: the length is kept, no upper-case ASCII letter is left, and every character that is not an upper-case ASCII letter stays in place |
| Js.TwoDigitsValue | components/game/GameUI.tsx:107 | every two-digit string is the padded print of its own value (the converse of TwoDigits) |
| Clock.Tick | app/page.tsx:131-133 | the tick keeps the counter in [0, 1440). From 0..1438 it adds one, and 1439 wraps to 0 |
| Clock.Ticks | app/page.tsx:130-135 | repeated ticks from a minute of the day stay in the day; lemma TicksAdvance says where they land |
| Clock.TicksAdvance | app/page.tsx:132 | n ticks from a minute of the day land on (t + n) mod 1440 |
| Clock.ReachableInDay | app/page.tsx:123-135 | every counter value reached from the initial noon is in [0, 1440) |
| Clock.FullDayReturns | app/page.tsx:130-142 | 1440 further ticks return the counter, and so the phase, to the same value |
| Clock.Hour | app/page.tsx:137 | `Math.floor(gameTime / 60)`: the hour h with h·60 ≤ t < h·60 + 60, which is in [0, 24) for a minute of the day |
| Clock.PhaseOfHour | app/page.tsx:138-142 | the hour table tested in source order: night iff the hour is below 5 or at least 21, day iff it is in [8, 18) |
| Clock.PhaseOf | app/page.tsx:137-142 | dawn iff 300 ≤ t < 480, day iff 480 ≤ t < 1080, dusk iff 1080 ≤ t < 1260, night otherwise (including values outside the day). So the phase is exactly one of the four |
| Clock.PhaseConstantWithinHour | app/page.tsx:137-142 | the phase depends only on the hour: every minute has the phase of the first minute of its hour |
| Clock.NightHours | app/page.tsx:137-142 | hours 0–4 and 21–23 are night |
| Clock.NoonIsDay | app/page.tsx:123 | the initial value 720 is in range and is in the day phase |
| Clock.LightingOf | app/page.tsx:144-155 | the lighting of every phase has 0 < ambient < directional ≤ 1 |
| Clock.LightingFollowsBrightness | app/page.tsx:144-155 | ordering phases night < dawn < dusk < day, a brighter phase has strictly more ambient and more directional light |
| Clock.BackgroundColor | app/page.tsx:157-168 | every phase's background is a `#RRGGBB` hex colour |
| Clock.BackgroundColorInjective | app/page.tsx:157-168 | the four phases have four distinct background colours |
| Clock.ClockLabel | app/page.tsx:221 | the page's `H:MM` read-out; lemma ClockLabelShape states its shape and value |
| Clock.ClockLabelShape | app/page.tsx:221 | the page read-out is the unpadded hour digits, ':', then exactly two digits. The digits read back as t / 60 and t % 60 |
| Hud.FormatGameTime | components/game/GameUI.tsx:104-108 | `formatGameTime`; lemmas FormatGameTimeShape, FormatParseRoundTrip and ParseFormatRoundTrip state its shape and that it is inverted by ParseGameTime |
| Hud.FormatGameTimeDigits | components/game/GameUI.tsx:104-108 | for t in [0, 1440), `formatGameTime` is the two digits of t / 60, ':', then the two digits of t % 60 |
| Hud.FormatGameTimeShape | components/game/GameUI.tsx:104-108 | for t in [0, 1440), the read-out has 5 characters, with ':' at index 2 |
| Hud.FormatParseRoundTrip | components/game/GameUI.tsx:104-108 | parsing HH and MM back gives HH·60 + MM = t for every t in [0, 1440) |
| Hud.FormatGameTimeInjective | components/game/GameUI.tsx:104-108 | distinct minutes of the day give distinct read-outs |
| Hud.ParseFormatRoundTrip | components/game/GameUI.tsx:104-108 | a well-formed `HH:MM` (HH < 24, MM < 60) is exactly the read-out of the minute it denotes |
| Hud.DefaultShowsNoon | components/game/GameUI.tsx:32 | the default `gameTime` of 720 is shown as "12:00" |
| Hud.FormatAgreesWithClockLabel | components/game/GameUI.tsx:104-108 | the display's read-out equals the page's `H:MM`. Before 10:00 the display adds one leading '0' |
| Hud.ClassName | components/game/GameUI.tsx:116-124 | the Tailwind class each bar colour is drawn with; lemma ClassNameInjective states that they are distinct |
| Hud.ClassNameInjective | components/game/GameUI.tsx:116-124 | distinct bar colours use distinct CSS classes |
| Hud.HealthColor | components/game/GameUI.tsx:115-119 | green iff health > 70, yellow iff 30 < health ≤ 70, red iff health ≤ 30 |
| Hud.StaminaColor | components/game/GameUI.tsx:121-125 | blue iff stamina > 50, orange iff 20 < stamina ≤ 50, red iff stamina ≤ 20 |
| Hud.ColorsMonotone | components/game/GameUI.tsx:115-125 | lower health or stamina never gives a less alarming band |
| Hud.PanelKey | components/game/GameUI.tsx:56-70 | KeyI, KeyC and KeyQ each flip only their own panel. Escape closes all three. Any other code changes nothing |
| Hud.PanelKeyTwice | components/game/GameUI.tsx:57-65 | pressing the same panel key twice leaves every panel as it was |
| Hud.EscapeIdempotent | components/game/GameUI.tsx:66-70 | Escape closes everything, and a second Escape changes nothing |
| Hud.SetPanel | components/game/GameUI.tsx:185-331 | a panel button or close control sets exactly its own panel and leaves the other two unchanged |
| Notices.Notify | components/game/GameUI.tsx:96-98 | adding a notification appends it at the end and keeps every earlier entry in place |
| Notices.Expire | components/game/GameUI.tsx:99-101 | expiry keeps exactly the entries whose id differs. The length falls by the number of entries with that id |
| Notices.ExpireConcat | components/game/GameUI.tsx:100 | expiry distributes over concatenation, so the remaining entries keep their order |
| Notices.ExpireAbsent | components/game/GameUI.tsx:100 | expiring an id no entry carries leaves the list unchanged |
| Notices.ExpireIdempotent | components/game/GameUI.tsx:100 | expiring the same id twice is the same as once |
| Notices.NotifyThenExpire | components/game/GameUI.tsx:96-101 | adding a notice with a fresh id and then expiring that id restores the list |
| Notices.SameIdExpiresTogether | components/game/GameUI.tsx:97-101 | two notices that got the same millisecond id both vanish at the first expiry |
| Notices.CraftNotice | components/game/GameUI.tsx:110-113 | `handleCraft` only appends the success notice "Crafted <name>!" |
| Inventory.Credit | components/game/GameUI.tsx:81 | one reward entry adds its amount to its resource and leaves the other two counts unchanged |
| Inventory.ApplyRewards | components/game/GameUI.tsx:79-82 | the `forEach` crediting the entries in order; lemma ApplyRewardsCounts relates it to the reference total RewardFor |
| Inventory.ApplyRewardsCounts | components/game/GameUI.tsx:79-82 | after crediting, each count equals its old count plus the total the entries award it |
| Inventory.RewardForEntry | components/game/GameUI.tsx:80-81 | with distinct keys, a rewarded resource receives exactly its entry's amount |
| Inventory.RewardForAbsent | components/game/GameUI.tsx:80-81 | a resource that no entry names receives nothing |
| Inventory.QuestRewardsPointwise | components/game/GameUI.tsx:79-82 | for each rewarded key the new count is old[k] + rewards[k]. Non-rewarded keys are unchanged |
| Inventory.NonNegativeRewardsGrow | components/game/GameUI.tsx:79-82 | non-negative rewards never lower a count, and they keep a non-negative inventory non-negative |
| Inventory.RewardList | components/game/GameUI.tsx:89-91 | the `"<amount> <item>"` entries joined by ", ": empty exactly when there are no entries |
| Inventory.QuestComplete | components/game/GameUI.tsx:77-94 | the handler's loop credits every entry to a copy of the inventory, then appends the "Quest completed! Received: …" success notice |
| Controller.Set | components/game/PlayerController.tsx:46 | setting a key flag changes that flag and no other |
| Controller.FlagNamed | components/game/PlayerController.tsx:45 | a property name found in `keys` is that flag's own name |
| Controller.FlagNamedInvertsName | components/game/PlayerController.tsx:29-36 | a name denotes a flag iff it is one of w, a, s, d, shift, space, and it denotes exactly that flag |
| Controller.FlagOfKey | components/game/PlayerController.tsx:44-45 | as written: a key reaches a flag iff its lower-cased value is one of w, a, s, d, shift, space, and then the flag of that name |
| Controller.KeyDown | components/game/PlayerController.tsx:43-47 | as written: key-down sets the flag named by the lower-cased key. Any other key leaves every flag unchanged |
| Controller.KeyUp | components/game/PlayerController.tsx:55-60 | key-up clears the flag named by the lower-cased key. Any other key leaves every flag unchanged |
| Controller.KeyCaseInsensitive | components/game/PlayerController.tsx:44 | "W" and "w" reach the same flag. "Shift" holds and releases `shift` |
| Controller.SpaceBarIgnoredAsWritten | components/game/PlayerController.tsx:43-47 | the space bar's key value " " reaches no flag, so pressing it never sets `space` |
| Controller.FlagOfKeyFixed | components/game/PlayerController.tsx:43-47 | corrected lookup: " " reaches `space`; every other key reaches what the written lookup gives |
| Controller.KeyDownFixed | components/game/PlayerController.tsx:43-47 | corrected key-down: sets exactly the flag the corrected lookup names |
| Controller.KeyUpFixed | components/game/PlayerController.tsx:55-60 | corrected key-up: clears exactly the flag the corrected lookup names |
| Controller.FixedAgreesExceptSpaceBar | components/game/PlayerController.tsx:43-60 | the corrected handlers equal the written ones on every key except " ", which now sets and clears `space` |
| Controller.Press | components/game/PlayerController.tsx:43-47 | the key-down handler under either lookup: the flag the key reaches becomes held, every other flag keeps its state |
| Controller.Release | components/game/PlayerController.tsx:55-60 | the key-up handler under either lookup: the flag the key reaches becomes released, every other flag keeps its state |
| Controller.Axis | components/game/PlayerController.tsx:124-127 | each direction component is in {−1, 0, 1}. It is 0 exactly when both or neither of its keys are held |
| Controller.LocalDirection | components/game/PlayerController.tsx:121-127 | x = [d] − [a] and z = [s] − [w]: `w` alone gives z = −1, `d` alone gives x = 1, and opposing keys cancel |
| Controller.Speed | components/game/PlayerController.tsx:122 | the speed is 8 iff shift is held and 5 otherwise |
| Controller.MotionOf | components/game/PlayerController.tsx:124-132 | zero net direction gives zero horizontal velocity. Otherwise the motion carries the local direction and the selected speed |
| Controller.OpposingKeysCancel | components/game/PlayerController.tsx:124-127 | holding all four movement keys stands still |
| Controller.Frame | components/game/PlayerController.tsx:134-140 | the vertical velocity is either the body's own or the jump speed 10. It changes only when `space` is held and abs(vy) < 0.1. A jump frame keeps the body's read-back horizontal velocity |
| Controller.ZeroDirectionStandsStill | components/game/PlayerController.tsx:121-135 | a frame with no net direction and no jump commands zero horizontal velocity |
| Controller.NoDoubleJump | components/game/PlayerController.tsx:138-140 | once a jump's vertical speed is read back, holding space adds nothing and the vertical velocity passes through |
| Controller.Clamp | components/game/PlayerController.tsx:80 | for a bound B ≥ 0 the pitch lands in [−B, B], and it equals the unclamped value when that is already inside |
| Controller.MouseLook | components/game/PlayerController.tsx:74-81 | pointer deltas are ignored while unlocked. When locked, yaw moves by −dx·0.002 and pitch is clamped |
| Controller.Step | components/game/PlayerController.tsx:42-81 | one event, with the key lookup as written (`AsWritten`) or corrected. The lock flag changes only on the lock-change signal, and then to its value. A click requests the lock while unlocked and interacts while locked. Interaction happens iff the pointer is locked at a click or the key "e" is pressed |
| Controller.Run | components/game/PlayerController.tsx:42-81 | a sequence of events fed to Step in order; lemmas LockedIsLastSignal, KeysFollowLastPress and PitchStaysBounded state what it keeps |
| Controller.LockedIsLastSignal | components/game/PlayerController.tsx:62-72 | after any event sequence, the lock flag equals the most recent lock-change signal (or its start value if there was none) |
| Controller.KeysFollowLastPress | components/game/PlayerController.tsx:43-60 | under either lookup, and so for the code as written, after any event sequence a flag is held iff the most recent press or release reaching it was a press |
| Controller.PitchStaysBounded | components/game/PlayerController.tsx:74-81 | under either lookup, any event sequence keeps a pitch that starts inside [−B, B] inside it |
| Controller.UnlockedMouseIgnored | components/game/PlayerController.tsx:75 | while unlocked, pointer movement leaves the whole state unchanged and buffers nothing |
| Controller.NeverJumpsAsWritten | components/game/PlayerController.tsx:43-47 | as written, unless some key value lower-cases to "space", the `space` flag stays released after any events, and every frame keeps the body's vertical velocity: the jump never fires |
| Controller.SpaceBarJumpsWhenFixed | components/game/PlayerController.tsx:138-139 | with the corrected lookup, a standing player who presses the space bar jumps on the next frame |

## Findings

| source | as written | input that shows it | evidently intended | confidence | as-written member | corrected member |
|---|---|---|---|---|---|---|
| components/game/PlayerController.tsx:43-47 | a key sets a flag only if `e.key.toLowerCase()` is one of the flag names, and one name is "space" | the space bar, whose `KeyboardEvent.key` is " " (UI Events KeyboardEvent key values), leaves `space` false. So the jump at line 138 can never fire | the space bar sets the `space` flag | high, from the key-value standard; not executed | Controller.SpaceBarIgnoredAsWritten | Controller.KeyDownFixed |

The event machine `Controller.Step` takes the lookup as a parameter: `AsWritten` runs
`Controller.KeyDown` and `Controller.KeyUp` as the code stands, `Corrected` runs
`Controller.KeyDownFixed` and `Controller.KeyUpFixed`. `Controller.NeverJumpsAsWritten`
shows the as-written machine never jumps, `Controller.SpaceBarJumpsWhenFixed` shows the
corrected one does, and `Controller.FixedAgreesExceptSpaceBar` proves that the two
lookups differ only on " ".

## Left out

- All JSX, the Card/Button/Badge markup and CSS (other than the bar colour classes in `Hud.ClassName`), and the three.js scene are not modelled: geometry, materials, lights, fog, Canvas and Physics. They are presentation only.
- The random tree, rock and crystal placement is not modelled. Neither is `handleInteraction` (PlayerController.tsx:98-114), a stub with no object detection that grants a random resource. Both use `Math.random`. The model only emits an `Interact` effect where the source calls `handleInteraction`.
- Controller.MotionOf: the command is kept in the camera's local frame. The yaw rotation (`applyEuler`) and `normalize` are computed by three.js in floating point and are not modelled. Nor are the raycaster and the camera following the body. The explicit zero guard matches three.js's `normalize`, which leaves a zero vector at zero.
- Controller.MouseLook: velocities, sensitivity, pitch and the 0.1 jump tolerance are exact reals, not IEEE doubles. The pitch bound π/2 is a parameter `limit`, because π has no exact value.
- Controller.NeverJumpsAsWritten: key values are arbitrary strings in the model, so it requires that no pressed key lower-cases to "space". No key in the UI Events list of key values does.
- Js.ToLower: only ASCII letters are lowered. JavaScript's `toLowerCase` also lowers non-ASCII letters ("É" becomes "é", and "İ" becomes two code units). No non-ASCII letter lowers to a flag name or to "e", so `Controller.FlagOfKey` and the interact test in `Controller.Step` are unaffected.
- Controller.FlagOfKey: lower-casing covers ASCII letters only. The `in` test is modelled as membership among the six flag names. Inherited property names such as "constructor" are not key values a keyboard produces.
- The `setInterval`/`setTimeout` timers and the `Date.now()` ids are not modelled. The clock is the explicit `Clock.Tick`. The notice id is a parameter, and its expiry is the explicit `Notices.Expire`.
- Host I/O is not modelled: DOM listener registration and clean-up, `requestPointerLock`, and the physics velocity subscription. The lock request is the `RequestLock` effect. The body's velocity is an input to `Controller.Frame`.
- Crafting and quest requirement checks live in the imported `CraftingSystem` and `QuestSystem`, and the panels' contents in `InventoryPanel`. Those files are not part of this model. `handleCraft` is a stub that only posts a notice, and it is modelled as such.
- Inventory.QuestComplete: reward keys are limited to wood, stone and crystal, the inventory's declared fields. A key outside these would add a new property holding `NaN`. Amounts are integers.
- The `health`/`stamina` props are copied into local state (`useEffect`). The optional `onInventoryUpdate` callback is not modelled: the handler returns the new inventory instead.
- Js.IntToString: the model prints integers in plain decimal. JavaScript switches to exponent notation at 10^21 and loses integer precision beyond 2^53. Neither is reachable from the clock's [0, 1440).
