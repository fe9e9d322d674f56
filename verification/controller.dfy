/**
 The player controller's input state machine: which movement keys are held,
 whether the pointer is locked to the canvas, the camera's yaw and pitch, and
 what each frame commands the physics body to do. The body itself, the
 camera's rotation of the movement vector and its normalisation belong to
 three.js and the physics engine; the model keeps the movement command in the
 camera's local frame.
 */
module Controller {
  import Js
  import opened Wrappers

  /** The six keys the controller tracks. */
  datatype Flag = W | A | S | D | Shift | Space

  /** The `keys` record: one held/released flag per tracked key. */
  datatype Keys = Keys(w: bool, a: bool, s: bool, d: bool, shift: bool, space: bool)

  /** The initial `keys` record: nothing held. */
  const Released: Keys := Keys(false, false, false, false, false, false)

  function Get(k: Keys, f: Flag): bool {
    match f
    case W => k.w
    case A => k.a
    case S => k.s
    case D => k.d
    case Shift => k.shift
    case Space => k.space
  }

  /** Sets one flag and no other. */
  function Set(k: Keys, f: Flag, v: bool): (r: Keys)
    ensures Get(r, f) == v
    ensures forall g :: g != f ==> Get(r, g) == Get(k, g)
  {
    match f
    case W => k.(w := v)
    case A => k.(a := v)
    case S => k.(s := v)
    case D => k.(d := v)
    case Shift => k.(shift := v)
    case Space => k.(space := v)
  }

  /** The property name of each flag in the `keys` record. */
  function Name(f: Flag): string {
    match f
    case W => "w"
    case A => "a"
    case S => "s"
    case D => "d"
    case Shift => "shift"
    case Space => "space"
  }

  /** `key in keys.current`: the flag a property name denotes, if any. */
  function FlagNamed(name: string): (f: Option<Flag>)
    ensures f.Some? ==> Name(f.value) == name
  {
    if name == "w" then Some(W)
    else if name == "a" then Some(A)
    else if name == "s" then Some(S)
    else if name == "d" then Some(D)
    else if name == "shift" then Some(Shift)
    else if name == "space" then Some(Space)
    else None
  }

  /** FlagNamed inverts Name: a name denotes a flag exactly when it is that flag's name. */
  lemma FlagNamedInvertsName(name: string, f: Flag)
    ensures FlagNamed(name) == Some(f) <==> name == Name(f)
  {
  }

  /** The flag a `KeyboardEvent.key` value reaches, as written: its lower-cased text must be a flag's name. */
  function FlagOfKey(key: string): (f: Option<Flag>)
    ensures f.Some? <==> Js.ToLower(key) in {"w", "a", "s", "d", "shift", "space"}
    ensures f.Some? ==> Name(f.value) == Js.ToLower(key)
  {
    FlagNamed(Js.ToLower(key))
  }

  /** `handleKeyDown` on the flags, as written: the named flag becomes held; any other key changes nothing. */
  function KeyDown(k: Keys, key: string): (r: Keys)
    ensures forall f :: Get(r, f) == (Get(k, f) || FlagOfKey(key) == Some(f))
  {
    match FlagOfKey(key)
    case Some(f) => Set(k, f, true)
    case None => k
  }

  /** `handleKeyUp`, as written: the named flag becomes released; any other key changes nothing. */
  function KeyUp(k: Keys, key: string): (r: Keys)
    ensures forall f :: Get(r, f) == (Get(k, f) && FlagOfKey(key) != Some(f))
  {
    match FlagOfKey(key)
    case Some(f) => Set(k, f, false)
    case None => k
  }

  /** Upper- and lower-case letters reach the same flag: "W" (with Shift or Caps Lock) holds `w`. */
  lemma KeyCaseInsensitive(k: Keys)
    ensures KeyDown(k, "W") == KeyDown(k, "w") && KeyDown(k, "w").w
    ensures KeyDown(k, "Shift").shift && !KeyUp(k, "Shift").shift
  {
    assert Js.ToLower("W") == "w";
    assert Js.ToLower("w") == "w";
    assert Js.ToLower("Shift") == "shift";
  }

  /**
   The space bar's `KeyboardEvent.key` is a single space, not "space": as
   written, pressing it never holds the `space` flag, so no frame can jump.
   */
  lemma SpaceBarIgnoredAsWritten(k: Keys)
    ensures FlagOfKey(" ") == None
    ensures KeyDown(k, " ") == k
    ensures !KeyDown(Released, " ").space
  {
    assert Js.ToLower(" ") == " ";
  }

  /** The evident intent: the space bar's key value reaches the `space` flag. */
  function FlagOfKeyFixed(key: string): (f: Option<Flag>)
    ensures key == " " ==> f == Some(Space)
    ensures key != " " ==> f == FlagOfKey(key)
  {
    if key == " " then Some(Space) else FlagOfKey(key)
  }

  /** Key-down with the space bar recognised. */
  function KeyDownFixed(k: Keys, key: string): (r: Keys)
    ensures forall f :: Get(r, f) == (Get(k, f) || FlagOfKeyFixed(key) == Some(f))
  {
    match FlagOfKeyFixed(key)
    case Some(f) => Set(k, f, true)
    case None => k
  }

  /** Key-up with the space bar recognised. */
  function KeyUpFixed(k: Keys, key: string): (r: Keys)
    ensures forall f :: Get(r, f) == (Get(k, f) && FlagOfKeyFixed(key) != Some(f))
  {
    match FlagOfKeyFixed(key)
    case Some(f) => Set(k, f, false)
    case None => k
  }

  /** The corrected handlers agree with the written ones on every key but the space bar, which now holds and releases `space`. */
  lemma FixedAgreesExceptSpaceBar(k: Keys, key: string)
    ensures key != " " ==> KeyDownFixed(k, key) == KeyDown(k, key) && KeyUpFixed(k, key) == KeyUp(k, key)
    ensures KeyDownFixed(k, " ").space && !KeyUpFixed(k, " ").space
  {
  }

  /** One axis of the local direction: +1, 0 or -1 from the positive and negative keys. */
  function Axis(negative: bool, positive: bool): (v: int)
    ensures -1 <= v <= 1
    ensures v == 0 <==> negative == positive
    ensures v == 1 <==> positive && !negative
  {
    (if positive then 1 else 0) - (if negative then 1 else 0)
  }

  /** The movement direction in the camera's frame, before rotation: x to the right, z backwards. */
  datatype Direction = Direction(x: int, z: int)

  /** `w` moves along -z, `s` along +z, `a` along -x, `d` along +x; opposite keys cancel. */
  function LocalDirection(k: Keys): (dir: Direction)
    ensures -1 <= dir.x <= 1 && -1 <= dir.z <= 1
    ensures dir.x == 0 <==> k.a == k.d
    ensures dir.z == 0 <==> k.w == k.s
    ensures dir.z == -1 <==> k.w && !k.s
    ensures dir.x == 1 <==> k.d && !k.a
  {
    Direction(Axis(k.a, k.d), Axis(k.w, k.s))
  }

  const WalkSpeed: int := 5
  const SprintSpeed: int := 8

  /** Sprint speed while shift is held, walking speed otherwise. */
  function Speed(k: Keys): (v: int)
    ensures v == SprintSpeed <==> k.shift
    ensures v == WalkSpeed <==> !k.shift
  {
    if k.shift then SprintSpeed else WalkSpeed
  }

  /**
   The horizontal part of the movement command: standing still, or moving at
   `speed` along the normalised local direction turned by the camera's yaw.
   */
  datatype Motion = Still | Heading(dir: Direction, speed: int)

  /** The zero-direction guard: no net direction means zero horizontal velocity. */
  function MotionOf(k: Keys): (m: Motion)
    ensures m.Still? <==> LocalDirection(k) == Direction(0, 0)
    ensures m.Heading? ==> m.dir == LocalDirection(k) && m.speed == Speed(k)
  {
    var dir := LocalDirection(k);
    if dir == Direction(0, 0) then Still else Heading(dir, Speed(k))
  }

  /** Pressing both keys of a pair leaves no motion along that pair; pressing all four stands still. */
  lemma OpposingKeysCancel(k: Keys)
    requires k.w && k.s && k.a && k.d
    ensures MotionOf(k) == Still
  {
  }

  /** The velocity the physics body reports back. */
  datatype Velocity = Velocity(x: real, y: real, z: real)

  /** Where the horizontal velocity of the frame's last `velocity.set` comes from. */
  datatype Horizontal =
    | Commanded(motion: Motion)
    | Kept(x: real, z: real)

  /** What a frame finally sets on the body. */
  datatype Command = Command(horizontal: Horizontal, vy: real)

  const JumpSpeed: real := 10.0
  /** Vertical speed below which the player counts as standing. */
  const GroundTolerance: real := 0.1

  function Abs(x: real): real {
    if x < 0.0 then -x else x
  }

  /**
   One frame: set the movement command with the body's own vertical velocity;
   then, when `space` is held and the vertical speed is below the tolerance,
   set the vertical velocity to the jump speed, and the horizontal velocity
   back to the one read from the body (the second `set` overrides the first).
   */
  function Frame(k: Keys, body: Velocity): (c: Command)
    ensures c.vy == JumpSpeed || c.vy == body.y
    ensures c.vy != body.y ==> k.space && Abs(body.y) < GroundTolerance
    ensures Abs(body.y) >= GroundTolerance ==> c == Command(Commanded(MotionOf(k)), body.y)
    ensures !k.space ==> c == Command(Commanded(MotionOf(k)), body.y)
    ensures k.space && Abs(body.y) < GroundTolerance ==> c == Command(Kept(body.x, body.z), JumpSpeed)
  {
    var moved := Command(Commanded(MotionOf(k)), body.y);
    if k.space && Abs(body.y) < GroundTolerance then Command(Kept(body.x, body.z), JumpSpeed) else moved
  }

  /** With no net direction and no jump, the commanded horizontal velocity is zero. */
  lemma ZeroDirectionStandsStill(k: Keys, body: Velocity)
    requires LocalDirection(k) == Direction(0, 0)
    requires !k.space || Abs(body.y) >= GroundTolerance
    ensures Frame(k, body).horizontal == Commanded(Still)
  {
  }

  /**
   No double jump: once a jump has set the vertical velocity and the body
   reports it back, holding space on the next frame adds nothing.
   */
  lemma NoDoubleJump(k: Keys, body: Velocity, next: Velocity)
    requires Frame(k, body).vy == JumpSpeed
    requires next.y == Frame(k, body).vy
    ensures Frame(k, next) == Command(Commanded(MotionOf(k)), next.y)
  {
  }

  /** Radians of rotation per pixel of pointer movement. */
  const Sensitivity: real := 0.002

  /** The camera's yaw (rotation about y) and pitch (rotation about x), in radians. */
  datatype Look = Look(yaw: real, pitch: real)

  function Max(x: real, y: real): real {
    if x >= y then x else y
  }

  function Min(x: real, y: real): real {
    if x <= y then x else y
  }

  /** `Math.max(-limit, Math.min(limit, x))`: for a non-negative limit, the nearest point of [-limit, limit] to `x`. */
  function Clamp(x: real, limit: real): (r: real)
    ensures limit >= 0.0 ==> -limit <= r <= limit
    ensures -limit <= x <= limit ==> r == x
    ensures limit >= 0.0 && x > limit ==> r == limit
    ensures x < -limit ==> r == -limit
  {
    Max(-limit, Min(limit, x))
  }

  /**
   `handleMouseMove`: ignored unless the pointer is locked; otherwise the
   movement turns the yaw freely and clamps the pitch to [-limit, limit], where
   `limit` stands for the source's bound, pi / 2.
   */
  function MouseLook(look: Look, locked: bool, dx: real, dy: real, limit: real): (r: Look)
    ensures !locked ==> r == look
    ensures locked ==> r.yaw == look.yaw - dx * Sensitivity
    ensures locked && limit >= 0.0 ==> -limit <= r.pitch <= limit
    ensures locked && -limit <= look.pitch - dy * Sensitivity <= limit ==> r.pitch == look.pitch - dy * Sensitivity
  {
    if !locked then look
    else Look(look.yaw - dx * Sensitivity, Clamp(look.pitch - dy * Sensitivity, limit))
  }

  /** Which key lookup the handlers run: the code as written, or the one that recognises the space bar. */
  datatype Lookup = AsWritten | Corrected

  /** The flag a key value reaches under the chosen lookup. */
  function FlagUnder(lookup: Lookup, key: string): Option<Flag> {
    match lookup
    case AsWritten => FlagOfKey(key)
    case Corrected => FlagOfKeyFixed(key)
  }

  /** The key-down handler under the chosen lookup: the flag it reaches becomes held, the others keep their state. */
  function Press(lookup: Lookup, k: Keys, key: string): (r: Keys)
    ensures forall f :: Get(r, f) == (Get(k, f) || FlagUnder(lookup, key) == Some(f))
  {
    match lookup
    case AsWritten => KeyDown(k, key)
    case Corrected => KeyDownFixed(k, key)
  }

  /** The key-up handler under the chosen lookup: the flag it reaches becomes released, the others keep their state. */
  function Release(lookup: Lookup, k: Keys, key: string): (r: Keys)
    ensures forall f :: Get(r, f) == (Get(k, f) && FlagUnder(lookup, key) != Some(f))
  {
    match lookup
    case AsWritten => KeyUp(k, key)
    case Corrected => KeyUpFixed(k, key)
  }

  /** The controller's state between events. */
  datatype State = State(keys: Keys, locked: bool, look: Look)

  const Initial: State := State(Released, false, Look(0.0, 0.0))

  /** The host events the controller listens to. */
  datatype Event =
    | KeyPress(key: string)
    | KeyRelease(key: string)
    | Click
    | LockChange(ownsLock: bool)
    | MouseMove(dx: real, dy: real)

  /** What an event asks of the outside world. */
  datatype Effect = NoEffect | RequestLock | Interact

  datatype Outcome = Outcome(state: State, effect: Effect)

  /**
   One event: key presses and releases move the flags (and "e" interacts),
   a click requests the lock or, once locked, interacts, the lock-change
   signal records whether the canvas holds the lock, and pointer movement
   turns the camera. `AsWritten` is the controller as the code stands.
   */
  function Step(st: State, e: Event, limit: real, lookup: Lookup): (o: Outcome)
    ensures !e.LockChange? ==> o.state.locked == st.locked
    ensures e.LockChange? ==> o.state == st.(locked := e.ownsLock) && o.effect == NoEffect
    ensures e.Click? ==> o.state == st && o.effect == (if st.locked then Interact else RequestLock)
    ensures o.effect == Interact <==> (e.Click? && st.locked) || (e.KeyPress? && Js.ToLower(e.key) == "e")
    ensures o.effect == RequestLock <==> e.Click? && !st.locked
    ensures !e.KeyPress? && !e.KeyRelease? ==> o.state.keys == st.keys
    ensures !e.MouseMove? ==> o.state.look == st.look
  {
    match e
    case KeyPress(key) =>
      Outcome(st.(keys := Press(lookup, st.keys, key)), if Js.ToLower(key) == "e" then Interact else NoEffect)
    case KeyRelease(key) =>
      Outcome(st.(keys := Release(lookup, st.keys, key)), NoEffect)
    case Click =>
      Outcome(st, if st.locked then Interact else RequestLock)
    case LockChange(owns) =>
      Outcome(st.(locked := owns), NoEffect)
    case MouseMove(dx, dy) =>
      Outcome(st.(look := MouseLook(st.look, st.locked, dx, dy, limit)), NoEffect)
  }

  /** The state after a sequence of events, in order. */
  function Run(st: State, events: seq<Event>, limit: real, lookup: Lookup): State
    decreases |events|
  {
    if |events| == 0 then st
    else Step(Run(st, events[..|events| - 1], limit, lookup), events[|events| - 1], limit, lookup).state
  }

  /** The value of the most recent lock-change signal, or `initial` if there was none. */
  function LastLockSignal(events: seq<Event>, initial: bool): bool
    decreases |events|
  {
    if |events| == 0 then initial
    else if events[|events| - 1].LockChange? then events[|events| - 1].ownsLock
    else LastLockSignal(events[..|events| - 1], initial)
  }

  /** Only the lock-change signal moves the lock flag: after any events it holds the last signal's value. */
  lemma {:induction false} LockedIsLastSignal(st: State, events: seq<Event>, limit: real, lookup: Lookup)
    ensures Run(st, events, limit, lookup).locked == LastLockSignal(events, st.locked)
    decreases |events|
  {
    if |events| > 0 {
      LockedIsLastSignal(st, events[..|events| - 1], limit, lookup);
    }
  }

  /** Whether flag `f` is held after the events: the most recent press or release that reaches it decides. */
  function LastKeyState(events: seq<Event>, f: Flag, initial: bool, lookup: Lookup): bool
    decreases |events|
  {
    if |events| == 0 then initial
    else
      var e := events[|events| - 1];
      if e.KeyPress? && FlagUnder(lookup, e.key) == Some(f) then true
      else if e.KeyRelease? && FlagUnder(lookup, e.key) == Some(f) then false
      else LastKeyState(events[..|events| - 1], f, initial, lookup)
  }

  /** After any events, each flag is held exactly when its most recent press came after its most recent release. */
  lemma {:induction false} KeysFollowLastPress(st: State, events: seq<Event>, f: Flag, limit: real, lookup: Lookup)
    ensures Get(Run(st, events, limit, lookup).keys, f) == LastKeyState(events, f, Get(st.keys, f), lookup)
    decreases |events|
  {
    if |events| > 0 {
      KeysFollowLastPress(st, events[..|events| - 1], f, limit, lookup);
    }
  }

  /** Whatever the events, a pitch that starts within the bound stays within it. */
  lemma {:induction false} PitchStaysBounded(st: State, events: seq<Event>, limit: real, lookup: Lookup)
    requires limit >= 0.0
    requires -limit <= st.look.pitch <= limit
    ensures -limit <= Run(st, events, limit, lookup).look.pitch <= limit
    decreases |events|
  {
    if |events| > 0 {
      PitchStaysBounded(st, events[..|events| - 1], limit, lookup);
    }
  }

  /** While the pointer is unlocked, pointer movement is discarded, not buffered: the camera does not move. */
  lemma UnlockedMouseIgnored(st: State, dx: real, dy: real, limit: real, lookup: Lookup)
    requires !st.locked
    ensures Step(st, MouseMove(dx, dy), limit, lookup) == Outcome(st, NoEffect)
  {
  }

  /**
   The controller as written never jumps: unless some key value lower-cases
   to "space" (no key of the UI Events key-value list does; the space bar's
   is " "), the `space` flag stays released whatever the events, so every
   frame passes the body's vertical velocity through.
   */
  lemma {:induction false} NeverJumpsAsWritten(st: State, events: seq<Event>, limit: real, body: Velocity)
    requires !st.keys.space
    requires forall i :: 0 <= i < |events| && events[i].KeyPress? ==> Js.ToLower(events[i].key) != "space"
    ensures !Run(st, events, limit, AsWritten).keys.space
    ensures Frame(Run(st, events, limit, AsWritten).keys, body).vy == body.y
    decreases |events|
  {
    if |events| > 0 {
      var prefix, e := events[..|events| - 1], events[|events| - 1];
      assert forall i :: 0 <= i < |prefix| && prefix[i].KeyPress? ==> Js.ToLower(prefix[i].key) != "space" by {
        forall i | 0 <= i < |prefix| && prefix[i].KeyPress?
          ensures Js.ToLower(prefix[i].key) != "space"
        {
          assert prefix[i] == events[i];
        }
      }
      NeverJumpsAsWritten(st, prefix, limit, body);
      var before := Run(st, prefix, limit, AsWritten);
      if e.KeyPress? {
        assert FlagUnder(AsWritten, e.key) != Some(Space);
      }
      assert Run(st, events, limit, AsWritten) == Step(before, e, limit, AsWritten).state;
    }
  }

  /**
   With the space bar recognised, a player standing still who presses it
   jumps on the next frame.
   */
  lemma SpaceBarJumpsWhenFixed(limit: real, body: Velocity)
    requires body.y == 0.0
    ensures Frame(Run(Initial, [KeyPress(" ")], limit, Corrected).keys, body).vy == JumpSpeed
  {
    assert Js.ToLower(" ") == " ";
  }

}
