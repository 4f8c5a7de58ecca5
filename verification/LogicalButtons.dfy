/**
 Pico-Sketch's logical buttons: four sampled buttons become key events, by chord, by hold and by
 repeat. A tick-driven state machine, and what every run of it emits.
 */
module LogicalButtons {
  import opened Sequences

  datatype Option<+T> = None | Some(value: T)

  datatype Key = Alt | Color | Size | Right | Left | Down | Up | Clear

  /** Which buttons are down. */
  datatype Buttons = Buttons(a: bool, b: bool, x: bool, y: bool)

  datatype Mode = Idle | KeyPressed | HeldDown | WaitingAllReleased

  /** The statics that outlive a tick. `latched` is set before it is read. */
  datatype State = State(mode: Mode, delay: nat, prev: Buttons, latched: Option<Key>)

  /** The hold and repeat counts, an `unsigned` each. */
  datatype Config = Config(hold: nat, repeat: nat)

  const UINT_MAX := 0xFFFF_FFFF

  ghost predicate ValidConfig(c: Config) {
    1 <= c.hold <= UINT_MAX && 1 <= c.repeat <= UINT_MAX
  }

  // ---------- Keys ----------

  /** The key of a set of held buttons, from the mask table. */
  function KeyOf(m: Buttons): Option<Key> {
    match m
    case Buttons(true, false, false, false) => Some(Alt)
    case Buttons(false, true, false, false) => Some(Color)
    case Buttons(true, true, false, false) => Some(Size)
    case Buttons(false, false, true, false) => Some(Right)
    case Buttons(true, false, true, false) => Some(Left)
    case Buttons(false, false, false, true) => Some(Down)
    case Buttons(true, false, false, true) => Some(Up)
    case Buttons(true, true, true, false) => Some(Clear)
    case _ => None
  }

  function Bit(b: bool): nat {
    if b then 1 else 0
  }

  /** The bits of the mask that the source looks up: A is the lowest. */
  function Mask(m: Buttons): nat {
    Bit(m.a) + 2 * Bit(m.b) + 4 * Bit(m.x) + 8 * Bit(m.y)
  }

  /** Which masks have a key, and which. */
  lemma KeyTable(m: Buttons)
    ensures KeyOf(m) == Some(Alt) <==> Mask(m) == 1
    ensures KeyOf(m) == Some(Color) <==> Mask(m) == 2
    ensures KeyOf(m) == Some(Size) <==> Mask(m) == 1 + 2
    ensures KeyOf(m) == Some(Right) <==> Mask(m) == 4
    ensures KeyOf(m) == Some(Left) <==> Mask(m) == 1 + 4
    ensures KeyOf(m) == Some(Down) <==> Mask(m) == 8
    ensures KeyOf(m) == Some(Up) <==> Mask(m) == 1 + 8
    ensures KeyOf(m) == Some(Clear) <==> Mask(m) == 1 + 2 + 4
  {}

  /** Two sets of buttons never share a key. */
  lemma KeysDiffer(m: Buttons, n: Buttons)
    requires KeyOf(m).Some? && KeyOf(m) == KeyOf(n)
    ensures m == n
  {}

  /** The keys that take more than one button; `isSingleKeyEvent_` is cleared for them. */
  predicate IsChord(k: Option<Key>) {
    k.Some? && (k.value == Size || k.value == Left || k.value == Up || k.value == Clear)
  }

  /** A key is a chord if and only if it takes more than one button. */
  lemma ChordIsSeveral(m: Buttons)
    ensures IsChord(KeyOf(m)) <==> KeyOf(m).Some? && Bit(m.a) + Bit(m.b) + Bit(m.x) + Bit(m.y) >= 2
  {}

  predicate Presses(prev: Buttons, now: Buttons) {
    (now.a && !prev.a) || (now.b && !prev.b) || (now.x && !prev.x) || (now.y && !prev.y)
  }

  predicate Releases(prev: Buttons, now: Buttons) {
    (!now.a && prev.a) || (!now.b && prev.b) || (!now.x && prev.x) || (!now.y && prev.y)
  }

  /** What is down now, with the first released button, in the order A, B, X, Y, put back. */
  function WithReleased(prev: Buttons, now: Buttons): Buttons {
    if !now.a && prev.a then now.(a := true)
    else if !now.b && prev.b then now.(b := true)
    else if !now.x && prev.x then now.(x := true)
    else if !now.y && prev.y then now.(y := true)
    else now
  }

  // ---------- One tick ----------

  /** Unsigned decrement. */
  function Dec(n: nat): nat {
    if n == 0 then UINT_MAX else n - 1
  }

  function Tick(c: Config, s: State, now: Buttons): (State, Option<Key>) {
    var t := s.(prev := now);
    match s.mode
    case Idle => (if Presses(s.prev, now) then t.(mode := KeyPressed, delay := c.hold) else t, None)
    case KeyPressed =>
      if Releases(s.prev, now) then
        var key := KeyOf(WithReleased(s.prev, now));
        (t.(mode := if IsChord(key) then WaitingAllReleased else Idle), key)
      else if Dec(s.delay) == 0 then
        (t.(mode := HeldDown, delay := c.repeat, latched := KeyOf(now)), KeyOf(now))
      else (t.(delay := Dec(s.delay)), None)
    case WaitingAllReleased => (if !now.b && !now.x && !now.y then t.(mode := Idle) else t, None)
    case HeldDown =>
      if Releases(s.prev, now) then (t.(mode := Idle), s.latched)
      else if s.latched == Some(Alt) then (t, None)
      else if Dec(s.delay) == 0 then (t.(delay := c.repeat), s.latched)
      else (t.(delay := Dec(s.delay)), None)
  }

  /** The counter is positive wherever it is about to be decremented, so it never wraps. */
  ghost predicate Invariant(c: Config, s: State) {
    (s.mode == KeyPressed ==> 1 <= s.delay <= c.hold) && (s.mode == HeldDown ==> 1 <= s.delay <= c.repeat)
  }

  lemma TickKeeps(c: Config, s: State, now: Buttons)
    requires ValidConfig(c) && Invariant(c, s)
    ensures Invariant(c, Tick(c, s, now).0)
    ensures s.mode == KeyPressed || s.mode == HeldDown ==> Dec(s.delay) == s.delay - 1
  {}

  // ---------- Runs ----------

  function After(c: Config, s: State, samples: seq<Buttons>): State
    decreases |samples|
  {
    if samples == [] then s else After(c, Tick(c, s, samples[0]).0, samples[1..])
  }

  /** The key events of a run, in order. */
  function Events(c: Config, s: State, samples: seq<Buttons>): seq<Key>
    decreases |samples|
  {
    if samples == [] then [] else
    var (t, e) := Tick(c, s, samples[0]);
    (if e.Some? then [e.value] else []) + Events(c, t, samples[1..])
  }

  lemma {:induction false} RunConcat(c: Config, s: State, a: seq<Buttons>, b: seq<Buttons>)
    ensures After(c, s, a + b) == After(c, After(c, s, a), b)
    ensures Events(c, s, a + b) == Events(c, s, a) + Events(c, After(c, s, a), b)
    decreases |a|
  {
    if a == [] {
      assert a + b == b;
    } else {
      assert (a + b)[0] == a[0] && (a + b)[1..] == a[1..] + b;
      var (t, e) := Tick(c, s, a[0]);
      RunConcat(c, t, a[1..], b);
      ConcatAssoc(if e.Some? then [e.value] else [], Events(c, t, a[1..]), Events(c, After(c, t, a[1..]), b));
    }
  }

  lemma {:induction false} RunKeeps(c: Config, s: State, samples: seq<Buttons>)
    requires ValidConfig(c) && Invariant(c, s)
    ensures Invariant(c, After(c, s, samples))
    decreases |samples|
  {
    if samples != [] {
      TickKeeps(c, s, samples[0]);
      RunKeeps(c, Tick(c, s, samples[0]).0, samples[1..]);
    }
  }

  // ---------- Episodes ----------

  /** No button is released during the samples, the first of them compared with `prev`. */
  ghost predicate NoRelease(prev: Buttons, samples: seq<Buttons>)
    decreases |samples|
  {
    samples == [] || (!Releases(prev, samples[0]) && NoRelease(samples[0], samples[1..]))
  }

  function LastOf(prev: Buttons, samples: seq<Buttons>): Buttons {
    if samples == [] then prev else samples[|samples| - 1]
  }

  function Times(k: Key, n: nat): (r: seq<Key>)
    ensures |r| == n && forall i :: 0 <= i < n ==> r[i] == k
  {
    if n == 0 then [] else [k] + Times(k, n - 1)
  }

  /** While the key is pressed and the hold count has not run out, nothing is emitted. */
  lemma {:induction false} PressedPhase(c: Config, s: State, mid: seq<Buttons>)
    requires s.mode == KeyPressed && NoRelease(s.prev, mid) && |mid| < s.delay
    ensures Events(c, s, mid) == []
    ensures After(c, s, mid) == s.(delay := s.delay - |mid|, prev := LastOf(s.prev, mid))
    decreases |mid|
  {
    if mid != [] {
      var t := Tick(c, s, mid[0]).0;
      PressedPhase(c, t, mid[1..]);
    }
  }

  /** How many repeats `m` ticks bring when the counter stands at `d`. */
  function Repeats(c: Config, d: nat, m: nat): nat
    requires c.repeat >= 1
  {
    if m < d then 0 else 1 + (m - d) / c.repeat
  }

  lemma RepeatsStep(c: Config, d: nat, m: nat)
    requires c.repeat >= 1 && d >= 1 && m >= 1
    ensures Repeats(c, d, m) == if d == 1 then 1 + Repeats(c, c.repeat, m - 1) else Repeats(c, d - 1, m - 1)
  {
    if d == 1 && m - 1 >= c.repeat { DivStep(m - 1, c.repeat); }
  }

  lemma DivStep(x: nat, y: nat)
    requires x >= y >= 1
    ensures x / y == 1 + (x - y) / y
  {
    var q, r := (x - y) / y, (x - y) % y;
    assert x - y == q * y + r;
    assert x == (q + 1) * y + r;
    DivUnique(x, y, q + 1, r);
  }

  lemma DivUnique(x: int, y: int, q: int, r: int)
    requires y >= 1 && x == q * y + r && 0 <= r < y
    ensures x / y == q
  {
    var d := x / y - q;
    assert x == (x / y) * y + x % y;
    assert d * y == r - x % y;
    MulBounds(d, y);
  }

  lemma MulBounds(d: int, y: int)
    requires y >= 1
    ensures d >= 1 ==> d * y >= y
    ensures d <= -1 ==> d * y <= -y
  {}

  /** While the key is held down, the latched key repeats, unless it is Alt or no key at all. */
  lemma {:induction false} HeldPhase(c: Config, s: State, mid: seq<Buttons>)
    requires c.repeat >= 1 && s.mode == HeldDown && s.delay >= 1 && NoRelease(s.prev, mid)
    ensures var t := After(c, s, mid);
            t.mode == HeldDown && t.latched == s.latched && t.prev == LastOf(s.prev, mid)
    ensures Events(c, s, mid) ==
            if s.latched.None? || s.latched == Some(Alt) then [] else Times(s.latched.value, Repeats(c, s.delay, |mid|))
    decreases |mid|
  {
    if mid != [] {
      var t := Tick(c, s, mid[0]).0;
      HeldPhase(c, t, mid[1..]);
      if s.latched != Some(Alt) { RepeatsStep(c, s.delay, |mid|); }
    }
  }

  /** A press in idle, `mid` ticks without a release, and the tick of the first release. */
  ghost predicate Episode(s: State, press: Buttons, mid: seq<Buttons>, release: Buttons) {
    && s.mode == Idle && Presses(s.prev, press)
    && NoRelease(press, mid) && Releases(LastOf(press, mid), release)
  }

  function EpisodeEvents(key: Option<Key>, n: nat): seq<Key> {
    if key.None? then [] else Times(key.value, n)
  }

  /** A short episode emits its key once, and waits for the other buttons if the key is a chord. */
  lemma ShortEpisode(c: Config, s: State, press: Buttons, mid: seq<Buttons>, release: Buttons)
    requires ValidConfig(c) && Episode(s, press, mid, release) && |mid| < c.hold
    ensures var key := KeyOf(WithReleased(LastOf(press, mid), release));
            && Events(c, s, [press] + mid + [release]) == EpisodeEvents(key, 1)
            && After(c, s, [press] + mid + [release]).mode == if IsChord(key) then WaitingAllReleased else Idle
  {
    var t := Tick(c, s, press).0;
    PressedPhase(c, t, mid);
    EpisodeRun(c, s, press, mid, release);
    OneTick(c, After(c, t, mid), release);
  }

  /** How often a long episode of `n` ticks has emitted its key before the release. */
  function HeldEvents(c: Config, key: Option<Key>, n: nat): nat
    requires c.repeat >= 1 && n >= c.hold
  {
    if key == Some(Alt) then 1 else 1 + Repeats(c, c.repeat, n - c.hold)
  }

  /** The tick on which the hold count runs out, and those after it. */
  lemma LatchPhase(c: Config, u: State, tail: seq<Buttons>)
    requires ValidConfig(c) && u.mode == KeyPressed && u.delay == 1 && tail != [] && NoRelease(u.prev, tail)
    ensures var key, v := KeyOf(tail[0]), After(c, u, tail);
            && Events(c, u, tail) == EpisodeEvents(key, HeldEvents(c, key, c.hold + |tail| - 1))
            && v.mode == HeldDown && v.latched == key && v.prev == LastOf(u.prev, tail)
  {
    HeldPhase(c, Tick(c, u, tail[0]).0, tail[1..]);
  }

  /** Up to the hold count and from there to just before the release of a long episode. */
  lemma HoldParts(c: Config, t: State, first: seq<Buttons>, tail: seq<Buttons>)
    requires ValidConfig(c) && t.mode == KeyPressed && t.delay == c.hold == |first| + 1
    requires tail != [] && NoRelease(t.prev, first) && NoRelease(LastOf(t.prev, first), tail)
    ensures var key, v := KeyOf(tail[0]), After(c, t, first + tail);
            && Events(c, t, first + tail) == EpisodeEvents(key, HeldEvents(c, key, |first| + |tail|))
            && v.mode == HeldDown && v.latched == key && v.prev == tail[|tail| - 1]
  {
    PressedPhase(c, t, first);
    LatchPhase(c, After(c, t, first), tail);
    RunConcat(c, t, first, tail);
  }

  lemma HoldPhase(c: Config, t: State, mid: seq<Buttons>)
    requires ValidConfig(c) && t.mode == KeyPressed && t.delay == c.hold <= |mid| && NoRelease(t.prev, mid)
    ensures var key, v := KeyOf(mid[c.hold - 1]), After(c, t, mid);
            && Events(c, t, mid) == EpisodeEvents(key, HeldEvents(c, key, |mid|))
            && v.mode == HeldDown && v.latched == key && v.prev == mid[|mid| - 1]
  {
    var first, tail := mid[..c.hold - 1], mid[c.hold - 1..];
    assert first + tail == mid;
    NoReleaseSplit(t.prev, first, tail);
    HoldParts(c, t, first, tail);
  }

  /** The release of a key held down emits it once more. */
  lemma HeldRelease(c: Config, v: State, release: Buttons)
    requires v.mode == HeldDown && Releases(v.prev, release)
    ensures After(c, v, [release]).mode == Idle && Events(c, v, [release]) == EpisodeEvents(v.latched, 1)
  {
    OneTick(c, v, release);
  }

  lemma OneEventMore(key: Option<Key>, n: nat)
    ensures EpisodeEvents(key, n) + EpisodeEvents(key, 1) == EpisodeEvents(key, n + 1)
  {
    if key.Some? { TimesMore(key.value, n); }
  }

  lemma PressTick(c: Config, s: State, press: Buttons)
    requires s.mode == Idle && Presses(s.prev, press)
    ensures After(c, s, [press]) == s.(mode := KeyPressed, delay := c.hold, prev := press)
    ensures Events(c, s, [press]) == []
  {
    OneTick(c, s, press);
  }

  /** A long episode latches what is held when the hold count runs out, and repeats it until the release. */
  lemma LongEpisode(c: Config, s: State, press: Buttons, mid: seq<Buttons>, release: Buttons)
    requires ValidConfig(c) && Episode(s, press, mid, release) && |mid| >= c.hold
    ensures var key := KeyOf(mid[c.hold - 1]);
            var n := if key == Some(Alt) then 2 else 2 + (|mid| - c.hold) / c.repeat;
            && Events(c, s, [press] + mid + [release]) == EpisodeEvents(key, n)
            && After(c, s, [press] + mid + [release]).mode == Idle
  {
    var t, key := After(c, s, [press]), KeyOf(mid[c.hold - 1]);
    PressTick(c, s, press);
    HoldPhase(c, t, mid);
    HeldRelease(c, After(c, t, mid), release);
    EpisodeRun(c, s, press, mid, release);
    OneEventMore(key, HeldEvents(c, key, |mid|));
    AllHeldEvents(c, key, |mid|);
  }

  lemma AllHeldEvents(c: Config, key: Option<Key>, n: nat)
    requires c.repeat >= 1 && n >= c.hold
    ensures HeldEvents(c, key, n) + 1 == if key == Some(Alt) then 2 else 2 + (n - c.hold) / c.repeat
  {
    RepeatsFull(c, n - c.hold);
  }

  lemma RepeatsFull(c: Config, m: nat)
    requires c.repeat >= 1
    ensures Repeats(c, c.repeat, m) == m / c.repeat
  {
    if m >= c.repeat { DivStep(m, c.repeat); } else { DivUnique(m, c.repeat, 0, m); }
  }

  lemma TimesMore(k: Key, n: nat)
    ensures Times(k, n) + [k] == Times(k, n + 1)
  {}

  lemma {:induction false} NoReleaseSplit(prev: Buttons, a: seq<Buttons>, b: seq<Buttons>)
    requires NoRelease(prev, a + b)
    ensures NoRelease(prev, a) && NoRelease(LastOf(prev, a), b)
    decreases |a|
  {
    if a == [] {
      assert a + b == b;
    } else {
      assert (a + b)[0] == a[0] && (a + b)[1..] == a[1..] + b;
      NoReleaseSplit(a[0], a[1..], b);
    }
  }

  lemma OneTick(c: Config, s: State, now: Buttons)
    ensures After(c, s, [now]) == Tick(c, s, now).0
    ensures Events(c, s, [now]) == if Tick(c, s, now).1.Some? then [Tick(c, s, now).1.value] else []
  {
    assert [now][1..] == [];
  }

  lemma EpisodeRun(c: Config, s: State, press: Buttons, mid: seq<Buttons>, release: Buttons)
    ensures var t := After(c, s, [press]);
            && After(c, s, [press] + mid + [release]) == After(c, After(c, t, mid), [release])
            && Events(c, s, [press] + mid + [release]) ==
               Events(c, s, [press]) + Events(c, t, mid) + Events(c, After(c, t, mid), [release])
    ensures After(c, s, [press]) == Tick(c, s, press).0
  {
    RunConcat(c, s, [press] + mid, [release]);
    RunConcat(c, s, [press], mid);
    OneTick(c, s, press);
  }

  // ---------- Which key, and no key out of nowhere ----------

  /** How many buttons differ between two samples. */
  function Edges(prev: Buttons, now: Buttons): nat {
    Bit(prev.a != now.a) + Bit(prev.b != now.b) + Bit(prev.x != now.x) + Bit(prev.y != now.y)
  }

  /**
   On a tick with a release, the key of the buttons held before it, if they have one, is emitted exactly when nothing
   else changed.
   */
  lemma KeyIsOfHeldSet(prev: Buttons, now: Buttons)
    requires Releases(prev, now)
    ensures KeyOf(prev).Some? ==> (KeyOf(WithReleased(prev, now)) == KeyOf(prev) <==> Edges(prev, now) == 1)
    ensures KeyOf(prev).None? && Edges(prev, now) == 1 ==> KeyOf(WithReleased(prev, now)).None?
  {}

  predicate Open(m: Mode) {
    m == KeyPressed || m == HeldDown
  }

  /** The state before each tick of a run. */
  function StateAt(c: Config, s: State, samples: seq<Buttons>, k: nat): State
    requires k <= |samples|
  {
    After(c, s, samples[..k])
  }

  lemma StateAtStep(c: Config, s: State, samples: seq<Buttons>, k: nat)
    requires k < |samples|
    ensures StateAt(c, s, samples, k + 1) == Tick(c, StateAt(c, s, samples, k), samples[k]).0
  {
    assert samples[..k + 1] == samples[..k] + [samples[k]];
    RunConcat(c, s, samples[..k], [samples[k]]);
    OneTick(c, StateAt(c, s, samples, k), samples[k]);
  }

  /** An open episode was opened by a press in idle, and has stayed open since. */
  lemma {:induction false} OpenedByPress(c: Config, s: State, samples: seq<Buttons>, k: nat) returns (p: nat)
    requires k <= |samples| && s.mode == Idle && Open(StateAt(c, s, samples, k).mode)
    ensures p < k && StateAt(c, s, samples, p).mode == Idle
    ensures Presses(StateAt(c, s, samples, p).prev, samples[p])
    ensures forall i :: p < i <= k ==> Open(StateAt(c, s, samples, i).mode)
  {
    assert k > 0;
    StateAtStep(c, s, samples, k - 1);
    var before := StateAt(c, s, samples, k - 1);
    if before.mode == Idle {
      p := k - 1;
    } else {
      p := OpenedByPress(c, s, samples, k - 1);
    }
  }

  /** Over every run from idle: a tick that emits a key is in an episode opened by a press in idle. */
  lemma EventNeedsPress(c: Config, s: State, samples: seq<Buttons>, k: nat) returns (p: nat)
    requires k < |samples| && s.mode == Idle && Tick(c, StateAt(c, s, samples, k), samples[k]).1.Some?
    ensures p < k && StateAt(c, s, samples, p).mode == Idle
    ensures Presses(StateAt(c, s, samples, p).prev, samples[p])
    ensures forall i :: p < i <= k ==> Open(StateAt(c, s, samples, i).mode)
  {
    p := OpenedByPress(c, s, samples, k);
  }

  ghost predicate NoPress(prev: Buttons, samples: seq<Buttons>)
    decreases |samples|
  {
    samples == [] || (!Presses(prev, samples[0]) && NoPress(samples[0], samples[1..]))
  }

  /** After an episode has closed, releasing the rest emits nothing. */
  lemma {:induction false} LaterReleasesAreQuiet(c: Config, s: State, samples: seq<Buttons>)
    requires !Open(s.mode) && NoPress(s.prev, samples)
    ensures Events(c, s, samples) == [] && !Open(After(c, s, samples).mode)
    decreases |samples|
  {
    if samples != [] { LaterReleasesAreQuiet(c, Tick(c, s, samples[0]).0, samples[1..]); }
  }

  // ---------- Episodes with everything after them ----------

  lemma {:induction false} PrevIsLast(c: Config, s: State, samples: seq<Buttons>)
    ensures After(c, s, samples).prev == LastOf(s.prev, samples)
    decreases |samples|
  {
    if samples != [] { PrevIsLast(c, Tick(c, s, samples[0]).0, samples[1..]); }
  }

  /** Once an episode has closed, releases add nothing to its events. */
  lemma ClosedRunStays(c: Config, s: State, run: seq<Buttons>, later: seq<Buttons>)
    requires run != [] && !Open(After(c, s, run).mode) && NoPress(run[|run| - 1], later)
    ensures Events(c, s, run + later) == Events(c, s, run) && !Open(After(c, s, run + later).mode)
  {
    PrevIsLast(c, s, run);
    LaterReleasesAreQuiet(c, After(c, s, run), later);
    RunConcat(c, s, run, later);
    assert Events(c, s, run) + [] == Events(c, s, run);
  }

  /**
   A press released before the hold count runs out, one button alone first: the key of what was held, once, whichever
   button was released first and however the others follow.
   */
  lemma ShortPressEmitsItsKey(
    c: Config, s: State, press: Buttons, mid: seq<Buttons>, release: Buttons, later: seq<Buttons>)
    requires ValidConfig(c) && Episode(s, press, mid, release) && |mid| < c.hold
    requires Edges(LastOf(press, mid), release) == 1 && NoPress(release, later)
    ensures Events(c, s, [press] + mid + [release] + later) == EpisodeEvents(KeyOf(LastOf(press, mid)), 1)
  {
    ShortEpisode(c, s, press, mid, release);
    KeyIsOfHeldSet(LastOf(press, mid), release);
    ClosedRunStays(c, s, [press] + mid + [release], later);
  }

  /**
   A longer press: what was held when the hold count ran out, as often as `LongEpisode` says, however it is released.
   */
  lemma LongPressEmitsItsKey(
    c: Config, s: State, press: Buttons, mid: seq<Buttons>, release: Buttons, later: seq<Buttons>)
    requires ValidConfig(c) && Episode(s, press, mid, release) && |mid| >= c.hold && NoPress(release, later)
    ensures var key := KeyOf(mid[c.hold - 1]);
            var n := if key == Some(Alt) then 2 else 2 + (|mid| - c.hold) / c.repeat;
            Events(c, s, [press] + mid + [release] + later) == EpisodeEvents(key, n)
  {
    LongEpisode(c, s, press, mid, release);
    ClosedRunStays(c, s, [press] + mid + [release], later);
  }

  // ---------- Waiting for a chord to be released ----------

  /** B, X and Y are up; A may still be down. */
  predicate ChordUp(now: Buttons) {
    !now.b && !now.x && !now.y
  }

  /** While one of B, X and Y is down, whatever is pressed meanwhile emits nothing and opens nothing. */
  lemma {:induction false} WaitingStays(c: Config, s: State, samples: seq<Buttons>)
    requires s.mode == WaitingAllReleased && forall b <- samples :: !ChordUp(b)
    ensures Events(c, s, samples) == [] && After(c, s, samples).mode == WaitingAllReleased
    decreases |samples|
  {
    if samples != [] {
      assert samples[0] in samples;
      WaitingStays(c, Tick(c, s, samples[0]).0, samples[1..]);
    }
  }

  /** Without a press, waiting is over from the first sample on with B, X and Y up, and not before. */
  lemma {:induction false} WaitingEndsIff(c: Config, s: State, samples: seq<Buttons>)
    requires s.mode == WaitingAllReleased && NoPress(s.prev, samples)
    ensures After(c, s, samples).mode ==
            if exists b <- samples :: ChordUp(b) then Idle else WaitingAllReleased
    decreases |samples|
  {
    if samples != [] {
      var t := Tick(c, s, samples[0]).0;
      assert samples == [samples[0]] + samples[1..];
      if ChordUp(samples[0]) {
        assert samples[0] in samples;
        IdleStays(c, t, samples[1..]);
      } else {
        WaitingEndsIff(c, t, samples[1..]);
      }
    }
  }

  lemma {:induction false} IdleStays(c: Config, s: State, samples: seq<Buttons>)
    requires s.mode == Idle && NoPress(s.prev, samples)
    ensures Events(c, s, samples) == [] && After(c, s, samples).mode == Idle
    decreases |samples|
  {
    if samples != [] { IdleStays(c, Tick(c, s, samples[0]).0, samples[1..]); }
  }

  // ---------- Any number of presses ----------

  /** A press, ticks without a release, the first release, and ticks without a press. */
  datatype Push = Push(press: Buttons, mid: seq<Buttons>, release: Buttons, later: seq<Buttons>)
  {
    function Samples(): seq<Buttons> {
      [press] + mid + [release] + later
    }

    /** What is down just before the first release. */
    function Down(): Buttons {
      LastOf(press, mid)
    }
  }

  /** A push after `prev`. If it is a short chord, B, X and Y are all up some time after the first release. */
  ghost predicate IsPush(c: Config, prev: Buttons, p: Push) {
    && Presses(prev, p.press) && NoRelease(p.press, p.mid) && Releases(p.Down(), p.release)
    && NoPress(p.release, p.later)
    && (|p.mid| < c.hold && IsChord(ShortKey(p)) ==> exists b <- p.later :: ChordUp(b))
  }

  /** The key of a short push. */
  function ShortKey(p: Push): Option<Key> {
    KeyOf(WithReleased(p.Down(), p.release))
  }

  /** It is the key of what was down, if there is one, if and only if one button alone is released first. */
  lemma ShortKeyIs(c: Config, prev: Buttons, p: Push)
    requires IsPush(c, prev, p)
    ensures Edges(p.Down(), p.release) == 1 ==> ShortKey(p) == KeyOf(p.Down())
    ensures KeyOf(p.Down()).Some? && ShortKey(p) == KeyOf(p.Down()) ==> Edges(p.Down(), p.release) == 1
  {
    KeyIsOfHeldSet(p.Down(), p.release);
  }

  /** The keys of a push: once if it is short; else the one held when the hold count runs out, and its repeats. */
  function PushEvents(c: Config, p: Push): seq<Key>
    requires c.hold >= 1 && c.repeat >= 1
  {
    if |p.mid| < c.hold then EpisodeEvents(ShortKey(p), 1) else
    var key := KeyOf(p.mid[c.hold - 1]);
    EpisodeEvents(key, if key == Some(Alt) then 2 else 2 + (|p.mid| - c.hold) / c.repeat)
  }

  /** Once closed, without a press, the buttons are idle in the end. */
  lemma SettlesIdle(c: Config, s: State, run: seq<Buttons>, later: seq<Buttons>)
    requires run != [] && NoPress(run[|run| - 1], later)
    requires var m := After(c, s, run).mode;
             m == Idle || (m == WaitingAllReleased && exists b <- later :: ChordUp(b))
    ensures After(c, s, run + later).mode == Idle
  {
    var t := After(c, s, run);
    PrevIsLast(c, s, run);
    RunConcat(c, s, run, later);
    if t.mode == Idle { IdleStays(c, t, later); } else { WaitingEndsIff(c, t, later); }
  }

  /** A push emits its keys and leaves the buttons ready for the next one. */
  lemma PushIs(c: Config, s: State, p: Push)
    requires ValidConfig(c) && s.mode == Idle && IsPush(c, s.prev, p)
    ensures Events(c, s, p.Samples()) == PushEvents(c, p)
    ensures After(c, s, p.Samples()).mode == Idle
  {
    if |p.mid| < c.hold { ShortPushIs(c, s, p); } else { LongPushIs(c, s, p); }
  }

  lemma ShortPushIs(c: Config, s: State, p: Push)
    requires ValidConfig(c) && s.mode == Idle && IsPush(c, s.prev, p) && |p.mid| < c.hold
    ensures Events(c, s, p.Samples()) == EpisodeEvents(ShortKey(p), 1)
    ensures After(c, s, p.Samples()).mode == Idle
  {
    ShortEpisode(c, s, p.press, p.mid, p.release);
    ClosedRunStays(c, s, [p.press] + p.mid + [p.release], p.later);
    SettlesIdle(c, s, [p.press] + p.mid + [p.release], p.later);
  }

  lemma LongPushIs(c: Config, s: State, p: Push)
    requires ValidConfig(c) && s.mode == Idle && IsPush(c, s.prev, p) && |p.mid| >= c.hold
    ensures Events(c, s, p.Samples()) == PushEvents(c, p)
    ensures After(c, s, p.Samples()).mode == Idle
  {
    LongPressEmitsItsKey(c, s, p.press, p.mid, p.release, p.later);
    LongEpisode(c, s, p.press, p.mid, p.release);
    SettlesIdle(c, s, [p.press] + p.mid + [p.release], p.later);
  }

  function AllSamples(ps: seq<Push>): seq<Buttons> {
    if ps == [] then [] else ps[0].Samples() + AllSamples(ps[1..])
  }

  function AllEvents(c: Config, ps: seq<Push>): seq<Key>
    requires c.hold >= 1 && c.repeat >= 1
  {
    if ps == [] then [] else PushEvents(c, ps[0]) + AllEvents(c, ps[1..])
  }

  ghost predicate ArePushes(c: Config, prev: Buttons, ps: seq<Push>)
    decreases |ps|
  {
    ps == [] || (IsPush(c, prev, ps[0]) && ArePushes(c, LastOf(prev, ps[0].Samples()), ps[1..]))
  }

  /** Any number of pushes, chords too: the keys are those of each push, one after the other. */
  lemma {:induction false} PushesEmitTheirKeys(c: Config, s: State, ps: seq<Push>)
    requires ValidConfig(c) && s.mode == Idle && ArePushes(c, s.prev, ps)
    ensures Events(c, s, AllSamples(ps)) == AllEvents(c, ps)
    ensures After(c, s, AllSamples(ps)).mode == Idle
    decreases |ps|
  {
    if ps != [] {
      var first := ps[0].Samples();
      PushIs(c, s, ps[0]);
      PrevIsLast(c, s, first);
      RunConcat(c, s, first, AllSamples(ps[1..]));
      PushesEmitTheirKeys(c, After(c, s, first), ps[1..]);
    }
  }

  // ---------- The delay counter ----------

  const NONE_DOWN := Buttons(false, false, false, false)
  const X_DOWN := Buttons(false, false, true, false)
  const AT_START := State(Idle, 0, NONE_DOWN, None)

  /** The tick decrements the counter at zero. */
  predicate Wraps(s: State, now: Buttons) {
    s.delay == 0 && !Releases(s.prev, now) && (s.mode == KeyPressed || (s.mode == HeldDown && s.latched != Some(Alt)))
  }

  ghost predicate CanWrap(c: Config) {
    exists samples, k :: WrapsAt(c, samples, k)
  }

  ghost predicate WrapsAt(c: Config, samples: seq<Buttons>, k: nat) {
    k < |samples| && Wraps(StateAt(c, AT_START, samples, k), samples[k])
  }

  function Held(n: nat): (r: seq<Buttons>)
    ensures |r| == n && forall i :: 0 <= i < n ==> r[i] == X_DOWN
  {
    seq(n, _ => X_DOWN)
  }

  lemma {:induction false} HeldHasNoRelease(n: nat)
    ensures NoRelease(X_DOWN, Held(n))
  {
    if n > 0 {
      assert Held(n)[1..] == Held(n - 1);
      HeldHasNoRelease(n - 1);
    }
  }

  /** With a hold count of zero the second tick of a press wraps. */
  lemma ZeroHoldWraps(c: Config)
    requires c.hold == 0
    ensures WrapsAt(c, Held(2), 1)
  {
    assert Held(2)[..1] == [X_DOWN];
    OneTick(c, AT_START, X_DOWN);
  }

  /** From there the counter runs through all of its values: nothing is emitted for as many ticks as it has. */
  lemma ZeroHoldWaits(c: Config, s: State, press: Buttons, mid: seq<Buttons>)
    requires c.hold == 0 && s.mode == Idle && Presses(s.prev, press) && NoRelease(press, mid) && |mid| <= UINT_MAX
    ensures Events(c, s, [press] + mid) == [] && After(c, s, [press] + mid).mode == KeyPressed
  {
    var t := After(c, s, [press]);
    PressTick(c, s, press);
    RunConcat(c, s, [press], mid);
    if mid != [] { PressedPhase(c, Tick(c, t, mid[0]).0, mid[1..]); }
  }

  /** With a repeat count of zero the tick after the hold count has run out wraps. */
  lemma ZeroRepeatWraps(c: Config)
    requires c.hold >= 1 && c.repeat == 0
    ensures WrapsAt(c, Held(c.hold + 2), c.hold + 1)
  {
    var n := c.hold - 1;
    var t := AT_START.(mode := KeyPressed, delay := c.hold, prev := X_DOWN);
    var u := AT_START.(mode := KeyPressed, delay := 1, prev := X_DOWN);
    OneTick(c, AT_START, X_DOWN);
    HeldHasNoRelease(n);
    PressedPhase(c, t, Held(n));
    assert After(c, t, Held(n)) == u;
    OneTick(c, u, X_DOWN);
    RunConcat(c, t, Held(n), [X_DOWN]);
    RunConcat(c, AT_START, [X_DOWN], Held(n) + [X_DOWN]);
    assert Held(c.hold + 2)[..c.hold + 1] == [X_DOWN] + (Held(n) + [X_DOWN]);
  }

  /** The counter can be decremented at zero in some run if and only if the hold or the repeat count is zero. */
  lemma WrapsIffZeroCount(c: Config)
    requires c.hold <= UINT_MAX && c.repeat <= UINT_MAX
    ensures CanWrap(c) <==> c.hold == 0 || c.repeat == 0
  {
    if c.hold == 0 {
      ZeroHoldWraps(c);
    } else if c.repeat == 0 {
      ZeroRepeatWraps(c);
    } else if samples, k :| WrapsAt(c, samples, k) {
      RunKeeps(c, AT_START, samples[..k]);
      assert false;
    }
  }

  // ---------- The statics and the tick as they are ----------

  datatype Edge = NoEdge | Pressed | Released | Time

  class Scanner {
    const config: Config
    var mode: Mode
    var delayCounter: nat
    var buttons: Buttons
    var latchedKey: Option<Key>
    var releaseEvent: bool
    var pressedEvent: bool
    var isSingleKeyEvent: bool

    ghost function Now(): State
      reads this
    {
      State(mode, delayCounter, buttons, latchedKey)
    }

    constructor (config: Config)
      ensures this.config == config && Now() == AT_START
    {
      this.config := config;
      mode, delayCounter, buttons, latchedKey := Idle, 0, NONE_DOWN, None;
      releaseEvent, pressedEvent, isSingleKeyEvent := false, false, true;
    }

    method DetectEdge(current: bool, previous: bool) returns (edge: Edge)
      modifies this`releaseEvent, this`pressedEvent
      ensures edge == if current && !previous then Pressed else if !current && previous then Released else NoEdge
      ensures pressedEvent == (old(pressedEvent) || edge == Pressed)
      ensures releaseEvent == (old(releaseEvent) || edge == Released)
    {
      edge := NoEdge;
      if current && !previous {
        pressedEvent := true;
        edge := Pressed;
      } else if !current && previous {
        releaseEvent := true;
        edge := Released;
      }
    }

    method LookUpLogicalKey(m: Buttons) returns (key: Option<Key>)
      modifies this`isSingleKeyEvent
      ensures key == KeyOf(m) && isSingleKeyEvent == (old(isSingleKeyEvent) && !IsChord(key))
    {
      key := KeyOf(m);
      if IsChord(key) { isSingleKeyEvent := false; }
    }

    /** The first released button is put back; a timeout, passed as the edge of A, takes what is held; else no key. */
    method GetLogicalKey(edgeA: Edge, edgeB: Edge, edgeX: Edge, edgeY: Edge, now: Buttons) returns (key: Option<Key>)
      modifies this`isSingleKeyEvent
      ensures key == if edgeA == Released then KeyOf(now.(a := true))
                     else if edgeB == Released then KeyOf(now.(b := true))
                     else if edgeX == Released then KeyOf(now.(x := true))
                     else if edgeY == Released then KeyOf(now.(y := true))
                     else if edgeA == Time then KeyOf(now)
                     else None
      ensures isSingleKeyEvent == (old(isSingleKeyEvent) && !IsChord(key))
    {
      key := None;
      if edgeA == Released {
        key := LookUpLogicalKey(now.(a := true));
      } else if edgeB == Released {
        key := LookUpLogicalKey(now.(b := true));
      } else if edgeX == Released {
        key := LookUpLogicalKey(now.(x := true));
      } else if edgeY == Released {
        key := LookUpLogicalKey(now.(y := true));
      } else if edgeA == Time {
        key := LookUpLogicalKey(now);
      }
    }

    method KeyPressedTick(edgeA: Edge, edgeB: Edge, edgeX: Edge, edgeY: Edge, now: Buttons) returns (event: Option<Key>)
      requires mode == KeyPressed && isSingleKeyEvent
      requires edgeA == Released <==> !now.a && buttons.a
      requires edgeB == Released <==> !now.b && buttons.b
      requires edgeX == Released <==> !now.x && buttons.x
      requires edgeY == Released <==> !now.y && buttons.y
      requires releaseEvent <==> Releases(buttons, now)
      modifies this`isSingleKeyEvent, this`mode, this`delayCounter, this`latchedKey
      ensures (Now().(prev := now), event) == Tick(config, old(Now()), now)
    {
      event := None;
      if releaseEvent {
        event := GetLogicalKey(edgeA, edgeB, edgeX, edgeY, now);
        mode := if isSingleKeyEvent then Idle else WaitingAllReleased;
      } else {
        delayCounter := Dec(delayCounter);
        if delayCounter == 0 {
          latchedKey := GetLogicalKey(Time, edgeB, edgeX, edgeY, now);
          event := latchedKey;
          delayCounter := config.repeat;
          mode := HeldDown;
        }
      }
    }

    method HeldDownTick(now: Buttons) returns (event: Option<Key>)
      requires mode == HeldDown && isSingleKeyEvent && (releaseEvent <==> Releases(buttons, now))
      modifies this`mode, this`delayCounter
      ensures (Now().(prev := now), event) == Tick(config, old(Now()), now)
    {
      event := None;
      if releaseEvent {
        event := latchedKey;
        mode := if isSingleKeyEvent then Idle else WaitingAllReleased;
      } else if latchedKey != Some(Alt) {
        delayCounter := Dec(delayCounter);
        if delayCounter == 0 {
          event := latchedKey;
          delayCounter := config.repeat;
        }
      }
    }

    /** `processLogicalButtons`: one tick on a debounced sample; at most one key event. */
    method ProcessLogicalButtons(now: Buttons) returns (event: Option<Key>)
      modifies this
      ensures (Now(), event) == Tick(config, old(Now()), now)
    {
      releaseEvent, pressedEvent := false, false;
      var edgeA := DetectEdge(now.a, buttons.a);
      var edgeB := DetectEdge(now.b, buttons.b);
      var edgeX := DetectEdge(now.x, buttons.x);
      var edgeY := DetectEdge(now.y, buttons.y);
      isSingleKeyEvent := true;
      event := None;
      match mode {
        case Idle =>
          if pressedEvent {
            delayCounter := config.hold;
            mode := KeyPressed;
          }
        case KeyPressed => event := KeyPressedTick(edgeA, edgeB, edgeX, edgeY, now);
        case WaitingAllReleased =>
          if !now.b && !now.x && !now.y { mode := Idle; }
        case HeldDown => event := HeldDownTick(now);
      }
      buttons := now;
    }
  }
}
