/** The round progress button: its water-wave animation, the progress it
    shows while an operation runs, the timer that drives automatic
    progress, the click it emits, and the colour theme. Painting, text and
    the repaint timer are not modelled. Timers are numbered in the order
    the button creates them; a timer is live while it keeps firing. */
module CircularButtons {
  import opened Wrappers

  datatype Theme = Blue | Green | Pink | Purple

  /** `COLOR_THEMES.get(name, COLOR_THEMES['blue'])`: every name but the
      three other known ones gets the blue colours. */
  function Palette(name: string): (t: Theme)
    ensures t == Blue <==> name !in {"green", "pink", "purple"}
  {
    if name == "green" then Green
    else if name == "pink" then Pink
    else if name == "purple" then Purple
    else Blue
  }

  // ---------------------------------------------------------------
  // The wave
  // ---------------------------------------------------------------

  const WAVE_AMPLITUDE: int := 4
  const WAVELENGTH: int := 35
  const WAVE_SPEED: int := 1

  /** The wave's phase offset after one more frame. */
  function NextOffset(offset: int): (o: int)
    ensures 0 <= offset <= WAVELENGTH ==> 0 <= o <= WAVELENGTH && (o == 0 <==> offset == WAVELENGTH)
  {
    if offset + WAVE_SPEED > WAVELENGTH then 0 else offset + WAVE_SPEED
  }

  /** The offset after n frames from a fresh wave. */
  function OffsetAfter(n: nat): int {
    if n == 0 then 0 else NextOffset(OffsetAfter(n - 1))
  }

  /** The wave is periodic: the offset climbs one step a frame from 0 to the
      wavelength and falls back to 0, so after n frames it is n mod 36. */
  lemma {:induction false} OffsetCycles(n: nat)
    ensures OffsetAfter(n) == n % (WAVELENGTH + 1)
    ensures 0 <= OffsetAfter(n) <= WAVELENGTH
  {
    if n > 0 {
      OffsetCycles(n - 1);
      ModSucc(n - 1);
      var prev := OffsetAfter(n - 1);
      assert OffsetAfter(n) == if prev + WAVE_SPEED > WAVELENGTH then 0 else prev + WAVE_SPEED;
    }
  }

  /** Counting frames modulo the period: one more wraps the last phase
      round to 0. */
  lemma ModSucc(m: nat)
    ensures (m + 1) % (WAVELENGTH + 1) == if m % (WAVELENGTH + 1) == WAVELENGTH then 0 else m % (WAVELENGTH + 1) + 1
  {
  }

  class WaveEffect {
    var offset: int
    const amplitude: int := WAVE_AMPLITUDE
    const wavelength: int := WAVELENGTH
    const speed: int := WAVE_SPEED

    ghost predicate Valid()
      reads this
    {
      0 <= offset <= wavelength
    }

    constructor ()
      ensures Valid() && offset == 0
    {
      offset := 0;
    }

    /** Advance one frame: the offset grows by the speed and starts over at
        0 once it passes the wavelength. */
    method Update()
      requires Valid()
      modifies this
      ensures Valid()
      ensures offset == NextOffset(old(offset))
    {
      offset := offset + speed;
      if offset > wavelength {
        offset := 0;
      }
    }
  }

  // ---------------------------------------------------------------
  // The button
  // ---------------------------------------------------------------

  /** `max(0, min(100, value))`. */
  function Percent(v: real): (r: real)
    ensures 0.0 <= r <= 100.0
    ensures 0.0 <= v <= 100.0 ==> r == v
    ensures v < 0.0 ==> r == 0.0
    ensures v > 100.0 ==> r == 100.0
  {
    if v > 100.0 then 100.0 else if v < 0.0 then 0.0 else v
  }

  /** The timer period for an automatic run of `durationMs`, in 100 steps:
      Python's floor division `duration_ms // 100`. */
  function StepInterval(durationMs: int): (ms: int)
    ensures ms * 100 <= durationMs < ms * 100 + 100
  {
    durationMs / 100
  }

  class CircularButton {
    var hovered: bool
    var pressed: bool
    var progress: real
    var running: bool
    /** The theme name as given, and the colours it selects. */
    const themeName: string
    const theme: Theme
    const wave: WaveEffect
    /** The timer the button holds a reference to, if any. */
    var autoTimer: Option<nat>
    /** The automatic-progress timers that are still firing. */
    var liveTimers: set<nat>
    /** The number the next timer gets. */
    var nextTimer: nat

    /** Every timer still firing is the one the button holds: nothing can
        tick without the button being able to stop it. */
    predicate TimersHeld()
      reads this
    {
      forall k :: k in liveTimers ==> autoTimer == Some(k)
    }

    ghost predicate Valid()
      reads this, wave
    {
      && wave.Valid()
      && (forall k :: k in liveTimers ==> k < nextTimer)
      && (autoTimer.Some? ==> autoTimer.value < nextTimer)
    }

    constructor (themeName: string)
      ensures Valid() && TimersHeld() && fresh(wave)
      ensures this.themeName == themeName && theme == Palette(themeName)
      ensures !hovered && !pressed && progress == 0.0 && !running
      ensures autoTimer == None && liveTimers == {} && nextTimer == 0 && wave.offset == 0
    {
      this.themeName := themeName;
      theme := Palette(themeName);
      wave := new WaveEffect();
      hovered := false;
      pressed := false;
      progress := 0.0;
      running := false;
      autoTimer := None;
      liveTimers := {};
      nextTimer := 0;
    }

    /** One frame of the wave animation. */
    method UpdateWave()
      requires Valid()
      modifies wave
      ensures Valid()
      ensures wave.offset == NextOffset(old(wave.offset))
    {
      wave.Update();
    }

    /** Begin an operation whose progress the caller reports. */
    method StartProgress()
      modifies this
      ensures running && progress == 0.0
      ensures autoTimer == old(autoTimer) && liveTimers == old(liveTimers) && nextTimer == old(nextTimer)
      ensures pressed == old(pressed) && hovered == old(hovered)
    {
      running := true;
      progress := 0.0;
    }

    /** Begin an operation that a new timer advances one percent per tick,
        every `durationMs // 100` milliseconds (a negative period starts no
        timer). The reference to a timer started before is overwritten
        while that timer keeps firing. */
    method StartAutoProgress(durationMs: int) returns (interval: int)
      requires Valid()
      modifies this
      ensures Valid()
      ensures running && progress == 0.0 && interval == StepInterval(durationMs)
      ensures autoTimer == Some(old(nextTimer)) && nextTimer == old(nextTimer) + 1
      ensures liveTimers == old(liveTimers) + (if interval >= 0 then {old(nextTimer)} else {})
      ensures pressed == old(pressed) && hovered == old(hovered)
    {
      running := true;
      progress := 0.0;
      interval := durationMs / 100;
      var id := nextTimer;
      nextTimer := nextTimer + 1;
      autoTimer := Some(id);
      if interval >= 0 {
        liveTimers := liveTimers + {id};
      }
    }

    /** The same, but a timer still held is stopped before the new one is
        made, as finish_progress does, so no timer is ever orphaned. */
    method StartAutoProgressStoppingPrevious(durationMs: int) returns (interval: int)
      requires Valid() && TimersHeld()
      modifies this
      ensures Valid() && TimersHeld()
      ensures running && progress == 0.0 && interval == StepInterval(durationMs)
      ensures autoTimer == Some(old(nextTimer)) && nextTimer == old(nextTimer) + 1
      ensures liveTimers == if interval >= 0 then {old(nextTimer)} else {}
      ensures pressed == old(pressed) && hovered == old(hovered)
    {
      if autoTimer.Some? {
        liveTimers := liveTimers - {autoTimer.value};
        autoTimer := None;
      }
      assert liveTimers == {};
      interval := StartAutoProgress(durationMs);
    }

    /** Report progress: ignored unless an operation runs; otherwise the
        value is clamped to a percentage, and reaching 100 ends the
        operation and puts the display back to 0. */
    method SetProgressValue(value: real)
      modifies this
      ensures old(running) && Percent(value) < 100.0 ==> running && progress == Percent(value)
      ensures old(running) && Percent(value) >= 100.0 ==> !running && progress == 0.0
      ensures !old(running) ==> !running && progress == old(progress)
      ensures autoTimer == old(autoTimer) && liveTimers == old(liveTimers) && nextTimer == old(nextTimer)
      ensures pressed == old(pressed) && hovered == old(hovered)
    {
      if running {
        progress := Percent(value);
        if progress >= 100.0 {
          running := false;
          progress := 0.0;
        }
      }
    }

    /** One tick of the live timer k: one percent more; at 100 the display
        stays at 100, the held timer is stopped and dropped, and the
        operation ends. When no timer is held at that point, stopping it
        fails (`None` has no `stop`) and the tick ends in an error. */
    method AutoProgressStep(k: nat) returns (failed: bool)
      requires Valid() && k in liveTimers
      modifies this
      ensures Valid()
      ensures old(progress) + 1.0 < 100.0 ==>
        !failed && progress == old(progress) + 1.0 && running == old(running)
        && autoTimer == old(autoTimer) && liveTimers == old(liveTimers)
      ensures old(progress) + 1.0 >= 100.0 ==> progress == 100.0
      ensures old(progress) + 1.0 >= 100.0 && old(autoTimer).Some? ==>
        !failed && !running && autoTimer == None && liveTimers == old(liveTimers) - {old(autoTimer).value}
      ensures failed <==> old(progress) + 1.0 >= 100.0 && old(autoTimer).None?
      ensures failed ==> running == old(running) && autoTimer == old(autoTimer) && liveTimers == old(liveTimers)
      ensures old(TimersHeld()) ==> !failed && TimersHeld()
      ensures nextTimer == old(nextTimer) && pressed == old(pressed) && hovered == old(hovered)
    {
      failed := false;
      progress := progress + 1.0;
      if progress >= 100.0 {
        progress := 100.0;
        if autoTimer.None? {
          failed := true;
          return;
        }
        liveTimers := liveTimers - {autoTimer.value};
        autoTimer := None;
        running := false;
      }
    }

    /** Stop and drop the held timer, then report 100 percent, which ends a
        running operation and resets the display. */
    method FinishProgress()
      requires Valid()
      modifies this
      ensures Valid()
      ensures autoTimer == None
      ensures liveTimers == old(liveTimers) - (if old(autoTimer).Some? then {old(autoTimer).value} else {})
      ensures old(TimersHeld()) ==> liveTimers == {}
      ensures !running
      ensures old(running) ==> progress == 0.0
      ensures !old(running) ==> progress == old(progress)
      ensures pressed == old(pressed) && hovered == old(hovered) && nextTimer == old(nextTimer)
    {
      if autoTimer.Some? {
        liveTimers := liveTimers - {autoTimer.value};
        autoTimer := None;
      }
      SetProgressValue(100.0);
    }

    /** The pointer enters or leaves the button. */
    method SetHovered(inside: bool)
      modifies this
      ensures hovered == inside && pressed == old(pressed) && progress == old(progress) && running == old(running)
      ensures autoTimer == old(autoTimer) && liveTimers == old(liveTimers) && nextTimer == old(nextTimer)
      ensures old(Valid()) ==> Valid()
    {
      hovered := inside;
    }

    /** A mouse button goes down: a left press arms the click. */
    method MousePress(left: bool)
      modifies this
      ensures pressed == (old(pressed) || left)
      ensures hovered == old(hovered) && progress == old(progress) && running == old(running)
      ensures autoTimer == old(autoTimer) && liveTimers == old(liveTimers) && nextTimer == old(nextTimer)
      ensures old(Valid()) ==> Valid()
    {
      if left {
        pressed := true;
      }
    }

    /** A mouse button comes up: a left release after a left press emits
        the click and disarms it; anything else emits nothing. */
    method MouseRelease(left: bool) returns (clicked: bool)
      modifies this
      ensures clicked <==> left && old(pressed)
      ensures pressed == (old(pressed) && !left)
      ensures hovered == old(hovered) && progress == old(progress) && running == old(running)
      ensures autoTimer == old(autoTimer) && liveTimers == old(liveTimers) && nextTimer == old(nextTimer)
      ensures old(Valid()) ==> Valid()
    {
      clicked := false;
      if left && pressed {
        pressed := false;
        clicked := true;
      }
    }
  }

  /** A left press followed by two left releases clicks once. */
  method PressReleaseRelease(b: CircularButton) returns (first: bool, second: bool)
    modifies b
    ensures first && !second
  {
    b.MousePress(true);
    first := b.MouseRelease(true);
    second := b.MouseRelease(true);
  }

  /** Hovering over the button and clicking it while an automatic run is
      going leave the run alone: the held timer still ticks it forward. */
  method HoverDuringAutoProgress() returns (failed: bool)
    ensures !failed
  {
    var b := new CircularButton("blue");
    var interval := b.StartAutoProgressStoppingPrevious(3000);
    b.SetHovered(true);
    b.MousePress(true);
    var clicked := b.MouseRelease(true);
    failed := b.AutoProgressStep(b.autoTimer.value);
    assert b.progress == 1.0;
  }

  /** Starting automatic progress twice orphans the first timer. Once the
      second timer brings the run to 100 and is dropped, the next tick of
      the orphan finds no timer to stop and fails. */
  method DoubleAutoStartFails() returns (failed: bool)
    ensures failed
  {
    var b := new CircularButton("blue");
    var first := b.StartAutoProgress(3000);
    var second := b.StartAutoProgress(3000);
    assert b.liveTimers == {0, 1} && b.autoTimer == Some(1);
    var i := 0;
    while i < 99
      invariant 0 <= i <= 99
      invariant b.Valid()
      invariant b.progress == i as real
      invariant b.liveTimers == {0, 1} && b.autoTimer == Some(1)
    {
      var f := b.AutoProgressStep(1);
      i := i + 1;
    }
    var f := b.AutoProgressStep(1);
    assert b.liveTimers == {0} && b.autoTimer == None;
    failed := b.AutoProgressStep(0);
  }
}
