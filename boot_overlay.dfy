/**
 * The boot overlay gate of src/features/boot/overlay.js and its copy
 * src/core/boot-overlay.js (the two differ only in comments): an overlay with a progress
 * bar that closes once a minimum time has passed and the page has loaded, or when a
 * maximum time runs out, or at once on a skip click, a key press or a click on the overlay.
 *
 * The closure variables of `initBootOverlay` are the fields of `Overlay`; each timer,
 * animation frame and event the function registers is a method. The clock is a parameter.
 */
module BootOverlay {
  import opened Geometry

  /** The bar's target `TARGET`. */
  const Target: int := 90

  /** `x | 0` for an integer `x`: the signed 32-bit integer with the same low 32 bits. */
  function ToInt32(x: int): (r: int)
    ensures -0x8000_0000 <= r < 0x8000_0000
    ensures -0x8000_0000 <= x < 0x8000_0000 ==> r == x
  {
    (x + 0x8000_0000) % 0x1_0000_0000 - 0x8000_0000
  }

  /** `Math.max(0, Math.min(100, x | 0))`. */
  function Clamp(x: int): (r: int)
    ensures 0 <= r <= 100
    ensures 0 <= x <= 100 ==> r == x
    ensures x > 100 && x < 0x8000_0000 ==> r == 100
  {
    var v := ToInt32(x);
    if v < 0 then 0 else if v > 100 then 100 else v
  }

  /** `DURATION = Math.max(1000, Math.floor(minMs * 0.9))`. */
  function Duration(minMs: int): (r: int)
    ensures r >= 1000 && r >= (minMs as real * 0.9).Floor
  {
    var d := (minMs as real * 0.9).Floor;
    if d > 1000 then d else 1000
  }

  /** The ease-out curve `1 - (1 - t)^2`. */
  function Eased(t: real): real
  {
    1.0 - (1.0 - t) * (1.0 - t)
  }

  /** The value a tick sets at time fraction `t`: `Math.floor(TARGET * eased)`. */
  function TickValue(t: real): real
  {
    Target as real * Eased(t)
  }

  /** On `[0, 1]` the curve stays in `[0, 1]`, so a tick sets the bar to at most 90. */
  lemma TickValueRange(t: real)
    requires 0.0 <= t <= 1.0
    ensures 0.0 <= Eased(t) <= 1.0
    ensures 0 <= TickValue(t).Floor <= Target
  {
    var u := 1.0 - t;
    MulMonotone(u, 1.0, u);
    SquarePositive(u);
  }

  /** The time fraction of a tick at `now`: `Math.min(1, (now - startTs) / DURATION)`. */
  function Fraction(now: real, startTs: real, duration: int): (t: real)
    requires now >= startTs && duration > 0
    ensures 0.0 <= t <= 1.0
  {
    var q := (now - startTs) / duration as real;
    assert q >= 0.0 by {
      assert q * duration as real == now - startTs;
      if q < 0.0 {
        MulStrict(q, 0.0, duration as real);
      }
    }
    if q < 1.0 then q else 1.0
  }

  class Overlay {
    /** Whether `#boot-overlay` exists; without it nothing is registered. */
    const active: bool
    /** Whether the skip button exists. */
    const hasSkip: bool
    const startTs: real
    /** `DURATION`. */
    const duration: int
    /** `progress.val`. */
    var progress: int
    var minElapsed: bool
    var loaded: bool
    var finished: bool
    /** Pending callbacks: the max timer, the next animation frame of `tick`, the min timer, the 150 ms `maybeClose` timers. */
    var maxTimerPending: bool
    var tickPending: bool
    var minTimerPending: bool
    var checksPending: nat
    /** The once-only `load` and `keydown` listeners still registered. */
    var loadListening: bool
    var keyListening: bool
    /** The fade-out has started; the overlay has been removed from the document. */
    var fading: bool
    var removed: bool
    /** The overlay was closed by the user rather than by the gate. */
    ghost var byUser: bool

    /**
     * The bar stays within 0..100; the gate closes the overlay only after both the minimum
     * time and the load; once closed, the max timer is cancelled and the fade has started.
     */
    ghost predicate Valid()
      reads this
    {
      0 <= progress <= 100 && duration >= 1000 &&
      (!active ==>
        !finished && !tickPending && !minTimerPending && !maxTimerPending && checksPending == 0 &&
        !loadListening && !keyListening) &&
      (finished && !byUser ==> minElapsed && loaded) &&
      (finished ==> !maxTimerPending) &&
      (fading <==> finished) &&
      (removed ==> finished)
    }

    /**
     * `initBootOverlay`: without an overlay, nothing. Otherwise the bar starts at 0 with the
     * first tick, the min timer is set, the page is marked loaded at once if it has already
     * loaded (else on `load`), the max timer is set and the skip listeners are added.
     */
    constructor (hasOverlay: bool, hasSkip: bool, readyComplete: bool, minMs: int, now: real)
      ensures Valid() && active == hasOverlay && this.hasSkip == hasSkip
      ensures !finished && !minElapsed && !byUser
      ensures !hasOverlay ==> progress == 0 && !loaded
      ensures hasOverlay ==>
        minTimerPending && maxTimerPending && tickPending && keyListening &&
        loaded == readyComplete && loadListening == !readyComplete &&
        progress == (if readyComplete then 100 else 0) &&
        checksPending == (if readyComplete then 1 else 0)
    {
      active, this.hasSkip, startTs, duration := hasOverlay, hasSkip, now, Duration(minMs);
      progress, minElapsed, loaded, finished := 0, false, false, false;
      maxTimerPending, tickPending, minTimerPending, checksPending := false, false, false, 0;
      loadListening, keyListening, fading, removed, byUser := false, false, false, false, false;
      if hasOverlay {
        // the first tick, at t = 0
        progress := Clamp(TickValue(0.0).Floor);
        tickPending := true;
        minTimerPending := true;
        if readyComplete {
          loaded := true;
          progress := Clamp(100);
          checksPending := 1;
        } else {
          loadListening := true;
        }
        maxTimerPending := true;
        keyListening := true;
      }
    }

    /** `progress.set(x)`. */
    method SetProgress(x: int)
      modifies this`progress
      ensures progress == Clamp(x)
    {
      progress := Clamp(x);
    }

    /** `closeOverlay`: only the first call has an effect; it cancels the max timer and starts the fade. */
    method CloseOverlay(ghost user: bool)
      requires Valid() && active
      requires user || (minElapsed && loaded)
      modifies this`finished, this`maxTimerPending, this`fading, this`byUser
      ensures Valid()
      ensures old(finished) ==> unchanged(this)
      ensures !old(finished) ==> finished && fading && !maxTimerPending && byUser == user
    {
      if finished {
        return;
      }
      finished := true;
      maxTimerPending := false;
      fading := true;
      byUser := user;
    }

    /** `maybeClose`: closes exactly when not yet closed and both gate flags are set. */
    method MaybeClose()
      requires Valid() && active
      modifies this`finished, this`maxTimerPending, this`fading, this`byUser
      ensures Valid()
      ensures finished <==> old(finished) || (minElapsed && loaded)
      ensures !old(finished) && finished ==> !byUser
      ensures !finished ==> maxTimerPending == old(maxTimerPending)
    {
      if !finished && minElapsed && loaded {
        CloseOverlay(false);
      }
    }

    /**
     * One animation frame of the self-running bar: nothing once closed; otherwise the bar
     * is set from the eased time fraction, at most 90, and another frame is requested
     * until the fraction reaches 1.
     */
    method Tick(now: real)
      requires Valid() && active && tickPending && now >= startTs
      modifies this`progress, this`tickPending
      ensures Valid()
      ensures old(finished) ==> progress == old(progress) && !tickPending
      ensures !old(finished) ==>
        progress == TickValue(Fraction(now, startTs, duration)).Floor && progress <= Target &&
        (tickPending <==> Fraction(now, startTs, duration) < 1.0)
    {
      if finished {
        tickPending := false;
        return;
      }
      var t := Fraction(now, startTs, duration);
      TickValueRange(t);
      SetProgress(TickValue(t).Floor);
      tickPending := t < 1.0;
    }

    /**
     * The tick as evidently intended: the bar is left alone once the page has loaded, so
     * that it keeps the 100 that loading set.
     */
    method TickCorrected(now: real)
      requires Valid() && active && tickPending && now >= startTs
      modifies this`progress, this`tickPending
      ensures Valid()
      ensures old(finished) || old(loaded) ==> progress == old(progress) && !tickPending
      ensures !old(finished) && !old(loaded) ==>
        progress == TickValue(Fraction(now, startTs, duration)).Floor && progress <= Target
      ensures FullOnceLoaded() == old(FullOnceLoaded())
    {
      if finished || loaded {
        tickPending := false;
        return;
      }
      var t := Fraction(now, startTs, duration);
      TickValueRange(t);
      SetProgress(TickValue(t).Floor);
      tickPending := t < 1.0;
    }

    /** Once loaded, the bar shows 100. */
    ghost predicate FullOnceLoaded()
      reads this
    {
      loaded ==> progress == 100
    }

    /** The min timer: the first gate flag opens, then `maybeClose`. */
    method OnMinTimer()
      requires Valid() && active && minTimerPending
      modifies this`minTimerPending, this`minElapsed, this`finished, this`maxTimerPending, this`fading, this`byUser
      ensures Valid() && minElapsed && !minTimerPending && loaded == old(loaded)
      ensures finished <==> old(finished) || old(loaded)
      ensures !finished ==> maxTimerPending == old(maxTimerPending)
      ensures !old(finished) && finished ==> !byUser
      ensures old(FullOnceLoaded()) ==> FullOnceLoaded()
    {
      minTimerPending := false;
      minElapsed := true;
      MaybeClose();
    }

    /** `markLoaded`: ignored once closed; otherwise the second gate flag, a full bar and a `maybeClose` in 150 ms. */
    method MarkLoaded()
      requires Valid() && active
      modifies this`loaded, this`progress, this`checksPending
      ensures Valid()
      ensures old(finished) ==> unchanged(this)
      ensures !old(finished) ==> loaded && progress == 100 && checksPending == old(checksPending) + 1
      ensures old(FullOnceLoaded()) || !old(finished) ==> FullOnceLoaded()
    {
      if finished {
        return;
      }
      loaded := true;
      SetProgress(100);
      checksPending := checksPending + 1;
    }

    /** The once-only `load` listener. */
    method OnLoad()
      requires Valid() && active && loadListening
      modifies this`loadListening, this`loaded, this`progress, this`checksPending
      ensures Valid() && !loadListening
      ensures old(finished) ==>
        progress == old(progress) && loaded == old(loaded) && checksPending == old(checksPending)
      ensures !old(finished) ==> loaded && progress == 100 && checksPending == old(checksPending) + 1
    {
      loadListening := false;
      MarkLoaded();
    }

    /** A 150 ms timer of `markLoaded`: `maybeClose`. */
    method OnCheckTimer()
      requires Valid() && active && checksPending > 0
      modifies this`checksPending, this`finished, this`maxTimerPending, this`fading, this`byUser
      ensures Valid() && checksPending == old(checksPending) - 1
      ensures finished <==> old(finished) || (old(minElapsed) && old(loaded))
      ensures !finished ==> maxTimerPending == old(maxTimerPending)
      ensures !old(finished) && finished ==> !byUser
      ensures old(FullOnceLoaded()) ==> FullOnceLoaded()
    {
      checksPending := checksPending - 1;
      MaybeClose();
    }

    /** The max timer: the page counts as loaded with a full bar, then `maybeClose`, which still waits for the min timer. */
    method OnMaxTimer()
      requires Valid() && active && maxTimerPending
      modifies this`loaded, this`progress, this`finished, this`maxTimerPending, this`fading, this`byUser
      ensures !maxTimerPending
      ensures Valid() && loaded && progress == 100
      ensures finished <==> old(finished) || old(minElapsed)
      ensures !old(finished) && finished ==> !byUser
      ensures FullOnceLoaded()
    {
      maxTimerPending := false;
      loaded := true;
      SetProgress(100);
      MaybeClose();
    }

    /** The skip button: closes whatever the gate flags. */
    method OnSkip()
      requires Valid() && active && hasSkip
      modifies this`finished, this`maxTimerPending, this`fading, this`byUser
      ensures Valid() && finished && !maxTimerPending
      ensures !old(finished) ==> byUser
      ensures old(finished) ==> unchanged(this)
      ensures old(FullOnceLoaded()) ==> FullOnceLoaded()
    {
      CloseOverlay(true);
    }

    /** The once-only `keydown` listener: closes whatever the gate flags. */
    method OnKeyDown()
      requires Valid() && active && keyListening
      modifies this`keyListening, this`finished, this`maxTimerPending, this`fading, this`byUser
      ensures Valid() && finished && !keyListening && !maxTimerPending
      ensures !old(finished) ==> byUser
      ensures old(FullOnceLoaded()) ==> FullOnceLoaded()
    {
      keyListening := false;
      CloseOverlay(true);
    }

    /** A click on the overlay: closes when the overlay itself is the target. */
    method OnOverlayClick(onOverlay: bool)
      requires Valid() && active
      modifies this`finished, this`maxTimerPending, this`fading, this`byUser
      ensures Valid()
      ensures onOverlay ==> finished && !maxTimerPending
      ensures onOverlay && !old(finished) ==> byUser
      ensures !onOverlay || old(finished) ==> unchanged(this)
      ensures old(FullOnceLoaded()) ==> FullOnceLoaded()
    {
      if onOverlay {
        CloseOverlay(true);
      }
    }

    /** The fade's `finish` event, or the 800 ms fallback: the overlay leaves the document. */
    method OnFadeEnd()
      requires Valid() && active && fading
      modifies this`removed
      ensures Valid() && removed
    {
      removed := true;
    }
  }

  /**
   * As written, a tick after loading lowers the full bar: with the page already loaded at
   * start-up, the bar is at 100, and the next frame, say half-way through, sets it to 67.
   */
  lemma LoadedBarFallsBack()
    ensures Clamp(100) == 100
    ensures TickValue(0.5).Floor == 67 && Clamp(TickValue(0.5).Floor) == 67
    ensures forall t: real :: 0.0 <= t <= 1.0 ==> Clamp(TickValue(t).Floor) < 100
  {
    assert TickValue(0.5) == 67.5;
    forall t: real | 0.0 <= t <= 1.0
      ensures Clamp(TickValue(t).Floor) < 100
    {
      TickValueRange(t);
    }
  }
}
