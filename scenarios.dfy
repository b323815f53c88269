/** Explicit call sequences over the lifecycle. `Mount` is the first render
    with the caller's prop followed by the options effect; each sequence
    starts from the state it leaves and calls `open`, `close`, DOM events and
    the host's deferred work as steps, with its observable outcome. The
    sequences fix the order of calls themselves; React's own scheduling of
    the effects is not part of them. */
module Scenarios {
  import opened ModalOptions
  import opened Lifecycle

  /** Options a caller passes when only `fadeDuration` is set. */
  function OnlyFadeDuration(d: string): (o: Options) {
    Options(d, 1.0, Absent, Absent, Absent, Absent, Absent, Absent, Absent)
  }

  /** Options with the three flags on. */
  predicate FlagsOn(o: Options) {
    Truthy(o.escapeClose) && Truthy(o.showClose) && Truthy(o.clickClose)
  }

  /** Options that set only `fadeDuration` resolve to options with every flag
      on, which fade exactly when `parseInt` reads the duration as a number. */
  lemma OnlyFadeDurationResolves(d: string)
    ensures FlagsOn(Resolve(OnlyFadeDuration(d))) && IsResolved(Resolve(OnlyFadeDuration(d)))
    ensures DoFade(Resolve(OnlyFadeDuration(d))) == FadeRequested(d)
  {
    DefaultFlags();
    ResolveFixedIff(OnlyFadeDuration(d));
  }

  /** The state right after mounting: the body is known, the options have the
      three flags on, the modal element and both callbacks exist, and nothing
      is styled, registered, pending or called yet. */
  ghost predicate JustMounted(m: Modal, blockerPresent: bool, animatable: bool)
    reads m
  {
    && m.Valid() && m.bodyPresent && FlagsOn(m.options)
    && m.blockerPresent == blockerPresent && m.durationAnimatable == animatable
    && m.modalPresent && m.onOpenGiven && m.onCloseGiven
    && !m.overflowHidden && m.blockerOpacity.None? && m.blockerFill.None?
    && !m.modalShown && m.modalOpacity.None? && m.modalFadeIns == 0 && !m.closeButtonVisible
    && m.keyListeners == [] && m.clickListeners == []
    && m.pendingShowTimers == 0 && m.pendingFadeOuts == 0 && m.queuedOnClose == 0
    && m.onOpenCount == 0 && m.onCloseCount == 0
  }

  /** The first render with the caller's prop `p`, then the options effect
      with the document present: the options become `Resolve(p)`. */
  method Mount(p: Options, blockerPresent: bool, animatable: bool) returns (m: Modal)
    requires FlagsOn(Resolve(p))
    ensures fresh(m) && m.options == Resolve(p)
    ensures JustMounted(m, blockerPresent, animatable)
  {
    m := new Modal(p, blockerPresent, true, true, true, animatable);
    m.OptionsEffect(p, true);
  }

  /** Without fading (as with the defaults): opening shows the modal at once, an
      Escape key closes it, and `onClose` runs only at the next microtask
      checkpoint. */
  method EscapeWithoutFade(m: Modal) returns (shown: bool, closesBefore: nat, closesAfter: nat)
    requires JustMounted(m, true, true) && !m.Fading()
    modifies m
    ensures shown && closesBefore == 0 && closesAfter == 1
  {
    var threw := m.Open();
    shown := m.modalShown;
    m.KeyDown("Escape");
    closesBefore := m.onCloseCount;
    m.RunMicrotasks();
    closesAfter := m.onCloseCount;
  }

  /** Closing does not remove the keydown listener, so after a second
      opening one Escape reaches two listeners: with the first closing,
      `onClose` runs three times. */
  method EscapeAfterReopen(m: Modal) returns (listeners: nat, closes: nat)
    requires JustMounted(m, true, true) && !m.Fading()
    modifies m
    ensures listeners == 2 && closes == 3
  {
    var threw := m.Open();
    assert |m.keyListeners| == 1 && m.queuedOnClose == 0;
    m.Close();
    assert |m.keyListeners| == 1 && m.queuedOnClose == 1;
    threw := m.Open();
    assert |m.keyListeners| == 2 && m.queuedOnClose == 1;
    assert m.onCloseCount == 0 && m.onCloseGiven;
    assert m.EscapeCloses("Escape") && m.CloseUnblocking() == Immediate;
    m.KeyDown("Escape");
    assert m.queuedOnClose == 3;
    m.RunMicrotasks();
    listeners := |m.keyListeners|;
    closes := m.onCloseCount;
  }

  /** With fading (a `fadeDuration` that `parseInt` reads as a number and
      `animate` accepts, such as "300"), opening leaves the modal hidden until the show timer fires, and
      then fades it in. */
  method FadeDefersShow(m: Modal) returns (shownAtOpen: bool, fadeIns: nat)
    requires JustMounted(m, true, true) && m.Fading()
    modifies m
    ensures !shownAtOpen && fadeIns == 1
  {
    var threw := m.Open();
    shownAtOpen := m.modalShown || m.modalFadeIns > 0;
    m.FireShowTimer();
    fadeIns := m.modalFadeIns;
  }

  /** With fading and a duration `animate` accepts, `onClose` waits for the blocker's fade-out to finish and
      then for the microtask checkpoint. */
  method FadeDefersClose(m: Modal) returns (closesBeforeFinish: nat, closesAfterFinish: nat)
    requires JustMounted(m, true, true) && m.Fading()
    modifies m
    ensures closesBeforeFinish == 0 && closesAfterFinish == 1
  {
    var threw := m.Open();
    m.Close();
    assert m.pendingFadeOuts == 1 && m.queuedOnClose == 0;
    m.RunMicrotasks();
    closesBeforeFinish := m.onCloseCount;
    m.FinishUnblockAnimation();
    m.RunMicrotasks();
    closesAfterFinish := m.onCloseCount;
  }

  /** Without the blocker the promise of `unblock()` never settles, so no
      `onClose` runs, and no click listener is registered. */
  method MissingBlockerNeverCloses(m: Modal) returns (closes: nat, clickListeners: nat)
    requires JustMounted(m, false, true)
    modifies m
    ensures closes == 0 && clickListeners == 0
  {
    var threw := m.Open();
    m.KeyDown("Escape");
    m.RunMicrotasks();
    closes := m.onCloseCount;
    clickListeners := |m.clickListeners|;
  }

  /** A click that bubbles up from inside the modal does not close it; one on
      the blocker itself does. */
  method ClickOnlyOnBlocker(m: Modal) returns (queuedFromInside: nat, queuedFromBlocker: nat)
    requires JustMounted(m, true, true) && !m.Fading()
    modifies m
    ensures queuedFromInside == 0 && queuedFromBlocker == 1
  {
    var threw := m.Open();
    m.Click(false);
    queuedFromInside := m.queuedOnClose;
    m.Click(true);
    queuedFromBlocker := m.queuedOnClose;
  }

  /** With fading on but a duration `animate` rejects (such as "12abc",
      which `parseInt` reads as 12 and `+` as NaN), `block()` throws:
      `open()` registers no listener, sets no timer and does not call
      `onOpen`. A later `close()` throws inside `unblock()` as well, so the
      body stays unscrollable, the blocker turns opaque and `onClose` never
      runs. */
  method UnanimatableDurationBreaks(m: Modal)
    returns (threw: bool, listeners: nat, timers: nat, opens: nat,
             stillHidden: bool, blockerOpacity: int, closes: nat)
    requires JustMounted(m, true, false) && m.Fading()
    modifies m
    ensures threw && listeners == 0 && timers == 0 && opens == 0
    ensures stillHidden && blockerOpacity == 1 && closes == 0
  {
    threw := m.Open();
    listeners := |m.keyListeners| + |m.clickListeners|;
    timers := m.pendingShowTimers;
    opens := m.onOpenCount;
    m.IsOpenedEffect(false);
    m.RunMicrotasks();
    stillHidden := m.overflowHidden;
    blockerOpacity := m.EffectiveBlockerOpacity();
    closes := m.onCloseCount;
  }
}
