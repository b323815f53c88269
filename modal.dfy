/** The modal's lifecycle (src/modal.tsx): the options effect, `block`,
    `unblock`, `show`, `handleKeyDown`, `close`, `open`, the effect that turns
    `isOpened` into `open` or `close`, and the DOM events that reach the
    listeners `open` registers. The host's deferred work is made explicit:
    the `setTimeout` that shows the modal, the `onfinish` of the blocker's
    fade-out animation and the microtask checkpoint that runs `close`'s
    `.then(onClose)` are event steps the caller invokes in any order. */
module Lifecycle {
  import opened ModalOptions

  // ---------------------------------------------------------------------
  // Event-listener registries

  /** An `EventTarget`'s listener list, one id per listener closure. Every
      arrow function the source writes creates a new closure, hence a new id. */
  type Registry = seq<nat>

  predicate Distinct(reg: Registry) {
    forall i, j :: 0 <= i < j < |reg| ==> reg[i] != reg[j]
  }

  predicate Below(reg: Registry, bound: nat) {
    forall i :: 0 <= i < |reg| ==> reg[i] < bound
  }

  /** Ids in registration order: every listener was created after the one
      registered before it. */
  predicate Increasing(reg: Registry)
    decreases |reg|
  {
    |reg| < 2 || (reg[|reg| - 2] < reg[|reg| - 1] && Increasing(reg[..|reg| - 1]))
  }

  /** The most recently registered listener, if any, was created before `bound`. */
  predicate NewestBelow(reg: Registry, bound: nat) {
    reg == [] || reg[|reg| - 1] < bound
  }

  lemma {:induction false} OlderThanNewest(reg: Registry, i: int)
    requires Increasing(reg) && 0 <= i < |reg| - 1
    ensures reg[i] < reg[|reg| - 1]
    decreases |reg|
  {
    if i < |reg| - 2 {
      var older := reg[..|reg| - 1];
      OlderThanNewest(older, i);
    }
  }

  lemma {:induction false} IncreasingPrefix(reg: Registry, n: nat)
    requires Increasing(reg) && n <= |reg|
    ensures Increasing(reg[..n])
    decreases |reg|
  {
    if n < |reg| {
      var older := reg[..|reg| - 1];
      IncreasingPrefix(older, n);
      assert older[..n] == reg[..n];
    } else {
      assert reg[..n] == reg;
    }
  }

  /** In a registry in registration order every id is below the bound its
      newest id is below. */
  lemma NewestBound(reg: Registry, bound: nat)
    requires Increasing(reg) && NewestBelow(reg, bound)
    ensures Below(reg, bound)
  {
    forall i | 0 <= i < |reg| - 1
      ensures reg[i] < bound
    {
      OlderThanNewest(reg, i);
    }
  }

  /** A registry in registration order holds no listener twice. */
  lemma IncreasingDistinct(reg: Registry)
    requires Increasing(reg)
    ensures Distinct(reg)
  {
    forall i, j | 0 <= i < j < |reg|
      ensures reg[i] != reg[j]
    {
      IncreasingPrefix(reg, j + 1);
      OlderThanNewest(reg[..j + 1], i);
    }
  }

  /** `addEventListener`: a listener already in the list is not added twice. */
  function AddListener(reg: Registry, id: nat): (r: Registry)
    ensures reg <= r && |r| <= |reg| + 1
    ensures forall x :: x in r <==> x in reg || x == id
    ensures Distinct(reg) ==> Distinct(r)
  {
    if id in reg then reg else reg + [id]
  }

  /** Adding the same closure twice registers it once. */
  lemma AddListenerIdempotent(reg: Registry, id: nat)
    ensures AddListener(AddListener(reg, id), id) == AddListener(reg, id)
  {
  }

  /** `removeEventListener`: removes the listener that is the very same
      closure, if there is one. */
  function RemoveListener(reg: Registry, id: nat): (r: Registry)
    ensures forall x :: x in r <==> x in reg && x != id
    ensures |r| <= |reg|
    ensures id !in reg ==> r == reg
    ensures Distinct(reg) ==> Distinct(r)
  {
    if reg == [] then []
    else if reg[0] == id then RemoveListener(reg[1..], id)
    else
      var rest := RemoveListener(reg[1..], id);
      assert reg == [reg[0]] + reg[1..];
      assert Distinct(reg) ==> reg[0] !in reg[1..];
      [reg[0]] + rest
  }

  /** In a list without duplicates, removal takes out the one matching entry
      and keeps the others in their order, the order an event reaches them. */
  lemma {:induction false} RemoveListenerKeepsOrder(reg: Registry, id: nat, k: nat)
    requires Distinct(reg) && k < |reg| && reg[k] == id
    ensures RemoveListener(reg, id) == reg[..k] + reg[k + 1..]
  {
    var tail := reg[1..];
    assert Distinct(tail) by {
      forall i, j | 0 <= i < j < |tail| ensures tail[i] != tail[j] {
        assert tail[i] == reg[i + 1] && tail[j] == reg[j + 1];
      }
    }
    if k == 0 {
      assert id !in tail by {
        forall j | 0 <= j < |tail| ensures tail[j] != id {
          assert tail[j] == reg[j + 1];
        }
      }
      assert reg[k + 1..] == tail;
    } else {
      RemoveListenerKeepsOrder(tail, id, k - 1);
      assert reg[..k] == [reg[0]] + tail[..k - 1];
      assert reg[k + 1..] == tail[k..];
    }
  }

  /** Removing a closure that was created after every registered one removes
      nothing (the fate of `removeEventListener('keydown', (e) => …)`). */
  lemma RemoveFreshRemovesNothing(reg: Registry, newId: nat)
    requires Below(reg, newId)
    ensures RemoveListener(reg, newId) == reg
  {
    assert newId !in reg;
  }

  /** Adding a new closure appends it and keeps the registry in
      registration order, with the new closure as its newest entry. */
  lemma AddFreshAppends(reg: Registry, newId: nat)
    requires Increasing(reg) && NewestBelow(reg, newId)
    ensures AddListener(reg, newId) == reg + [newId]
    ensures Increasing(reg + [newId]) && NewestBelow(reg + [newId], newId + 1)
  {
    NewestBound(reg, newId);
    assert newId !in reg;
    assert (reg + [newId])[..|reg|] == reg;
  }

  // ---------------------------------------------------------------------
  // What closing changes

  /** How the promise returned by `unblock()` settles: never (no body or no
      blocker), at once, when the fade-out finishes, or rejected because its
      executor threw. */
  datatype Settlement = NeverSettles | Settled | SettlesOnFinish | Rejected

  /** What `unblock()` does: nothing (no body or no blocker), restore the page
      at once (no fading), start a fade-out (fading with a duration `animate`
      accepts), or set the opacity and throw (fading with one it rejects). */
  datatype Unblocking = Skipped | Immediate | FadeOut | Throws

  /** The part of the modal's state that `close()` changes. */
  datatype Teardown = Teardown(
    overflowHidden: bool,
    blockerOpacity: Option<int>,
    blockerFill: Option<int>,
    nextId: nat,
    pendingFadeOuts: nat,
    queuedOnClose: nat)

  /** One call of `close()`. Its `unblock()` promise settles at once and
      queues `onClose`, or waits for a fade-out, or never settles, or is
      rejected so that `.then(onClose)` never runs, with the body's overflow
      left as it was. Either way a new closure is built for
      `removeEventListener`. */
  function AfterClose(t: Teardown, u: Unblocking): (r: Teardown) {
    match u
    case Skipped => t.(nextId := t.nextId + 1)
    case Immediate =>
      t.(overflowHidden := false, blockerOpacity := Some(0),
         queuedOnClose := t.queuedOnClose + 1, nextId := t.nextId + 1)
    case FadeOut =>
      t.(overflowHidden := false, blockerOpacity := Some(1), blockerFill := Some(0),
         pendingFadeOuts := t.pendingFadeOuts + 1, nextId := t.nextId + 1)
    case Throws => t.(blockerOpacity := Some(1), nextId := t.nextId + 1)
  }

  /** `n` calls of `close()` in a row, as one event reaching `n` listeners makes. */
  function AfterCloses(t: Teardown, n: nat, u: Unblocking): (r: Teardown) {
    if n == 0 then t else AfterClose(AfterCloses(t, n - 1, u), u)
  }

  /** What `n` calls of `close()` amount to: each builds one closure; each
      queues one `onClose` when `unblock` settles at once, and waits for one
      more fade-out when it fades; without the body or the blocker nothing
      else changes, and when `animate` throws nothing is ever awaited and the
      overflow stays as it was. */
  lemma {:induction false} AfterClosesEffect(t: Teardown, n: nat, u: Unblocking)
    ensures AfterCloses(t, n, u).nextId == t.nextId + n
    ensures u == Skipped ==> AfterCloses(t, n, u) == t.(nextId := t.nextId + n)
    ensures u == Immediate ==>
      AfterCloses(t, n, u).queuedOnClose == t.queuedOnClose + n &&
      AfterCloses(t, n, u).pendingFadeOuts == t.pendingFadeOuts
    ensures u == FadeOut ==>
      AfterCloses(t, n, u).pendingFadeOuts == t.pendingFadeOuts + n &&
      AfterCloses(t, n, u).queuedOnClose == t.queuedOnClose
    ensures u == Throws ==>
      AfterCloses(t, n, u).queuedOnClose == t.queuedOnClose &&
      AfterCloses(t, n, u).pendingFadeOuts == t.pendingFadeOuts &&
      AfterCloses(t, n, u).overflowHidden == t.overflowHidden &&
      AfterCloses(t, n, u).blockerFill == t.blockerFill
    ensures (u == Immediate || u == FadeOut) && n > 0 ==> !AfterCloses(t, n, u).overflowHidden
  {
    if n > 0 {
      AfterClosesEffect(t, n - 1, u);
    }
  }

  // ---------------------------------------------------------------------
  // The component

  class Modal {
    /** `body` state: set by the options effect once `document` exists. */
    var bodyPresent: bool
    /** Whether `blocker.current` and `modal.current` are set. */
    const blockerPresent: bool
    const modalPresent: bool
    /** Whether the caller passed `onOpen` and `onClose`. */
    const onOpenGiven: bool
    const onCloseGiven: bool
    /** Whether `animate` accepts `+options.fadeDuration` as a duration: the
        Web Animations API throws a TypeError for NaN and for a negative
        number. No operation changes `fadeDuration`, so this is fixed. */
    const durationAnimatable: bool

    /** `options` state. */
    var options: Options

    /** `body.style.overflow == 'hidden'`. */
    var overflowHidden: bool
    /** `blocker.current.style.opacity`, `None` while unset (the blocker's
        `opacity-0` class then makes it transparent). */
    var blockerOpacity: Option<int>
    /** The final opacity of the latest fill-forwards animation started on the
        blocker; once it finishes it holds that value over the inline style. */
    var blockerFill: Option<int>
    /** `modal.current.style.display == 'inline-block'`. */
    var modalShown: bool
    /** `modal.current.style.opacity`, `None` while unset. */
    var modalOpacity: Option<int>
    /** Fade-in animations started on the modal. */
    var modalFadeIns: nat
    /** `isCloseButtonVisible` state. */
    var closeButtonVisible: bool

    /** The `keydown` listeners on `document` and the `click` listeners on the
        blocker that this component registered. */
    var keyListeners: Registry
    var clickListeners: Registry
    /** The id the next closure gets. */
    var nextId: nat

    /** Show timers set by `open` that have not fired. */
    var pendingShowTimers: nat
    /** Fade-outs started by `close` whose `onfinish` has not run. */
    var pendingFadeOuts: nat
    /** Settled `unblock` promises whose `.then(onClose)` has not run. */
    var queuedOnClose: nat

    var onOpenCount: nat
    var onCloseCount: nat

    predicate HostReady()
      reads this`bodyPresent
    {
      bodyPresent && blockerPresent
    }

    predicate Fading()
      reads this`options
    {
      DoFade(options)
    }

    /** With fading on, every `animate` call throws. */
    predicate AnimateThrows()
      reads this`options
    {
      DoFade(options) && !durationAnimatable
    }

    /** Whether `block()` throws: it reaches `animate` and `animate` throws. */
    predicate BlockThrows()
      reads this`bodyPresent, this`options
    {
      HostReady() && AnimateThrows()
    }

    /** What `unblock()`, as `close()` calls it, does. */
    function CloseUnblocking(): (u: Unblocking)
      reads this`bodyPresent, this`options
    {
      if !HostReady() then Skipped
      else if !Fading() then Immediate
      else if durationAnimatable then FadeOut
      else Throws
    }

    /** The blocker's opacity once its animations have run. */
    function EffectiveBlockerOpacity(): (v: int)
      reads this`blockerOpacity, this`blockerFill
    {
      match blockerFill
      case Some(f) => f
      case None => (match blockerOpacity case Some(o) => o case None => 0)
    }

    ghost function TeardownState(): (t: Teardown)
      reads this`overflowHidden, this`blockerOpacity, this`blockerFill, this`nextId,
            this`pendingFadeOuts, this`queuedOnClose
    {
      Teardown(overflowHidden, blockerOpacity, blockerFill, nextId, pendingFadeOuts, queuedOnClose)
    }

    /** Listener ids are in registration order and below the next closure
        id, and no click listener exists without the blocker. */
    ghost predicate ListenersValid()
      reads this`keyListeners, this`clickListeners, this`nextId
    {
      && Increasing(keyListeners) && NewestBelow(keyListeners, nextId)
      && Increasing(clickListeners) && NewestBelow(clickListeners, nextId)
      && (!blockerPresent ==> clickListeners == [])
    }

    /** No listener is registered twice. */
    lemma ListenersDistinct()
      requires ListenersValid()
      ensures Distinct(keyListeners) && Distinct(clickListeners)
    {
      IncreasingDistinct(keyListeners);
      IncreasingDistinct(clickListeners);
    }

    /** Without the body or the blocker nothing ever settles, so `onClose`
        never runs; the body's overflow is only hidden once the body is
        known; the blocker is only animated, and only awaited, when the
        modal fades with a duration `animate` accepts. */
    ghost predicate HostValid()
      reads this`bodyPresent, this`options, this`overflowHidden, this`blockerFill,
            this`pendingFadeOuts, this`queuedOnClose, this`onCloseCount
    {
      && (!(bodyPresent && blockerPresent) ==> pendingFadeOuts == 0 && queuedOnClose == 0 && onCloseCount == 0)
      && (!onCloseGiven ==> onCloseCount == 0)
      && (!bodyPresent ==> !overflowHidden)
      && (blockerFill.Some? ==> bodyPresent && DoFade(options) && durationAnimatable)
      && (pendingFadeOuts > 0 ==> DoFade(options) && durationAnimatable)
    }

    ghost predicate Valid()
      reads this
    {
      ListenersValid() && HostValid()
    }

    /** Once the body is known the options are resolved. Only the options
        effect changes either field, so every other operation keeps this. */
    ghost predicate OptionsSettled()
      reads this`bodyPresent, this`options
    {
      bodyPresent ==> IsResolved(options)
    }

    // -------------------------------------------------------------------
    // The effects of the operations, each stated once over the state
    // before and after

    /** The modal element is as it was. */
    twostate predicate ModalUntouched()
      reads this`closeButtonVisible, this`modalShown, this`modalOpacity, this`modalFadeIns
    {
      && closeButtonVisible == old(closeButtonVisible) && modalShown == old(modalShown)
      && modalOpacity == old(modalOpacity) && modalFadeIns == old(modalFadeIns)
    }

    /** No listener is added, none removed and no closure built. */
    twostate predicate ListenersUntouched()
      reads this`keyListeners, this`clickListeners, this`nextId
    {
      keyListeners == old(keyListeners) && clickListeners == old(clickListeners) && nextId == old(nextId)
    }

    /** The effect of `block()`: without the body nothing; with it the
        overflow is hidden; with the blocker too its opacity is set to 0 and
        animated to 1 with fading, or set to 1 without; when that `animate`
        throws no animation exists. */
    twostate predicate Blocked()
      reads this`bodyPresent, this`options, this`overflowHidden, this`blockerOpacity, this`blockerFill
    {
      && (!bodyPresent ==>
            overflowHidden == old(overflowHidden) && blockerOpacity == old(blockerOpacity) &&
            blockerFill == old(blockerFill))
      && (bodyPresent ==> overflowHidden)
      && (bodyPresent && !blockerPresent ==>
            blockerOpacity == old(blockerOpacity) && blockerFill == old(blockerFill))
      && (HostReady() && Fading() ==> blockerOpacity == Some(0))
      && (HostReady() && Fading() && durationAnimatable ==> blockerFill == Some(1))
      && (HostReady() && AnimateThrows() ==> blockerFill == old(blockerFill))
      && (HostReady() && !Fading() ==> blockerOpacity == Some(1) && blockerFill == old(blockerFill))
    }

    /** The effect of `show()`: without the modal element nothing; with it
        the close button becomes visible when `showClose` is set, then the
        modal fades in with fading, or gets display inline-block and opacity
        1 without; when that `animate` throws no fade-in starts. */
    twostate predicate Shown()
      reads this`options, this`closeButtonVisible, this`modalShown, this`modalOpacity, this`modalFadeIns
    {
      && (!modalPresent ==> ModalUntouched())
      && (modalPresent ==> closeButtonVisible == (old(closeButtonVisible) || Truthy(options.showClose)))
      && (modalPresent && Fading() ==> modalShown == old(modalShown) && modalOpacity == old(modalOpacity))
      && (modalPresent && Fading() && durationAnimatable ==> modalFadeIns == old(modalFadeIns) + 1)
      && (modalPresent && AnimateThrows() ==> modalFadeIns == old(modalFadeIns))
      && (modalPresent && !Fading() ==>
            modalShown && modalOpacity == Some(1) && modalFadeIns == old(modalFadeIns))
    }

    /** The middle of `open()`: with fading a show timer is set and the modal
        is left alone; without, `show()` runs at once. */
    twostate predicate Scheduled()
      reads this`options, this`pendingShowTimers, this`closeButtonVisible, this`modalShown,
            this`modalOpacity, this`modalFadeIns
    {
      && (Fading() ==> pendingShowTimers == old(pendingShowTimers) + 1 && ModalUntouched())
      && (!Fading() ==> pendingShowTimers == old(pendingShowTimers) && Shown())
    }

    /** The listener edits of `open()`: one new keydown listener, and one new
        click listener when `clickClose` is set and the blocker exists;
        nothing is removed. Three or two closures are built. */
    twostate predicate Registered()
      reads this`options, this`nextId, this`keyListeners, this`clickListeners
    {
      && keyListeners == old(keyListeners) + [old(nextId) + 1]
      && (Truthy(options.clickClose) && blockerPresent ==>
            clickListeners == old(clickListeners) + [old(nextId) + 2] && nextId == old(nextId) + 3)
      && (!(Truthy(options.clickClose) && blockerPresent) ==>
            clickListeners == old(clickListeners) && nextId == old(nextId) + 2)
    }

    /** The effect of `open()`: `block()`'s; if it threw, nothing more;
        otherwise the show is scheduled or done, the listeners are
        registered and `onOpen` is called once when given. */
    twostate predicate Opened()
      reads this
    {
      && Blocked()
      && (BlockThrows() ==>
            pendingShowTimers == old(pendingShowTimers) && ModalUntouched() &&
            ListenersUntouched() && onOpenCount == old(onOpenCount))
      && (!BlockThrows() ==>
            Scheduled() && Registered() &&
            onOpenCount == old(onOpenCount) + (if onOpenGiven then 1 else 0))
    }

    /** The first render: `options` state holds the prop as given, `body` is
        not yet known, nothing is styled, registered or pending. */
    constructor (initial: Options, blockerPresent: bool, modalPresent: bool,
                 onOpenGiven: bool, onCloseGiven: bool, durationAnimatable: bool)
      ensures Valid() && OptionsSettled()
      ensures options == initial && !bodyPresent
      ensures this.blockerPresent == blockerPresent && this.modalPresent == modalPresent
      ensures this.onOpenGiven == onOpenGiven && this.onCloseGiven == onCloseGiven
      ensures this.durationAnimatable == durationAnimatable
      ensures !overflowHidden && blockerOpacity.None? && blockerFill.None?
      ensures !modalShown && modalOpacity.None? && modalFadeIns == 0 && !closeButtonVisible
      ensures keyListeners == [] && clickListeners == []
      ensures pendingShowTimers == 0 && pendingFadeOuts == 0 && queuedOnClose == 0
      ensures onOpenCount == 0 && onCloseCount == 0
    {
      this.blockerPresent := blockerPresent;
      this.modalPresent := modalPresent;
      this.onOpenGiven := onOpenGiven;
      this.onCloseGiven := onCloseGiven;
      this.durationAnimatable := durationAnimatable;
      options := initial;
      bodyPresent := false;
      overflowHidden := false;
      blockerOpacity := None;
      blockerFill := None;
      modalShown := false;
      modalOpacity := None;
      modalFadeIns := 0;
      closeButtonVisible := false;
      keyListeners := [];
      clickListeners := [];
      nextId := 0;
      pendingShowTimers := 0;
      pendingFadeOuts := 0;
      queuedOnClose := 0;
      onOpenCount := 0;
      onCloseCount := 0;
    }

    /** The options effect, run at mount and whenever the `options` prop
        changes to `newProp`. It merges the defaults with the `options`
        STATE, so `newProp` never reaches the model's options. */
    method OptionsEffect(newProp: Options, documentExists: bool)
      requires Valid() && OptionsSettled()
      modifies this`bodyPresent, this`options
      ensures Valid() && OptionsSettled()
      ensures !documentExists ==> bodyPresent == old(bodyPresent) && options == old(options)
      ensures documentExists ==> bodyPresent && options == Resolve(old(options))
      ensures old(bodyPresent) ==> options == old(options)
    {
      if !documentExists {
        return;
      }
      ResolveFixedIff(options);
      if bodyPresent {
        // the state is already resolved, so re-merging it changes nothing
        return;
      }
      // before the body is known nothing was animated or awaited
      assert blockerFill.None? && pendingFadeOuts == 0;
      var resolved := Resolve(options);
      bodyPresent := true;
      options := resolved;
    }

    /** `block()`; `threw` when its `animate` call throws. */
    method Block() returns (threw: bool)
      requires Valid()
      modifies this`overflowHidden, this`blockerOpacity, this`blockerFill
      ensures Valid()
      ensures Blocked() && threw == BlockThrows()
      ensures HostReady() ==> EffectiveBlockerOpacity() == (if threw then 0 else 1)
    {
      threw := false;
      if !bodyPresent {
        return;
      }
      overflowHidden := true;
      if !blockerPresent {
        return;
      }
      if DoFade(options) {
        blockerOpacity := Some(0);
        if !durationAnimatable {
          // `animate` throws a TypeError
          return true;
        }
        blockerFill := Some(1);   // animate 0 -> 1, fill 'forwards'
      } else {
        blockerOpacity := Some(1);
      }
    }

    /** `unblock(now)`: the result says how its promise settles. */
    method Unblock(now: bool) returns (s: Settlement)
      requires Valid()
      modifies this`overflowHidden, this`blockerOpacity, this`blockerFill
      ensures Valid()
      ensures !HostReady() ==>
        s == NeverSettles && overflowHidden == old(overflowHidden) &&
        blockerOpacity == old(blockerOpacity) && blockerFill == old(blockerFill)
      ensures HostReady() && !now && AnimateThrows() ==>
        s == Rejected && blockerOpacity == Some(1) &&
        overflowHidden == old(overflowHidden) && blockerFill == old(blockerFill)
      ensures HostReady() && !now && Fading() && durationAnimatable ==>
        s == SettlesOnFinish && blockerOpacity == Some(1) && blockerFill == Some(0) && !overflowHidden
      ensures HostReady() && (now || !Fading()) ==>
        s == Settled && blockerOpacity == Some(0) && blockerFill == old(blockerFill) && !overflowHidden
      ensures HostReady() && (!now || !Fading()) ==>
        EffectiveBlockerOpacity() == (if s == Rejected then 1 else 0)
    {
      if !bodyPresent || !blockerPresent {
        return NeverSettles;
      }
      if !now && DoFade(options) {
        blockerOpacity := Some(1);
        if !durationAnimatable {
          // `animate` throws inside the executor, which rejects the promise
          return Rejected;
        }
        blockerFill := Some(0);   // animate 1 -> 0, fill 'forwards', onfinish = resolve
        s := SettlesOnFinish;
      } else {
        blockerOpacity := Some(0);
        s := Settled;
      }
      overflowHidden := false;
    }

    /** `show()`. */
    method Show()
      requires Valid()
      modifies this`closeButtonVisible, this`modalShown, this`modalOpacity, this`modalFadeIns
      ensures Valid()
      ensures Shown()
    {
      if !modalPresent {
        return;
      }
      if Truthy(options.showClose) {
        closeButtonVisible := true;
      }
      if DoFade(options) {
        if !durationAnimatable {
          // `animate` throws a TypeError
          return;
        }
        modalFadeIns := modalFadeIns + 1;   // animate opacity 0 -> 1 with display inline-block
      } else {
        modalShown := true;
        modalOpacity := Some(1);
      }
    }

    /** `document.removeEventListener('keydown', (e) => handleKeyDown(e, close))`:
        the closure is new, so no registered listener matches it. */
    method RemoveFreshKeyListener()
      requires Valid()
      modifies this`nextId, this`keyListeners
      ensures Valid()
      ensures keyListeners == old(keyListeners) && nextId == old(nextId) + 1
    {
      var handler := nextId;   // a new closure
      nextId := nextId + 1;
      NewestBound(keyListeners, handler);
      RemoveFreshRemovesNothing(keyListeners, handler);
      keyListeners := RemoveListener(keyListeners, handler);
    }

    /** `close()`: `Promise.all([unblock()]).then(onClose)`, then the removal
        of a freshly built keydown closure. A rejected promise skips the
        `.then`. */
    method Close()
      requires Valid()
      modifies this`overflowHidden, this`blockerOpacity, this`blockerFill, this`nextId,
               this`keyListeners, this`pendingFadeOuts, this`queuedOnClose
      ensures Valid()
      ensures TeardownState() == AfterClose(old(TeardownState()), CloseUnblocking())
      ensures keyListeners == old(keyListeners)
    {
      var s := Unblock(false);
      match s {
        case NeverSettles =>
        case Rejected =>
        case Settled =>
          queuedOnClose := queuedOnClose + 1;
        case SettlesOnFinish =>
          pendingFadeOuts := pendingFadeOuts + 1;
      }
      RemoveFreshKeyListener();
    }

    /** The middle of `open()`: with fading, `show()` waits for a timer of
        `fadeDuration * fadeDelay` milliseconds; otherwise it runs at once. */
    method ShowOrSchedule()
      requires Valid()
      modifies this`pendingShowTimers, this`closeButtonVisible, this`modalShown, this`modalOpacity, this`modalFadeIns
      ensures Valid()
      ensures Scheduled()
    {
      if DoFade(options) {
        pendingShowTimers := pendingShowTimers + 1;
      } else {
        Show();
      }
    }

    /** The listener edits of `open()`: the removal of a freshly built keydown
        closure, a new keydown listener on `document`, and a new click
        listener on the blocker when `clickClose` is set and the blocker
        exists. */
    method RegisterListeners()
      requires Valid()
      modifies this`nextId, this`keyListeners, this`clickListeners
      ensures Valid()
      ensures Registered()
    {
      RemoveFreshKeyListener();
      var keyHandler := nextId;   // a new closure
      nextId := nextId + 1;
      AddFreshAppends(keyListeners, keyHandler);
      keyListeners := AddListener(keyListeners, keyHandler);
      if Truthy(options.clickClose) && blockerPresent {
        var clickHandler := nextId;   // a new closure
        nextId := nextId + 1;
        AddFreshAppends(clickListeners, clickHandler);
        clickListeners := AddListener(clickListeners, clickHandler);
      }
    }

    /** What `open()` does after `block()` returns: it shows the modal or
        sets the show timer, registers the listeners and calls `onOpen`. */
    method OpenAfterBlock()
      requires Valid()
      modifies this`pendingShowTimers, this`closeButtonVisible, this`modalShown, this`modalOpacity,
               this`modalFadeIns, this`nextId, this`keyListeners, this`clickListeners, this`onOpenCount
      ensures Valid()
      ensures Scheduled() && Registered()
      ensures onOpenCount == old(onOpenCount) + (if onOpenGiven then 1 else 0)
    {
      ShowOrSchedule();
      RegisterListeners();
      if onOpenGiven {
        onOpenCount := onOpenCount + 1;
      }
    }

    /** `open()`; `threw` when `block()` threw, which ends `open()` there. */
    method Open() returns (threw: bool)
      requires Valid()
      modifies this`overflowHidden, this`blockerOpacity, this`blockerFill, this`pendingShowTimers,
               this`closeButtonVisible, this`modalShown, this`modalOpacity, this`modalFadeIns,
               this`nextId, this`keyListeners, this`clickListeners, this`onOpenCount
      ensures Opened() && threw == BlockThrows()
      ensures HostReady() ==> EffectiveBlockerOpacity() == (if threw then 0 else 1)
      ensures Valid()
    {
      threw := Block();
      if !threw {
        OpenAfterBlock();
      }
    }

    /** The `isOpened` effect. */
    method IsOpenedEffect(isOpened: bool)
      requires Valid()
      modifies this`overflowHidden, this`blockerOpacity, this`blockerFill, this`pendingShowTimers,
               this`closeButtonVisible, this`modalShown, this`modalOpacity, this`modalFadeIns,
               this`nextId, this`keyListeners, this`clickListeners, this`onOpenCount,
               this`pendingFadeOuts, this`queuedOnClose
      ensures Valid()
      ensures isOpened ==>
        Opened() && pendingFadeOuts == old(pendingFadeOuts) && queuedOnClose == old(queuedOnClose)
      ensures !isOpened ==>
        TeardownState() == AfterClose(old(TeardownState()), CloseUnblocking()) &&
        keyListeners == old(keyListeners) && clickListeners == old(clickListeners) &&
        pendingShowTimers == old(pendingShowTimers) && ModalUntouched() && onOpenCount == old(onOpenCount)
    {
      if isOpened {
        var threw := Open();
      } else {
        Close();
      }
    }

    /** The timer `open` set fires: `show()`. */
    method FireShowTimer()
      requires Valid() && pendingShowTimers > 0
      modifies this`pendingShowTimers, this`closeButtonVisible, this`modalShown, this`modalOpacity, this`modalFadeIns
      ensures Valid()
      ensures pendingShowTimers == old(pendingShowTimers) - 1 && Shown()
    {
      pendingShowTimers := pendingShowTimers - 1;
      Show();
    }

    /** One fade-out started by `close` finishes: its `onfinish` settles the
        `unblock` promise, which queues `onClose`. The page is left as
        `unblock` left it. */
    method FinishUnblockAnimation()
      requires Valid() && pendingFadeOuts > 0
      modifies this`pendingFadeOuts, this`queuedOnClose
      ensures Valid()
      ensures pendingFadeOuts == old(pendingFadeOuts) - 1
      ensures queuedOnClose == old(queuedOnClose) + 1
    {
      pendingFadeOuts := pendingFadeOuts - 1;
      queuedOnClose := queuedOnClose + 1;
    }

    /** The microtask checkpoint: every queued `.then` runs `onClose` if the
        caller gave one. */
    method RunMicrotasks()
      requires Valid()
      modifies this`queuedOnClose, this`onCloseCount
      ensures Valid()
      ensures queuedOnClose == 0
      ensures onCloseCount == old(onCloseCount) + (if onCloseGiven then old(queuedOnClose) else 0)
    {
      if onCloseGiven {
        onCloseCount := onCloseCount + queuedOnClose;
      }
      queuedOnClose := 0;
    }

    /** Whether `handleKeyDown` calls its callback for this key code. */
    predicate EscapeCloses(code: string)
      reads this`options
    {
      code == "Escape" && Truthy(options.escapeClose)
    }

    /** One keydown listener: `handleKeyDown(e, close)`. */
    method HandleKeyDown(code: string)
      requires Valid()
      modifies this`overflowHidden, this`blockerOpacity, this`blockerFill, this`nextId,
               this`keyListeners, this`pendingFadeOuts, this`queuedOnClose
      ensures Valid()
      ensures keyListeners == old(keyListeners)
      ensures EscapeCloses(code) ==> TeardownState() == AfterClose(old(TeardownState()), CloseUnblocking())
      ensures !EscapeCloses(code) ==> TeardownState() == old(TeardownState())
    {
      if EscapeCloses(code) {
        Close();
      }
    }

    /** A keydown on `document`: every registered listener runs, in order. */
    method KeyDown(code: string)
      requires Valid()
      modifies this`overflowHidden, this`blockerOpacity, this`blockerFill, this`nextId,
               this`keyListeners, this`pendingFadeOuts, this`queuedOnClose
      ensures Valid()
      ensures keyListeners == old(keyListeners)
      ensures TeardownState() ==
        AfterCloses(old(TeardownState()), if EscapeCloses(code) then |keyListeners| else 0, CloseUnblocking())
      ensures EscapeCloses(code) && CloseUnblocking() == Immediate ==>
        queuedOnClose == old(queuedOnClose) + |keyListeners|
      ensures !(EscapeCloses(code) && CloseUnblocking() == Immediate) ==> queuedOnClose == old(queuedOnClose)
    {
      var listeners := keyListeners;
      var i := 0;
      while i < |listeners|
        invariant 0 <= i <= |listeners|
        invariant Valid() && keyListeners == listeners
        invariant TeardownState() ==
          AfterCloses(old(TeardownState()), if EscapeCloses(code) then i else 0, CloseUnblocking())
      {
        HandleKeyDown(code);
        i := i + 1;
      }
      AfterClosesEffect(old(TeardownState()), if EscapeCloses(code) then i else 0, CloseUnblocking());
    }

    /** One click listener on the blocker: `close()` when the event's target
        is the blocker itself. */
    method ClickListener(targetIsBlocker: bool)
      requires Valid()
      modifies this`overflowHidden, this`blockerOpacity, this`blockerFill, this`nextId,
               this`keyListeners, this`pendingFadeOuts, this`queuedOnClose
      ensures Valid()
      ensures keyListeners == old(keyListeners)
      ensures targetIsBlocker ==> TeardownState() == AfterClose(old(TeardownState()), CloseUnblocking())
      ensures !targetIsBlocker ==> TeardownState() == old(TeardownState())
    {
      if targetIsBlocker {
        Close();
      }
    }

    /** A click that reaches the blocker: on the blocker itself, or bubbling
        up from an element inside it. Every registered listener runs. */
    method Click(targetIsBlocker: bool)
      requires Valid()
      modifies this`overflowHidden, this`blockerOpacity, this`blockerFill, this`nextId,
               this`keyListeners, this`pendingFadeOuts, this`queuedOnClose
      ensures Valid()
      ensures keyListeners == old(keyListeners)
      ensures TeardownState() ==
        AfterCloses(old(TeardownState()), if targetIsBlocker then |clickListeners| else 0, CloseUnblocking())
      ensures !targetIsBlocker ==> TeardownState() == old(TeardownState())
    {
      var listeners := clickListeners;
      var i := 0;
      while i < |listeners|
        invariant 0 <= i <= |listeners|
        invariant Valid() && keyListeners == old(keyListeners)
        invariant TeardownState() ==
          AfterCloses(old(TeardownState()), if targetIsBlocker then i else 0, CloseUnblocking())
      {
        ClickListener(targetIsBlocker);
        i := i + 1;
      }
    }

    /** A click on the close button, which is rendered only while `showClose`
        holds and `isCloseButtonVisible` is set; its handler is `close`. */
    method ClickCloseButton()
      requires Valid()
      modifies this`overflowHidden, this`blockerOpacity, this`blockerFill, this`nextId,
               this`keyListeners, this`pendingFadeOuts, this`queuedOnClose
      ensures Valid()
      ensures keyListeners == old(keyListeners)
      ensures Truthy(options.showClose) && closeButtonVisible ==>
        TeardownState() == AfterClose(old(TeardownState()), CloseUnblocking())
      ensures !(Truthy(options.showClose) && closeButtonVisible) ==> TeardownState() == old(TeardownState())
    {
      if Truthy(options.showClose) && closeButtonVisible {
        Close();
      }
    }
  }
}
