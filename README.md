# P12_Modal in Dafny

A model of the React modal component of P12_Modal (`src/modal.tsx`) and of
its option record and defaults (`src/modal.ts`), with proofs about both.

- `modal_options.dfy`, module `ModalOptions` (pure). This file holds:
  - the `IModalOptions` record, where every optional property is missing,
    present as `undefined`, or present with a value;
  - the constant `modalDefaultOptions`;
  - a model of ECMAScript `parseInt(s, 10)`, reduced to the one question the
    component asks of it: is the result NaN?
  - the resolver that the first effect runs:
    `{...modalDefaultOptions, ...options, doFade: !isNaN(parseInt(options.fadeDuration, 10))}`.

  Module `ModalOptionsExamples` evaluates the fade test on concrete durations.
- `modal.dfy`, module `Lifecycle` (imperative). The component is a class
  `Modal` whose fields are the state the source changes:
  - the body's `overflow`;
  - the blocker's inline opacity and the final value of its latest
    fill-forwards animation;
  - the modal's display, opacity and fade-ins;
  - `isCloseButtonVisible`;
  - the keydown listeners on `document` and the click listeners on the
    blocker, with one id per closure;
  - the pending show timers, the pending blocker fade-outs, and the settled
    `unblock()` promises whose `.then(onClose)` has not run;
  - counters of `onOpen` and `onClose` calls.

  A constant `durationAnimatable` records whether the Web Animations API
  accepts `+fadeDuration` as a duration. It does not for NaN or a negative
  number. When fading is on and it does not, every `animate` call throws a
  TypeError, and `block`, `unblock` and `show` take that path: `open` stops
  after `block`, and `close`'s promise is rejected.

  The methods are:
  - the options effect;
  - `block`, `unblock(now)`, `show`, `handleKeyDown` and `close`;
  - `open`, split into `block` and the rest, which is split in two again;
  - the `isOpened` effect;
  - the close button.

  The work the host defers becomes explicit steps that a caller may run in
  any order:
  - the `setTimeout` that shows the modal;
  - the `onfinish` of the blocker's fade-out;
  - the microtask checkpoint that runs `.then(onClose)`;
  - keydown and click events, which run every registered listener in order.

  The invariant `Valid` covers two things. First, listener ids are in
  registration order and below the next closure id. Second, without the
  body or the blocker nothing is ever awaited, so `onClose` never runs.
- `scenarios.dfy`, module `Scenarios`, holds explicit call sequences over the
  class and states what each one leaves observable. Each starts from the
  state `Mount` leaves: the first render with the caller's raw prop, then
  the options effect. The sequences fix the
  order of the calls themselves. They are not the order in which React runs
  the effects of a real page (see "## Left out").

In four places the code does something a reader may not expect; the model
follows the code:
- Closing never removes the keydown listener. Both `close` and `open` pass
  `removeEventListener` a closure built on the spot, which matches no
  registered listener. Listeners therefore accumulate, and one Escape after
  two openings runs `close` twice.
- The options effect merges the `options` *state*, not the new prop. A
  changed prop is re-merged from the old state and never takes effect.
- `onClose` runs after `unblock()`'s promise settles, in a later microtask.
  It never runs in the same step as `close`, and never at all without the
  body or the blocker.
- `doFade` comes from `parseInt`, but the animation duration comes from `+`.
  A duration such as "12abc" or "-5" turns fading on and then makes every
  `animate` call throw. Opening then registers no listener and calls no
  `onOpen`; closing leaves the page unscrollable and never calls `onClose`.

## Model

| member | source | states |
|---|---|---|
| ModalOptions.Defaults | src/modal.ts:24-33 | the `modalDefaultOptions` literal, with no contract of its own; `DefaultFlags`, `DefaultClasses`, `DefaultFadeDelay`, `DefaultsLeaveDoFadeUnset` and `DefaultsDoNotFade` state its values |
| ModalOptions.DefaultFlags | src/modal.ts:25-30 | `escapeClose`, `clickClose` and `showClose` default to true |
| ModalOptions.DefaultClasses | src/modal.ts:27-29 | the class defaults are "", "modal" and "jquery-modal" |
| ModalOptions.DefaultFadeDelay | src/modal.ts:32 | `fadeDelay` defaults to 1.0 |
| ModalOptions.DefaultsLeaveDoFadeUnset | src/modal.ts:24-33 | the defaults carry no `doFade`; only the resolver supplies it |
| ModalOptions.TrimStart | src/modal.tsx:28 | the result is a suffix of the input, everything dropped is white space, and it does not start with white space |
| ModalOptions.DigitPrefix | src/modal.tsx:28 | the result is the longest prefix made only of decimal digits |
| ModalOptions.ParseInt | src/modal.tsx:28 | `parseInt(s, 10)` with `None` for NaN, with no contract of its own; `ParseIntDefinedIff`, `ParseIntDefinedIffStartsWithNumber` and `ParseIntOfDigits` state when it is defined and what it yields on digits |
| ModalOptions.ParseIntDefinedIff | src/modal.tsx:28 | `parseInt(s, 10)` is a number iff, after white space only, `s` has a digit or a sign followed by a digit |
| ModalOptions.ParseIntOfDigits | src/modal.tsx:28 | a non-empty string of digits parses to its own value |
| ModalOptions.DigitPrefixOfDigits | src/modal.tsx:28 | a string of digits is its own digit prefix |
| ModalOptions.FadeRequestedAt | src/modal.tsx:28 | a number starting after white space turns fading on |
| ModalOptions.FadeNotRequestedFrom | src/modal.tsx:28 | the empty string, and a string whose first character is not white space, a digit, or a sign followed by a digit, leave fading off |
| ModalOptions.ParseIntDefinedIffStartsWithNumber | src/modal.tsx:28 | the parse model agrees with a direct recursive reading of "a number follows the leading white space" |
| ModalOptions.Resolve | src/modal.tsx:25-29 | `fadeDuration` and `fadeDelay` are kept; each optional flag or class given by the caller overrides its default and each missing one takes the default; `doFade` is always recomputed from `fadeDuration` |
| ModalOptions.ResolveFixedIff | src/modal.tsx:20-31 | resolving changes the options iff they are not yet resolved (populated, with `doFade` matching the duration); a resolved result is always resolved |
| ModalOptions.ResolvePopulates | src/modal.tsx:25-29 | after resolution every optional property is present and `doFade` is a boolean |
| ModalOptions.ResolveIdempotent | src/modal.tsx:20-31 | re-running the effect on its own result changes nothing |
| ModalOptions.ResolveIgnoresCallerDoFade | src/modal.tsx:28 | a `doFade` given by the caller has no influence on the result |
| ModalOptions.ResolvedFadeIff | src/modal.tsx:28 | resolved options fade iff a number starts after the duration's leading white space |
| ModalOptions.DefaultsDoNotFade | src/modal.ts:31 | the empty default duration parses to NaN, so the defaults alone do not fade |
| ModalOptionsExamples.FadeRequestedExamples | src/modal.tsx:28 | "300", "0", "12abc", "+7" and " \t-5" turn fading on (for "12abc" and " \t-5" `animate` then throws) |
| ModalOptionsExamples.FadeNotRequestedExamples | src/modal.tsx:28 | "", "abc", "-", "+ 1" and "px12" leave fading off |
| Lifecycle.AddListener | src/modal.tsx:127 | `addEventListener` keeps the list as a prefix and adds at most one entry; afterwards the registered listeners are the old ones plus this one; and a duplicate-free list stays duplicate-free |
| Lifecycle.AddListenerIdempotent | src/modal.tsx:127 | adding the same closure twice registers it once |
| Lifecycle.RemoveListener | src/modal.tsx:113 | `removeEventListener` removes exactly the given closure and nothing else, and keeps a duplicate-free list duplicate-free |
| Lifecycle.RemoveListenerKeepsOrder | src/modal.tsx:113 | in a duplicate-free list, removal takes out the one matching entry and keeps the others in dispatch order |
| Lifecycle.RemoveFreshRemovesNothing | src/modal.tsx:113 | removing a closure created after every registered one leaves the list unchanged |
| Lifecycle.AddFreshAppends | src/modal.tsx:127-133 | adding a new closure appends it and keeps the list in registration order |
| Lifecycle.OlderThanNewest | src/modal.tsx:126-134 | in registration order every older listener has a smaller id than the newest |
| Lifecycle.IncreasingPrefix | src/modal.tsx:126-134 | every prefix of a list in registration order is in registration order |
| Lifecycle.NewestBound | src/modal.tsx:126-134 | in registration order, a bound on the newest id bounds them all |
| Lifecycle.IncreasingDistinct | src/modal.tsx:126-134 | a list in registration order holds no listener twice |
| Lifecycle.AfterClosesEffect | src/modal.tsx:107-114 | n calls of `close` create n closures. Without the body or the blocker they change nothing else. Without fading they queue n `onClose` calls and restore overflow. With fading and an accepted duration they wait for n fade-outs, queue no `onClose` and restore overflow. When `animate` throws they queue and await nothing and leave overflow and the fill as they were |
| Lifecycle.Modal.ListenersDistinct | src/modal.tsx:126-134 | under the invariant no keydown or click listener is registered twice |
| Lifecycle.Modal.constructor | src/modal.tsx:13-17 | the first render: the `options` state is the prop as given, `body` is unknown, and nothing is styled, registered or pending; element presence, callbacks and `durationAnimatable` are as given |
| Lifecycle.Modal.OptionsEffect | src/modal.tsx:20-31 | without `document` nothing changes; otherwise the body becomes known and the options become the resolved old state, not the new prop; once resolved, they stay unchanged |
| Lifecycle.Modal.Block | src/modal.tsx:34-50 | without the body nothing changes; with it overflow is hidden even without the blocker; with the blocker and fading the opacity is set to 0 and animated to 1, and without fading it is set to 1; it throws iff fading reaches an `animate` that rejects the duration, and then the blocker stays at 0 with no animation; otherwise it ends at 1 |
| Lifecycle.Modal.Unblock | src/modal.tsx:53-77 | without the body or the blocker nothing changes and the promise never settles; it settles at once, with opacity 0 and overflow restored, when `now` holds or fading is off; with fading it settles when the fade-out to 0 finishes, and overflow is restored before that; when that `animate` throws the opacity is set to 1, overflow stays as it was and the promise is rejected |
| Lifecycle.Modal.Show | src/modal.tsx:80-96 | without the modal element nothing changes; otherwise the close button becomes visible when `showClose` is set; with fading one fade-in starts unless `animate` throws, and display and opacity stay as they were; without fading they are set to inline-block and 1 |
| Lifecycle.Modal.RemoveFreshKeyListener | src/modal.tsx:113 | builds one new closure and leaves the keydown listeners unchanged |
| Lifecycle.Modal.Close | src/modal.tsx:107-114 | the new state is one step of `AfterClose`: `unblock` runs; `onClose` is queued only if it settled at once; a fade-out is awaited if it fades; nothing is queued if it was rejected; no listener is removed |
| Lifecycle.Modal.ShowOrSchedule | src/modal.tsx:119-125 | with fading one show timer is added and the modal is untouched; otherwise no timer is added and `show`'s effect happens at once |
| Lifecycle.Modal.RegisterListeners | src/modal.tsx:126-134 | one keydown listener is appended; one click listener is appended iff `clickClose` is set and the blocker exists; nothing is removed |
| Lifecycle.Modal.OpenAfterBlock | src/modal.tsx:119-136 | the show is deferred to a timer when fading and happens at once otherwise; one keydown listener more, and one click listener more iff `clickClose` is set and the blocker exists; `onOpen` is called exactly once when given |
| Lifecycle.Modal.Open | src/modal.tsx:117-147 | `block`'s effect; if `block` threw, no timer, no modal change, no listener, no closure and no `onOpen`; otherwise the effect of `OpenAfterBlock`; the blocker ends at opacity 1, or at 0 when `block` threw |
| Lifecycle.Modal.IsOpenedEffect | src/modal.tsx:149-156 | with `isOpened`, the whole effect of `open` and nothing awaited or queued; otherwise one `AfterClose` step, with listeners, timers, modal and `onOpen` untouched |
| Lifecycle.Modal.FireShowTimer | src/modal.tsx:120-122 | one pending show timer is consumed, and the modal changes exactly as `show` changes it |
| Lifecycle.Modal.FinishUnblockAnimation | src/modal.tsx:65 | one pending fade-out finishes, which settles its promise and queues `onClose` |
| Lifecycle.Modal.RunMicrotasks | src/modal.tsx:109-111 | every queued `.then` runs: `onClose` is counted once per queued settlement when given, and the queue empties |
| Lifecycle.Modal.HandleKeyDown | src/modal.tsx:99-104 | `close` runs iff the code is "Escape" and `escapeClose` is set; otherwise nothing changes |
| Lifecycle.Modal.KeyDown | src/modal.tsx:127 | a keydown runs every registered keydown listener: one `close` per listener on Escape with `escapeClose`. When `unblock` settles at once, `onClose` is queued once per listener; in every other case nothing is queued |
| Lifecycle.Modal.ClickListener | src/modal.tsx:129-133 | `close` runs iff the event's target is the blocker itself |
| Lifecycle.Modal.Click | src/modal.tsx:128-134 | a click on the blocker runs one `close` per registered click listener; one from inside the modal changes nothing |
| Lifecycle.Modal.ClickCloseButton | src/modal.tsx:172-173 | the button exists only while `showClose` and `isCloseButtonVisible` hold, and a click on it is one `close` |
| Scenarios.OnlyFadeDurationResolves | src/modal.tsx:25-29 | options that set only `fadeDuration` resolve to every flag on, and fade iff `parseInt` reads the duration as a number |
| Scenarios.Mount | src/modal.tsx:13-31 | the first render with the caller's raw prop `p`, then the options effect with `document` present: the options become `Resolve(p)`, the body is known, and nothing is styled, registered, pending or called yet (`JustMounted`); every scenario below starts from that state |
| Scenarios.EscapeWithoutFade | src/modal.tsx:99-114 | without fading, opening shows the modal; Escape queues `onClose`, which has run 0 times before the microtask checkpoint and once after |
| Scenarios.EscapeAfterReopen | src/modal.tsx:113-127 | after open, close, open there are two keydown listeners, and one Escape brings `onClose` to three calls |
| Scenarios.FadeDefersShow | src/modal.tsx:117-125 | with fading and an accepted duration, opening leaves the modal hidden until the timer fires, which starts one fade-in |
| Scenarios.FadeDefersClose | src/modal.tsx:59-65 | with fading and an accepted duration, `onClose` has not run after the checkpoint that follows `close`, and runs once after the fade-out finishes |
| Scenarios.MissingBlockerNeverCloses | src/modal.tsx:56-57 | without the blocker, Escape and the checkpoint never run `onClose`, and no click listener is registered |
| Scenarios.UnanimatableDurationBreaks | src/modal.tsx:41-46 | with fading and a duration `animate` rejects: `open` throws, leaving no listener, no timer and no `onOpen`; a later `close` leaves overflow hidden and the blocker opaque, and `onClose` never runs |
| Scenarios.ClickOnlyOnBlocker | src/modal.tsx:129-133 | a click from inside the modal queues nothing, and one on the blocker queues one `onClose` |

## Left out

- The markup is not modelled: the JSX, the class-string concatenation and the `Cross` icon. The close button is modelled only as the condition under which it exists and its handler.
- React scheduling is not modelled. That covers `useCallback` and `useEffect` dependency tracking, re-render timing, and the state setters taking effect on the next render. Each effect and handler is a method, and it reads the current fields. So a listener closure that captured stale `options` or a stale `close` is modelled as if it saw the current ones.
- Animation internals are not modelled: keyframes, easing and duration. For the blocker the model keeps only the final value of the latest fill-forwards animation, and that value holds over the inline opacity. For the modal it counts fade-ins, which have no fill.
- `Lifecycle.Modal.Unblock`: with `now` set while a fill-forwards fade-in is still in force, the model keeps that fill as the effective opacity (1). It does not try to model the Web Animations composite order.
- The delay arithmetic (`+options.fadeDuration * options.fadeDelay`) is not modelled. The show timer is an event step, and `fadeDelay` is a real the model never computes with.
- The `Number` coercion of `fadeDuration` is not computed. Whether its result is a duration `animate` accepts is the constructor parameter `durationAnimatable`. That is faithful because no operation changes `fadeDuration`. Examples: "12abc" and "300ms" give NaN, and "-5" gives a negative number.
- Where a thrown TypeError goes is not modelled: out of the `isOpened` effect into React's error handling, or out of the timer callback. The model keeps the state as it was at the throw, and `Open` reports that `block` threw.
- `ModalOptions.ParseInt` keeps the mathematical value of the digits. JavaScript would turn a very long run into a rounded float or Infinity, neither of which is NaN, so the fade test is unaffected. The radix-16 `0x` prefix is not involved, since the radix is 10.
- The `document` existence check is a parameter of `OptionsEffect`.
- `Lifecycle.Modal.RunMicrotasks`: the microtask checkpoint is a separate step that drains every settled promise at once. The model does not interleave it between individual listener calls.
- The presence of the blocker and modal elements is fixed for the life of the object. Mounting and unmounting the DOM nodes is not modelled.
- The `isOpened` effect is not re-run when `open` or `close` changes identity. On a real page the effect first runs before the options effect's `setBody` takes effect, so `close` finds no body. It runs again once `body` and `options` are set, because `close` depends on `unblock`, which depends on `body`. A page that mounts closed therefore calls `close` a second time, which settles and calls `onClose` once before the modal is ever opened. A page that mounts open calls `onOpen` twice and registers two keydown listeners. The scenarios start after mount and call `open` and `close` explicitly, so they do not show these extra calls.
- One component instance is modelled. Several modals sharing `document`'s keydown listeners are not.

## Style

The resolver is a total function on a record. The component is a class with
field-grained frames (`reads this`f` / `modifies this`f`). Each method is
proved against its whole new state. The effects that several methods share
(`Blocked`, `Shown`, `Scheduled`, `Registered`, `Opened`) are two-state
predicates, each stated once. Repeated closings are proved against
the values `AfterClose`/`AfterCloses` compute, and `AfterClosesEffect`
relates those values to counts.
