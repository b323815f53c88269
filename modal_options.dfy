/** The modal's options: the `IModalOptions` record and its defaults
    (src/modal.ts), the `parseInt(fadeDuration, 10)` test that decides whether
    the modal fades, and the resolver that merges the caller's options over the
    defaults (the first effect of src/modal.tsx). */
module ModalOptions {

  datatype Option<T> = None | Some(value: T)

  /** One optional property of a JavaScript object: missing, present with the
      value `undefined`, or present with a value. Object spread copies every
      present property, an `undefined` one included. */
  datatype Prop<T> = Absent | Undefined | Given(value: T)

  /** `{...base, ...top}` restricted to one property. */
  function Spread<T>(base: Prop<T>, top: Prop<T>): (r: Prop<T>) {
    if top.Absent? then base else top
  }

  /** JavaScript truthiness of an optional boolean property. */
  predicate Truthy(p: Prop<bool>) {
    p == Given(true)
  }

  /** `IModalOptions`: `fadeDuration` and `fadeDelay` are required by the
      type, every other field is optional. `fadeDelay` is a JavaScript number;
      the model never computes with it. */
  datatype Options = Options(
    fadeDuration: string,
    fadeDelay: real,
    doFade: Prop<bool>,
    escapeClose: Prop<bool>,
    showClose: Prop<bool>,
    closeClass: Prop<string>,
    modalClass: Prop<string>,
    clickClose: Prop<bool>,
    blockerClass: Prop<string>)

  /** `modalDefaultOptions`. It has no `doFade`: only the resolver sets it. */
  function Defaults(): (d: Options) {
    Options(
      "",              // fadeDuration
      1.0,             // fadeDelay
      Absent,          // doFade
      Given(true),     // escapeClose
      Given(true),     // showClose
      Given(""),       // closeClass
      Given("modal"),  // modalClass
      Given(true),     // clickClose
      Given("jquery-modal"))  // blockerClass
  }

  lemma DefaultFlags()
    ensures Truthy(Defaults().escapeClose) && Truthy(Defaults().clickClose) && Truthy(Defaults().showClose)
  {}

  lemma DefaultClasses()
    ensures Defaults().closeClass == Given("")
    ensures Defaults().modalClass == Given("modal")
    ensures Defaults().blockerClass == Given("jquery-modal")
  {}

  /** With the default `fadeDelay` of 1.0 the show timer waits exactly the fade
      duration (`+fadeDuration * 1.0` is `+fadeDuration` for every number). */
  lemma DefaultFadeDelay()
    ensures Defaults().fadeDelay == 1.0
  {}

  lemma DefaultsLeaveDoFadeUnset()
    ensures Defaults().doFade == Absent
  {}

  // ---------------------------------------------------------------------
  // parseInt(s, 10)

  /** ECMAScript's StrWhiteSpaceChar: WhiteSpace (tab, vertical tab, form
      feed, the byte order mark and every Zs space) or LineTerminator. */
  predicate IsWhiteSpace(c: char) {
    || c == '\t' || c == '\n' || c == '\U{000B}' || c == '\U{000C}' || c == '\r'
    || c == ' ' || c == '\U{00A0}' || c == '\U{1680}'
    || ('\U{2000}' <= c <= '\U{200A}')
    || c == '\U{2028}' || c == '\U{2029}' || c == '\U{202F}' || c == '\U{205F}'
    || c == '\U{3000}' || c == '\U{FEFF}'
  }

  predicate IsDigit(c: char) {
    '0' <= c <= '9'
  }

  predicate IsSign(c: char) {
    c == '+' || c == '-'
  }

  /** Drops the leading white space of `s`. */
  function TrimStart(s: string): (r: string)
    ensures |r| <= |s| && r == s[|s| - |r|..]
    ensures forall i :: 0 <= i < |s| - |r| ==> IsWhiteSpace(s[i])
    ensures r != [] ==> !IsWhiteSpace(r[0])
  {
    if s != [] && IsWhiteSpace(s[0]) then TrimStart(s[1..]) else s
  }

  /** The longest prefix of `s` made of decimal digits. */
  function DigitPrefix(s: string): (r: string)
    ensures |r| <= |s| && r == s[..|r|]
    ensures forall i :: 0 <= i < |r| ==> IsDigit(r[i])
    ensures |r| < |s| ==> !IsDigit(s[|r|])
  {
    if s != [] && IsDigit(s[0]) then [s[0]] + DigitPrefix(s[1..]) else []
  }

  /** The value of a string of decimal digits. */
  function DigitsValue(z: string): (v: nat)
    requires forall i :: 0 <= i < |z| ==> IsDigit(z[i])
  {
    if z == [] then 0
    else
      var last := z[|z| - 1];
      assert IsDigit(last);
      DigitsValue(z[..|z| - 1]) * 10 + (last as int - '0' as int)
  }

  /** `parseInt(s, 10)`, with `None` for NaN: skip leading white space, take
      one optional sign, then the longest run of decimal digits; NaN when that
      run is empty. The mathematical value is kept (JavaScript would round a
      very long run to a float or to Infinity, neither of which is NaN). */
  function ParseInt(s: string): (r: Option<int>) {
    var t := TrimStart(s);
    var negative := t != [] && t[0] == '-';
    var u := if t != [] && IsSign(t[0]) then t[1..] else t;
    var z := DigitPrefix(u);
    if z == [] then None
    else
      var v: int := DigitsValue(z);
      Some(if negative then -v else v)
  }

  /** A number starts at index `i` of `s`: only white space before it, then a
      digit, or a sign followed by a digit. */
  ghost predicate NumberStartsAt(s: string, i: int) {
    && 0 <= i < |s|
    && (forall j :: 0 <= j < i ==> IsWhiteSpace(s[j]))
    && (IsDigit(s[i]) || (IsSign(s[i]) && i + 1 < |s| && IsDigit(s[i + 1])))
  }

  /** `parseInt(s, 10)` is a number exactly when a number starts somewhere in
      `s` after nothing but white space. */
  lemma ParseIntDefinedIff(s: string)
    ensures ParseInt(s).Some? <==> exists i :: NumberStartsAt(s, i)
  {
    var t := TrimStart(s);
    var n := |s| - |t|;
    if ParseInt(s).Some? {
      assert t == s[n..];
      var u := if t != [] && IsSign(t[0]) then t[1..] else t;
      assert DigitPrefix(u) != [];
      assert NumberStartsAt(s, n);
    }
    if i :| NumberStartsAt(s, i) {
      assert i == n;
      assert t == s[i..];
      var u := if t != [] && IsSign(t[0]) then t[1..] else t;
      assert u[0] == (if IsSign(s[i]) then s[i + 1] else s[i]);
      assert DigitPrefix(u) != [];
    }
  }

  /** A string of digits alone parses to its own value. */
  lemma {:induction false} ParseIntOfDigits(s: string)
    requires s != [] && forall i :: 0 <= i < |s| ==> IsDigit(s[i])
    ensures ParseInt(s) == Some(DigitsValue(s))
  {
    assert TrimStart(s) == s;
    DigitPrefixOfDigits(s);
  }

  lemma {:induction false} DigitPrefixOfDigits(s: string)
    requires forall i :: 0 <= i < |s| ==> IsDigit(s[i])
    ensures DigitPrefix(s) == s
  {
    if s != [] {
      DigitPrefixOfDigits(s[1..]);
    }
  }

  /** Whether the resolver turns fading on for this `fadeDuration`. */
  predicate FadeRequested(fadeDuration: string) {
    ParseInt(fadeDuration).Some?
  }

  /** A string with a number at its start, after white space, requests fading. */
  lemma FadeRequestedAt(s: string, i: int)
    requires NumberStartsAt(s, i)
    ensures FadeRequested(s)
  {
    ParseIntDefinedIff(s);
  }

  /** A string that starts with anything but white space, a digit or a sign
      followed by a digit does not request fading; neither does the empty one. */
  lemma FadeNotRequestedFrom(s: string)
    requires s != [] ==> !IsWhiteSpace(s[0]) && !IsDigit(s[0])
    requires s != [] ==> !(IsSign(s[0]) && 1 < |s| && IsDigit(s[1]))
    ensures !FadeRequested(s)
  {
    ParseIntDefinedIff(s);
    forall i | 0 < i < |s| ensures !NumberStartsAt(s, i) {
      assert !IsWhiteSpace(s[0]);
    }
  }

  /** A direct reading of when `parseInt(s, 10)` is a number: after any
      white space, `s` goes on with a digit, or with a sign and a digit. */
  predicate StartsWithNumber(s: string) {
    if s == [] then false
    else if IsWhiteSpace(s[0]) then StartsWithNumber(s[1..])
    else IsDigit(s[0]) || (IsSign(s[0]) && 1 < |s| && IsDigit(s[1]))
  }

  /** The parse model and the direct reading agree on every string. */
  lemma {:induction false} ParseIntDefinedIffStartsWithNumber(s: string)
    ensures ParseInt(s).Some? <==> StartsWithNumber(s)
  {
    if s != [] && IsWhiteSpace(s[0]) {
      assert TrimStart(s) == TrimStart(s[1..]);
      ParseIntDefinedIffStartsWithNumber(s[1..]);
    } else if s != [] {
      assert TrimStart(s) == s;
      var u := if IsSign(s[0]) then s[1..] else s;
      assert DigitPrefix(u) != [] <==> u != [] && IsDigit(u[0]);
    }
  }

  // ---------------------------------------------------------------------
  // The resolver

  /** `{...modalDefaultOptions, ...o, doFade: !isNaN(parseInt(o.fadeDuration, 10))}`. */
  function Resolve(o: Options): (r: Options)
    ensures r.fadeDuration == o.fadeDuration && r.fadeDelay == o.fadeDelay
    ensures r.doFade == Given(FadeRequested(o.fadeDuration))
    ensures !o.escapeClose.Absent? ==> r.escapeClose == o.escapeClose
    ensures o.escapeClose.Absent? ==> r.escapeClose == Defaults().escapeClose
    ensures !o.showClose.Absent? ==> r.showClose == o.showClose
    ensures o.showClose.Absent? ==> r.showClose == Defaults().showClose
    ensures !o.closeClass.Absent? ==> r.closeClass == o.closeClass
    ensures o.closeClass.Absent? ==> r.closeClass == Defaults().closeClass
    ensures !o.modalClass.Absent? ==> r.modalClass == o.modalClass
    ensures o.modalClass.Absent? ==> r.modalClass == Defaults().modalClass
    ensures !o.clickClose.Absent? ==> r.clickClose == o.clickClose
    ensures o.clickClose.Absent? ==> r.clickClose == Defaults().clickClose
    ensures !o.blockerClass.Absent? ==> r.blockerClass == o.blockerClass
    ensures o.blockerClass.Absent? ==> r.blockerClass == Defaults().blockerClass
  {
    var d := Defaults();
    Options(
      o.fadeDuration,
      o.fadeDelay,
      Given(FadeRequested(o.fadeDuration)),
      Spread(d.escapeClose, o.escapeClose),
      Spread(d.showClose, o.showClose),
      Spread(d.closeClass, o.closeClass),
      Spread(d.modalClass, o.modalClass),
      Spread(d.clickClose, o.clickClose),
      Spread(d.blockerClass, o.blockerClass))
  }

  /** Every optional field but `doFade` is present. */
  predicate Populated(o: Options) {
    && !o.escapeClose.Absent? && !o.showClose.Absent? && !o.closeClass.Absent?
    && !o.modalClass.Absent? && !o.clickClose.Absent? && !o.blockerClass.Absent?
  }

  /** What a fixed point of the resolver looks like, in terms that do not
      mention the parse model. */
  predicate IsResolved(o: Options) {
    Populated(o) && o.doFade == Given(StartsWithNumber(o.fadeDuration))
  }

  /** Exactly the resolved options are left alone by the resolver. */
  lemma ResolveFixedIff(o: Options)
    ensures Resolve(o) == o <==> IsResolved(o)
    ensures IsResolved(Resolve(o))
  {
    ParseIntDefinedIffStartsWithNumber(o.fadeDuration);
  }

  /** Resolved options are fully populated and carry a boolean `doFade`. */
  lemma ResolvePopulates(o: Options)
    ensures Populated(Resolve(o)) && Resolve(o).doFade.Given?
  {}

  /** Resolving a second time, as the effect does when it re-merges its own
      state, changes nothing. */
  lemma ResolveIdempotent(o: Options)
    ensures Resolve(Resolve(o)) == Resolve(o)
  {}

  /** A `doFade` supplied by the caller is always overridden. */
  lemma ResolveIgnoresCallerDoFade(o: Options, doFade: Prop<bool>)
    ensures Resolve(o.(doFade := doFade)) == Resolve(o)
  {}

  /** Whether resolved options fade. */
  predicate DoFade(o: Options) {
    Truthy(o.doFade)
  }

  /** After resolution the modal fades exactly when `fadeDuration` has a
      number at its start, after white space. */
  lemma ResolvedFadeIff(o: Options)
    ensures DoFade(Resolve(o)) <==> exists i :: NumberStartsAt(o.fadeDuration, i)
  {
    ParseIntDefinedIff(o.fadeDuration);
  }

  /** The defaults alone do not fade: `parseInt("", 10)` is NaN. */
  lemma DefaultsDoNotFade()
    ensures !DoFade(Resolve(Defaults()))
    ensures Resolve(Defaults()).doFade == Given(false)
  {}
}

/** Worked values of the fade test; kept in a module of their own so that the
    verifier evaluates the literals against the contracts only. */
module ModalOptionsExamples {
  import opened ModalOptions

  /** `parseInt` gives a number for these durations, so they fade. For
      "12abc" and " \t-5" `doFade` is then set although `+fadeDuration` is
      NaN or negative, which `animate` rejects: `Modal.durationAnimatable`
      is false for them. */
  lemma FadeRequestedExamples(s: string)
    requires s == "300" || s == "0" || s == "12abc" || s == "+7" || s == " \t-5"
    ensures FadeRequested(s)
  {
    if s == " \t-5" {
      assert IsWhiteSpace(s[0]) && IsWhiteSpace(s[1]);
      FadeRequestedAt(s, 2);
    } else {
      FadeRequestedAt(s, 0);
    }
  }

  /** `parseInt` gives NaN for these durations, so they do not fade. */
  lemma FadeNotRequestedExamples(s: string)
    requires s == "" || s == "abc" || s == "-" || s == "+ 1" || s == "px12"
    ensures !FadeRequested(s)
  {
    FadeNotRequestedFrom(s);
  }
}
