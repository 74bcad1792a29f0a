/** AttachedProperties/WindowMaterial.cs: the attached object that puts a material (Mica, Acrylic,
    Mica Alt) behind a window, through the system-backdrop attribute on Windows 11 or through
    the accent policy ("window composition") on Windows 10 1809 or whenever asked to.

    The window is an identity and its interop handle is an argument of the handlers that read it.
    Dependency properties are fields, and a property setter runs its change callback only when the
    value changes (as WPF does). Every request to Windows is appended to `requests`, every
    WindowChrome.SetWindowChrome call to `chromeApplied`. */
module WindowMaterials {
  import Wrappers
  import opened MaterialApis

  /** WindowMaterial.APIType: which mechanism currently provides the material. */
  datatype Api = NoApi | SystemBackdrop | Composition

  /** System.Version: an undefined component is stored as -1, and versions compare component by
      component in the order major, minor, build, revision. */
  datatype Version = Version(major: int, minor: int, build: int, revision: int)

  function VersionLess(a: Version, b: Version): bool {
    if a.major != b.major then a.major < b.major
    else if a.minor != b.minor then a.minor < b.minor
    else if a.build != b.build then a.build < b.build
    else a.revision < b.revision
  }

  /** new Version(10, 0, 17763) and new Version(10, 0, 22000): the revision is undefined. */
  const Windows10_1809: Version := Version(10, 0, 17763, -1)
  const Windows11: Version := Version(10, 0, 22000, -1)

  /** VersionLess is a strict order. */
  lemma VersionLessIsStrictOrder(a: Version, b: Version, c: Version)
    ensures !VersionLess(a, a)
    ensures VersionLess(a, b) ==> !VersionLess(b, a)
    ensures VersionLess(a, b) && VersionLess(b, c) ==> VersionLess(a, c)
  {
  }

  /** `osVersion >= windows10_1809 && osVersion < windows11`. */
  function IsWindows10(v: Version): bool {
    !VersionLess(v, Windows10_1809) && VersionLess(v, Windows11)
  }

  /** For a version with all four components (as the OS reports it), the Windows 10 window is
      exactly 10.0 with a build from 17763 up to but excluding 22000. */
  lemma IsWindows10Exactly(v: Version)
    requires v.revision >= 0
    ensures IsWindows10(v) <==> v.major == 10 && v.minor == 0 && 17763 <= v.build < 22000
  {
  }

  lemma IsWindows10Examples()
    ensures IsWindows10(Version(10, 0, 17763, 0)) && IsWindows10(Version(10, 0, 19045, 3803))
    ensures !IsWindows10(Version(10, 0, 17134, 0)) && !IsWindows10(Version(10, 0, 22000, 0))
    ensures !IsWindows10(Version(6, 3, 9600, 0)) && !IsWindows10(Version(10, 0, 22631, 0))
  {
  }

  /** Apply: the mechanism in use afterwards and the requests sent, in order. */
  function ApplyEffect(hasWindow: bool, hWnd: int, api: Api, mode: MaterialType, useComposition: bool,
                       os: Version, blurColor: bv32): (Api, seq<Request>)
  {
    var disable := SetWindowComposition(hWnd, false, Wrappers.Some(blurColor));
    if !hasWindow || hWnd == 0 then (api, [])
    else if mode == MaterialType.None then
      if api == Composition then (NoApi, [disable])
      else if api == SystemBackdrop then (NoApi, [SetBackDropType(hWnd, MaterialType.None)])
      else (api, [])
    else if useComposition || IsWindows10(os) then
      (Composition, SetWindowProperties(hWnd, if IsWindows10(os) then 1 else 0)
                    + [SetWindowComposition(hWnd, true, Wrappers.Some(blurColor))])
    else
      (SystemBackdrop, (if api == Composition then [disable] else [])
                       + SetWindowProperties(hWnd, -1) + [SetBackDropType(hWnd, mode)])
  }

  /** Without a window or a handle Apply does nothing. */
  lemma ApplyNeedsWindow(hasWindow: bool, hWnd: int, api: Api, mode: MaterialType, useComposition: bool,
                         os: Version, blurColor: bv32)
    requires !hasWindow || hWnd == 0
    ensures ApplyEffect(hasWindow, hWnd, api, mode, useComposition, os, blurColor) == (api, [])
  {
  }

  /** With a live handle, Apply leaves no mechanism in use exactly when the mode is None, and
      otherwise uses composition exactly when asked to or on Windows 10. */
  lemma ApplyChoosesApi(hWnd: int, api: Api, mode: MaterialType, useComposition: bool,
                        os: Version, blurColor: bv32)
    requires hWnd != 0
    ensures var api' := ApplyEffect(true, hWnd, api, mode, useComposition, os, blurColor).0;
      && (api' == NoApi <==> mode == MaterialType.None)
      && (api' == Composition <==> mode != MaterialType.None && (useComposition || IsWindows10(os)))
      && (api' == SystemBackdrop <==> mode != MaterialType.None && !useComposition && !IsWindows10(os))
  {
  }

  /** Switching a material off undoes whichever mechanism was in use, and sends nothing when none was. */
  lemma ApplyNoneUndoes(hWnd: int, api: Api, useComposition: bool, os: Version, blurColor: bv32)
    requires hWnd != 0
    ensures var e := ApplyEffect(true, hWnd, api, MaterialType.None, useComposition, os, blurColor);
      && (api == NoApi ==> e.1 == [])
      && (api == Composition ==> |e.1| == 1 && e.1[0].SetCompositionAttribute?
                                 && AccentStateValue(e.1[0].accent.accentState) == 0)
      && (api == SystemBackdrop ==> |e.1| == 1 && e.1[0].SetAttribute?
                                    && AttributeValue(e.1[0].attribute) == 38 && e.1[0].value == 1)
  {
  }

  /** Applying twice with the same inputs ends in the same mechanism as applying once. */
  lemma ApplySettles(hasWindow: bool, hWnd: int, api: Api, mode: MaterialType, useComposition: bool,
                     os: Version, blurColor: bv32)
    ensures var api' := ApplyEffect(hasWindow, hWnd, api, mode, useComposition, os, blurColor).0;
      ApplyEffect(hasWindow, hWnd, api', mode, useComposition, os, blurColor).0 == api'
  {
  }

  /** What the window manager holds for the window, as set by the requests so far. Requests are
      folded regardless of their handle: a material serves one window. */
  datatype DwmState = DwmState(accent: Wrappers.Option<AccentPolicy>, attributes: map<DwmAttribute, int>,
                               margins: Wrappers.Option<Margins>, transparent: bool)

  const InitialDwm: DwmState := DwmState(Wrappers.None, map[], Wrappers.None, false)

  function Perform(d: DwmState, r: Request): DwmState {
    match r
    case SetAttribute(_, a, v, _) => d.(attributes := d.attributes[a := v])
    case SetCompositionAttribute(_, _, acc, _) => d.(accent := Wrappers.Some(acc))
    case SetTransparentBackground(_) => d.(transparent := true)
    case ExtendFrameIntoClientArea(_, m) => d.(margins := Wrappers.Some(m))
  }

  function PerformAll(d: DwmState, rs: seq<Request>): DwmState
    decreases |rs|
  {
    if rs == [] then d else PerformAll(Perform(d, rs[0]), rs[1..])
  }

  /** Performing two batches of requests one after the other is performing their concatenation. */
  lemma {:induction false} PerformAllAppend(d: DwmState, a: seq<Request>, b: seq<Request>)
    ensures PerformAll(d, a + b) == PerformAll(PerformAll(d, a), b)
    decreases |a|
  {
    if a != [] {
      assert (a + b)[0] == a[0];
      assert (a + b)[1..] == a[1..] + b;
      PerformAllAppend(Perform(d, a[0]), a[1..], b);
    } else {
      assert a + b == b;
    }
  }

  lemma PerformOne(d: DwmState, r: Request)
    ensures PerformAll(d, [r]) == Perform(d, r)
  {
    assert [r][1..] == [];
  }

  /** SetWindowProperties makes the background transparent and sets the margins. */
  lemma PerformProperties(d: DwmState, hWnd: int, margin: int)
    ensures PerformAll(d, SetWindowProperties(hWnd, margin))
         == d.(margins := Wrappers.Some(Margins(margin, margin, margin, margin)), transparent := true)
  {
    var rs := SetWindowProperties(hWnd, margin);
    assert rs == [rs[0]] + [rs[1]];
    PerformAllAppend(d, [rs[0]], [rs[1]]);
    PerformOne(d, rs[0]);
    PerformOne(Perform(d, rs[0]), rs[1]);
  }

  /** The accent policy currently turns acrylic blur on. */
  predicate AccentOn(d: DwmState) {
    d.accent.Some? && d.accent.value.accentState == AccentEnableAcrylicBlurBehind
  }

  /** `_currentAPI` tells the truth about the window: composition is on exactly under
      COMPOSITION, and under SYSTEMBACKDROP a real material is set as the backdrop. */
  predicate Agrees(api: Api, d: DwmState) {
    && (api == Composition <==> AccentOn(d))
    && (api == SystemBackdrop ==>
          SystemBackdropType in d.attributes && d.attributes[SystemBackdropType] != MaterialValue(MaterialType.None))
  }

  /** The window manager's state after Apply, in closed form. */
  function AfterApply(d: DwmState, hasWindow: bool, hWnd: int, api: Api, mode: MaterialType,
                      useComposition: bool, os: Version, blurColor: bv32): DwmState
  {
    var off := d.(accent := Wrappers.Some(Accent(false, Wrappers.Some(blurColor))));
    if !hasWindow || hWnd == 0 then d
    else if mode == MaterialType.None then
      if api == Composition then off
      else if api == SystemBackdrop then d.(attributes := d.attributes[SystemBackdropType := MaterialValue(MaterialType.None)])
      else d
    else if useComposition || IsWindows10(os) then
      var m := if IsWindows10(os) then 1 else 0;
      d.(margins := Wrappers.Some(Margins(m, m, m, m)), transparent := true,
         accent := Wrappers.Some(Accent(true, Wrappers.Some(blurColor))))
    else
      var d0 := if api == Composition then off else d;
      d0.(margins := Wrappers.Some(Margins(-1, -1, -1, -1)), transparent := true,
          attributes := d0.attributes[SystemBackdropType := MaterialValue(mode)])
  }

  lemma PerformApply(d: DwmState, hasWindow: bool, hWnd: int, api: Api, mode: MaterialType,
                     useComposition: bool, os: Version, blurColor: bv32)
    ensures PerformAll(d, ApplyEffect(hasWindow, hWnd, api, mode, useComposition, os, blurColor).1)
         == AfterApply(d, hasWindow, hWnd, api, mode, useComposition, os, blurColor)
  {
    var disable := SetWindowComposition(hWnd, false, Wrappers.Some(blurColor));
    if !hasWindow || hWnd == 0 {
    } else if mode == MaterialType.None {
      if api == Composition {
        PerformOne(d, disable);
      } else if api == SystemBackdrop {
        PerformOne(d, SetBackDropType(hWnd, MaterialType.None));
      }
    } else if useComposition || IsWindows10(os) {
      var m := if IsWindows10(os) then 1 else 0;
      var props := SetWindowProperties(hWnd, m);
      var enable := SetWindowComposition(hWnd, true, Wrappers.Some(blurColor));
      PerformAllAppend(d, props, [enable]);
      PerformProperties(d, hWnd, m);
      PerformOne(PerformAll(d, props), enable);
    } else {
      var pre := if api == Composition then [disable] else [];
      var props := SetWindowProperties(hWnd, -1);
      var backdrop := SetBackDropType(hWnd, mode);
      PerformAllAppend(d, pre + props, [backdrop]);
      PerformAllAppend(d, pre, props);
      if api == Composition {
        PerformOne(d, disable);
      }
      PerformProperties(PerformAll(d, pre), hWnd, -1);
      PerformOne(PerformAll(d, pre + props), backdrop);
    }
  }

  /** Apply keeps `_currentAPI` truthful. */
  lemma ApplyKeepsAgreement(d: DwmState, hasWindow: bool, hWnd: int, api: Api, mode: MaterialType,
                            useComposition: bool, os: Version, blurColor: bv32)
    requires Agrees(api, d)
    ensures var e := ApplyEffect(hasWindow, hWnd, api, mode, useComposition, os, blurColor);
      Agrees(e.0, PerformAll(d, e.1))
  {
    PerformApply(d, hasWindow, hWnd, api, mode, useComposition, os, blurColor);
  }

  /** What the window shows after Apply with a live handle: no material leaves acrylic off,
      composition turns acrylic on in the material's colour with the Windows 10 margin, and the
      backdrop path sets the mode as the backdrop with acrylic off and the margin -1. */
  lemma ApplyOutcome(d: DwmState, hWnd: int, api: Api, mode: MaterialType, useComposition: bool,
                     os: Version, blurColor: bv32)
    requires hWnd != 0 && Agrees(api, d)
    ensures var e := ApplyEffect(true, hWnd, api, mode, useComposition, os, blurColor);
      var d' := PerformAll(d, e.1);
      && (mode == MaterialType.None ==> !AccentOn(d'))
      && (mode != MaterialType.None && (useComposition || IsWindows10(os)) ==>
            var m := if IsWindows10(os) then 1 else 0;
            && d'.accent == Wrappers.Some(Accent(true, Wrappers.Some(blurColor)))
            && d'.margins == Wrappers.Some(Margins(m, m, m, m)) && d'.transparent)
      && (mode != MaterialType.None && !useComposition && !IsWindows10(os) ==>
            && !AccentOn(d')
            && SystemBackdropType in d'.attributes && d'.attributes[SystemBackdropType] == MaterialValue(mode)
            && d'.margins == Wrappers.Some(Margins(-1, -1, -1, -1)) && d'.transparent)
  {
    PerformApply(d, true, hWnd, api, mode, useComposition, os, blurColor);
  }

  /** Apply never resets the backdrop attribute when it moves to composition, so a backdrop set
      before survives both the move to composition and a later switch to None: on Windows 11,
      Mica through the backdrop, then UseWindowComposition, then None leaves backdrop 2 (Mica)
      set while `_currentAPI` is NONE. */
  lemma BackdropSurvivesComposition(hWnd: int, blurColor: bv32)
    requires hWnd != 0
    ensures var win11 := Version(10, 0, 22631, 0);
      var e1 := ApplyEffect(true, hWnd, NoApi, Mica, false, win11, blurColor);
      var e2 := ApplyEffect(true, hWnd, e1.0, Mica, true, win11, blurColor);
      var e3 := ApplyEffect(true, hWnd, e2.0, MaterialType.None, true, win11, blurColor);
      var d := PerformAll(InitialDwm, e1.1 + e2.1 + e3.1);
      && e3.0 == NoApi && !AccentOn(d)
      && SystemBackdropType in d.attributes && d.attributes[SystemBackdropType] == MaterialValue(Mica)
  {
    var win11 := Version(10, 0, 22631, 0);
    var e1 := ApplyEffect(true, hWnd, NoApi, Mica, false, win11, blurColor);
    var e2 := ApplyEffect(true, hWnd, e1.0, Mica, true, win11, blurColor);
    var e3 := ApplyEffect(true, hWnd, e2.0, MaterialType.None, true, win11, blurColor);
    PerformAllAppend(InitialDwm, e1.1 + e2.1, e3.1);
    PerformAllAppend(InitialDwm, e1.1, e2.1);
    PerformApply(InitialDwm, true, hWnd, NoApi, Mica, false, win11, blurColor);
    var d1 := PerformAll(InitialDwm, e1.1);
    PerformApply(d1, true, hWnd, e1.0, Mica, true, win11, blurColor);
    var d2 := PerformAll(d1, e2.1);
    PerformApply(d2, true, hWnd, e2.0, MaterialType.None, true, win11, blurColor);
  }

  /** The dark-mode request changes neither the accent nor the backdrop, so `_currentAPI` stays
      truthful. */
  lemma DarkModeKeepsAgreement(d: DwmState, api: Api, hWnd: int, isDarkMode: bool)
    requires Agrees(api, d)
    ensures Agrees(api, PerformAll(d, [SetDarkMode(hWnd, isDarkMode)]))
  {
    PerformOne(d, SetDarkMode(hWnd, isDarkMode));
  }

  /** The AttachedWindow wiring: the window attached, and the windows whose SourceInitialized
      event holds AttachedWindow_SourceInitialized. An event `+=` adds one subscription and a
      `-=` removes one when there is one, so the subscriptions form a multiset. */
  datatype Wiring = Wiring(window: Wrappers.Option<int>, subscribed: multiset<int>)

  /** `Attach(value, handle)` is the AttachedWindow setter, `handle` being the window's handle at
      that moment; `Fire(source)` is one run of the handler subscribed on `source`. */
  datatype WiringEvent = Attach(value: Wrappers.Option<int>, handle: int) | Fire(source: int)

  /** The wiring after one event, and whether it threw. The setter subscribes on a window without
      a handle and never unsubscribes. The handler reads `_window`, not its sender: with no window
      attached `new WindowInteropHelper(null)` throws before anything changes, and otherwise it
      unsubscribes from the window attached now, which need not be the one that fired. A window
      the handler is not subscribed on does not reach it. */
  function Wire(s: Wiring, ev: WiringEvent): (Wiring, bool) {
    match ev
    case Attach(v, h) =>
      (Wiring(v, if v.Some? && h == 0 then s.subscribed + multiset{v.value} else s.subscribed), false)
    case Fire(src) =>
      if src !in s.subscribed then (s, false)
      else if s.window.None? then (s, true)
      else (s.(subscribed := s.subscribed - multiset{s.window.value}), false)
  }

  /** A sequence of events, up to the first one that throws. */
  function WireAll(s: Wiring, evs: seq<WiringEvent>): (Wiring, bool)
    decreases |evs|
  {
    if evs == [] then (s, false)
    else
      var r := Wire(s, evs[0]);
      if r.1 then r else WireAll(r.0, evs[1..])
  }

  const Unwired: Wiring := Wiring(Wrappers.None, multiset{})

  lemma WireAllCons(s: Wiring, ev: WiringEvent, evs: seq<WiringEvent>)
    ensures var r := Wire(s, ev);
      WireAll(s, [ev] + evs) == if r.1 then r else WireAll(r.0, evs)
  {
    assert ([ev] + evs)[0] == ev;
    assert ([ev] + evs)[1..] == evs;
  }

  /** The intended use: a window attached before it has a handle is initialised by its
      SourceInitialized, and the handler then unsubscribes. */
  lemma DeferredAttachUnsubscribes(w: int)
    ensures WireAll(Unwired, [Attach(Wrappers.Some(w), 0), Fire(w)]) == (Wiring(Wrappers.Some(w), multiset{}), false)
  {
    var s1 := Wiring(Wrappers.Some(w), multiset{w});
    assert multiset{} + multiset{w} == multiset{w};
    assert multiset{w} - multiset{w} == multiset{};
    WireAllCons(Unwired, Attach(Wrappers.Some(w), 0), [Fire(w)]);
    WireAllCons(s1, Fire(w), []);
  }

  /** Detaching a window that is still waiting for its handle leaves the handler subscribed, and
      when the window then gets its handle the handler throws. */
  lemma DetachedHandlerThrows(w: int, h: int)
    ensures WireAll(Unwired, [Attach(Wrappers.Some(w), 0), Attach(Wrappers.None, h), Fire(w)]).1
  {
    var s1 := Wiring(Wrappers.Some(w), multiset{w});
    var s2 := Wiring(Wrappers.None, multiset{w});
    assert multiset{} + multiset{w} == multiset{w};
    WireAllCons(Unwired, Attach(Wrappers.Some(w), 0), [Attach(Wrappers.None, h), Fire(w)]);
    WireAllCons(s1, Attach(Wrappers.None, h), [Fire(w)]);
    WireAllCons(s2, Fire(w), []);
  }

  /** Two windows attached in a row before either has a handle: the first one's event
      unsubscribes the handler from the second, so the first stays subscribed and the second's
      event never reaches the handler. */
  lemma SecondDeferralLosesItsEvent(w1: int, w2: int)
    requires w1 != w2
    ensures var s := Wiring(Wrappers.Some(w2), multiset{w1});
      && WireAll(Unwired, [Attach(Wrappers.Some(w1), 0), Attach(Wrappers.Some(w2), 0), Fire(w1)]) == (s, false)
      && Wire(s, Fire(w2)) == (s, false)
  {
    var s1 := Wiring(Wrappers.Some(w1), multiset{w1});
    var s2 := Wiring(Wrappers.Some(w2), multiset{w1, w2});
    var s3 := Wiring(Wrappers.Some(w2), multiset{w1});
    assert multiset{} + multiset{w1} == multiset{w1};
    assert multiset{w1} + multiset{w2} == multiset{w1, w2};
    assert multiset{w1, w2} - multiset{w2} == multiset{w1};
    assert w2 !in multiset{w1};
    WireAllCons(Unwired, Attach(Wrappers.Some(w1), 0), [Attach(Wrappers.Some(w2), 0), Fire(w1)]);
    WireAllCons(s1, Attach(Wrappers.Some(w2), 0), [Fire(w1)]);
    WireAllCons(s2, Fire(w1), []);
  }

  /** No subscription is left without a window to initialise. */
  ghost predicate SubscribedHasWindow(s: Wiring) {
    s.subscribed != multiset{} ==> s.window.Some?
  }

  /** As long as AttachedWindow is never set to null, the handler never throws: the handler can
      only run after a subscription, and a subscription always comes with a window. */
  lemma {:induction false} NonNullAttachNeverThrows(s: Wiring, evs: seq<WiringEvent>)
    requires SubscribedHasWindow(s)
    requires forall i :: 0 <= i < |evs| && evs[i].Attach? ==> evs[i].value.Some?
    ensures !WireAll(s, evs).1 && SubscribedHasWindow(WireAll(s, evs).0)
    decreases |evs|
  {
    if evs != [] {
      var r := Wire(s, evs[0]);
      assert !r.1 && SubscribedHasWindow(r.0);
      assert forall i :: 0 <= i < |evs[1..]| && evs[1..][i].Attach? ==> evs[1..][i].value.Some? by {
        forall i | 0 <= i < |evs[1..]| ensures evs[1..][i] == evs[i + 1] {
        }
      }
      NonNullAttachNeverThrows(r.0, evs[1..]);
    }
  }

  class WindowMaterial {
    /** `_window`: the attached window's identity, if any. */
    var window: Wrappers.Option<int>
    /** `_hWnd`; 0 is IntPtr.Zero. */
    var hWnd: int
    var currentAPI: Api
    var blurColor: bv32
    /** The dependency properties. */
    var isDarkMode: bool
    var materialMode: MaterialType
    var useWindowComposition: bool
    var compositonColor: Color
    var windowChromeEx: Wrappers.Option<int>
    /** The windows whose SourceInitialized event holds the handler, once per `+=`. */
    var subscribed: multiset<int>
    var requests: seq<Request>
    var chromeApplied: seq<int>
    /** Environment.OSVersion.Version. */
    const osVersion: Version

    ghost predicate Valid()
      reads this
    {
      Agrees(currentAPI, PerformAll(InitialDwm, requests))
    }

    constructor (os: Version)
      ensures Valid()
      ensures window.None? && hWnd == 0 && currentAPI == NoApi && blurColor == 0
      ensures !isDarkMode && materialMode == MaterialType.None && !useWindowComposition
      ensures compositonColor == Color(180, 0, 0, 0) && windowChromeEx.None?
      ensures subscribed == multiset{} && requests == [] && chromeApplied == [] && osVersion == os
    {
      window := Wrappers.None;
      hWnd := 0;
      currentAPI := NoApi;
      blurColor := 0;
      isDarkMode := false;
      materialMode := MaterialType.None;
      useWindowComposition := false;
      compositonColor := Color(180, 0, 0, 0);
      windowChromeEx := Wrappers.None;
      subscribed := multiset{};
      requests := [];
      chromeApplied := [];
      osVersion := os;
    }

    method SetCompositionColor(value: Color)
      modifies this`blurColor
      ensures blurColor == ToHexColor(value)
    {
      blurColor := ToHexColor(value);
    }

    method SetDarkMode(isDarkMode': bool)
      modifies this`requests
      ensures hWnd == 0 ==> requests == old(requests)
      ensures hWnd != 0 ==> requests == old(requests) + [MaterialApis.SetDarkMode(hWnd, isDarkMode')]
    {
      if hWnd == 0 {
        return;
      }
      requests := requests + [MaterialApis.SetDarkMode(hWnd, isDarkMode')];
    }

    method SetBackDropType(blurMode: MaterialType)
      modifies this`requests, this`currentAPI
      ensures hWnd == 0 ==> requests == old(requests) && currentAPI == old(currentAPI)
      ensures hWnd != 0 ==>
        && requests == old(requests) + [MaterialApis.SetBackDropType(hWnd, blurMode)]
        && currentAPI == (if blurMode == MaterialType.None then NoApi else SystemBackdrop)
    {
      if hWnd == 0 {
        return;
      }
      requests := requests + [MaterialApis.SetBackDropType(hWnd, blurMode)];
      currentAPI := if blurMode == MaterialType.None then NoApi else SystemBackdrop;
    }

    method SetWindowCompositon(enable: bool)
      modifies this`requests, this`currentAPI
      ensures hWnd == 0 ==> requests == old(requests) && currentAPI == old(currentAPI)
      ensures hWnd != 0 ==>
        && requests == old(requests) + [SetWindowComposition(hWnd, enable, Wrappers.Some(blurColor))]
        && currentAPI == (if enable then Composition else NoApi)
    {
      if hWnd == 0 {
        return;
      }
      requests := requests + [SetWindowComposition(hWnd, enable, Wrappers.Some(blurColor))];
      currentAPI := if enable then Composition else NoApi;
    }

    method SetWindowProperty(margin: int)
      modifies this`requests
      ensures hWnd == 0 ==> requests == old(requests)
      ensures hWnd != 0 ==> requests == old(requests) + SetWindowProperties(hWnd, margin)
    {
      if hWnd == 0 {
        return;
      }
      requests := requests + SetWindowProperties(hWnd, margin);
    }

    method Apply()
      requires Valid()
      modifies this`requests, this`currentAPI
      ensures Valid()
      ensures var e := ApplyEffect(window.Some?, hWnd, old(currentAPI), materialMode, useWindowComposition,
                                   osVersion, blurColor);
        currentAPI == e.0 && requests == old(requests) + e.1
    {
      ghost var d := PerformAll(InitialDwm, requests);
      ghost var e := ApplyEffect(window.Some?, hWnd, currentAPI, materialMode, useWindowComposition,
                                 osVersion, blurColor);
      ApplyKeepsAgreement(d, window.Some?, hWnd, currentAPI, materialMode, useWindowComposition,
                          osVersion, blurColor);
      PerformAllAppend(InitialDwm, requests, e.1);
      if window.Some? && hWnd != 0 {
        var enable := materialMode != MaterialType.None;
        if !enable {
          if currentAPI == Composition {
            SetWindowCompositon(false);
          } else if currentAPI == SystemBackdrop {
            SetBackDropType(MaterialType.None);
          }
        } else {
          var isWindows10 := IsWindows10(osVersion);
          if useWindowComposition || isWindows10 {
            SetWindowProperty(if isWindows10 then 1 else 0);
            SetWindowCompositon(true);
          } else {
            if currentAPI == Composition {
              SetWindowCompositon(false);
            }
            SetWindowProperty(-1);
            SetBackDropType(materialMode);
          }
        }
      }
      assert requests == old(requests) + e.1;
    }

    /** Read the handle now that the window has one, apply WindowChromeEx if set, then the dark
        mode and the material. */
    method InitWindow(handle: int)
      requires Valid()
      modifies this`hWnd, this`requests, this`currentAPI, this`chromeApplied
      ensures Valid() && hWnd == handle
      ensures chromeApplied == old(chromeApplied) + (if windowChromeEx.Some? then [windowChromeEx.value] else [])
      ensures var dark := if handle == 0 then [] else [MaterialApis.SetDarkMode(handle, isDarkMode)];
        var e := ApplyEffect(window.Some?, handle, old(currentAPI), materialMode, useWindowComposition,
                             osVersion, blurColor);
        currentAPI == e.0 && requests == old(requests) + dark + e.1
    {
      hWnd := handle;
      if windowChromeEx.Some? {
        chromeApplied := chromeApplied + [windowChromeEx.value];
      }
      ghost var before := requests;
      SetDarkMode(isDarkMode);
      if hWnd != 0 {
        PerformAllAppend(InitialDwm, before, [MaterialApis.SetDarkMode(hWnd, isDarkMode)]);
        DarkModeKeepsAgreement(PerformAll(InitialDwm, before), currentAPI, hWnd, isDarkMode);
      }
      Apply();
    }

    /** The AttachedWindow setter: remember the window; initialise at once if it already has a
        handle, otherwise subscribe to its SourceInitialized event. Setting null keeps the old
        handle and every subscription. */
    method SetAttachedWindow(value: Wrappers.Option<int>, handle: int)
      requires Valid()
      modifies this`window, this`hWnd, this`requests, this`currentAPI, this`chromeApplied, this`subscribed
      ensures Valid() && window == value
      ensures Wiring(window, subscribed) == Wire(old(Wiring(window, subscribed)), Attach(value, handle)).0
      ensures value.None? ==> hWnd == old(hWnd) && unchanged(this`requests, this`currentAPI, this`chromeApplied)
      ensures value.Some? && handle == 0 ==>
        hWnd == 0 && subscribed == old(subscribed) + multiset{value.value}
        && unchanged(this`requests, this`currentAPI, this`chromeApplied)
      ensures value.Some? && handle != 0 ==>
        var e := ApplyEffect(true, handle, old(currentAPI), materialMode, useWindowComposition, osVersion, blurColor);
        && hWnd == handle && subscribed == old(subscribed)
        && currentAPI == e.0 && requests == old(requests) + [MaterialApis.SetDarkMode(handle, isDarkMode)] + e.1
    {
      window := value;
      if value.Some? {
        hWnd := handle;
        if hWnd == 0 {
          subscribed := subscribed + multiset{value.value};
        } else {
          InitWindow(handle);
        }
      }
    }

    /** AttachedWindow_SourceInitialized, run by the event of `source`, a window it is subscribed
        on; `handle` is the handle of the window attached now. It initialises that window and then
        unsubscribes from it. With no window attached it throws (`threw`) and changes nothing. */
    method OnSourceInitialized(source: int, handle: int) returns (threw: bool)
      requires Valid() && source in subscribed
      modifies this`hWnd, this`requests, this`currentAPI, this`chromeApplied, this`subscribed
      ensures Valid()
      ensures (Wiring(window, subscribed), threw) == Wire(old(Wiring(window, subscribed)), Fire(source))
      ensures threw <==> window.None?
      ensures threw ==> unchanged(this`hWnd, this`requests, this`currentAPI, this`chromeApplied, this`subscribed)
      ensures !threw ==> hWnd == handle && subscribed == old(subscribed) - multiset{window.value}
      ensures !threw ==> chromeApplied == old(chromeApplied) + (if windowChromeEx.Some? then [windowChromeEx.value] else [])
      ensures !threw ==>
        var dark := if handle == 0 then [] else [MaterialApis.SetDarkMode(handle, isDarkMode)];
        var e := ApplyEffect(true, handle, old(currentAPI), materialMode, useWindowComposition,
                             osVersion, blurColor);
        currentAPI == e.0 && requests == old(requests) + dark + e.1
    {
      if window.None? {
        return true;
      }
      InitWindow(handle);
      subscribed := subscribed - multiset{window.value};
      threw := false;
    }

    /** IsDarkMode setter: on a change, send the dark-mode attribute. */
    method SetIsDarkMode(value: bool)
      requires Valid()
      modifies this`isDarkMode, this`requests
      ensures Valid() && isDarkMode == value
      ensures requests == old(requests) + (if value != old(isDarkMode) && hWnd != 0
                                           then [MaterialApis.SetDarkMode(hWnd, value)] else [])
    {
      if value == isDarkMode {
        return;
      }
      isDarkMode := value;
      ghost var before := requests;
      SetDarkMode(value);
      if hWnd != 0 {
        PerformAllAppend(InitialDwm, before, [MaterialApis.SetDarkMode(hWnd, value)]);
        DarkModeKeepsAgreement(PerformAll(InitialDwm, before), currentAPI, hWnd, value);
      }
    }

    /** MaterialMode setter: on a change, Apply. */
    method SetMaterialMode(value: MaterialType)
      requires Valid()
      modifies this`materialMode, this`requests, this`currentAPI
      ensures Valid() && materialMode == value
      ensures value == old(materialMode) ==> unchanged(this`requests, this`currentAPI)
      ensures value != old(materialMode) ==>
        var e := ApplyEffect(window.Some?, hWnd, old(currentAPI), value, useWindowComposition, osVersion, blurColor);
        currentAPI == e.0 && requests == old(requests) + e.1
    {
      if value == materialMode {
        return;
      }
      materialMode := value;
      Apply();
    }

    /** UseWindowComposition setter: on a change, Apply. */
    method SetUseWindowComposition(value: bool)
      requires Valid()
      modifies this`useWindowComposition, this`requests, this`currentAPI
      ensures Valid() && useWindowComposition == value
      ensures value == old(useWindowComposition) ==> unchanged(this`requests, this`currentAPI)
      ensures value != old(useWindowComposition) ==>
        var e := ApplyEffect(window.Some?, hWnd, old(currentAPI), materialMode, value, osVersion, blurColor);
        currentAPI == e.0 && requests == old(requests) + e.1
    {
      if value == useWindowComposition {
        return;
      }
      useWindowComposition := value;
      Apply();
    }

    /** CompositonColor setter: on a change, repack the colour into `_blurColor`, then Apply. */
    method SetCompositonColor(value: Color)
      requires Valid()
      modifies this`compositonColor, this`blurColor, this`requests, this`currentAPI
      ensures Valid() && compositonColor == value
      ensures value == old(compositonColor) ==> unchanged(this`blurColor, this`requests, this`currentAPI)
      ensures value != old(compositonColor) ==>
        var e := ApplyEffect(window.Some?, hWnd, old(currentAPI), materialMode, useWindowComposition,
                             osVersion, ToHexColor(value));
        blurColor == ToHexColor(value) && currentAPI == e.0 && requests == old(requests) + e.1
    {
      if value == compositonColor {
        return;
      }
      compositonColor := value;
      SetCompositionColor(value);
      Apply();
    }

    /** WindowChromeEx setter: on a change to a chrome while a window is attached, set the chrome
        on the window, then Apply. */
    method SetWindowChromeEx(value: Wrappers.Option<int>)
      requires Valid()
      modifies this`windowChromeEx, this`chromeApplied, this`requests, this`currentAPI
      ensures Valid() && windowChromeEx == value
      ensures !(value != old(windowChromeEx) && value.Some? && window.Some?) ==>
        unchanged(this`chromeApplied, this`requests, this`currentAPI)
      ensures value != old(windowChromeEx) && value.Some? && window.Some? ==>
        var e := ApplyEffect(true, hWnd, old(currentAPI), materialMode, useWindowComposition, osVersion, blurColor);
        && chromeApplied == old(chromeApplied) + [value.value]
        && currentAPI == e.0 && requests == old(requests) + e.1
    {
      if value == windowChromeEx {
        return;
      }
      windowChromeEx := value;
      if value.Some? && window.Some? {
        chromeApplied := chromeApplied + [value.value];
        Apply();
      }
    }
  }
}
