# FluentWpfCore smooth-scrolling core, in Dafny

This project models the logic at the centre of FluentWpfCore, a WPF library that gives windows
Fluent-style materials and smooth scrolling:

- **Three scroll physics models.** Each is a one-axis motion model that takes scroll impulses
  (`OnScroll`) and, given the elapsed time, advances an offset (`Update`). Each has an `IsStable`
  rest flag.
  - `DefaultPhysics` models `ScrollPhysics/DefaultScrollPhysics.cs`: velocity with friction.
  - `ExponentialPhysics` models `ScrollPhysics/ExponentialScrollPhysics.cs`: the remaining
    distance decays exponentially.
  - `HelpersPhysics` models `Helpers/DefaultScrollPhysics.cs`, the older dual-mode model.
    Precise (touchpad) input interpolates towards a clamped target. Coarse (wheel) input
    accumulates velocity.
- **`SmoothScroll`** models the `SmoothScrollViewer` controller. It drives the dual-mode model
  frame by frame. It shows the content at the smooth *visual* offset through a translate
  transform, and synchronises the host ScrollViewer's *logical* offset at most 24 times a second.
  It also classifies wheel events as touchpad or mouse.
- **`MathExtension`** models `MathExtension.Clamp`.
- **`MaterialApis`** models colour packing and the window-manager requests that the interop
  helpers build.
- **`WindowMaterials`** models the `WindowMaterial` attached object. Its `Apply` chooses between
  the Windows 11 system-backdrop attribute and the Windows 10 accent policy.
- **`StylusTouch`** models `StylusTouchDevice`, which turns stylus down/move/up events into touch
  reports with a move threshold.

## How the model is built

Each class whose fields the source updates in place is a Dafny `class` with the same fields.
Beside each class is a pure datatype of its transient state and a pure function for each
operation (`Impulse`, `Step`, `ApplyEffect`, `Down`/`Move`/`Up`). Each method's `ensures` ties the
new state to that function. The lemmas state what the source promises about those functions, and
fold whole call sequences (`Run`, `ThrottleRun`, `PerformAll`, `WireAll`, `HandleAll`).

How source constructs are represented:

- `double` is `real`.
- C# `int` wrap-around is `CSharpInt.Wrap32`, and C#'s truncating `%` is `CSharpInt.Rem`.
- Colour bit patterns are `bv32`; `AsInt` reads one as a signed C# `int`.
- `Math.Pow` and `Math.Exp` are function values passed in (`Transcendental.MathFunctions`). Any
  contract that needs facts about them is guarded by `Lawful(m)`, which collects the facts used:
  - a base in (0, 1] raised to a non-negative power lies in (0, 1];
  - `pow(b, 0) = 1`;
  - `exp(x)` lies in (0, 1] for `x <= 0`, and `exp(0) = 1`.
- Clocks (`Stopwatch.GetTimestamp`, `Environment.TickCount`, event timestamps) are arguments.
- Values read from the host (`VerticalOffset`, `ScrollableHeight`, the window handle, event
  positions, a sender's `MoveThreshold`) are arguments.
- Calls out (`ScrollToVerticalOffset`, `DwmSetWindowAttribute`, `SetWindowCompositionAttribute`,
  `DwmExtendFrameIntoClientArea`, the touch device's `ReportDown`/`ReportMove`/`ReportUp`,
  stylus capture) are appended to a log field.

### Where the controller's physics comes from

`SmoothScrollViewer.cs` imports both physics namespaces. It calls
`OnScroll(offset, delta, isPrecision, min, max)` and `Update(offset, dt, min, max)` (lines 79 and
150). Only the dual-mode `Helpers/DefaultScrollPhysics.cs` has that shape. The `IScrollPhysics`
interface in the same namespace (`Helpers/IScrollPhysics.cs:5`) declares a sixth `timeIntervalMs`
parameter that the class does not have. The controller is therefore modelled against that class
directly, by the calls it makes.

## Model

| member | source | states |
|---|---|---|
| MathExtension.Clamp | FluentWpfCore/Helpers/MathExtension.cs:17-22 | A value below min gives min, and this test comes first, so it wins even when min > max. A value at or above min and above max gives max. A value in [min, max] is returned unchanged. |
| MathExtension.ClampInRange | FluentWpfCore/Helpers/MathExtension.cs:17-22 | With min <= max the result lies in [min, max]. |
| MathExtension.ClampIdempotent | FluentWpfCore/Helpers/MathExtension.cs:17-22 | With min <= max, clamping an already clamped value changes nothing. |
| MathExtension.ClampInvertedBounds | FluentWpfCore/Helpers/MathExtension.cs:19-20 | With max < min every value goes to min (if below min) or max (otherwise). |
| DefaultPhysics.FrictionOf | FluentWpfCore/ScrollPhysics/DefaultScrollPhysics.cs:11-37 | The friction lies in [0.85, 0.96] for a smoothness in [0, 1]. It is 0.85 at smoothness 0 and 0.96 at smoothness 1. |
| DefaultPhysics.FrictionMonotone | FluentWpfCore/ScrollPhysics/DefaultScrollPhysics.cs:37 | More smoothness never gives less friction. |
| DefaultPhysics.TimeFactor | FluentWpfCore/ScrollPhysics/DefaultScrollPhysics.cs:44-66 | The frame's time factor is 144·dt: non-negative for dt >= 0, and 0 for dt = 0. |
| DefaultPhysics.FactorInUnitInterval | FluentWpfCore/ScrollPhysics/DefaultScrollPhysics.cs:79 | For smoothness in [0, 1] and dt >= 0, the per-frame factor Friction^timeFactor lies in (0, 1]. |
| DefaultPhysics.ImpulsesAccumulate | FluentWpfCore/ScrollPhysics/DefaultScrollPhysics.cs:51-59 | Two scrolls equal one scroll by the sum of their deltas. |
| DefaultPhysics.StepAtRest | FluentWpfCore/ScrollPhysics/DefaultScrollPhysics.cs:63 | A stable model returns its input offset and keeps its state. |
| DefaultPhysics.StepSnaps | FluentWpfCore/ScrollPhysics/DefaultScrollPhysics.cs:70-74 | When \|velocity\| < 0.5 the model comes to rest with velocity 0 and no displacement. The velocity it drops is under 0.5. |
| DefaultPhysics.StepConserves | FluentWpfCore/ScrollPhysics/DefaultScrollPhysics.cs:79-82 | A moving step keeps newOffset + newVelocity equal to currentOffset + oldVelocity. |
| DefaultPhysics.StepDecays | FluentWpfCore/ScrollPhysics/DefaultScrollPhysics.cs:79-82 | With a factor in (0, 1], the velocity keeps its sign and does not grow in magnitude. |
| DefaultPhysics.StepMoves | FluentWpfCore/ScrollPhysics/DefaultScrollPhysics.cs:79-82 | A moving step gives velocity v·f and offset current + v·(1 − f). |
| DefaultPhysics.StepZeroTime | FluentWpfCore/ScrollPhysics/DefaultScrollPhysics.cs:66-82 | With f = Pow(F, 0) = 1 a moving step travels nothing and keeps the velocity. |
| DefaultPhysics.RunAccounting | FluentWpfCore/ScrollPhysics/DefaultScrollPhysics.cs:14-86 | Over any sequence of scrolls, updates and Smoothness writes between frames (each frame uses the friction in force at its moment), offset + velocity + (dropped residuals) moves by exactly minus the sum of the deltas. Each stop drops less than 0.5. A smoothness in [0, 1] stays there. |
| DefaultPhysics.RestingOffsetNearTarget | FluentWpfCore/ScrollPhysics/DefaultScrollPhysics.cs:14-74 | A fresh model (smoothness 0.72, at rest) that has come to rest again sits within 0.5 per stop of start − Σdelta, whatever smoothness was written along the way. With no stop it is exactly there. |
| DefaultPhysics.DefaultScrollPhysics.constructor | FluentWpfCore/ScrollPhysics/DefaultScrollPhysics.cs:14-47 | A fresh model has smoothness 0.72, velocity 0 and is stable. |
| DefaultPhysics.DefaultScrollPhysics.SetSmoothness | FluentWpfCore/ScrollPhysics/DefaultScrollPhysics.cs:14-32 | Stores Clamp(value, 0, 1), which is the value itself when it lies in [0, 1]. |
| DefaultPhysics.DefaultScrollPhysics.OnScroll | FluentWpfCore/ScrollPhysics/DefaultScrollPhysics.cs:51-59 | Sets the model unstable and subtracts delta from the velocity. |
| DefaultPhysics.DefaultScrollPhysics.Update | FluentWpfCore/ScrollPhysics/DefaultScrollPhysics.cs:61-86 | The new state and offset are those of Step. A stable model is a no-op. Coming to rest means velocity 0, no displacement and \|old velocity\| < 0.5. A moving model conserves offset + velocity. With a lawful Pow and dt >= 0 the velocity shrinks; with dt = 0 nothing moves. |
| ExponentialPhysics.ImpulsesAccumulate | FluentWpfCore/ScrollPhysics/ExponentialScrollPhysics.cs:73-78 | Two scrolls equal one scroll by the sum of their deltas. All are subtracted from the remaining distance. |
| ExponentialPhysics.DecayFactorRange | FluentWpfCore/ScrollPhysics/ExponentialScrollPhysics.cs:95 | For a non-negative rate and dt, 1 − e^(−k·dt) lies in [0, 1), and it is 0 for dt = 0. |
| ExponentialPhysics.StepMoves | FluentWpfCore/ScrollPhysics/ExponentialScrollPhysics.cs:95-101 | A moving step travels remaining·factor and keeps the rest. |
| ExponentialPhysics.StepConserves | FluentWpfCore/ScrollPhysics/ExponentialScrollPhysics.cs:83-101 | Every Update (resting, arriving or moving) keeps offset + remaining. |
| ExponentialPhysics.StepArrives | FluentWpfCore/ScrollPhysics/ExponentialScrollPhysics.cs:85-91 | Below the stop threshold the model arrives in one step: it returns current + remaining and comes to rest with nothing remaining. |
| ExponentialPhysics.StepDecays | FluentWpfCore/ScrollPhysics/ExponentialScrollPhysics.cs:95-99 | With a factor in [0, 1] the remaining distance keeps its sign and does not grow. |
| ExponentialPhysics.StepNeverRestsWithoutThreshold | FluentWpfCore/ScrollPhysics/ExponentialScrollPhysics.cs:53-85 | Because StopThreshold is not clamped, a threshold <= 0 never lets a moving model come to rest. |
| ExponentialPhysics.RunConserves | FluentWpfCore/ScrollPhysics/ExponentialScrollPhysics.cs:18-101 | Over any sequence of scrolls, updates and DecayRate or StopThreshold writes between frames, offset + remaining moves by exactly minus the sum of the deltas, a stable model has nothing remaining, and a decay rate in [1, 20] stays there. |
| ExponentialPhysics.RestingOffsetIsTarget | FluentWpfCore/ScrollPhysics/ExponentialScrollPhysics.cs:18-101 | A fresh model (decay rate 8, threshold 0.5, at rest) that has come to rest again sits exactly at start − Σdelta, whatever settings were written along the way. |
| ExponentialPhysics.ExponentialScrollPhysics.constructor | FluentWpfCore/ScrollPhysics/ExponentialScrollPhysics.cs:18-70 | A fresh model has DecayRate 8.0, StopThreshold 0.5, IsPreciseMode false, nothing remaining, and is stable. |
| ExponentialPhysics.ExponentialScrollPhysics.SetDecayRate | FluentWpfCore/ScrollPhysics/ExponentialScrollPhysics.cs:18-41 | Stores Clamp(value, 1, 20), which is the value itself inside the range. |
| ExponentialPhysics.ExponentialScrollPhysics.SetStopThreshold | FluentWpfCore/ScrollPhysics/ExponentialScrollPhysics.cs:48-53 | Stores the value unclamped. |
| ExponentialPhysics.ExponentialScrollPhysics.SetPreciseMode | FluentWpfCore/ScrollPhysics/ExponentialScrollPhysics.cs:70 | Stores the flag, which no other operation reads. |
| ExponentialPhysics.ExponentialScrollPhysics.OnScroll | FluentWpfCore/ScrollPhysics/ExponentialScrollPhysics.cs:73-78 | Sets the model unstable and subtracts delta from the remaining distance. |
| ExponentialPhysics.ExponentialScrollPhysics.Update | FluentWpfCore/ScrollPhysics/ExponentialScrollPhysics.cs:81-102 | The new state and offset are those of Step. The sum offset + remaining is conserved. A stable model is a no-op. Below the threshold the model arrives exactly. With a lawful Exp and dt >= 0 the remaining distance shrinks. |
| HelpersPhysics.TimeFactor | FluentWpfCore/Helpers/DefaultScrollPhysics.cs:20-49 | The frame's time factor is 144·dt, non-negative for dt >= 0. |
| HelpersPhysics.ImpulseSetsMode | FluentWpfCore/Helpers/DefaultScrollPhysics.cs:29-43 | Every OnScroll records the mode, makes the model unstable and keeps it consistent (a stable or precise model has no velocity). |
| HelpersPhysics.PreciseImpulseTargetsInBounds | FluentWpfCore/Helpers/DefaultScrollPhysics.cs:34-38 | A precise OnScroll sets velocity 0 and a target inside ordered bounds. The target is exactly current − delta when that is in bounds. |
| HelpersPhysics.CoarseImpulsesAccumulate | FluentWpfCore/Helpers/DefaultScrollPhysics.cs:40-42 | Two coarse scrolls add −(d1 + d2)·VelocityFactor to the velocity and leave the target unchanged. |
| HelpersPhysics.StepPrecise | FluentWpfCore/Helpers/DefaultScrollPhysics.cs:52-62 | A precise step moves to current + (target − current)·lerp. Within 0.5 of the target it snaps to the target and comes to rest. |
| HelpersPhysics.StepCoarseMoves | FluentWpfCore/Helpers/DefaultScrollPhysics.cs:70-75 | A moving coarse step scales the velocity by Friction^tf and returns Clamp(current + v·tf/24, min, max). |
| HelpersPhysics.StepKeepsMode | FluentWpfCore/Helpers/DefaultScrollPhysics.cs:45-79 | Update keeps the state consistent and never changes the mode or the target. A stable model is a no-op. |
| HelpersPhysics.PreciseRestIsExact | FluentWpfCore/Helpers/DefaultScrollPhysics.cs:57-61 | A precise model that comes to rest returns exactly its target. |
| HelpersPhysics.PreciseApproaches | FluentWpfCore/Helpers/DefaultScrollPhysics.cs:54-55 | With a lawful Pow, LerpFactor in [0, 1) and dt >= 0, a precise step lands between the current offset and the target, and never further from the target. |
| HelpersPhysics.PreciseStaysInBounds | FluentWpfCore/Helpers/DefaultScrollPhysics.cs:52-62 | Starting in bounds with a target in bounds, a precise step stays in bounds. |
| HelpersPhysics.CoarseRestIsInPlace | FluentWpfCore/Helpers/DefaultScrollPhysics.cs:65-69 | When \|v\| < 0.1 the coarse model stops with velocity 0 at the current offset, unclamped. |
| HelpersPhysics.CoarseMoveInBounds | FluentWpfCore/Helpers/DefaultScrollPhysics.cs:72-86 | With ordered bounds, a moving coarse step returns an offset inside them, whatever dt or the velocity. |
| HelpersPhysics.CoarseDecays | FluentWpfCore/Helpers/DefaultScrollPhysics.cs:72 | With a lawful Pow, Friction in (0, 1] and dt >= 0, the coarse velocity keeps its sign and does not grow. |
| HelpersPhysics.DefaultScrollPhysics.constructor | FluentWpfCore/Helpers/DefaultScrollPhysics.cs:10-25 | The defaults are 2.0, 0.92 and 0.5, and a fresh model is stable. |
| HelpersPhysics.DefaultScrollPhysics.OnScroll | FluentWpfCore/Helpers/DefaultScrollPhysics.cs:29-43 | The new state is Impulse's. The mode is recorded and the model is made unstable. A precise scroll sets velocity 0 and target Clamp(current − delta, min, max); a coarse one accumulates velocity. |
| HelpersPhysics.DefaultScrollPhysics.Update | FluentWpfCore/Helpers/DefaultScrollPhysics.cs:45-79 | The new state and offset are Step's. A stable model is a no-op. A precise model that comes to rest returns its target. A moving coarse model returns an offset inside ordered bounds. |
| CSharpInt.Wrap32 | FluentWpfCore/Controls/SmoothScrollViewer.cs:182 | The result is a 32-bit int congruent to its argument modulo 2^32. |
| CSharpInt.WrapRecoversElapsed | FluentWpfCore/Controls/SmoothScrollViewer.cs:182 | Subtracting an earlier reading of the wrapping counter recovers any elapsed time below 2^31 ticks, even across overflow. |
| CSharpInt.Rem | FluentWpfCore/Controls/SmoothScrollViewer.cs:181-183 | The C# remainder truncates toward zero: it lies in [0, b) for a non-negative dividend and in (−b, 0] for a negative one. |
| CSharpInt.RemZeroIffDivides | FluentWpfCore/Controls/SmoothScrollViewer.cs:181-183 | The C# remainder by 120 is zero exactly when 120 divides the delta, including for negative deltas. |
| SmoothScroll.IsPreciseMeaning | FluentWpfCore/Controls/SmoothScrollViewer.cs:180-183 | A delta that is not a multiple of 120 is precise. A whole-line delta is precise exactly when the previous delta was not a multiple of 120 and the wrapped tick gap is under 100. |
| SmoothScroll.WholeLinesAreCoarse | FluentWpfCore/Controls/SmoothScrollViewer.cs:180-183 | A wheel that only sends whole lines, up or down, is never taken for a touchpad. |
| SmoothScroll.GapAcrossOverflow | FluentWpfCore/Controls/SmoothScrollViewer.cs:182 | 30 ms that straddle the TickCount overflow still count as a short gap. |
| SmoothScroll.Throttle | FluentWpfCore/Controls/SmoothScrollViewer.cs:159-166 | The host is synced exactly when the accumulated time reaches 1/24 s. The accumulator is then reset to 0, and always stays below 1/24. |
| SmoothScroll.ThrottleRate | FluentWpfCore/Controls/SmoothScrollViewer.cs:159-166 | With non-negative frame times, syncs × 1/24 plus what is still accumulated never exceeds the elapsed time: at most 24 syncs per second. |
| SmoothScroll.LongFramesAlwaysSync | FluentWpfCore/Controls/SmoothScrollViewer.cs:159-166 | Frames each at least 1/24 s long sync the host on every frame. |
| SmoothScroll.SmoothScrollViewer.constructor | FluentWpfCore/Controls/SmoothScrollViewer.cs:13-29 | A fresh controller is idle, with logical and visual offsets 0, an empty accumulator, no scroll requests, a fresh stable dual-mode physics model, and last delta and tick 0. |
| SmoothScroll.SmoothScrollViewer.DisplayedIsVisualWhileRendering | FluentWpfCore/Controls/SmoothScrollViewer.cs:92-103 | Under the controller invariant, the content is shown at the visual offset while rendering, and at the logical offset with the transform at 0 while idle. |
| SmoothScroll.SmoothScrollViewer.IsTouchpadScroll | FluentWpfCore/Controls/SmoothScrollViewer.cs:177-188 | The result is the touchpad rule on the delta, the TickCount and the remembered tick and delta. It then remembers the delta and the event's Timestamp, not the TickCount. |
| SmoothScroll.SmoothScrollViewer.StartRendering | FluentWpfCore/Controls/SmoothScrollViewer.cs:110-120 | A no-op while rendering. Otherwise it takes the timestamp, resets the accumulator, starts rendering and turns hit-testing off. |
| SmoothScroll.SmoothScrollViewer.StopRendering | FluentWpfCore/Controls/SmoothScrollViewer.cs:122-142 | A no-op while idle. Otherwise it sends Clamp(visual, 0, ScrollableHeight) to the host and makes it the logical offset, with delta and transform 0 and hit-testing on. |
| SmoothScroll.SmoothScrollViewer.OnUnloaded | FluentWpfCore/Controls/SmoothScrollViewer.cs:57-60 | Stops rendering, settling the host offset if it was rendering. |
| SmoothScroll.SmoothScrollViewer.OnMouseWheel | FluentWpfCore/Controls/SmoothScrollViewer.cs:66-82 | Always handled. When idle, logical and visual take the host's offset; while rendering they are kept, so impulses accumulate. The physics state becomes Impulse(…, visual, delta, touchpad rule, 0, ScrollableHeight), and rendering is on afterwards. |
| SmoothScroll.SmoothScrollViewer.OnScrollChanged | FluentWpfCore/Controls/SmoothScrollViewer.cs:84-104 | A zero change does nothing. Otherwise logical takes the host's offset. While rendering the content stays at the visual offset; while idle the delta and the transform become 0. |
| SmoothScroll.SmoothScrollViewer.OnRendering | FluentWpfCore/Controls/SmoothScrollViewer.cs:144-171 | The physics advances by (now − last)/Frequency through Step. If it comes to rest, rendering stops at once with the clamped final sync and no periodic sync. Otherwise the throttle decides whether the host gets the visual offset, and the content is shown at the visual offset. |
| MaterialApis.ToHexColor | FluentWpfCore/Interop/MaterialApis.cs:46-49 | R is in bits 0–7, G in 8–15, B in 16–23 and A in 24–31; each channel is recovered by shift and mask. |
| MaterialApis.HexColorRoundTrip | FluentWpfCore/Interop/MaterialApis.cs:46-49 | Reading the channels back from the packed value gives the colour. |
| MaterialApis.HexColorOnto | FluentWpfCore/Interop/MaterialApis.cs:46-49 | Every 32-bit value is the packing of some colour. |
| MaterialApis.HexColorInjective | FluentWpfCore/Interop/MaterialApis.cs:46-49 | Different colours pack to different values. |
| MaterialApis.AsInt | FluentWpfCore/Interop/MaterialApis.cs:46 | The C# int is the bit pattern's two's-complement value. |
| MaterialApis.HexColorExamples | FluentWpfCore/Interop/MaterialApis.cs:48 | (0,0,0,0) packs to 0. The default composition colour ARGB(180,0,0,0) packs to 0xB4000000, which is −1275068416 as a C# int. |
| MaterialApis.CornerEncoding | FluentWpfCore/Interop/MaterialApis.cs:17-38 | WindowCorner maps one-to-one onto 0..3. |
| MaterialApis.MaterialEncoding | FluentWpfCore/Interop/MaterialApis.cs:152-173 | MaterialType maps one-to-one onto 1..4. |
| MaterialApis.AccentStateValuesDistinct | FluentWpfCore/Interop/Win32Interop.cs:84-92 | The six accent states have distinct codes 0..5. |
| MaterialApis.SetWindowAttribute | FluentWpfCore/Interop/MaterialApis.cs:79-80 | Sends the given attribute and value with the size of an int (4). |
| MaterialApis.SetWindowProperties | FluentWpfCore/Interop/MaterialApis.cs:57-69 | First a transparent background, then the frame extended by the same margin on all four sides. |
| MaterialApis.Accent | FluentWpfCore/Interop/MaterialApis.cs:102-111 | Disabling gives accent state 0 and colour 0 whatever the colour. Enabling gives state 4 and the colour, or 0 when none is given. Flags and animation id are 0. |
| MaterialApis.SetWindowComposition | FluentWpfCore/Interop/MaterialApis.cs:100-123 | Sends attribute 19 (accent policy) with that accent and a data size of 16 bytes. |
| MaterialApis.SetWindowCorner | FluentWpfCore/Interop/MaterialApis.cs:88-91 | Sends attribute 33 (corner preference) with an int-sized value that decodes back to the corner. |
| MaterialApis.SetBackDropType | FluentWpfCore/Interop/MaterialApis.cs:131-134 | Sends attribute 38 (system backdrop) with an int-sized value that decodes back to the material. |
| MaterialApis.SetDarkMode | FluentWpfCore/Interop/MaterialApis.cs:142-145 | Sends attribute 20 (immersive dark mode) with an int-sized value that is 1 exactly for dark mode and 0 otherwise. |
| MaterialApis.CompositionColourMatters | FluentWpfCore/Interop/MaterialApis.cs:100-111 | Disabling sends the same request whatever colour is passed. Enabling sends equal requests only for equal colours. |
| WindowMaterials.VersionLessIsStrictOrder | FluentWpfCore/AttachedProperties/WindowMaterial.cs:375 | Version comparison is irreflexive, asymmetric and transitive. |
| WindowMaterials.IsWindows10Exactly | FluentWpfCore/AttachedProperties/WindowMaterial.cs:372-375 | For a full OS version, isWindows10 holds exactly for 10.0 builds 17763 up to but excluding 22000. |
| WindowMaterials.IsWindows10Examples | FluentWpfCore/AttachedProperties/WindowMaterial.cs:372-375 | Builds 17763 and 19045 are Windows 10. Builds 17134, 22000 and 22631, and 6.3, are not. |
| WindowMaterials.ApplyNeedsWindow | FluentWpfCore/AttachedProperties/WindowMaterial.cs:359-360 | Without a window or with a zero handle, Apply sends nothing and keeps the API. |
| WindowMaterials.ApplyChoosesApi | FluentWpfCore/AttachedProperties/WindowMaterial.cs:357-389 | With a live handle: no API exactly when the mode is None; composition exactly when asked for or on Windows 10; the system backdrop otherwise. |
| WindowMaterials.ApplyNoneUndoes | FluentWpfCore/AttachedProperties/WindowMaterial.cs:362-370 | Mode None disables composition if it was in use, sets backdrop 1 (None) if the backdrop was, and sends nothing otherwise. |
| WindowMaterials.ApplySettles | FluentWpfCore/AttachedProperties/WindowMaterial.cs:357-389 | Applying again with the same inputs keeps the API. |
| WindowMaterials.PerformAllAppend | FluentWpfCore/AttachedProperties/WindowMaterial.cs:357-389 | Performing two batches of requests in turn equals performing their concatenation. |
| WindowMaterials.PerformApply | FluentWpfCore/AttachedProperties/WindowMaterial.cs:357-428 | The window-manager state after Apply's requests has a closed form. |
| WindowMaterials.ApplyKeepsAgreement | FluentWpfCore/AttachedProperties/WindowMaterial.cs:357-418 | If `_currentAPI` told the truth about the window before Apply (composition on exactly under COMPOSITION, a real backdrop set under SYSTEMBACKDROP), it does afterwards. |
| WindowMaterials.ApplyOutcome | FluentWpfCore/AttachedProperties/WindowMaterial.cs:362-428 | Mode None leaves the acrylic accent off. The composition path turns it on in `_blurColor` with margin 1 on Windows 10 and 0 otherwise. The backdrop path sets the mode as backdrop with the accent off and margin −1. |
| WindowMaterials.BackdropSurvivesComposition | FluentWpfCore/AttachedProperties/WindowMaterial.cs:362-388 | On Windows 11, the sequence "Mica by backdrop, then UseWindowComposition, then None" ends with `_currentAPI` NONE but backdrop 2 (Mica) still set, because the composition path never resets it. This records the code's behaviour; no defect is claimed, since what Windows shows when both mechanisms are set is outside the model. |
| WindowMaterials.DarkModeKeepsAgreement | FluentWpfCore/AttachedProperties/WindowMaterial.cs:400-404 | The dark-mode request changes neither the accent nor the backdrop. |
| WindowMaterials.DeferredAttachUnsubscribes | FluentWpfCore/AttachedProperties/WindowMaterial.cs:34-53 | Attaching a window without a handle subscribes the handler once; that window's SourceInitialized then runs it without a throw and leaves no subscription. |
| WindowMaterials.DetachedHandlerThrows | FluentWpfCore/AttachedProperties/WindowMaterial.cs:336-349 | Attaching a window without a handle and then setting AttachedWindow to null keeps the subscription; when the window then fires, the handler throws. |
| WindowMaterials.SecondDeferralLosesItsEvent | FluentWpfCore/AttachedProperties/WindowMaterial.cs:336-340 | After two windows are attached in a row without handles, the first one's event unsubscribes the handler from the second. The first stays subscribed, and the second's event no longer reaches the handler. |
| WindowMaterials.NonNullAttachNeverThrows | FluentWpfCore/AttachedProperties/WindowMaterial.cs:34-53 | For any sequence of setter calls and events in which AttachedWindow is never set to null, the handler never throws, and every remaining subscription has a window attached. |
| WindowMaterials.WindowMaterial.constructor | FluentWpfCore/AttachedProperties/WindowMaterial.cs:29-32 | A fresh material has no window, a zero handle, API NONE and `_blurColor` 0 beside the CompositonColor default ARGB(180, 0, 0, 0). IsDarkMode is false, MaterialMode None, no chrome, no subscription, and nothing has been sent. |
| WindowMaterials.WindowMaterial.SetCompositionColor | FluentWpfCore/AttachedProperties/WindowMaterial.cs:395-398 | `_blurColor` becomes the packed colour. |
| WindowMaterials.WindowMaterial.SetDarkMode | FluentWpfCore/AttachedProperties/WindowMaterial.cs:400-404 | With a zero handle nothing is sent; otherwise the dark-mode attribute is. |
| WindowMaterials.WindowMaterial.SetBackDropType | FluentWpfCore/AttachedProperties/WindowMaterial.cs:406-411 | With a zero handle nothing is sent or changed. Otherwise the backdrop is sent, and the API becomes NONE for None and SYSTEMBACKDROP for any other mode. |
| WindowMaterials.WindowMaterial.SetWindowCompositon | FluentWpfCore/AttachedProperties/WindowMaterial.cs:413-418 | With a zero handle nothing is sent or changed. Otherwise composition with `_blurColor` is sent and the API becomes COMPOSITION or NONE. |
| WindowMaterials.WindowMaterial.SetWindowProperty | FluentWpfCore/AttachedProperties/WindowMaterial.cs:423-428 | With a zero handle nothing is sent; otherwise the two window-property requests with the margin are. |
| WindowMaterials.WindowMaterial.Apply | FluentWpfCore/AttachedProperties/WindowMaterial.cs:357-389 | The new API and the requests sent are ApplyEffect's, and `_currentAPI` stays truthful about the window. |
| WindowMaterials.WindowMaterial.InitWindow | FluentWpfCore/AttachedProperties/WindowMaterial.cs:346-355 | Takes the handle, sets the chrome if there is one, sends dark mode (when the handle is live), then Applies. |
| WindowMaterials.WindowMaterial.SetAttachedWindow | FluentWpfCore/AttachedProperties/WindowMaterial.cs:34-53 | Remembers the window. A zero handle adds one subscription on that window; a live handle initialises at once. Setting null changes nothing else and keeps every subscription. The new wiring is Wire's. |
| WindowMaterials.WindowMaterial.OnSourceInitialized | FluentWpfCore/AttachedProperties/WindowMaterial.cs:336-349 | With no window attached it throws and changes nothing. Otherwise it initialises the attached window (not necessarily the one that fired) and removes one subscription from that window. The new wiring and the throw are Wire's. |
| WindowMaterials.WindowMaterial.SetIsDarkMode | FluentWpfCore/AttachedProperties/WindowMaterial.cs:294-300 | On a change, sends the dark-mode attribute when the handle is live. |
| WindowMaterials.WindowMaterial.SetMaterialMode | FluentWpfCore/AttachedProperties/WindowMaterial.cs:302-308 | On a change, Applies; otherwise nothing is sent. |
| WindowMaterials.WindowMaterial.SetUseWindowComposition | FluentWpfCore/AttachedProperties/WindowMaterial.cs:319-325 | On a change, Applies; otherwise nothing is sent. |
| WindowMaterials.WindowMaterial.SetCompositonColor | FluentWpfCore/AttachedProperties/WindowMaterial.cs:327-334 | On a change, repacks `_blurColor` before Applying, so Apply uses the new colour. |
| WindowMaterials.WindowMaterial.SetWindowChromeEx | FluentWpfCore/AttachedProperties/WindowMaterial.cs:310-317 | On a change to a chrome while a window is attached, sets the chrome and Applies; otherwise nothing happens. |
| StylusTouch.FarEnoughIsDistance | FluentWpfCore/AttachedProperties/StylusTouchDevice.cs:66-69 | The square-root-free test holds exactly when the Euclidean distance is at least the threshold. |
| StylusTouch.DefaultThresholdExamples | FluentWpfCore/AttachedProperties/StylusTouchDevice.cs:249-250 | With the default threshold 3.0, a 3-pixel move qualifies and a move to (2, 2) does not. |
| StylusTouch.DownStartsGesture | FluentWpfCore/AttachedProperties/StylusTouchDevice.cs:75-96 | Any still-active device is first reported up at its position and deactivated. Then a new active device is activated and reported down at the event position. `moved` is false, the down position is the event's, and nothing is captured. |
| StylusTouch.MoveReportedIff | FluentWpfCore/AttachedProperties/StylusTouchDevice.cs:102-125 | A move is reported exactly when the sender is a DependencyObject, a device is active, and the pen has already moved or is far enough from the down position. Otherwise nothing changes. |
| StylusTouch.MoveCapturesOnce | FluentWpfCore/AttachedProperties/StylusTouchDevice.cs:116-123 | The first qualifying move from a UIElement captures it and sets `moved`. Later moves skip the distance check and do not capture again. |
| StylusTouch.UpEndsGesture | FluentWpfCore/AttachedProperties/StylusTouchDevice.cs:135-149 | Up clears the device, reports up at the event position and deactivates. It releases capture exactly when an element was captured, and keeps the element reference. |
| StylusTouch.InactiveIgnoresMoveAndUp | FluentWpfCore/AttachedProperties/StylusTouchDevice.cs:109-136 | Without an active device, Move and Up do nothing. |
| StylusTouch.AdvanceAllAppend | FluentWpfCore/AttachedProperties/StylusTouchDevice.cs:75-150 | Checking two batches of reports in turn equals checking their concatenation. |
| StylusTouch.HandleFollowsProtocol | FluentWpfCore/AttachedProperties/StylusTouchDevice.cs:75-150 | Each handler's reports take the touch protocol from the phase of the old state to the phase of the new state. |
| StylusTouch.EventsFollowProtocol | FluentWpfCore/AttachedProperties/StylusTouchDevice.cs:75-150 | For any stylus event sequence, the reports follow the touch protocol for one device at a time: activate, down, moves, up, deactivate. The protocol is mid-touch exactly while a device is stored, and a stored device is always active. |
| StylusTouch.StylusTouchDevice.constructor | FluentWpfCore/AttachedProperties/StylusTouchDevice.cs:20-23 | A fresh state has no device, no captured element, `moved` false and no reports, so the protocol starts idle. |
| StylusTouch.StylusTouchDevice.OnStylusDown | FluentWpfCore/AttachedProperties/StylusTouchDevice.cs:75-96 | The new state and reports are Down's, and the reports so far keep following the protocol. |
| StylusTouch.StylusTouchDevice.OnStylusMove | FluentWpfCore/AttachedProperties/StylusTouchDevice.cs:102-125 | The new state and reports are Move's, and the reports so far keep following the protocol. |
| StylusTouch.StylusTouchDevice.OnStylusUp | FluentWpfCore/AttachedProperties/StylusTouchDevice.cs:131-150 | The new state and reports are Up's, and the reports so far keep following the protocol. |

## Left out

- The two `IScrollPhysics` interfaces (FluentWpfCore/ScrollPhysics/IScrollPhysics.cs, FluentWpfCore/Helpers/IScrollPhysics.cs) are not modelled as abstractions. The physics classes stand alone, and the controller is bound to the dual-mode class whose call shapes it uses. As a result, replacing `Physics` at run time is not modelled.
- `Math.Pow`, `Math.Exp` and `Math.Sqrt` are not computed: only the range facts in `Lawful` are used, and the stylus distance is compared through its square. IEEE rounding, NaN and infinities, exact convergence counts and frame-rate independence are not modelled.
- The 64-bit `Stopwatch` timestamp difference is taken as an unbounded integer; its overflow is not modelled, while the 32-bit TickCount wrap-around is.
- WPF plumbing is reduced to fields and logs. This covers dependency-property registration and change notifications, event subscription other than the AttachedWindow wiring, the `TranslateTransform` object, the `CompositionTarget.Rendering` loop, and the host ScrollViewer's deferred layout. A `ScrollToVerticalOffset` call is logged; the `OnScrollChanged` it later causes is a separate call of the handler.
- OnLoaded (FluentWpfCore/Controls/SmoothScrollViewer.cs:42-55) is not a method. The controller is modelled in the loaded state, with a UIElement content and its transform. The exception thrown for a non-UIElement content is not modelled.
- Under .NET 5 and later, StopRendering and the two setters use `Math.Clamp` instead of `MathExtension.Clamp`. The two agree whenever min <= max. `Math.Clamp` throws for min > max, for example a negative ScrollableHeight, and that exception is not modelled.
- The controller never checks whether the content can scroll before driving the physics model; the model follows the code.
- SetAttachedWindow and OnSourceInitialized: an exception the handler throws is a `threw` result with the state unchanged. What happens after it leaves the event (the window's other handlers, the application) is not modelled. The window whose event fires is an argument, and so is the handle of the window attached when it fires.
- `WindowMaterial`'s own WindowCorner property and its change handler, `GetMaterial`/`SetMaterial`, and the `OnMaterialChanged` cast are WPF wiring and are not modelled; `SetAttachedWindow` stands for the setter they reach.
- The window manager's state is one fold over all requests, ignoring the handle they carry: one WindowMaterial serves one window. What Windows does with the requests, and `PresentationSource.FromVisual`'s HwndSource cast in `SetWindowProperty`, are not modelled.
- `_blurColor` starts at 0 because WPF does not raise the change callback for the CompositonColor default ARGB(180, 0, 0, 0). The model reproduces this (the constructor sets `blurColor` 0); Apply sends colour 0 until the colour is first changed.
- The unmanaged memory steps of `SetWindowComposition` (AllocHGlobal, StructureToPtr, FreeHGlobal) are not modelled; the request value carries the accent struct itself.
- `StylusTouchDevice`'s Simulate, Register and Unregister members (event wiring), the `SetActiveSource` call, its TouchDevice overrides (`GetTouchPoint`, `GetIntermediateTouchPoints`) and the device's hash-code id are outside the gesture machine. The id is an argument of StylusDown.
- Win32Interop.cs is modelled only through the constants and struct layouts the requests carry. PopupHelper.cs, FluentPopup.cs, FluentStyle.cs, WindowFlagsHelper.cs, DwmAnimation.cs and the example window are not part of this model: they are WPF or Win32 glue.
