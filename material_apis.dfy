/** A value that may be absent (C# `int?`, a nullable reference). */
module Wrappers {
  datatype Option<T> = None | Some(value: T)
}

/** Interop/MaterialApis.cs and the parts of Interop/Win32Interop.cs it fills in: colour packing,
    the enum encodings, and the request each helper hands to Windows. A foreign call is modelled
    by the request value it would send (handle, attribute, payload); what Windows does with it is
    not part of this model. */
module MaterialApis {
  import Wrappers

  /** System.Windows.Media.Color's four byte channels. */
  datatype Color = Color(a: bv8, r: bv8, g: bv8, b: bv8)

  /** ToHexColor: R in bits 0-7, G in 8-15, B in 16-23, A in 24-31. The result is the bit pattern
      of the C# `int` (negative once A >= 128; see AsInt). */
  function ToHexColor(c: Color): (h: bv32)
    ensures (h & 0xFF) as bv8 == c.r
    ensures ((h >> 8) & 0xFF) as bv8 == c.g
    ensures ((h >> 16) & 0xFF) as bv8 == c.b
    ensures ((h >> 24) & 0xFF) as bv8 == c.a
  {
    ((c.r as bv32) << 0) | ((c.g as bv32) << 8) | ((c.b as bv32) << 16) | ((c.a as bv32) << 24)
  }

  /** The inverse of ToHexColor: the channels read back by shift and mask. */
  function FromHexColor(h: bv32): Color {
    Color(((h >> 24) & 0xFF) as bv8, (h & 0xFF) as bv8, ((h >> 8) & 0xFF) as bv8, ((h >> 16) & 0xFF) as bv8)
  }

  /** Every colour is recovered from its packed value. */
  lemma HexColorRoundTrip(c: Color)
    ensures FromHexColor(ToHexColor(c)) == c
  {
  }

  /** Every 32-bit value is the packing of exactly the colour read back from it. */
  lemma HexColorOnto(h: bv32)
    ensures ToHexColor(FromHexColor(h)) == h
  {
  }

  /** Different colours pack to different values. */
  lemma HexColorInjective(c1: Color, c2: Color)
    requires ToHexColor(c1) == ToHexColor(c2)
    ensures c1 == c2
  {
    HexColorRoundTrip(c1);
    HexColorRoundTrip(c2);
  }

  /** The value of a bit pattern as a C# `int` (two's complement). */
  function AsInt(h: bv32): (v: int)
    ensures -0x8000_0000 <= v < 0x8000_0000
    ensures v % 0x1_0000_0000 == h as int
  {
    var n := h as int;
    if n < 0x8000_0000 then n else n - 0x1_0000_0000
  }

  /** Transparent black packs to 0; the default composition colour ARGB(180, 0, 0, 0) packs to
      0xB4000000, which as a C# int is negative. */
  lemma HexColorExamples()
    ensures ToHexColor(Color(0, 0, 0, 0)) == 0
    ensures ToHexColor(Color(180, 0, 0, 0)) == 0xB400_0000
    ensures AsInt(ToHexColor(Color(180, 0, 0, 0))) == -1_275_068_416
  {
  }

  /** MaterialApis.WindowCorner. */
  datatype WindowCorner = Default | DoNotRound | Round | RoundSmall

  function CornerValue(c: WindowCorner): (v: int)
    ensures 0 <= v <= 3
  {
    match c
    case Default => 0
    case DoNotRound => 1
    case Round => 2
    case RoundSmall => 3
  }

  function CornerOf(v: int): Wrappers.Option<WindowCorner> {
    if v == 0 then Wrappers.Some(Default)
    else if v == 1 then Wrappers.Some(DoNotRound)
    else if v == 2 then Wrappers.Some(Round)
    else if v == 3 then Wrappers.Some(RoundSmall)
    else Wrappers.None
  }

  /** The corner encoding is a bijection between the four styles and 0..3. */
  lemma CornerEncoding(c: WindowCorner, v: int)
    ensures CornerOf(CornerValue(c)) == Wrappers.Some(c)
    ensures CornerOf(v).Some? <==> 0 <= v <= 3
    ensures CornerOf(v).Some? ==> CornerValue(CornerOf(v).value) == v
  {
  }

  /** MaterialType. */
  datatype MaterialType = None | Mica | Acrylic | MicaAlt

  function MaterialValue(m: MaterialType): (v: int)
    ensures 1 <= v <= 4
  {
    match m
    case None => 1
    case Mica => 2
    case Acrylic => 3
    case MicaAlt => 4
  }

  function MaterialOf(v: int): Wrappers.Option<MaterialType> {
    if v == 1 then Wrappers.Some(None)
    else if v == 2 then Wrappers.Some(Mica)
    else if v == 3 then Wrappers.Some(Acrylic)
    else if v == 4 then Wrappers.Some(MicaAlt)
    else Wrappers.None
  }

  /** The material encoding is a bijection between the four materials and 1..4. */
  lemma MaterialEncoding(m: MaterialType, v: int)
    ensures MaterialOf(MaterialValue(m)) == Wrappers.Some(m)
    ensures MaterialOf(v).Some? <==> 1 <= v <= 4
    ensures MaterialOf(v).Some? ==> MaterialValue(MaterialOf(v).value) == v
  {
  }

  /** Win32Interop.AccentState. */
  datatype AccentState =
    | AccentDisabled | AccentEnableGradient | AccentEnableTransparentGradient
    | AccentEnableBlurBehind | AccentEnableAcrylicBlurBehind | AccentInvalidState

  function AccentStateValue(s: AccentState): (v: int)
    ensures 0 <= v <= 5
  {
    match s
    case AccentDisabled => 0
    case AccentEnableGradient => 1
    case AccentEnableTransparentGradient => 2
    case AccentEnableBlurBehind => 3
    case AccentEnableAcrylicBlurBehind => 4
    case AccentInvalidState => 5
  }

  /** The accent states have distinct codes. */
  lemma AccentStateValuesDistinct(s1: AccentState, s2: AccentState)
    requires AccentStateValue(s1) == AccentStateValue(s2)
    ensures s1 == s2
  {
  }

  /** Win32Interop.DWMWINDOWATTRIBUTE. */
  datatype DwmAttribute = UseImmersiveDarkMode | WindowCornerPreference | SystemBackdropType

  function AttributeValue(a: DwmAttribute): int {
    match a
    case UseImmersiveDarkMode => 20
    case WindowCornerPreference => 33
    case SystemBackdropType => 38
  }

  /** Win32Interop.WindowCompositionAttribute.WCA_ACCENT_POLICY. */
  const AccentPolicyAttribute: int := 19
  /** Marshal.SizeOf(typeof(int)). */
  const Int32Size: int := 4

  /** Win32Interop.AccentPolicy; fields the code leaves unset are 0. */
  datatype AccentPolicy = AccentPolicy(accentState: AccentState, accentFlags: int, gradientColor: bv32, animationId: int)

  /** Marshal.SizeOf(typeof(AccentPolicy)): four sequential 32-bit fields. */
  const AccentPolicySize: int := 4 * Int32Size

  /** Win32Interop.Margins. */
  datatype Margins = Margins(leftWidth: int, rightWidth: int, topHeight: int, bottomHeight: int)

  /** A call into Windows, by the arguments it would be made with. */
  datatype Request =
    | SetAttribute(hwnd: int, attribute: DwmAttribute, value: int, size: int)
    | SetCompositionAttribute(hwnd: int, compositionAttribute: int, accent: AccentPolicy, sizeOfData: int)
    | SetTransparentBackground(hwnd: int)
    | ExtendFrameIntoClientArea(hwnd: int, margins: Margins)

  /** SetWindowAttribute: an int-sized DwmSetWindowAttribute. */
  function SetWindowAttribute(hwnd: int, attribute: DwmAttribute, parameter: int): (r: Request)
    ensures r.SetAttribute? && r.hwnd == hwnd && r.attribute == attribute
    ensures r.value == parameter && r.size == Int32Size
  {
    SetAttribute(hwnd, attribute, parameter, Int32Size)
  }

  /** SetWindowProperties: a transparent composition background, then the frame extended by the
      same margin on each of the four sides. */
  function SetWindowProperties(hwnd: int, margin: int): (rs: seq<Request>)
    ensures |rs| == 2 && rs[0] == SetTransparentBackground(hwnd)
    ensures rs[1].ExtendFrameIntoClientArea? && rs[1].hwnd == hwnd
    ensures var m := rs[1].margins;
      m.leftWidth == margin && m.rightWidth == margin && m.topHeight == margin && m.bottomHeight == margin
  {
    [SetTransparentBackground(hwnd), ExtendFrameIntoClientArea(hwnd, Margins(margin, margin, margin, margin))]
  }

  /** SetWindowCorner: the corner-preference attribute (33), whose value reads back as the corner. */
  function SetWindowCorner(hwnd: int, corner: WindowCorner): (r: Request)
    ensures r.SetAttribute? && r.hwnd == hwnd && r.size == Int32Size
    ensures AttributeValue(r.attribute) == 33 && CornerOf(r.value) == Wrappers.Some(corner)
  {
    SetWindowAttribute(hwnd, WindowCornerPreference, CornerValue(corner))
  }

  /** The accent SetWindowComposition fills in. */
  function Accent(enable: bool, hexColor: Wrappers.Option<bv32>): (p: AccentPolicy)
    ensures p.accentFlags == 0 && p.animationId == 0
    ensures !enable ==> AccentStateValue(p.accentState) == 0 && p.gradientColor == 0
    ensures enable ==> AccentStateValue(p.accentState) == 4
    ensures enable && hexColor.Some? ==> p.gradientColor == hexColor.value
    ensures enable && hexColor.None? ==> p.gradientColor == 0
  {
    if !enable then AccentPolicy(AccentDisabled, 0, 0, 0)
    else AccentPolicy(AccentEnableAcrylicBlurBehind, 0, if hexColor.Some? then hexColor.value else 0, 0)
  }

  /** SetWindowComposition: the accent-policy attribute (19) with the accent and its size. */
  function SetWindowComposition(hwnd: int, enable: bool, hexColor: Wrappers.Option<bv32>): (r: Request)
    ensures r.SetCompositionAttribute? && r.hwnd == hwnd
    ensures r.compositionAttribute == AccentPolicyAttribute && r.sizeOfData == AccentPolicySize
    ensures r.accent == Accent(enable, hexColor)
  {
    SetCompositionAttribute(hwnd, AccentPolicyAttribute, Accent(enable, hexColor), AccentPolicySize)
  }

  /** SetBackDropType: the system-backdrop attribute (38), whose value reads back as the material. */
  function SetBackDropType(hwnd: int, mode: MaterialType): (r: Request)
    ensures r.SetAttribute? && r.hwnd == hwnd && r.size == Int32Size
    ensures AttributeValue(r.attribute) == 38 && MaterialOf(r.value) == Wrappers.Some(mode)
  {
    SetWindowAttribute(hwnd, SystemBackdropType, MaterialValue(mode))
  }

  /** SetDarkMode: the immersive-dark-mode attribute (20), with 1 for dark and 0 for light. */
  function SetDarkMode(hwnd: int, isDarkMode: bool): (r: Request)
    ensures r.SetAttribute? && r.hwnd == hwnd && r.size == Int32Size
    ensures AttributeValue(r.attribute) == 20 && (r.value == 0 || r.value == 1) && (r.value == 1 <==> isDarkMode)
  {
    SetWindowAttribute(hwnd, UseImmersiveDarkMode, if isDarkMode then 1 else 0)
  }

  /** Disabling composition sends the same request whatever colour is passed; enabling it sends
      different requests for different colours. */
  lemma CompositionColourMatters(hwnd: int, c1: bv32, c2: bv32)
    ensures SetWindowComposition(hwnd, false, Wrappers.Some(c1)) == SetWindowComposition(hwnd, false, Wrappers.None)
    ensures SetWindowComposition(hwnd, true, Wrappers.Some(c1)) == SetWindowComposition(hwnd, true, Wrappers.Some(c2))
            <==> c1 == c2
  {
  }
}
