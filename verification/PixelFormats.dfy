/** The drawing modes: what one pixel of the canvas becomes when it is blended on
    its own, and when it is part of a horizontal line. */
module PixelFormats {
  import opened CArith

  datatype Color = Color(r: int, g: int, b: int, a: int)

  datatype Pixel = Pixel(b: int, g: int, r: int, a: int)

  datatype Mode = Copy | Over | Erase | Invert | Add | Subtract | Blend | Min | Max | Select | Alpha

  datatype Pattern = Pattern(rows: seq<int>, high: Color, low: Color, xOffset: int, yOffset: int)

  datatype Format = Format(pattern: Pattern, mode: Mode, constant: bool, composite: bool, porterDuff: bool)

  predicate IsByte(n: int) {
    0 <= n < 256
  }

  predicate IsColor(c: Color) {
    IsByte(c.r) && IsByte(c.g) && IsByte(c.b) && IsByte(c.a)
  }

  predicate IsPattern(p: Pattern) {
    |p.rows| == 8 && (forall i :: 0 <= i < 8 ==> IsByte(p.rows[i])) && IsColor(p.high) && IsColor(p.low)
  }

  predicate IsFormat(f: Format) {
    IsPattern(f.pattern)
  }

  /** The canvas is kept opaque. */
  predicate Opaque(p: Pixel) {
    IsByte(p.r) && IsByte(p.g) && IsByte(p.b) && p.a == 255
  }

  // ----- the pattern

  /** Bit k of a byte, counted from its lowest. */
  predicate Bit(n: int, k: int)
    requires 0 <= k < 8
  {
    var v := if k == 0 then n else if k == 1 then n / 2 else if k == 2 then n / 4 else if k == 3 then n / 8
             else if k == 4 then n / 16 else if k == 5 then n / 32 else if k == 6 then n / 64 else n / 128;
    v % 2 == 1
  }

  predicate IsHigh(p: Pattern, x: int, y: int)
    requires IsPattern(p)
  {
    Bit(p.rows[(y - p.yOffset % 0x1_0000) % 8], 7 - (x - p.xOffset % 0x1_0000) % 8)
  }

  function ColorAt(p: Pattern, x: int, y: int): Color
    requires IsPattern(p)
  {
    if IsHigh(p, x, y) then p.high else p.low
  }

  predicate SolidHigh(p: Pattern)
    requires IsPattern(p)
  {
    forall i :: 0 <= i < 8 ==> p.rows[i] == 0xff
  }

  predicate SolidLow(p: Pattern)
    requires IsPattern(p)
  {
    forall i :: 0 <= i < 8 ==> p.rows[i] == 0
  }

  predicate Solid(p: Pattern)
    requires IsPattern(p)
  {
    SolidHigh(p) || SolidLow(p)
  }

  // ----- blending

  function Byte(n: int): int {
    n % 256
  }

  function Assign(r: int, g: int, b: int): Pixel {
    Pixel(Byte(b), Byte(g), Byte(r), 255)
  }

  /** One channel moved towards c by a parts of 256. */
  function Mix(d: int, c: int, a: int): int {
    Byte(((c - d) * a + d * 256) / 256)
  }

  function Blended(p: Pixel, r: int, g: int, b: int, a: int): Pixel {
    Pixel(Mix(p.b, b, a), Mix(p.g, g, a), Mix(p.r, r, a), 255)
  }

  function BlendedFrom(from: Color, c: Color, a: int): Pixel {
    Pixel(Mix(from.b, c.b, a), Mix(from.g, c.g, a), Mix(from.r, c.r, a), 255)
  }

  /** One channel moved towards c by a parts of 65536. */
  function Mix16(d: int, c: int, a: int): int {
    Byte(((c - d) * a + d * 0x1_0000) / 0x1_0000)
  }

  function Blended16(p: Pixel, r: int, g: int, b: int, a: int): Pixel {
    Pixel(Mix16(p.b, b, a), Mix16(p.g, g, a), Mix16(p.r, r, a), 255)
  }

  /** Composing onto a pixel; an opaque one is blended. */
  function Composed(p: Pixel, r: int, g: int, b: int, a: int): Pixel {
    if p.a == 255 then Blended(p, r, g, b, a)
    else if p.a == 0 then Pixel(Byte(b), Byte(g), Byte(r), Byte(a))
    else
      var rest := Byte(255 - a);
      var total := 65025 - rest * (255 - p.a);
      if total <= 0 then p
      else Pixel(Byte((p.b * (p.a * rest) + b * (255 * a)) / total), Byte((p.g * (p.a * rest) + g * (255 * a)) / total),
                 Byte((p.r * (p.a * rest) + r * (255 * a)) / total), Byte(total / 255))
  }

  function Composed16(p: Pixel, r: int, g: int, b: int, a: int): Pixel {
    Composed(p, r, g, b, a / 255)
  }

  function Word16(n: int): int {
    n % 0x1_0000
  }

  function Brightness(r: int, g: int, b: int): int {
    Byte((308 * r + 600 * g + 116 * b) / 1024)
  }

  /** A run's pixel in the fast loop for long runs. */
  function Line32(p: Pixel, c: Color, a: int): Pixel {
    var rest := Byte(255 - a);
    Pixel(Byte(p.b * rest / 256 + Byte(c.b * a / 256)), Byte(p.g * rest / 256 + Byte(c.g * a / 256)),
          Byte(p.r * rest / 256 + Byte(c.r * a / 256)), 255)
  }

  /** The colour a selection swaps the pixel's for, if it is one of the two. */
  datatype Swap = Keep | SwapFor(color: Color)

  function SelectCompare(p: Pixel, high: Color, low: Color): Swap {
    if p.r == high.r && p.g == high.g && p.b == high.b then SwapFor(low)
    else if p.r == low.r && p.g == low.g && p.b == low.b then SwapFor(high)
    else Keep
  }

  function Put(p: Pixel, r: int, g: int, b: int, cover: int): Pixel {
    if cover == 255 then Assign(r, g, b) else Blended(p, r, g, b, cover)
  }

  /** The colour an arithmetic mode moves a pixel towards, if it moves it at all. */
  function Target(mode: Mode, p: Pixel, c: Color): Swap {
    match mode
    case Add => SwapFor(Color(CArith.Min(255, p.r + c.r), CArith.Min(255, p.g + c.g), CArith.Min(255, p.b + c.b), 255))
    case Subtract => SwapFor(Color(CArith.Max(0, p.r - c.r), CArith.Max(0, p.g - c.g), CArith.Max(0, p.b - c.b), 255))
    case Blend => SwapFor(Color((p.r + c.r) / 2, (p.g + c.g) / 2, (p.b + c.b) / 2, 255))
    case Min => if Brightness(c.r, c.g, c.b) < Brightness(p.r, p.g, p.b) then SwapFor(c) else Keep
    case Max => if Brightness(c.r, c.g, c.b) > Brightness(p.r, p.g, p.b) then SwapFor(c) else Keep
    case _ => SwapFor(c)
  }

  function Arithmetic(mode: Mode, p: Pixel, c: Color, cover: int): Pixel {
    match Target(mode, p, c)
    case SwapFor(s) => Put(p, s.r, s.g, s.b, cover)
    case Keep => p
  }

  /** `blend_pixel`: the pixel at (x, y) after blending a colour into it. */
  function BlendPixel(f: Format, c: Color, x: int, y: int, cover: int, p: Pixel): Pixel
    requires IsFormat(f)
  {
    var pat := f.pattern;
    match f.mode
    case Copy =>
      if Solid(pat) then Put(p, c.r, c.g, c.b, cover)
      else
        var color := ColorAt(pat, x, y);
        if cover == 255 then Assign(color.r, color.g, color.b)
        else if cover != 0 then BlendedFrom(pat.low, color, cover)
        else p
    case Over =>
      if Solid(pat) then (if SolidLow(pat) then p else Put(p, c.r, c.g, c.b, cover))
      else if IsHigh(pat, x, y) then Put(p, pat.high.r, pat.high.g, pat.high.b, cover)
      else p
    case Erase => if IsHigh(pat, x, y) then Put(p, pat.low.r, pat.low.g, pat.low.b, cover) else p
    case Invert => if IsHigh(pat, x, y) then Put(p, 255 - p.r, 255 - p.g, 255 - p.b, cover) else p
    case Select =>
      if IsHigh(pat, x, y) then
        match SelectCompare(p, pat.high, pat.low)
        case SwapFor(s) => Put(p, s.r, s.g, s.b, cover)
        case Keep => p
      else p
    case Alpha =>
      var color := if Solid(pat) && !(f.constant && f.composite) then c else ColorAt(pat, x, y);
      var alpha := Word16((if f.constant then pat.high.a else color.a) * cover);
      if alpha == 255 * 255 then Assign(color.r, color.g, color.b)
      else if f.composite then Composed16(p, color.r, color.g, color.b, alpha)
      else Blended16(p, color.r, color.g, color.b, alpha)
    case _ => Arithmetic(f.mode, p, ColorAt(pat, x, y), cover)
  }

  /** A solid pattern's arm for runs without composing: short runs blend each pixel,
      long ones go through the fast loop. */
  function RunArm(p: Pixel, c: Color, alpha: int, len: int): Pixel {
    if alpha == 255 * 255 then Assign(c.r, c.g, c.b)
    else if len < 4 then Blended16(p, c.r, c.g, c.b, alpha)
    else Line32(p, c, Byte(alpha / 256))
  }

  /** The alpha arms of `blend_hline`. */
  function HlineAlpha(f: Format, c: Color, x: int, y: int, cover: int, len: int, p: Pixel): Pixel
    requires IsFormat(f)
  {
    var pat := f.pattern;
    var color := ColorAt(pat, x, y);
    if f.constant && f.composite then
      var alpha := Word16(pat.high.a * cover);
      if alpha == 255 * 255 then Assign(color.r, color.g, color.b) else Composed16(p, color.r, color.g, color.b, alpha)
    else if f.constant && Solid(pat) then RunArm(p, c, Word16(pat.high.a * cover), len)
    else if f.constant then
      var alpha := Word16(pat.high.a * cover);
      if alpha == 255 * 255 then Assign(color.r, color.g, color.b) else Blended16(p, color.r, color.g, color.b, alpha)
    else if f.composite && Solid(pat) then
      var alpha := Word16(c.a * cover);
      if alpha == 0 then p
      else if alpha == 255 * 255 then Assign(c.r, c.g, c.b)
      else Composed16(p, c.r, c.g, c.b, alpha)
    else if f.composite then
      var alpha := Word16(color.a * cover);
      if alpha == 0 then p
      else if alpha == 255 * 255 then Assign(color.r, color.g, color.b)
      else Composed16(p, color.r, color.g, color.b, alpha)
    else if Solid(pat) then RunArm(p, c, Word16(c.a * cover), len)
    else
      var alpha := Word16(color.a * cover);
      if alpha == 0 then p
      else if alpha == 255 then Assign(color.r, color.g, color.b)
      else Blended16(p, color.r, color.g, color.b, alpha)
  }

  /** `blend_hline`: the pixel at (x, y) after a run of len pixels of one cover. */
  function HlinePixel(f: Format, c: Color, x: int, y: int, cover: int, len: int, p: Pixel): Pixel
    requires IsFormat(f)
  {
    var pat := f.pattern;
    match f.mode
    case Copy =>
      if Solid(pat) then (if cover == 255 then Assign(c.r, c.g, c.b) else Blended(p, c.r, c.g, c.b, cover))
      else if cover == 255 then
        var color := if IsHigh(pat, x, y) then pat.high else pat.low;
        Assign(color.r, color.g, color.b)
      else if cover != 0 then BlendedFrom(pat.low, ColorAt(pat, x, y), cover)
      else p
    case Over =>
      if Solid(pat) then
        if SolidLow(pat) then p else if cover == 255 then Assign(c.r, c.g, c.b) else Blended(p, c.r, c.g, c.b, cover)
      else if IsHigh(pat, x, y) then Put(p, pat.high.r, pat.high.g, pat.high.b, cover)
      else p
    case Erase => if IsHigh(pat, x, y) then Put(p, pat.low.r, pat.low.g, pat.low.b, cover) else p
    case Invert => if IsHigh(pat, x, y) then Put(p, 255 - p.r, 255 - p.g, 255 - p.b, cover) else p
    case Select =>
      var s := SelectCompare(p, pat.high, pat.low);
      if IsHigh(pat, x, y) && s.SwapFor? then Put(p, s.color.r, s.color.g, s.color.b, cover) else p
    case Alpha => HlineAlpha(f, c, x, y, cover, len, p)
    case _ => Arithmetic(f.mode, p, ColorAt(pat, x, y), cover)
  }

  // ----- a cover for each third of a pixel

  /** Moves blue by the first cover, green by the second, red by the third. */
  function BlendedThirds(p: Pixel, r: int, g: int, b: int, a1: int, a2: int, a3: int): Pixel {
    Pixel(Mix(p.b, b, a1), Mix(p.g, g, a2), Mix(p.r, r, a3), 255)
  }

  function Blended16Thirds(p: Pixel, r: int, g: int, b: int, a1: int, a2: int, a3: int): Pixel {
    Pixel(Mix16(p.b, b, a1), Mix16(p.g, g, a2), Mix16(p.r, r, a3), 255)
  }

  /** The leftmost third's cover moves red, except in B_OP_ALPHA, where it moves
      blue. */
  function ThirdsAlpha(f: Format, color: Color, cs: seq<int>, p: Pixel): Pixel
    requires IsFormat(f) && |cs| == 3
  {
    var a := if f.constant then f.pattern.high.a else color.a;
    var a1, a2, a3 := Word16(a * cs[0]), Word16(a * cs[1]), Word16(a * cs[2]);
    if f.composite then BlendedThirds(p, color.r, color.g, color.b, a1 / 255, a2 / 255, a3 / 255)
    else Blended16Thirds(p, color.r, color.g, color.b, a1, a2, a3)
  }

  /** `blend_solid_hspan_subpix`: the pixel at (x, y) after blending a colour into
      it by three covers, left to right. */
  function ThirdsPixel(f: Format, c: Color, x: int, y: int, cs: seq<int>, p: Pixel): Pixel
    requires IsFormat(f) && |cs| == 3
  {
    var pat := f.pattern;
    match f.mode
    case Copy =>
      if Solid(pat) then BlendedThirds(p, c.r, c.g, c.b, cs[2], cs[1], cs[0])
      else
        var low, color := pat.low, ColorAt(pat, x, y);
        BlendedThirds(Pixel(low.b, low.g, low.r, 255), color.r, color.g, color.b, cs[2], cs[1], cs[0])
    case Over =>
      if Solid(pat) then (if SolidLow(pat) then p else BlendedThirds(p, c.r, c.g, c.b, cs[2], cs[1], cs[0]))
      else if IsHigh(pat, x, y) then BlendedThirds(p, pat.high.r, pat.high.g, pat.high.b, cs[2], cs[1], cs[0])
      else p
    case Erase =>
      if IsHigh(pat, x, y) then BlendedThirds(p, pat.low.r, pat.low.g, pat.low.b, cs[2], cs[1], cs[0]) else p
    case Invert =>
      if IsHigh(pat, x, y) then BlendedThirds(p, 255 - p.r, 255 - p.g, 255 - p.b, cs[2], cs[1], cs[0]) else p
    case Select =>
      if IsHigh(pat, x, y) then
        match SelectCompare(p, pat.high, pat.low)
        case SwapFor(s) => BlendedThirds(p, s.r, s.g, s.b, cs[2], cs[1], cs[0])
        case Keep => p
      else p
    case Alpha =>
      if f.porterDuff then p
      else ThirdsAlpha(f, if Solid(pat) && !f.composite then c else ColorAt(pat, x, y), cs, p)
    case _ =>
      match Target(f.mode, p, ColorAt(pat, x, y))
      case SwapFor(s) => BlendedThirds(p, s.r, s.g, s.b, cs[2], cs[1], cs[0])
      case Keep => p
  }

  // ----- three equal covers against one

  /** What blending does outside B_OP_ALPHA, however much is covered: leave the pixel,
      or move a base towards a colour. */
  datatype Aim = Stay | Towards(base: Pixel, color: Color)

  function Moved(p: Pixel, s: Swap): Aim {
    match s
    case SwapFor(color) => Towards(p, color)
    case Keep => Stay
  }

  /** The base is the pixel itself, but a copied pattern's is its low colour. */
  function AimOf(f: Format, c: Color, x: int, y: int, p: Pixel): Aim
    requires IsFormat(f)
  {
    var pat := f.pattern;
    match f.mode
    case Copy =>
      if Solid(pat) then Towards(p, c) else Towards(Pixel(pat.low.b, pat.low.g, pat.low.r, 255), ColorAt(pat, x, y))
    case Over =>
      if Solid(pat) then (if SolidLow(pat) then Stay else Towards(p, c))
      else if IsHigh(pat, x, y) then Towards(p, pat.high) else Stay
    case Erase => if IsHigh(pat, x, y) then Towards(p, pat.low) else Stay
    case Invert => if IsHigh(pat, x, y) then Towards(p, Color(255 - p.r, 255 - p.g, 255 - p.b, 255)) else Stay
    case Select => if IsHigh(pat, x, y) then Moved(p, SelectCompare(p, pat.high, pat.low)) else Stay
    case _ => Moved(p, Target(f.mode, p, ColorAt(pat, x, y)))
  }

  lemma AimThirds(f: Format, c: Color, x: int, y: int, k: int, p: Pixel)
    requires IsFormat(f) && f.mode != Alpha
    ensures ThirdsPixel(f, c, x, y, [k, k, k], p) ==
            match AimOf(f, c, x, y, p)
            case Stay => p
            case Towards(base, color) => Blended(base, color.r, color.g, color.b, k)
  {
    hide Mix, Solid, IsHigh, SelectCompare, Target, SolidLow;
  }

  lemma AimBlend(f: Format, c: Color, x: int, y: int, k: int, p: Pixel)
    requires IsFormat(f) && f.mode != Alpha && k != 0
    ensures BlendPixel(f, c, x, y, k, p) ==
            match AimOf(f, c, x, y, p)
            case Stay => p
            case Towards(base, color) => Put(base, color.r, color.g, color.b, k)
  {
    hide Mix, Solid, IsHigh, SelectCompare, Target, SolidLow;
  }

  lemma AimIsBytes(f: Format, c: Color, x: int, y: int, p: Pixel)
    requires IsFormat(f) && f.mode != Alpha && IsColor(c) && Opaque(p)
    ensures var a := AimOf(f, c, x, y, p);
            a.Towards? ==> Opaque(a.base) && IsByte(a.color.r) && IsByte(a.color.g) && IsByte(a.color.b)
  {
    hide Solid, IsHigh, SolidLow, Brightness;
  }

  /** 255 of 256 parts of the way, a channel falls one short where it has to rise. */
  lemma MixAlmost(d: int, c: int)
    requires IsByte(d) && IsByte(c)
    ensures Mix(d, c, 255) == if c <= d then c else c - 1
  {
  }

  /** A whole pixel moved that far arrives exactly when no channel has to rise. */
  lemma AlmostThere(p: Pixel, c: Color)
    requires Opaque(p) && IsByte(c.r) && IsByte(c.g) && IsByte(c.b)
    ensures Blended(p, c.r, c.g, c.b, 255) == Put(p, c.r, c.g, c.b, 255) <==> c.r <= p.r && c.g <= p.g && c.b <= p.b
  {
    hide Mix;
    MixAlmost(p.r, c.r);
    MixAlmost(p.g, c.g);
    MixAlmost(p.b, c.b);
  }

  /** Outside B_OP_ALPHA three equal covers blend a pixel as that one cover does wherever
      the pixel stays; else always under a partial cover, under none if the base is the
      pixel, and under a full one if no channel has to rise. */
  predicate AimAgrees(a: Aim, cover: int, p: Pixel) {
    match a
    case Stay => true
    case Towards(base, color) =>
      && (cover == 0 ==> base == p)
      && (cover == 255 ==> color.r <= base.r && color.g <= base.g && color.b <= base.b)
  }

  /** The colour one cover blends in B_OP_ALPHA, ... */
  function OneColor(f: Format, c: Color, x: int, y: int): Color
    requires IsFormat(f)
  {
    if Solid(f.pattern) && !(f.constant && f.composite) then c else ColorAt(f.pattern, x, y)
  }

  /** ... and three: they take no solid source when they compose. */
  function ThreeColor(f: Format, c: Color, x: int, y: int): Color
    requires IsFormat(f)
  {
    if Solid(f.pattern) && !f.composite then c else ColorAt(f.pattern, x, y)
  }

  function AlphaOf(f: Format, color: Color, cover: int): int {
    (if f.constant then f.pattern.high.a else color.a) * cover
  }

  /** How far a channel moves from d towards c. */
  function Gain(composite: bool, d: int, c: int, alpha: int): int {
    if composite then (c - d) * (alpha / 255) / 256 else (c - d) * alpha / 0x1_0000
  }

  /** Under one cover a full alpha assigns the colour. */
  function OneGain(composite: bool, d: int, c: int, alpha: int): int {
    if alpha == 255 * 255 then c - d else Gain(composite, d, c, alpha)
  }

  /** A predicate on a channel of a pixel and of two colours, for all three. */
  predicate EachChannel(p: Pixel, c: Color, e: Color, holds: (int, int, int) -> bool) {
    holds(p.r, c.r, e.r) && holds(p.g, c.g, e.g) && holds(p.b, c.b, e.b)
  }

  /** In B_OP_ALPHA they do, where three covers do nothing, if one does not move the pixel
      a whole step; where both blend one colour, unless the alpha is full and a channel has
      to rise or, when not composing, to fall by more than 128; and where they blend
      different colours, if each channel moves as far towards either. */
  predicate AlphaAgrees(f: Format, c: Color, x: int, y: int, cover: int, p: Pixel)
    requires IsFormat(f)
  {
    var one, three := OneColor(f, c, x, y), ThreeColor(f, c, x, y);
    var alpha := AlphaOf(f, one, cover);
    if f.porterDuff then
      EachChannel(p, one, one, (d, e, _) =>
        if alpha == 255 * 255 then e == d
        else if f.composite then 0 <= (e - d) * (alpha / 255) < 256 else 0 <= (e - d) * alpha < 0x1_0000)
    else if one == three then
      alpha == 255 * 255 ==> EachChannel(p, one, one, (d, e, _) => e <= d && (f.composite || d - e <= 128))
    else
      EachChannel(p, one, three, (d, e, g) =>
        OneGain(f.composite, d, e, alpha) == Gain(f.composite, d, g, AlphaOf(f, three, cover)))
  }

  lemma AlphaRange(f: Format, color: Color, cover: int)
    requires IsFormat(f) && IsColor(color) && IsByte(cover)
    ensures 0 <= AlphaOf(f, color, cover) <= 255 * 255
  {
    var a := if f.constant then f.pattern.high.a else color.a;
    MulMonotone(a, 255, cover);
    MulMonotone(0, a, cover);
    MulMonotone(cover, 255, 255);
    assert a * cover == cover * a;
  }

  lemma Mix16Is(d: int, c: int, alpha: int)
    requires IsByte(d) && IsByte(c) && 0 <= alpha < 0x1_0000
    ensures Mix16(d, c, alpha) == d + (c - d) * alpha / 0x1_0000
  {
    InterpolationBounds(alpha, c - d, 0x1_0000);
    DivModUnique((c - d) * alpha + d * 0x1_0000, 0x1_0000, d + (c - d) * alpha / 0x1_0000, (c - d) * alpha % 0x1_0000);
    assert alpha * (c - d) == (c - d) * alpha;
  }

  /** Blending by an alpha moves each channel by its gain. */
  function Gained(composite: bool, p: Pixel, c: Color, alpha: int): Pixel {
    Pixel(p.b + Gain(composite, p.b, c.b, alpha), p.g + Gain(composite, p.g, c.g, alpha), p.r + Gain(composite, p.r, c.r, alpha), 255)
  }

  lemma GainedIs(p: Pixel, c: Color, alpha: int)
    requires Opaque(p) && IsColor(c) && 0 <= alpha <= 255 * 255
    ensures Blended16(p, c.r, c.g, c.b, alpha) == Gained(false, p, c, alpha)
    ensures Blended(p, c.r, c.g, c.b, alpha / 255) == Gained(true, p, c, alpha)
  {
    hide Mix, Mix16;
    Mix16Is(p.r, c.r, alpha);
    Mix16Is(p.g, c.g, alpha);
    Mix16Is(p.b, c.b, alpha);
    MixIs(p.r, c.r, alpha / 255);
    MixIs(p.g, c.g, alpha / 255);
    MixIs(p.b, c.b, alpha / 255);
  }

  lemma AlphaOne(f: Format, c: Color, x: int, y: int, cover: int, p: Pixel)
    requires IsFormat(f) && f.mode == Alpha && IsColor(c) && Opaque(p) && IsByte(cover)
    ensures var one := OneColor(f, c, x, y);
            var alpha := AlphaOf(f, one, cover);
            BlendPixel(f, c, x, y, cover, p) ==
            if alpha == 255 * 255 then Pixel(one.b, one.g, one.r, 255) else Gained(f.composite, p, one, alpha)
  {
    hide Solid, BlendPixel, Blended, Blended16, Gained, OneColor, AlphaOf;
    var one := OneColor(f, c, x, y);
    OneIsColor(f, c, x, y);
    AlphaRange(f, one, cover);
    OneArm(f, c, x, y, cover, p);
    GainedIs(p, one, AlphaOf(f, one, cover));
  }

  lemma OneArm(f: Format, c: Color, x: int, y: int, cover: int, p: Pixel)
    requires IsFormat(f) && f.mode == Alpha
    ensures var one := OneColor(f, c, x, y);
            var alpha := Word16(AlphaOf(f, one, cover));
            BlendPixel(f, c, x, y, cover, p) ==
            if alpha == 255 * 255 then Assign(one.r, one.g, one.b)
            else if f.composite then Composed16(p, one.r, one.g, one.b, alpha) else Blended16(p, one.r, one.g, one.b, alpha)
  {
    hide Solid, IsHigh, Assign, Composed16, Blended16, Word16;
  }

  lemma AlphaThree(f: Format, c: Color, x: int, y: int, k: int, p: Pixel)
    requires IsFormat(f) && f.mode == Alpha && IsColor(c) && Opaque(p) && IsByte(k)
    ensures var three := ThreeColor(f, c, x, y);
            ThirdsPixel(f, c, x, y, [k, k, k], p) ==
            if f.porterDuff then p else Gained(f.composite, p, three, AlphaOf(f, three, k))
  {
    hide Solid, IsHigh, Mix, Mix16, Gained;
    var three := ThreeColor(f, c, x, y);
    AlphaRange(f, three, k);
    GainedIs(p, three, AlphaOf(f, three, k));
  }

  /** A full alpha moves a channel all the way exactly when it does not rise and, when not
      composing, falls by 128 at most. */
  lemma FullGain(composite: bool, d: int, c: int)
    requires IsByte(d) && IsByte(c)
    ensures Gain(composite, d, c, 255 * 255) == c - d <==> c <= d && (composite || d - c <= 128)
  {
  }

  lemma NoGain(composite: bool, d: int, c: int, alpha: int)
    ensures Gain(composite, d, c, alpha) == 0 <==>
            if composite then 0 <= (c - d) * (alpha / 255) < 256 else 0 <= (c - d) * alpha < 0x1_0000
  {
    var n := if composite then (c - d) * (alpha / 255) else (c - d) * alpha;
    assert n / 256 == 0 <==> 0 <= n < 256;
    assert n / 0x1_0000 == 0 <==> 0 <= n < 0x1_0000;
  }

  lemma AlphaEqual(f: Format, c: Color, x: int, y: int, cover: int, p: Pixel)
    requires IsFormat(f) && f.mode == Alpha && IsColor(c) && Opaque(p) && IsByte(cover)
    ensures ThirdsPixel(f, c, x, y, [cover, cover, cover], p) == BlendPixel(f, c, x, y, cover, p)
            <==> AlphaAgrees(f, c, x, y, cover, p)
  {
    hide ThirdsPixel, BlendPixel, OneColor, ThreeColor, AlphaOf, Gain;
    AlphaOne(f, c, x, y, cover, p);
    AlphaThree(f, c, x, y, cover, p);
    var one := OneColor(f, c, x, y);
    var alpha := AlphaOf(f, one, cover);
    if f.porterDuff {
      NoGain(f.composite, p.r, one.r, alpha);
      NoGain(f.composite, p.g, one.g, alpha);
      NoGain(f.composite, p.b, one.b, alpha);
    } else if alpha == 255 * 255 {
      OneIsColor(f, c, x, y);
      FullGain(f.composite, p.r, one.r);
      FullGain(f.composite, p.g, one.g);
      FullGain(f.composite, p.b, one.b);
    }
  }

  lemma OneIsColor(f: Format, c: Color, x: int, y: int)
    requires IsFormat(f) && IsColor(c)
    ensures IsColor(OneColor(f, c, x, y))
  {
  }

  /** Exactly when three equal covers blend a pixel as that one cover does, in every mode. */
  lemma EqualThirds(f: Format, c: Color, x: int, y: int, cover: int, p: Pixel)
    requires IsFormat(f) && IsColor(c) && Opaque(p) && IsByte(cover)
    ensures ThirdsPixel(f, c, x, y, [cover, cover, cover], p) == BlendPixel(f, c, x, y, cover, p) <==>
            if f.mode == Alpha then AlphaAgrees(f, c, x, y, cover, p) else AimAgrees(AimOf(f, c, x, y, p), cover, p)
  {
    hide *;
    if f.mode == Alpha {
      AlphaEqual(f, c, x, y, cover, p);
    } else {
      AimEqual(f, c, x, y, cover, p);
    }
  }

  lemma AimEqual(f: Format, c: Color, x: int, y: int, cover: int, p: Pixel)
    requires IsFormat(f) && f.mode != Alpha && IsColor(c) && Opaque(p) && IsByte(cover)
    ensures ThirdsPixel(f, c, x, y, [cover, cover, cover], p) == BlendPixel(f, c, x, y, cover, p)
            <==> AimAgrees(AimOf(f, c, x, y, p), cover, p)
  {
    hide AimOf, ThirdsPixel, BlendPixel, Blended;
    AimThirds(f, c, x, y, cover, p);
    AimIsBytes(f, c, x, y, p);
    var a := AimOf(f, c, x, y, p);
    if cover == 0 {
      CoverZero(f, c, x, y, p);
      if a.Towards? {
        BlendNothing(a.base, a.color.r, a.color.g, a.color.b);
      }
    } else {
      AimBlend(f, c, x, y, cover, p);
      if a.Towards? && cover == 255 {
        AlmostThere(a.base, a.color);
      }
    }
  }

  /** Fully covered they need not agree: copying white onto black falls one short. */
  lemma FullThirdsDiffer(f: Format, x: int, y: int)
    requires IsFormat(f) && f.mode == Copy && Solid(f.pattern)
    ensures BlendPixel(f, Color(255, 255, 255, 255), x, y, 255, Pixel(0, 0, 0, 255)) == Pixel(255, 255, 255, 255)
    ensures ThirdsPixel(f, Color(255, 255, 255, 255), x, y, [255, 255, 255], Pixel(0, 0, 0, 255)) == Pixel(254, 254, 254, 255)
  {
    hide Solid, IsHigh;
  }

  /** Nor in B_OP_ALPHA: overlaying black on white leaves a trace. */
  lemma AlphaThirdsDiffer(f: Format, x: int, y: int)
    requires IsFormat(f) && f.mode == Alpha && Solid(f.pattern) && !f.constant && !f.composite && !f.porterDuff
    ensures BlendPixel(f, Color(0, 0, 0, 255), x, y, 255, Pixel(255, 255, 255, 255)) == Pixel(0, 0, 0, 255)
    ensures ThirdsPixel(f, Color(0, 0, 0, 255), x, y, [255, 255, 255], Pixel(255, 255, 255, 255)) == Pixel(1, 1, 1, 255)
  {
    hide Solid, IsHigh, BlendPixel, ThirdsPixel;
    var black, white := Color(0, 0, 0, 255), Pixel(255, 255, 255, 255);
    AlphaOne(f, black, x, y, 255, white);
    AlphaThree(f, black, x, y, 255, white);
  }

  /** Nor when nothing is covered: three zero covers of a copied pattern write its low
      colour over the pixel. */
  lemma NoThirdsDiffer(f: Format, c: Color, x: int, y: int, p: Pixel)
    requires IsFormat(f) && f.mode == Copy && !Solid(f.pattern) && IsColor(c) && Opaque(p)
    ensures BlendPixel(f, c, x, y, 0, p) == p
    ensures ThirdsPixel(f, c, x, y, [0, 0, 0], p) == Pixel(f.pattern.low.b, f.pattern.low.g, f.pattern.low.r, 255)
  {
    hide Solid, IsHigh, Mix;
    var low, color := f.pattern.low, ColorAt(f.pattern, x, y);
    MixNothing(low.r, color.r);
    MixNothing(low.g, color.g);
    MixNothing(low.b, color.b);
  }

  // ----- blending keeps the canvas opaque, and cover 0 leaves it alone

  lemma MixNothing(d: int, c: int)
    requires IsByte(d)
    ensures Mix(d, c, 0) == d && Mix16(d, c, 0) == d
  {
  }

  lemma BlendNothing(p: Pixel, r: int, g: int, b: int)
    requires Opaque(p)
    ensures Blended(p, r, g, b, 0) == p && Blended16(p, r, g, b, 0) == p && Composed16(p, r, g, b, 0) == p
    ensures Put(p, r, g, b, 0) == p
  {
    MixNothing(p.r, r);
    MixNothing(p.g, g);
    MixNothing(p.b, b);
  }

  /** A pixel that is not covered stays as it is, in every mode. */
  lemma CoverZero(f: Format, c: Color, x: int, y: int, p: Pixel)
    requires IsFormat(f) && Opaque(p)
    ensures BlendPixel(f, c, x, y, 0, p) == p
  {
    hide Blended, Blended16, Composed16, Put, Solid, IsHigh, Brightness, SelectCompare;
    forall r, g, b ensures Put(p, r, g, b, 0) == p && Blended16(p, r, g, b, 0) == p && Composed16(p, r, g, b, 0) == p {
      BlendNothing(p, r, g, b);
    }
  }

  lemma OpaqueParts(p: Pixel, r: int, g: int, b: int, a: int)
    requires Opaque(p)
    ensures Opaque(Assign(r, g, b)) && Opaque(Blended(p, r, g, b, a)) && Opaque(Blended16(p, r, g, b, a))
    ensures Opaque(Composed16(p, r, g, b, a)) && Opaque(Put(p, r, g, b, a))
  {
    hide Mix, Mix16;
    forall d, e, k ensures IsByte(Mix(d, e, k)) && IsByte(Mix16(d, e, k)) {
      MixIsByte(d, e, k);
    }
  }

  lemma OpaqueFrom(from: Color, c: Color, a: int)
    ensures Opaque(BlendedFrom(from, c, a))
  {
    MixIsByte(from.b, c.b, a);
    MixIsByte(from.g, c.g, a);
    MixIsByte(from.r, c.r, a);
    hide Mix;
  }

  /** Whatever is blended, the canvas stays opaque. */
  lemma StaysOpaque(f: Format, c: Color, x: int, y: int, cover: int, p: Pixel)
    requires IsFormat(f) && Opaque(p)
    ensures Opaque(BlendPixel(f, c, x, y, cover, p))
  {
    hide Assign, Blended, Blended16, BlendedFrom, Composed16, Put, Opaque, Solid, IsHigh, Target, SelectCompare, Word16;
    forall r, g, b ensures Opaque(Assign(r, g, b)) {
      OpaqueParts(p, r, g, b, 0);
    }
    forall r, g, b, a
      ensures Opaque(Blended16(p, r, g, b, a)) && Opaque(Composed16(p, r, g, b, a)) && Opaque(Put(p, r, g, b, a))
    {
      OpaqueParts(p, r, g, b, a);
    }
    OpaqueFrom(f.pattern.low, ColorAt(f.pattern, x, y), cover);
  }

  /** So does a run of any length, the fast loop included. */
  lemma RunStaysOpaque(f: Format, c: Color, x: int, y: int, cover: int, len: int, p: Pixel)
    requires IsFormat(f) && Opaque(p)
    ensures Opaque(HlinePixel(f, c, x, y, cover, len, p))
  {
    hide Assign, Blended, Blended16, BlendedFrom, Composed16, Put, Opaque, Solid, IsHigh, Target, SelectCompare, Word16,
         Line32, HlineAlpha;
    forall r, g, b ensures Opaque(Assign(r, g, b)) {
      OpaqueParts(p, r, g, b, 0);
    }
    forall r, g, b, a ensures Opaque(Blended(p, r, g, b, a)) && Opaque(Put(p, r, g, b, a)) {
      OpaqueParts(p, r, g, b, a);
    }
    OpaqueFrom(f.pattern.low, ColorAt(f.pattern, x, y), cover);
    AlphaRunStaysOpaque(f, c, x, y, cover, len, p);
  }

  lemma AlphaRunStaysOpaque(f: Format, c: Color, x: int, y: int, cover: int, len: int, p: Pixel)
    requires IsFormat(f) && Opaque(p)
    ensures Opaque(HlineAlpha(f, c, x, y, cover, len, p))
  {
    hide Assign, Blended16, Composed16, Opaque, Solid, IsHigh, Word16, Line32;
    forall r, g, b ensures Opaque(Assign(r, g, b)) {
      OpaqueParts(p, r, g, b, 0);
    }
    forall r, g, b, a ensures Opaque(Blended16(p, r, g, b, a)) && Opaque(Composed16(p, r, g, b, a)) {
      OpaqueParts(p, r, g, b, a);
    }
    forall a ensures Opaque(Line32(p, c, a)) {
      LineOpaque(p, c, a);
    }
  }

  lemma LineOpaque(p: Pixel, c: Color, a: int)
    ensures Opaque(Line32(p, c, a))
  {
  }

  /** And so does a pixel blended third by third. */
  lemma ThirdsStayOpaque(f: Format, c: Color, x: int, y: int, cs: seq<int>, p: Pixel)
    requires IsFormat(f) && |cs| == 3 && Opaque(p)
    ensures Opaque(ThirdsPixel(f, c, x, y, cs, p))
  {
    hide BlendedThirds, Blended16Thirds, Opaque, Solid, IsHigh, Target, SelectCompare, Word16;
    forall q, r, g, b, a1, a2, a3
      ensures Opaque(BlendedThirds(q, r, g, b, a1, a2, a3)) && Opaque(Blended16Thirds(q, r, g, b, a1, a2, a3))
    {
      OpaqueThirds(q, r, g, b, a1, a2, a3);
    }
  }

  lemma OpaqueThirds(p: Pixel, r: int, g: int, b: int, a1: int, a2: int, a3: int)
    ensures Opaque(BlendedThirds(p, r, g, b, a1, a2, a3)) && Opaque(Blended16Thirds(p, r, g, b, a1, a2, a3))
  {
    hide Mix, Mix16;
    MixIsByte(p.b, b, a1);
    MixIsByte(p.g, g, a2);
    MixIsByte(p.r, r, a3);
  }

  lemma MixIsByte(d: int, e: int, a: int)
    ensures IsByte(Mix(d, e, a)) && IsByte(Mix16(d, e, a))
  {
  }

  // ----- when a run does what its pixels do

  predicate DividesFull(a: int) {
    a > 0 && 255 % a == 0
  }

  /** Outside B_OP_ALPHA always; in it, when composing, and otherwise only under a
      patterned source whose alphas no cover can bring to 255. */
  predicate Uniform(f: Format)
    requires IsFormat(f)
  {
    || f.mode != Alpha
    || f.composite
    || (!Solid(f.pattern) && (f.constant || (!DividesFull(f.pattern.high.a) && !DividesFull(f.pattern.low.a))))
  }

  lemma ProductFits(a: int, cover: int)
    requires IsByte(a) && IsByte(cover)
    ensures Word16(a * cover) == a * cover && 0 <= a * cover <= 65025
    ensures a * cover == 255 ==> DividesFull(a)
    ensures a * cover == 255 * 255 ==> a == 255
  {
    MulMonotone(0, a, cover);
    MulMonotone(a, 255, cover);
    if a <= 254 {
      MulMonotone(a, 254, cover);
    }
    if a * cover == 255 {
      assert a > 0;
      DivModUnique(255, a, cover, 0);
    }
  }

  lemma UniformAlpha(f: Format, c: Color, x: int, y: int, cover: int, len: int, p: Pixel)
    requires IsFormat(f) && f.mode == Alpha && Uniform(f) && IsColor(c) && IsByte(cover) && Opaque(p)
    ensures HlinePixel(f, c, x, y, cover, len, p) == BlendPixel(f, c, x, y, cover, p)
  {
    var color := if Solid(f.pattern) then c else ColorAt(f.pattern, x, y);
    ProductFits(color.a, cover);
    BlendNothing(p, color.r, color.g, color.b);
    hide Solid, IsHigh, Blended, Blended16, Composed16, Assign, DividesFull, Word16;
    assert !DividesFull(color.a) && color.a == 255 ==> false by {
      FullDividesItself();
    }
  }

  lemma FullDividesItself()
    ensures DividesFull(255)
  {
  }

  /** Each pixel of a run becomes what blending it on its own would make of it. */
  lemma UniformAgrees(f: Format, c: Color, x: int, y: int, cover: int, len: int, p: Pixel)
    requires IsFormat(f) && Uniform(f) && IsColor(c) && IsByte(cover) && Opaque(p)
    ensures HlinePixel(f, c, x, y, cover, len, p) == BlendPixel(f, c, x, y, cover, p)
  {
    if f.mode == Alpha {
      UniformAlpha(f, c, x, y, cover, len, p);
    } else {
      hide Solid, IsHigh, Blended, Assign, Brightness, SelectCompare, Uniform;
    }
  }

  ghost predicate RunsArePixels(f: Format)
    requires IsFormat(f)
  {
    forall c, x, y, cover, len, p :: IsColor(c) && IsByte(cover) && len >= 1 && Opaque(p) ==>
      HlinePixel(f, c, x, y, cover, len, p) == BlendPixel(f, c, x, y, cover, p)
  }

  const WHITE := Pixel(255, 255, 255, 255)

  /** A long run under a solid source: the fast loop darkens what is not covered. */
  lemma SolidRunsDiffer(f: Format, c: Color)
    requires IsFormat(f) && f.mode == Alpha && !f.composite && Solid(f.pattern) && IsColor(c)
    ensures HlinePixel(f, c, 0, 0, 0, 4, WHITE) != BlendPixel(f, c, 0, 0, 0, WHITE)
  {
    hide *;
    DarkerWhite(c);
    CoverZero(f, c, 0, 0, WHITE);
    SolidRun(f, c, WHITE);
  }

  lemma SolidRun(f: Format, c: Color, p: Pixel)
    requires IsFormat(f) && f.mode == Alpha && !f.composite && Solid(f.pattern) && IsColor(c)
    ensures HlinePixel(f, c, 0, 0, 0, 4, p) == Line32(p, c, 0)
  {
    hide Solid, IsHigh, Line32, Blended, Blended16, Composed16, Assign;
  }

  lemma DarkerWhite(c: Color)
    ensures Opaque(WHITE) && Line32(WHITE, c, 0) != WHITE
  {
  }

  /** The bits make up the byte. */
  lemma Halves(n: int)
    requires IsByte(n)
    ensures n == 2 * (n / 2) + n % 2 && n / 2 == 2 * (n / 4) + n / 2 % 2 && n / 4 == 2 * (n / 8) + n / 4 % 2
    ensures n / 8 == 2 * (n / 16) + n / 8 % 2
  {
  }

  lemma UpperHalves(n: int)
    requires IsByte(n)
    ensures n / 16 == 2 * (n / 32) + n / 16 % 2 && n / 32 == 2 * (n / 64) + n / 32 % 2
    ensures n / 64 == 2 * (n / 128) + n / 64 % 2 && n / 128 == n / 128 % 2
  {
  }

  lemma SomeBit(n: int, value: bool) returns (k: int)
    requires IsByte(n) && n != if value then 0 else 255
    ensures 0 <= k < 8 && Bit(n, k) == value
  {
    Halves(n);
    UpperHalves(n);
    if Bit(n, 0) == value { return 0; }
    if Bit(n, 1) == value { return 1; }
    if Bit(n, 2) == value { return 2; }
    if Bit(n, 3) == value { return 3; }
    if Bit(n, 4) == value { return 4; }
    if Bit(n, 5) == value { return 5; }
    return if Bit(n, 6) == value then 6 else 7;
  }

  /** A pattern that is not solid shows both colours. */
  lemma BothColors(p: Pattern, high: bool) returns (x: int, y: int)
    requires IsPattern(p) && !Solid(p)
    ensures IsHigh(p, x, y) == high
  {
    var i :| 0 <= i < 8 && p.rows[i] != if high then 0 else 0xff;
    var k := SomeBit(p.rows[i], high);
    x, y := p.xOffset % 0x1_0000 + (7 - k), p.yOffset % 0x1_0000 + i;
    assert (y - p.yOffset % 0x1_0000) % 8 == i && 7 - (x - p.xOffset % 0x1_0000) % 8 == k;
  }

  lemma CoverTo255(a: int)
    requires DividesFull(a)
    ensures a * (255 / a) == 255 && IsByte(255 / a)
  {
    var q := 255 / a;
    assert a * q == 255;
    assert q > 0;
    assert q <= a * q;
  }

  predicate Patterned(f: Format)
    requires IsFormat(f)
  {
    f.mode == Alpha && !f.composite && !f.constant && !Solid(f.pattern)
  }

  /** Where the alpha comes to 255 of 65025 the run is drawn opaque, the pixel not. */
  lemma At255(f: Format, c: Color, x: int, y: int, cover: int, p: Pixel)
    requires IsFormat(f) && Patterned(f) && Opaque(p) && ColorAt(f.pattern, x, y).a * cover == 255
    ensures var color := ColorAt(f.pattern, x, y);
            && HlinePixel(f, c, x, y, cover, 1, p) == Assign(color.r, color.g, color.b)
            && BlendPixel(f, c, x, y, cover, p) == Blended16(p, color.r, color.g, color.b, 255)
  {
    hide Solid, ColorAt, Assign, Blended16;
  }

  lemma PatternRunsDiffer(f: Format, x: int, y: int, c: Color, p: Pixel)
    requires IsFormat(f) && Patterned(f) && DividesFull(ColorAt(f.pattern, x, y).a)
    requires Opaque(p) && p.r == if ColorAt(f.pattern, x, y).r < 128 then 255 else 0
    ensures var cover := 255 / ColorAt(f.pattern, x, y).a;
            IsByte(cover) && HlinePixel(f, c, x, y, cover, 1, p) != BlendPixel(f, c, x, y, cover, p)
  {
    var color := ColorAt(f.pattern, x, y);
    CoverTo255(color.a);
    PatternDiffers(f, c, x, y, 255 / color.a, p);
  }

  lemma PatternDiffers(f: Format, c: Color, x: int, y: int, cover: int, p: Pixel)
    requires IsFormat(f) && Patterned(f) && Opaque(p) && ColorAt(f.pattern, x, y).a * cover == 255
    requires p.r == if ColorAt(f.pattern, x, y).r < 128 then 255 else 0
    ensures HlinePixel(f, c, x, y, cover, 1, p) != BlendPixel(f, c, x, y, cover, p)
  {
    var color := ColorAt(f.pattern, x, y);
    AssignDiffers(p, color);
    At255(f, c, x, y, cover, p);
    hide *;
  }

  lemma AssignDiffers(p: Pixel, color: Color)
    requires IsColor(color) && p.r == if color.r < 128 then 255 else 0
    ensures Assign(color.r, color.g, color.b) != Blended16(p, color.r, color.g, color.b, 255)
  {
    FarFromMixed(p.r, color.r);
    hide Mix16;
  }

  lemma FarFromMixed(d: int, c: int)
    requires IsByte(c) && d == if c < 128 then 255 else 0
    ensures Mix16(d, c, 255) != c
  {
  }

  /** Exactly the formats under which a run does what blending each of its pixels
      on its own would do. */
  lemma RunsIff(f: Format)
    requires IsFormat(f)
    ensures RunsArePixels(f) <==> Uniform(f)
  {
    if Uniform(f) {
      forall c, x, y, cover, len, p | IsColor(c) && IsByte(cover) && len >= 1 && Opaque(p)
        ensures HlinePixel(f, c, x, y, cover, len, p) == BlendPixel(f, c, x, y, cover, p)
      {
        UniformAgrees(f, c, x, y, cover, len, p);
      }
    } else {
      var black := Color(0, 0, 0, 0);
      if Solid(f.pattern) {
        SolidRunsDiffer(f, black);
      } else {
        var x, y := BothColors(f.pattern, DividesFull(f.pattern.high.a));
        var color := ColorAt(f.pattern, x, y);
        hide Solid, IsHigh, HlinePixel, BlendPixel;
        assert DividesFull(color.a);
        var v := if color.r < 128 then 255 else 0;
        PatternRunsDiffer(f, x, y, black, Pixel(0, 0, v, 255));
      }
    }
  }

  // ----- what the modes mean

  /** Partly covered, a channel lies between the canvas's and the colour's: the
      stored byte never wraps. */
  lemma MixBetween(d: int, c: int, a: int)
    requires IsByte(d) && IsByte(c) && 0 <= a <= 255
    ensures CArith.Min(d, c) <= Mix(d, c, a) <= CArith.Max(d, c)
  {
    InterpolationBounds(a, c - d, 256);
    var q := a * (c - d) / 256;
    assert (c - d) * a + d * 256 == a * (c - d) + 256 * d;
    DivModUnique((c - d) * a + d * 256, 256, q + d, a * (c - d) % 256);
  }

  lemma Mix16Between(d: int, c: int, a: int)
    requires IsByte(d) && IsByte(c) && 0 <= a <= 65025
    ensures CArith.Min(d, c) <= Mix16(d, c, a) <= CArith.Max(d, c)
  {
    InterpolationBounds(a, c - d, 0x1_0000);
    var q := a * (c - d) / 0x1_0000;
    assert (c - d) * a + d * 0x1_0000 == a * (c - d) + 0x1_0000 * d;
    DivModUnique((c - d) * a + d * 0x1_0000, 0x1_0000, q + d, a * (c - d) % 0x1_0000);
  }

  /** Between two pixels, channel by channel. */
  predicate Between(p: Pixel, q: Pixel, c: Color) {
    && CArith.Min(p.r, c.r) <= q.r <= CArith.Max(p.r, c.r)
    && CArith.Min(p.g, c.g) <= q.g <= CArith.Max(p.g, c.g)
    && CArith.Min(p.b, c.b) <= q.b <= CArith.Max(p.b, c.b)
  }

  lemma PutBetween(p: Pixel, c: Color, cover: int)
    requires Opaque(p) && IsColor(c) && IsByte(cover)
    ensures Between(p, Put(p, c.r, c.g, c.b, cover), c)
    ensures cover == 255 ==> Put(p, c.r, c.g, c.b, cover) == Pixel(c.b, c.g, c.r, 255)
  {
    hide Assign, Blended, Between;
    AssignIs(c);
    ColorBetween(p, c);
    BlendedBetween(p, c, cover);
  }

  lemma AssignIs(c: Color)
    requires IsColor(c)
    ensures Assign(c.r, c.g, c.b) == Pixel(c.b, c.g, c.r, 255)
  {
  }

  lemma ColorBetween(p: Pixel, c: Color)
    ensures Between(p, Pixel(c.b, c.g, c.r, 255), c)
  {
  }

  lemma BlendedBetween(p: Pixel, c: Color, a: int)
    requires Opaque(p) && IsColor(c) && IsByte(a)
    ensures Between(p, Blended(p, c.r, c.g, c.b, a), c)
  {
    MixBetween(p.r, c.r, a);
    MixBetween(p.g, c.g, a);
    MixBetween(p.b, c.b, a);
    hide Mix;
  }

  /** Copying under a solid pattern moves the pixel towards the colour and, fully
      covered, makes it the colour. */
  lemma CopyBetween(f: Format, c: Color, x: int, y: int, cover: int, p: Pixel)
    requires IsFormat(f) && f.mode == Copy && Solid(f.pattern) && IsColor(c) && IsByte(cover) && Opaque(p)
    ensures Between(p, BlendPixel(f, c, x, y, cover, p), c)
    ensures cover == 255 ==> BlendPixel(f, c, x, y, cover, p) == Pixel(c.b, c.g, c.r, 255)
  {
    PutBetween(p, c, cover);
  }

  /** Overlaying moves the pixel towards the colour. */
  lemma AlphaBetween(f: Format, c: Color, x: int, y: int, cover: int, p: Pixel)
    requires IsFormat(f) && f.mode == Alpha && Solid(f.pattern) && !f.constant && !f.composite
    requires IsColor(c) && IsByte(cover) && Opaque(p)
    ensures Between(p, BlendPixel(f, c, x, y, cover, p), c)
    ensures c.a == 255 && cover == 255 ==> BlendPixel(f, c, x, y, cover, p) == Pixel(c.b, c.g, c.r, 255)
  {
    ProductFits(c.a, cover);
    hide *;
    var alpha := Word16(c.a * cover);
    AlphaArm(f, c, x, y, cover, p);
    ArmBetween(p, c, alpha);
  }

  lemma ArmBetween(p: Pixel, c: Color, alpha: int)
    requires Opaque(p) && IsColor(c) && 0 <= alpha <= 65025
    ensures Between(p, if alpha == 65025 then Assign(c.r, c.g, c.b) else Blended16(p, c.r, c.g, c.b, alpha), c)
    ensures Assign(c.r, c.g, c.b) == Pixel(c.b, c.g, c.r, 255)
  {
    hide Assign, Blended16, Between;
    AssignIs(c);
    ColorBetween(p, c);
    Blended16Between(p, c, alpha);
  }

  lemma AlphaArm(f: Format, c: Color, x: int, y: int, cover: int, p: Pixel)
    requires IsFormat(f) && f.mode == Alpha && Solid(f.pattern) && !f.constant && !f.composite
    ensures var alpha := Word16(c.a * cover);
            BlendPixel(f, c, x, y, cover, p) ==
            if alpha == 65025 then Assign(c.r, c.g, c.b) else Blended16(p, c.r, c.g, c.b, alpha)
  {
    hide Blended16, Word16, Solid, IsHigh;
  }

  lemma Blended16Between(p: Pixel, c: Color, alpha: int)
    requires Opaque(p) && IsColor(c) && 0 <= alpha <= 65025
    ensures Between(p, Blended16(p, c.r, c.g, c.b, alpha), c)
  {
    Mix16Between(p.r, c.r, alpha);
    Mix16Between(p.g, c.g, alpha);
    Mix16Between(p.b, c.b, alpha);
    hide Mix16;
  }

  /** The fast loop's bytes do not wrap, and no channel is brighter than both the
      canvas and the colour. */
  lemma LineNoBrighter(d: int, c: int, a: int)
    requires IsByte(d) && IsByte(c) && IsByte(a)
    ensures Byte(d * Byte(255 - a) / 256 + Byte(c * a / 256)) == d * (255 - a) / 256 + c * a / 256 <= CArith.Max(d, c)
  {
    var m := CArith.Max(d, c);
    assert Byte(255 - a) == 255 - a;
    WeightedSum(d, c, a, m);
    hide *;
    FloorSum(d * (255 - a), c * a, m);
  }

  lemma WeightedSum(d: int, c: int, a: int, m: int)
    requires 0 <= d <= m && 0 <= c <= m && IsByte(a)
    ensures 0 <= d * (255 - a) && 0 <= c * a && d * (255 - a) + c * a <= 255 * m
  {
    MulMonotone(d, m, 255 - a);
    MulMonotone(c, m, a);
    MulMonotone(0, d, 255 - a);
    MulMonotone(0, c, a);
    assert m * (255 - a) + m * a == 255 * m;
  }

  lemma FloorSum(x: int, y: int, m: int)
    requires 0 <= x && 0 <= y && x + y <= 255 * m && IsByte(m)
    ensures 0 <= x / 256 && 0 <= y / 256 && x / 256 + y / 256 <= m
    ensures Byte(x / 256 + Byte(y / 256)) == x / 256 + y / 256
  {
    var a, b := x / 256, y / 256;
    assert 256 * a <= x && 256 * b <= y;
    assert 0 <= a && 0 <= b && a + b <= m;
    SmallBytes(a, b);
  }

  lemma SmallBytes(a: int, b: int)
    requires 0 <= a && 0 <= b && a + b < 256
    ensures Byte(a + Byte(b)) == a + b
  {
  }

  /** A channel above its target falls towards it, one below does not reach it. */
  lemma MixMoves(d: int, c: int, a: int)
    requires IsByte(d) && IsByte(c) && 0 < a < 255
    ensures c < d ==> Mix(d, c, a) < d
    ensures d < c ==> Mix(d, c, a) < c
    ensures d == c ==> Mix(d, c, a) == d
  {
    MixIs(d, c, a);
    hide Mix;
    if c < d {
      MulMonotone(1, d - c, a);
      NegateLess(d - c, a);
    } else if d < c {
      MulMonotone(1, c - d, 256 - a);
      assert (c - d) * 256 == (c - d) * a + (c - d) * (256 - a);
    }
  }

  lemma NegateLess(k: int, a: int)
    requires 1 * a <= k * a && a > 0
    ensures -k * a / 256 < 0
  {
  }

  lemma MixIs(d: int, c: int, a: int)
    requires IsByte(d) && IsByte(c) && 0 <= a <= 255
    ensures Mix(d, c, a) == d + (c - d) * a / 256
  {
    InterpolationBounds(a, c - d, 256);
    DivModUnique((c - d) * a + d * 256, 256, d + (c - d) * a / 256, (c - d) * a % 256);
    assert a * (c - d) == (c - d) * a;
  }

  /** Exactly when inverting twice restores every pixel: not covered or covered
      fully, or where the pattern is low. */
  lemma InvertTwice(f: Format, c: Color, x: int, y: int, cover: int)
    requires IsFormat(f) && f.mode == Invert && IsByte(cover)
    ensures (forall p :: Opaque(p) ==> BlendPixel(f, c, x, y, cover, BlendPixel(f, c, x, y, cover, p)) == p)
            <==> !IsHigh(f.pattern, x, y) || cover == 0 || cover == 255
  {
    hide IsHigh, Mix;
    if !IsHigh(f.pattern, x, y) {
    } else if cover == 0 {
      forall p | Opaque(p) ensures BlendPixel(f, c, x, y, cover, BlendPixel(f, c, x, y, cover, p)) == p {
        CoverZero(f, c, x, y, p);
      }
    } else if 0 < cover < 255 {
      InvertWhite(cover);
      assert Opaque(WHITE);
      var q := BlendPixel(f, c, x, y, cover, WHITE);
      assert q.r == Mix(255, 0, cover);
      assert BlendPixel(f, c, x, y, cover, q).r == Mix(q.r, 255 - q.r, cover);
    }
  }

  /** A white channel partly inverted twice stays below white. */
  lemma InvertWhite(a: int)
    requires 0 < a < 255
    ensures var q := Mix(255, 0, a); Mix(q, 255 - q, a) < 255
  {
    var q := Mix(255, 0, a);
    MixMoves(255, 0, a);
    MixBetween(255, 0, a);
    MixBetween(q, 255 - q, a);
    if 255 - q == 255 {
      MixMoves(q, 255, a);
    }
  }

  predicate SameRgb(c: Color, d: Color) {
    c.r == d.r && c.g == d.g && c.b == d.b
  }

  function PixelOf(c: Color): Pixel {
    Pixel(c.b, c.g, c.r, 255)
  }

  /** Exactly when selecting twice restores every pixel: not covered or covered
      fully, where the pattern is low, or when the two colours look the same. */
  lemma SelectTwice(f: Format, c: Color, x: int, y: int, cover: int)
    requires IsFormat(f) && f.mode == Select && IsByte(cover)
    ensures (forall p :: Opaque(p) ==> BlendPixel(f, c, x, y, cover, BlendPixel(f, c, x, y, cover, p)) == p)
            <==> !IsHigh(f.pattern, x, y) || cover == 0 || cover == 255 || SameRgb(f.pattern.high, f.pattern.low)
  {
    var high, low := f.pattern.high, f.pattern.low;
    hide IsHigh, Mix;
    if !IsHigh(f.pattern, x, y) {
    } else if cover == 0 {
      forall p | Opaque(p) ensures BlendPixel(f, c, x, y, cover, BlendPixel(f, c, x, y, cover, p)) == p {
        CoverZero(f, c, x, y, p);
      }
    } else if 0 < cover < 255 {
      if SameRgb(high, low) {
        MixMoves(high.r, low.r, cover);
        MixMoves(high.g, low.g, cover);
        MixMoves(high.b, low.b, cover);
      } else {
        var p := if high.r > low.r || (high.r == low.r && (high.g > low.g || (high.g == low.g && high.b > low.b)))
                 then high else low;
        assert Opaque(PixelOf(p));
        SelectLoses(f, c, x, y, cover, p, if p == high then low else high);
      }
    }
  }

  /** Of two different colours, the one with a higher channel is not restored. */
  lemma SelectLoses(f: Format, c: Color, x: int, y: int, cover: int, p: Color, other: Color)
    requires IsFormat(f) && f.mode == Select && 0 < cover < 255 && IsHigh(f.pattern, x, y)
    requires (p == f.pattern.high && other == f.pattern.low) || (p == f.pattern.low && other == f.pattern.high)
    requires p.r > other.r || p.g > other.g || p.b > other.b
    ensures BlendPixel(f, c, x, y, cover, BlendPixel(f, c, x, y, cover, PixelOf(p))) != PixelOf(p)
  {
    hide IsHigh, Mix;
    forall d, e | IsByte(d) && IsByte(e) ensures e < d ==> Mix(d, e, cover) < d && Mix(e, d, cover) < d {
      MixMoves(d, e, cover);
      MixMoves(e, d, cover);
    }
    var q := BlendPixel(f, c, x, y, cover, PixelOf(p));
    assert q == Blended(PixelOf(p), other.r, other.g, other.b, cover);
  }

  /** Subtracting what was added restores the pixel exactly when no channel was full. */
  lemma AddThenSubtract(f: Format, c: Color, x: int, y: int, p: Pixel)
    requires IsFormat(f) && f.mode == Add && Opaque(p)
    ensures var s := ColorAt(f.pattern, x, y);
            BlendPixel(f.(mode := Subtract), c, x, y, 255, BlendPixel(f, c, x, y, 255, p)) == p
            <==> p.r + s.r <= 255 && p.g + s.g <= 255 && p.b + s.b <= 255
  {
    hide IsHigh;
    assert ColorAt(f.(mode := Subtract).pattern, x, y) == ColorAt(f.pattern, x, y);
  }

  /** The weighted sum a brightness is the 1024th part of. */
  function Weight(r: int, g: int, b: int): int {
    308 * r + 600 * g + 116 * b
  }

  lemma BrightnessIs(r: int, g: int, b: int)
    requires IsByte(r) && IsByte(g) && IsByte(b)
    ensures Brightness(r, g, b) == Weight(r, g, b) / 1024
  {
  }

  /** What rounding each channel down takes off the weighted sum, in 256ths. */
  function RoundingLoss(p: Pixel, c: Color, a: int): int {
    Weight((c.r - p.r) * a % 256, (c.g - p.g) * a % 256, (c.b - p.b) * a % 256)
  }

  /** What rounding one channel down takes off it. */
  lemma ChannelLoss(d: int, c: int, a: int)
    requires IsByte(d) && IsByte(c) && IsByte(a)
    ensures IsByte(Mix(d, c, a)) && 256 * Mix(d, c, a) == 256 * d + (c - d) * a - (c - d) * a % 256
  {
    MixIs(d, c, a);
    MixBetween(d, c, a);
    hide Mix;
  }

  lemma BlendedWeight(p: Pixel, c: Color, a: int)
    requires Opaque(p) && IsColor(c) && IsByte(a)
    ensures var q := Blended(p, c.r, c.g, c.b, a);
            && Opaque(q)
            && 256 * Weight(q.r, q.g, q.b) ==
               256 * Weight(p.r, p.g, p.b) + a * (Weight(c.r, c.g, c.b) - Weight(p.r, p.g, p.b)) - RoundingLoss(p, c, a)
    ensures 0 <= RoundingLoss(p, c, a) <= 1024 * 255
  {
    hide Mix;
    ChannelLoss(p.r, c.r, a);
    ChannelLoss(p.g, c.g, a);
    ChannelLoss(p.b, c.b, a);
    WeightScales(c.r - p.r, c.g - p.g, c.b - p.b, a);
  }

  lemma WeightScales(r: int, g: int, b: int, a: int)
    ensures Weight(r * a, g * a, b * a) == a * Weight(r, g, b)
  {
    assert Weight(r * a, g * a, b * a) == 308 * (r * a) + 600 * (g * a) + 116 * (b * a);
    assert 308 * (r * a) == a * (308 * r) && 600 * (g * a) == a * (600 * g) && 116 * (b * a) == a * (116 * b);
  }

  /** What the two modes do: blend, if the colour is darker or brighter. */
  lemma MinMaxPixel(f: Format, c: Color, x: int, y: int, cover: int, p: Pixel)
    requires IsFormat(f) && (f.mode == Min || f.mode == Max)
    ensures var s := ColorAt(f.pattern, x, y);
            var n, m := Brightness(s.r, s.g, s.b), Brightness(p.r, p.g, p.b);
            BlendPixel(f, c, x, y, cover, p) ==
            if if f.mode == Min then n < m else n > m then Put(p, s.r, s.g, s.b, cover) else p
  {
    hide Put, IsHigh, Brightness;
  }

  lemma PutIs(p: Pixel, c: Color, cover: int)
    requires IsColor(c)
    ensures Put(p, c.r, c.g, c.b, cover) == if cover == 255 then PixelOf(c) else Blended(p, c.r, c.g, c.b, cover)
  {
    hide Blended;
  }

  /** B_OP_MIN never brightens a pixel, however it is covered. */
  lemma MinNeverBrightens(f: Format, c: Color, x: int, y: int, cover: int, p: Pixel)
    requires IsFormat(f) && f.mode == Min && Opaque(p) && IsByte(cover)
    ensures var q := BlendPixel(f, c, x, y, cover, p); Brightness(q.r, q.g, q.b) <= Brightness(p.r, p.g, p.b)
  {
    MinMaxPixel(f, c, x, y, cover, p);
    ColorAtIsColor(f.pattern, x, y);
    var s := ColorAt(f.pattern, x, y);
    hide *;
    if Brightness(s.r, s.g, s.b) < Brightness(p.r, p.g, p.b) {
      PutFalls(p, s, cover);
    }
  }

  lemma ColorAtIsColor(p: Pattern, x: int, y: int)
    requires IsPattern(p)
    ensures IsColor(ColorAt(p, x, y))
  {
    hide IsHigh;
  }

  lemma PutFalls(p: Pixel, s: Color, cover: int)
    requires Opaque(p) && IsColor(s) && IsByte(cover) && Brightness(s.r, s.g, s.b) < Brightness(p.r, p.g, p.b)
    ensures var q := Put(p, s.r, s.g, s.b, cover); Brightness(q.r, q.g, q.b) <= Brightness(p.r, p.g, p.b)
  {
    hide Put, Blended, Brightness, Weight, RoundingLoss;
    PutIs(p, s, cover);
    BlendedWeight(p, s, cover);
    BrightnessIs(p.r, p.g, p.b);
    BrightnessIs(s.r, s.g, s.b);
    var q := Blended(p, s.r, s.g, s.b, cover);
    BrightnessIs(q.r, q.g, q.b);
    StepFalls(Weight(q.r, q.g, q.b), Weight(p.r, p.g, p.b), Weight(s.r, s.g, s.b), cover, RoundingLoss(p, s, cover));
  }

  lemma StepFalls(w: int, m: int, n: int, a: int, loss: int)
    requires 256 * w == 256 * m + a * (n - m) - loss && 0 <= a && 0 <= loss && n / 1024 < m / 1024
    ensures w / 1024 <= m / 1024
  {
    MulMonotone(n - m, 0, a);
    DivMonotone(w, m, 1024);
  }

  /** B_OP_MAX darkens a pixel by one step at most, and exactly when it is partly
      covered by a brighter colour whose rounding loses more than its weight and
      the pixel's brightness in hand make up for. */
  lemma MaxDarkens(f: Format, c: Color, x: int, y: int, cover: int, p: Pixel)
    requires IsFormat(f) && f.mode == Max && Opaque(p) && IsByte(cover)
    ensures var q, s := BlendPixel(f, c, x, y, cover, p), ColorAt(f.pattern, x, y);
            var n, m := Weight(s.r, s.g, s.b), Weight(p.r, p.g, p.b);
            && Brightness(q.r, q.g, q.b) >= Brightness(p.r, p.g, p.b) - 1
            && (Brightness(q.r, q.g, q.b) < Brightness(p.r, p.g, p.b)
                <==> cover < 255 && Brightness(s.r, s.g, s.b) > Brightness(p.r, p.g, p.b)
                     && RoundingLoss(p, s, cover) > cover * (n - m) + 256 * (m % 1024))
  {
    MinMaxPixel(f, c, x, y, cover, p);
    ColorAtIsColor(f.pattern, x, y);
    var s := ColorAt(f.pattern, x, y);
    hide *;
    if Brightness(s.r, s.g, s.b) > Brightness(p.r, p.g, p.b) {
      PutRises(p, s, cover);
    }
  }

  lemma PutRises(p: Pixel, s: Color, cover: int)
    requires Opaque(p) && IsColor(s) && IsByte(cover) && Brightness(s.r, s.g, s.b) > Brightness(p.r, p.g, p.b)
    ensures var q := Put(p, s.r, s.g, s.b, cover);
            var n, m := Weight(s.r, s.g, s.b), Weight(p.r, p.g, p.b);
            && Brightness(q.r, q.g, q.b) >= Brightness(p.r, p.g, p.b) - 1
            && (Brightness(q.r, q.g, q.b) < Brightness(p.r, p.g, p.b)
                <==> cover < 255 && RoundingLoss(p, s, cover) > cover * (n - m) + 256 * (m % 1024))
  {
    hide Put, Blended, Brightness, Weight, RoundingLoss;
    PutIs(p, s, cover);
    BlendedWeight(p, s, cover);
    BrightnessIs(p.r, p.g, p.b);
    BrightnessIs(s.r, s.g, s.b);
    var q := Blended(p, s.r, s.g, s.b, cover);
    BrightnessIs(q.r, q.g, q.b);
    StepDown(Weight(q.r, q.g, q.b), Weight(p.r, p.g, p.b), Weight(s.r, s.g, s.b), cover, RoundingLoss(p, s, cover));
  }

  lemma StepDown(w: int, m: int, n: int, a: int, loss: int)
    requires 256 * w == 256 * m + a * (n - m) - loss && 0 <= a && 0 <= loss <= 1024 * 255 && n / 1024 > m / 1024
    ensures w / 1024 >= m / 1024 - 1
    ensures w / 1024 < m / 1024 <==> loss > a * (n - m) + 256 * (m % 1024)
  {
    MulMonotone(0, n - m, a);
    var gain := a * (n - m);
    assert m == 1024 * (m / 1024) + m % 1024 && w == 1024 * (w / 1024) + w % 1024;
  }

  /** It can: a grey of brightness 100, hardly covered by a brighter cyan. */
  lemma MaxDarkensGrey(f: Format, c: Color, x: int, y: int)
    requires IsFormat(f) && f.mode == Max && SolidHigh(f.pattern) && f.pattern.high == Color(0, 255, 100, 255)
    ensures BlendPixel(f, c, x, y, 1, Pixel(100, 100, 100, 255)) == Pixel(100, 100, 99, 255)
    ensures Brightness(99, 100, 100) == 99 < Brightness(100, 100, 100) == 100
  {
    hide BlendPixel, Put, Blended, Brightness, IsHigh, SolidHigh, Bit;
    SolidIsHigh(f.pattern, x, y);
    assert ColorAt(f.pattern, x, y) == Color(0, 255, 100, 255);
    MinMaxPixel(f, c, x, y, 1, Pixel(100, 100, 100, 255));
    PutIs(Pixel(100, 100, 100, 255), Color(0, 255, 100, 255), 1);
    GreyBlends();
    GreyBrightness();
  }

  lemma GreyBlends()
    ensures Blended(Pixel(100, 100, 100, 255), 0, 255, 100, 1) == Pixel(100, 100, 99, 255)
  {
    MixIs(100, 100, 1);
    MixIs(100, 255, 1);
    MixIs(100, 0, 1);
    hide Mix;
  }

  lemma GreyBrightness()
    ensures Brightness(99, 100, 100) == 99 && Brightness(100, 100, 100) == 100 && Brightness(0, 255, 100) == 160
  {
    BrightnessIs(99, 100, 100);
    BrightnessIs(100, 100, 100);
    BrightnessIs(0, 255, 100);
    hide Brightness;
  }

  lemma SolidIsHigh(p: Pattern, x: int, y: int)
    requires IsPattern(p) && SolidHigh(p)
    ensures IsHigh(p, x, y)
  {
  }

  /** A colour brighter in every channel is brighter, and the weights do not wrap. */
  lemma BrightnessMonotone(p: Pixel, q: Pixel)
    requires Opaque(p) && Opaque(q) && p.r <= q.r && p.g <= q.g && p.b <= q.b
    ensures Brightness(p.r, p.g, p.b) <= Brightness(q.r, q.g, q.b)
  {
    hide Byte;
    WeightBounds(308 * p.r + 600 * p.g + 116 * p.b, 308 * q.r + 600 * q.g + 116 * q.b);
  }

  lemma WeightBounds(m: int, n: int)
    requires 0 <= m <= n <= 1024 * 255
    ensures Byte(m / 1024) <= Byte(n / 1024)
  {
    var a, b := m / 1024, n / 1024;
    assert 0 <= a <= b <= 255;
  }

  /** B_OP_BLEND leaves each channel between the canvas's and the pattern's, however
      it is covered. */
  lemma BlendBetween(f: Format, c: Color, x: int, y: int, cover: int, p: Pixel)
    requires IsFormat(f) && f.mode == Blend && Opaque(p) && IsByte(cover)
    ensures Between(p, BlendPixel(f, c, x, y, cover, p), ColorAt(f.pattern, x, y))
  {
    hide IsHigh, Put, Solid, ColorAt;
    ColorAtIsColor(f.pattern, x, y);
    HalfPut(p, ColorAt(f.pattern, x, y), cover);
  }

  lemma HalfPut(p: Pixel, s: Color, cover: int)
    requires Opaque(p) && IsColor(s) && IsByte(cover)
    ensures Between(p, Put(p, (p.r + s.r) / 2, (p.g + s.g) / 2, (p.b + s.b) / 2, cover), s)
  {
    hide Put;
    HalfBetween(p.r, s.r);
    HalfBetween(p.g, s.g);
    HalfBetween(p.b, s.b);
    PutBetween(p, Color((p.r + s.r) / 2, (p.g + s.g) / 2, (p.b + s.b) / 2, 255), cover);
  }

  lemma HalfBetween(d: int, c: int)
    requires IsByte(d) && IsByte(c)
    ensures CArith.Min(d, c) <= (d + c) / 2 <= CArith.Max(d, c)
  {
  }
}
