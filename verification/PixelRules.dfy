/** What the drawing modes amount to: how far a cover moves a pixel, which third moves
    which channel, and what the pattern's bits and the arithmetic modes mean. */
module PixelRules {
  import opened CArith
  import opened PixelFormats

  // ----- one cover

  /** What a pixel is moved from: itself, but for a pattern that is copied. */
  function BaseOf(f: Format, p: Pixel): Pixel
    requires IsFormat(f)
  {
    if f.mode == Copy && !Solid(f.pattern) then PixelOf(f.pattern.low) else p
  }

  /** m is a 256ths of the way from d to e, rounded down. */
  predicate PartWay(d: int, e: int, a: int, m: int) {
    256 * m <= 256 * d + (e - d) * a < 256 * m + 256
  }

  lemma MixPartWay(d: int, c: int, a: int)
    requires IsByte(d) && IsByte(c) && IsByte(a)
    ensures PartWay(d, c, a, Mix(d, c, a))
  {
    ChannelLoss(d, c, a);
  }

  /** Outside B_OP_ALPHA a partial cover moves a pixel that many 256ths of the way to what
      a full one makes of it, or leaves it alone if that does. */
  lemma PartlyCovered(f: Format, c: Color, x: int, y: int, cover: int, p: Pixel)
    requires IsFormat(f) && f.mode != Alpha && IsColor(c) && Opaque(p) && 0 < cover < 255
    ensures var (m, full, base) := (BlendPixel(f, c, x, y, cover, p), BlendPixel(f, c, x, y, 255, p), BaseOf(f, p));
            || (full == p == m)
            || (PartWay(base.r, full.r, cover, m.r) && PartWay(base.g, full.g, cover, m.g) && PartWay(base.b, full.b, cover, m.b))
  {
    hide *;
    AimBlend(f, c, x, y, cover, p);
    AimBlend(f, c, x, y, 255, p);
    AimIsBytes(f, c, x, y, p);
    AimBase(f, c, x, y, p);
    var a := AimOf(f, c, x, y, p);
    if a.Towards? {
      PutPartWay(a.base, a.color, cover);
    }
  }

  lemma AimBase(f: Format, c: Color, x: int, y: int, p: Pixel)
    requires IsFormat(f) && f.mode != Alpha
    ensures var a := AimOf(f, c, x, y, p); a.Towards? ==> a.base == BaseOf(f, p)
  {
    hide Solid, IsHigh, SelectCompare, Target, SolidLow;
  }

  lemma PutPartWay(d: Pixel, e: Color, cover: int)
    requires Opaque(d) && IsByte(e.r) && IsByte(e.g) && IsByte(e.b) && 0 < cover < 255
    ensures var (m, full) := (Put(d, e.r, e.g, e.b, cover), Put(d, e.r, e.g, e.b, 255));
            && full.r == e.r && full.g == e.g && full.b == e.b
            && PartWay(d.r, full.r, cover, m.r) && PartWay(d.g, full.g, cover, m.g) && PartWay(d.b, full.b, cover, m.b)
  {
    hide Mix, PartWay;
    MixPartWay(d.r, e.r, cover);
    MixPartWay(d.g, e.g, cover);
    MixPartWay(d.b, e.b, cover);
  }

  /** In B_OP_ALPHA it is the colour's alpha times the cover that counts, of 255 times 255;
      composing drops what is left of a division by 255. */
  lemma AlphaCovered(f: Format, c: Color, x: int, y: int, cover: int, p: Pixel)
    requires IsFormat(f) && f.mode == Alpha && IsColor(c) && Opaque(p) && IsByte(cover)
    ensures var (m, one) := (BlendPixel(f, c, x, y, cover, p), OneColor(f, c, x, y));
            var alpha := AlphaOf(f, one, cover);
            if alpha == 255 * 255 then m == PixelOf(one)
            else if f.composite then
              PartWay(p.r, one.r, alpha / 255, m.r) && PartWay(p.g, one.g, alpha / 255, m.g) && PartWay(p.b, one.b, alpha / 255, m.b)
            else FineWay(p.r, one.r, alpha, m.r) && FineWay(p.g, one.g, alpha, m.g) && FineWay(p.b, one.b, alpha, m.b)
  {
    hide BlendPixel, OneColor, AlphaOf, PartWay, FineWay;
    var one := OneColor(f, c, x, y);
    var alpha := AlphaOf(f, one, cover);
    AlphaOne(f, c, x, y, cover, p);
    GainWay(f.composite, p.r, one.r, alpha);
    GainWay(f.composite, p.g, one.g, alpha);
    GainWay(f.composite, p.b, one.b, alpha);
    hide Gain;
  }

  /** m is a 65536ths of the way from d to e, rounded down. */
  predicate FineWay(d: int, e: int, a: int, m: int) {
    0x1_0000 * m <= 0x1_0000 * d + (e - d) * a < 0x1_0000 * m + 0x1_0000
  }

  lemma GainWay(composite: bool, d: int, e: int, alpha: int)
    ensures if composite then PartWay(d, e, alpha / 255, d + Gain(true, d, e, alpha)) else FineWay(d, e, alpha, d + Gain(false, d, e, alpha))
  {
  }

  /** The fast loop weighs each channel by itself, in 256ths of which the alpha and the rest
      make only 255, and rounds either part down. */
  lemma LineShares(p: Pixel, c: Color, a: int)
    requires Opaque(p) && IsColor(c) && IsByte(a)
    ensures var m := Line32(p, c, a);
            ShareOf(p.r, c.r, a, m.r) && ShareOf(p.g, c.g, a, m.g) && ShareOf(p.b, c.b, a, m.b) && m.a == 255
  {
    LineShare(p.r, c.r, a);
    LineShare(p.g, c.g, a);
    LineShare(p.b, c.b, a);
    hide Byte, ShareOf;
  }

  predicate ShareOf(d: int, e: int, a: int, m: int) {
    0 <= d * (255 - a) + e * a - 256 * m <= 510
  }

  lemma LineShare(d: int, e: int, a: int)
    requires IsByte(d) && IsByte(e) && IsByte(a)
    ensures ShareOf(d, e, a, Byte(d * Byte(255 - a) / 256 + Byte(e * a / 256)))
  {
    LineNoBrighter(d, e, a);
    var (m, n) := (d * (255 - a), e * a);
    hide Byte;
    assert m / 256 + n / 256 == Byte(d * Byte(255 - a) / 256 + Byte(e * a / 256));
  }

  /** In B_OP_ALPHA a run of a solid colour is its pixels while it is short, or its alpha
      full; a longer one goes through the fast loop with the alpha in 256ths. */
  lemma SolidRuns(f: Format, c: Color, x: int, y: int, cover: int, len: int, p: Pixel)
    requires IsFormat(f) && f.mode == Alpha && !f.composite && Solid(f.pattern) && IsColor(c) && Opaque(p) && IsByte(cover)
    ensures var (m, alpha) := (HlinePixel(f, c, x, y, cover, len, p), AlphaOf(f, c, cover));
            if alpha == 255 * 255 || len < 4 then m == BlendPixel(f, c, x, y, cover, p)
            else ShareOf(p.r, c.r, alpha / 256, m.r) && ShareOf(p.g, c.g, alpha / 256, m.g) && ShareOf(p.b, c.b, alpha / 256, m.b)
  {
    hide *;
    var alpha := AlphaOf(f, c, cover);
    AlphaRange(f, c, cover);
    SolidArms(f, c, x, y, cover, len, p);
    if alpha < 255 * 255 && len >= 4 {
      AlphaByte(alpha);
      LineShares(p, c, alpha / 256);
    }
  }

  lemma AlphaByte(alpha: int)
    requires 0 <= alpha < 255 * 255
    ensures IsByte(alpha / 256) && Byte(alpha / 256) == alpha / 256
  {
  }

  lemma SolidArms(f: Format, c: Color, x: int, y: int, cover: int, len: int, p: Pixel)
    requires IsFormat(f) && f.mode == Alpha && !f.composite && Solid(f.pattern) && 0 <= AlphaOf(f, c, cover) <= 255 * 255
    ensures var alpha := AlphaOf(f, c, cover);
            HlinePixel(f, c, x, y, cover, len, p) ==
            if alpha == 255 * 255 || len < 4 then BlendPixel(f, c, x, y, cover, p) else Line32(p, c, Byte(alpha / 256))
  {
    hide Solid, IsHigh, Assign, Blended16, Line32, Byte;
  }

  /** A run of a pattern is its pixels too, unless neither composing nor under a constant
      alpha: then an alpha of 255 of 65025 is taken for full, and a full one is not. */
  lemma PatternedRuns(f: Format, c: Color, x: int, y: int, cover: int, len: int, p: Pixel)
    requires IsFormat(f) && f.mode == Alpha && !Solid(f.pattern) && IsColor(c) && Opaque(p) && IsByte(cover)
    ensures var (m, s) := (HlinePixel(f, c, x, y, cover, len, p), ColorAt(f.pattern, x, y));
            var alpha := s.a * cover;
            if f.constant || f.composite || (alpha != 255 && alpha != 255 * 255) then m == BlendPixel(f, c, x, y, cover, p)
            else if alpha == 255 then m == PixelOf(s)
            else FineWay(p.r, s.r, alpha, m.r) && FineWay(p.g, s.g, alpha, m.g) && FineWay(p.b, s.b, alpha, m.b)
  {
    hide *;
    PatternBytes(f, x, y);
    var s := ColorAt(f.pattern, x, y);
    ProductBound(s.a, cover);
    ProductBound(f.pattern.high.a, cover);
    PatternArms(f, c, x, y, cover, len, p);
    GainedIs(p, s, s.a * cover);
    GainedWay(p, s, s.a * cover);
  }

  lemma PatternBytes(f: Format, x: int, y: int)
    requires IsFormat(f)
    ensures IsPattern(f.pattern) && IsByte(f.pattern.high.a) && IsColor(ColorAt(f.pattern, x, y)) && IsByte(ColorAt(f.pattern, x, y).a)
  {
    ColorAtIsColor(f.pattern, x, y);
  }

  lemma ProductBound(a: int, cover: int)
    requires IsByte(a) && IsByte(cover)
    ensures 0 <= a * cover <= 255 * 255 && Word16(a * cover) == a * cover
  {
    ProductFits(a, cover);
  }

  lemma GainedWay(p: Pixel, c: Color, alpha: int)
    ensures var m := Gained(false, p, c, alpha); FineWay(p.r, c.r, alpha, m.r) && FineWay(p.g, c.g, alpha, m.g) && FineWay(p.b, c.b, alpha, m.b)
  {
    GainWay(false, p.r, c.r, alpha);
    GainWay(false, p.g, c.g, alpha);
    GainWay(false, p.b, c.b, alpha);
    hide FineWay, Gain;
  }

  lemma PatternArms(f: Format, c: Color, x: int, y: int, cover: int, len: int, p: Pixel)
    requires IsFormat(f) && f.mode == Alpha && !Solid(f.pattern) && IsColor(ColorAt(f.pattern, x, y)) && Opaque(p)
    requires var s := ColorAt(f.pattern, x, y); Word16(s.a * cover) == s.a * cover
    requires Word16(f.pattern.high.a * cover) == f.pattern.high.a * cover
    ensures var (m, s) := (HlinePixel(f, c, x, y, cover, len, p), ColorAt(f.pattern, x, y));
            if f.constant || f.composite || (s.a * cover != 255 && s.a * cover != 255 * 255) then m == BlendPixel(f, c, x, y, cover, p)
            else if s.a * cover == 255 then m == PixelOf(s) else m == Blended16(p, s.r, s.g, s.b, s.a * cover)
  {
    hide *;
    PatternBytes(f, x, y);
    var s := ColorAt(f.pattern, x, y);
    BlendNothing(p, s.r, s.g, s.b);
    PatternColor(f, c, x, y, cover);
    OneArm(f, c, x, y, cover, p);
    RunArmOf(f, c, x, y, cover, len, p);
    AssignIs(s);
  }

  lemma PatternColor(f: Format, c: Color, x: int, y: int, cover: int)
    requires IsFormat(f) && !Solid(f.pattern)
    ensures var s := ColorAt(f.pattern, x, y);
            && OneColor(f, c, x, y) == s && PixelOf(s) == Pixel(s.b, s.g, s.r, 255)
            && AlphaOf(f, s, cover) == if f.constant then f.pattern.high.a * cover else s.a * cover
  {
    hide Solid, IsHigh;
  }

  lemma RunArmOf(f: Format, c: Color, x: int, y: int, cover: int, len: int, p: Pixel)
    requires IsFormat(f) && f.mode == Alpha && !Solid(f.pattern)
    ensures var s := ColorAt(f.pattern, x, y);
            var alpha := Word16(if f.constant then f.pattern.high.a * cover else s.a * cover);
            HlinePixel(f, c, x, y, cover, len, p) ==
            if !f.constant && alpha == 0 then p
            else if alpha == (if f.constant || f.composite then 255 * 255 else 255) then Assign(s.r, s.g, s.b)
            else if f.composite then Composed16(p, s.r, s.g, s.b, alpha) else Blended16(p, s.r, s.g, s.b, alpha)
  {
    hide Solid, IsHigh, ColorAt, Assign, Blended16, Composed16, Word16;
  }

  // ----- three covers

  /** Exactly when a cover moves a channel as a third's cover and as a pixel's alike: it is
      partial; or none, and the base is the pixel; or full, and the channel need not rise. */
  predicate ChannelAgrees(base: int, was: int, aim: int, cover: int) {
    (cover == 0 ==> base == was) && (cover == 255 ==> aim <= base)
  }

  /** Which of three covers, from the left, moves which channel, channel by channel and
      exactly: the left one red, the middle one green, the right one blue. */
  lemma ThirdsByChannel(f: Format, c: Color, x: int, y: int, cs: seq<int>, p: Pixel)
    requires IsFormat(f) && f.mode != Alpha && IsColor(c) && Opaque(p)
    requires |cs| == 3 && IsByte(cs[0]) && IsByte(cs[1]) && IsByte(cs[2])
    ensures var (t, a) := (ThirdsPixel(f, c, x, y, cs, p), AimOf(f, c, x, y, p));
            match a
            case Stay =>
              t == p == BlendPixel(f, c, x, y, cs[0], p) == BlendPixel(f, c, x, y, cs[1], p) == BlendPixel(f, c, x, y, cs[2], p)
            case Towards(base, aim) =>
              && (t.r == BlendPixel(f, c, x, y, cs[0], p).r <==> ChannelAgrees(base.r, p.r, aim.r, cs[0]))
              && (t.g == BlendPixel(f, c, x, y, cs[1], p).g <==> ChannelAgrees(base.g, p.g, aim.g, cs[1]))
              && (t.b == BlendPixel(f, c, x, y, cs[2], p).b <==> ChannelAgrees(base.b, p.b, aim.b, cs[2]))
  {
    hide *;
    ThirdsAim(f, c, x, y, cs, p);
    AimIsBytes(f, c, x, y, p);
    forall i | 0 <= i < 3 ensures IsByte(cs[i]) && BlendPixel(f, c, x, y, cs[i], p) == OneAim(AimOf(f, c, x, y, p), cs[i], p) {
      OneCover(f, c, x, y, cs[i], p);
    }
    var a := AimOf(f, c, x, y, p);
    StayAim(cs[0], p);
    if a.Towards? {
      ChannelsAgree(a.base, a.color, cs[0], p);
      ChannelsAgree(a.base, a.color, cs[1], p);
      ChannelsAgree(a.base, a.color, cs[2], p);
    }
  }

  lemma ThirdsAim(f: Format, c: Color, x: int, y: int, cs: seq<int>, p: Pixel)
    requires IsFormat(f) && f.mode != Alpha && |cs| == 3
    ensures var (t, a) := (ThirdsPixel(f, c, x, y, cs, p), AimOf(f, c, x, y, p));
            if a.Stay? then t == p
            else && t.r == Mix(a.base.r, a.color.r, cs[0]) && t.g == Mix(a.base.g, a.color.g, cs[1])
                 && t.b == Mix(a.base.b, a.color.b, cs[2])
  {
    hide Mix, Solid, IsHigh, SelectCompare, Target, SolidLow;
  }

  /** What one cover makes of an aim. */
  function OneAim(a: Aim, cover: int, p: Pixel): Pixel {
    if cover == 0 || a.Stay? then p else Put(a.base, a.color.r, a.color.g, a.color.b, cover)
  }

  lemma StayAim(cover: int, p: Pixel)
    ensures forall k :: OneAim(Stay, k, p) == p
  {
  }

  lemma OneCover(f: Format, c: Color, x: int, y: int, cover: int, p: Pixel)
    requires IsFormat(f) && f.mode != Alpha && IsColor(c) && Opaque(p)
    ensures BlendPixel(f, c, x, y, cover, p) == OneAim(AimOf(f, c, x, y, p), cover, p)
  {
    hide AimOf, BlendPixel, Put, Opaque;
    if cover == 0 {
      CoverZero(f, c, x, y, p);
    } else {
      AimBlend(f, c, x, y, cover, p);
    }
  }

  lemma ChannelsAgree(base: Pixel, aim: Color, k: int, p: Pixel)
    requires Opaque(base) && Opaque(p) && IsByte(aim.r) && IsByte(aim.g) && IsByte(aim.b) && IsByte(k)
    ensures var q := OneAim(Towards(base, aim), k, p);
            && (Mix(base.r, aim.r, k) == q.r <==> ChannelAgrees(base.r, p.r, aim.r, k))
            && (Mix(base.g, aim.g, k) == q.g <==> ChannelAgrees(base.g, p.g, aim.g, k))
            && (Mix(base.b, aim.b, k) == q.b <==> ChannelAgrees(base.b, p.b, aim.b, k))
  {
    hide Mix;
    MixNothing(base.r, aim.r);
    MixNothing(base.g, aim.g);
    MixNothing(base.b, aim.b);
    MixAlmost(base.r, aim.r);
    MixAlmost(base.g, aim.g);
    MixAlmost(base.b, aim.b);
  }

  /** In B_OP_ALPHA it is the other way round: the left cover moves blue, the right one red,
      each as it would alone where three equal ones do. */
  lemma AlphaByChannel(f: Format, c: Color, x: int, y: int, cs: seq<int>, p: Pixel)
    requires IsFormat(f) && f.mode == Alpha && IsColor(c) && Opaque(p)
    requires |cs| == 3 && IsByte(cs[0]) && IsByte(cs[1]) && IsByte(cs[2])
    ensures var t := ThirdsPixel(f, c, x, y, cs, p);
            && (AlphaAgrees(f, c, x, y, cs[0], p) ==> t.b == BlendPixel(f, c, x, y, cs[0], p).b)
            && (AlphaAgrees(f, c, x, y, cs[1], p) ==> t.g == BlendPixel(f, c, x, y, cs[1], p).g)
            && (AlphaAgrees(f, c, x, y, cs[2], p) ==> t.r == BlendPixel(f, c, x, y, cs[2], p).r)
  {
    hide *;
    EqualThirds(f, c, x, y, cs[0], p);
    EqualThirds(f, c, x, y, cs[1], p);
    EqualThirds(f, c, x, y, cs[2], p);
    AlphaChannels(f, c, x, y, cs, p);
  }

  lemma AlphaChannels(f: Format, c: Color, x: int, y: int, cs: seq<int>, p: Pixel)
    requires IsFormat(f) && f.mode == Alpha && |cs| == 3
    ensures var t := ThirdsPixel(f, c, x, y, cs, p);
            && t.b == ThirdsPixel(f, c, x, y, [cs[0], cs[0], cs[0]], p).b
            && t.g == ThirdsPixel(f, c, x, y, [cs[1], cs[1], cs[1]], p).g
            && t.r == ThirdsPixel(f, c, x, y, [cs[2], cs[2], cs[2]], p).r
  {
    hide Mix, Mix16, Solid, IsHigh, Word16;
  }

  /** A pixel at the right edge of a black shape on white: red goes, blue stays. */
  lemma RightEdge(f: Format, x: int, y: int)
    requires IsFormat(f) && Solid(f.pattern)
    ensures var (t, u) := (ThirdsPixel(f.(mode := Copy), Color(0, 0, 0, 255), x, y, [255, 128, 0], WHITE),
                           ThirdsPixel(f.(mode := Alpha, constant := false, composite := false, porterDuff := false),
                                       Color(0, 0, 0, 255), x, y, [255, 128, 0], WHITE));
            t == Pixel(255, 127, 0, 255) && u == Pixel(1, 127, 255, 255)
  {
    hide *;
    EdgeFormats(f);
    SolidThirds(f.(mode := Copy), Color(0, 0, 0, 255), x, y, [255, 128, 0], WHITE);
    SolidThirds(f.(mode := Alpha, constant := false, composite := false, porterDuff := false), Color(0, 0, 0, 255), x, y,
                [255, 128, 0], WHITE);
    EdgeNumbers();
  }

  lemma EdgeFormats(f: Format)
    requires IsFormat(f)
    ensures IsFormat(f.(mode := Copy)) && IsFormat(f.(mode := Alpha, constant := false, composite := false, porterDuff := false))
    ensures WHITE == Pixel(255, 255, 255, 255)
  {
  }

  lemma EdgeNumbers()
    ensures Mix(255, 0, 255) == 0 && Mix(255, 0, 128) == 127 && Mix(255, 0, 0) == 255
    ensures Mix16(255, 0, Word16(255 * 255)) == 1 && Mix16(255, 0, Word16(255 * 128)) == 127 && Mix16(255, 0, Word16(255 * 0)) == 255
  {
    MixNumbers();
    MixNumbers16();
    hide Mix, Mix16;
    assert Word16(255 * 255) == 65025 && Word16(255 * 128) == 32640 && Word16(255 * 0) == 0;
  }

  lemma MixNumbers()
    ensures Mix(255, 0, 255) == 0 && Mix(255, 0, 128) == 127 && Mix(255, 0, 0) == 255
  {
    hide Mix;
    MixIs(255, 0, 255);
    MixIs(255, 0, 128);
    MixIs(255, 0, 0);
    assert (0 - 255) * 255 / 256 == -255 && (0 - 255) * 128 / 256 == -128 && (0 - 255) * 0 / 256 == 0;
  }

  lemma MixNumbers16()
    ensures Mix16(255, 0, 65025) == 1 && Mix16(255, 0, 32640) == 127 && Mix16(255, 0, 0) == 255
  {
    hide Mix16;
    Mix16Is(255, 0, 65025);
    Mix16Is(255, 0, 32640);
    Mix16Is(255, 0, 0);
    assert (0 - 255) * 65025 / 0x1_0000 == -254 && (0 - 255) * 32640 / 0x1_0000 == -128 && (0 - 255) * 0 / 0x1_0000 == 0;
  }

  lemma SolidThirds(f: Format, c: Color, x: int, y: int, cs: seq<int>, p: Pixel)
    requires IsFormat(f) && Solid(f.pattern) && |cs| == 3
    requires f.mode == Copy || (f.mode == Alpha && !f.constant && !f.composite && !f.porterDuff)
    ensures ThirdsPixel(f, c, x, y, cs, p) ==
            if f.mode == Copy then Pixel(Mix(p.b, c.b, cs[2]), Mix(p.g, c.g, cs[1]), Mix(p.r, c.r, cs[0]), 255)
            else Pixel(Mix16(p.b, c.b, Word16(c.a * cs[0])), Mix16(p.g, c.g, Word16(c.a * cs[1])), Mix16(p.r, c.r, Word16(c.a * cs[2])), 255)
  {
    hide Solid, IsHigh, Mix, Mix16, Word16;
  }

  // ----- the pattern

  function One(high: bool): int {
    if high then 1 else 0
  }

  /** A byte is its eight bits, the highest first. */
  lemma ByteIs(n: int)
    requires IsByte(n)
    ensures n == 128 * One(Bit(n, 7)) + 64 * One(Bit(n, 6)) + 32 * One(Bit(n, 5)) + 16 * One(Bit(n, 4))
                 + 8 * One(Bit(n, 3)) + 4 * One(Bit(n, 2)) + 2 * One(Bit(n, 1)) + One(Bit(n, 0))
  {
    LowBits(n);
    HighBits(n);
    hide Bit, One;
    Halves(n);
    UpperHalves(n);
  }

  lemma LowBits(n: int)
    ensures One(Bit(n, 0)) == n % 2 && One(Bit(n, 1)) == n / 2 % 2 && One(Bit(n, 2)) == n / 4 % 2 && One(Bit(n, 3)) == n / 8 % 2
  {
  }

  lemma HighBits(n: int)
    ensures One(Bit(n, 4)) == n / 16 % 2 && One(Bit(n, 5)) == n / 32 % 2
    ensures One(Bit(n, 6)) == n / 64 % 2 && One(Bit(n, 7)) == n / 128 % 2
  {
  }

  /** The pattern's rows begin at x and its row j is at y. */
  predicate PatternAt(p: Pattern, x: int, y: int, j: int) {
    (x - p.xOffset % 0x1_0000) % 8 == 0 && (y - p.yOffset % 0x1_0000) % 8 == j
  }

  lemma PatternBit(p: Pattern, x: int, y: int, j: int, k: int)
    requires IsPattern(p) && PatternAt(p, x, y, j) && 0 <= k < 8
    ensures IsHigh(p, x + k, y) == Bit(p.rows[j], 7 - k)
  {
    hide Bit;
  }

  lemma RowIsByte(p: Pattern, x: int, y: int, j: int)
    requires IsPattern(p) && PatternAt(p, x, y, j)
    ensures 0 <= j < 8 && |p.rows| == 8 && IsByte(p.rows[j])
  {
  }

  /** A row of the pattern is eight pixels read as a binary number, the leftmost its
      highest bit; the pattern begins at its offsets and repeats every eight pixels. */
  lemma PatternByte(p: Pattern, x: int, y: int, j: int)
    requires IsPattern(p) && PatternAt(p, x, y, j)
    ensures 0 <= j < 8
    ensures p.rows[j] == 128 * One(IsHigh(p, x, y)) + 64 * One(IsHigh(p, x + 1, y)) + 32 * One(IsHigh(p, x + 2, y))
                         + 16 * One(IsHigh(p, x + 3, y)) + 8 * One(IsHigh(p, x + 4, y)) + 4 * One(IsHigh(p, x + 5, y))
                         + 2 * One(IsHigh(p, x + 6, y)) + One(IsHigh(p, x + 7, y))
  {
    hide *;
    RowIsByte(p, x, y, j);
    ByteIs(p.rows[j]);
    PatternBit(p, x, y, j, 0);
    PatternBit(p, x, y, j, 1);
    PatternBit(p, x, y, j, 2);
    PatternBit(p, x, y, j, 3);
    PatternBit(p, x, y, j, 4);
    PatternBit(p, x, y, j, 5);
    PatternBit(p, x, y, j, 6);
    PatternBit(p, x, y, j, 7);
  }

  /** Under full cover copying draws the pattern's both colours, B_OP_OVER only the high
      ones, and B_OP_ERASE the low colour in their place. */
  lemma CopyOverErase(f: Format, c: Color, x: int, y: int, p: Pixel)
    requires IsFormat(f) && !Solid(f.pattern) && IsColor(c) && Opaque(p)
    ensures var swapped := f.pattern.(high := f.pattern.low);
            var copied := BlendPixel(f.(mode := Copy), c, x, y, 255, p);
            && copied == PixelOf(ColorAt(f.pattern, x, y))
            && BlendPixel(f.(mode := Over), c, x, y, 255, p) == (if IsHigh(f.pattern, x, y) then copied else p)
            && BlendPixel(f.(mode := Erase), c, x, y, 255, p) ==
               BlendPixel(f.(mode := Over, pattern := swapped), c, x, y, 255, p)
  {
    var swapped := f.pattern.(high := f.pattern.low);
    assert IsHigh(swapped, x, y) == IsHigh(f.pattern, x, y) && Solid(swapped) == Solid(f.pattern);
    hide Bit, Solid, IsHigh;
  }

  /** Under full cover inverting makes each channel what the pixel's lacks of white, and
      selecting changes one of the pattern's colours for the other, both only where the
      pattern is high. */
  lemma InvertSelect(f: Format, c: Color, x: int, y: int, p: Pixel)
    requires IsFormat(f) && IsColor(c) && Opaque(p)
    ensures var (i, s) := (BlendPixel(f.(mode := Invert), c, x, y, 255, p), BlendPixel(f.(mode := Select), c, x, y, 255, p));
            if !IsHigh(f.pattern, x, y) then i == s == p
            else
              && i.r + p.r == i.g + p.g == i.b + p.b == 255
              && (p == PixelOf(f.pattern.high) ==> s == PixelOf(f.pattern.low))
              && (p == PixelOf(f.pattern.low) ==> s == PixelOf(f.pattern.high))
              && (p != PixelOf(f.pattern.high) && p != PixelOf(f.pattern.low) ==> s == p)
  {
    hide IsHigh;
  }

  /** A solid pattern draws the caller's colour whole, high or low; only B_OP_OVER with a
      low one draws nothing. */
  lemma SolidDraws(f: Format, c: Color, x: int, y: int, p: Pixel)
    requires IsFormat(f) && Solid(f.pattern) && IsColor(c) && Opaque(p)
    ensures BlendPixel(f.(mode := Copy), c, x, y, 255, p) == PixelOf(c)
    ensures BlendPixel(f.(mode := Over), c, x, y, 255, p) == if SolidLow(f.pattern) then p else PixelOf(c)
  {
    hide Solid, SolidLow, IsHigh;
  }

  // ----- arithmetic modes

  /** Under full cover a channel rises by the pattern's as far as there is room, falls by
      it as far as there is something left, or goes to the mean of both, rounded down. */
  lemma ArithmeticFull(f: Format, c: Color, x: int, y: int, p: Pixel)
    requires IsFormat(f) && IsColor(c) && Opaque(p)
    ensures var s := ColorAt(f.pattern, x, y);
            var (add, sub, mean) := (BlendPixel(f.(mode := Add), c, x, y, 255, p), BlendPixel(f.(mode := Subtract), c, x, y, 255, p),
                                     BlendPixel(f.(mode := Blend), c, x, y, 255, p));
            && add.r - p.r == CArith.Min(s.r, 255 - p.r) && add.g - p.g == CArith.Min(s.g, 255 - p.g)
            && add.b - p.b == CArith.Min(s.b, 255 - p.b)
            && p.r - sub.r == CArith.Min(s.r, p.r) && p.g - sub.g == CArith.Min(s.g, p.g) && p.b - sub.b == CArith.Min(s.b, p.b)
            && 0 <= p.r + s.r - 2 * mean.r <= 1 && 0 <= p.g + s.g - 2 * mean.g <= 1 && 0 <= p.b + s.b - 2 * mean.b <= 1
  {
    ColorAtIsColor(f.pattern, x, y);
    FullTarget(f.(mode := Add), c, x, y, p);
    FullTarget(f.(mode := Subtract), c, x, y, p);
    FullTarget(f.(mode := Blend), c, x, y, p);
    hide BlendPixel, ColorAt;
  }

  lemma FullTarget(f: Format, c: Color, x: int, y: int, p: Pixel)
    requires IsFormat(f) && (f.mode == Add || f.mode == Subtract || f.mode == Blend) && Opaque(p)
    ensures var t := Target(f.mode, p, ColorAt(f.pattern, x, y));
            t.SwapFor? && IsColor(t.color) && BlendPixel(f, c, x, y, 255, p) == PixelOf(t.color)
  {
    hide ColorAt, Put, PixelOf;
    ColorAtIsColor(f.pattern, x, y);
    PutIs(p, Target(f.mode, p, ColorAt(f.pattern, x, y)).color, 255);
  }
}
