/**
 * The TrueType back end of the font layer (src/style/font/ttf.rs): the cache
 * of loaded fonts, text layout estimation and glyph rasterisation.
 *
 * The font library and the system font lookup are collaborators whose code is
 * not part of this model: a parsed font is represented by what its layout
 * routine produces (a sequence of glyphs with optional pixel boxes and the
 * pixels its rasteriser visits), and the lookup and the parser are functions
 * held by the cache.
 */
module Ttf {
  import opened Int32
  import opened Results
  import opened FontTransforms
  import FontFamilies

  /** The `f64` font size: passed to the font library, never inspected here. */
  type F64(==)

  /** The `f32` coverage of one pixel: passed to the callback unchanged. */
  type F32(==)

  /** The font library's parse error (`rusttype::Error`). */
  type ParseError(==)

  type Bytes = seq<bv8>

  /** `FontError`; `LockError` comes from the cache's mutex, which this model does not have. */
  datatype FontError = LockError | NoSuchFont | FontLoadError(cause: ParseError)

  /** One pixel visited by a glyph's rasteriser: its position inside the glyph's box and its coverage. */
  datatype Pixel = Pixel(x: U32, y: U32, v: F32)

  /** A positioned glyph: its pixel bounding box, absent when it has no ink, and the pixels it draws, in order. */
  datatype Glyph = Glyph(bbox: Option<Box>, pixels: seq<Pixel>)

  /** A parsed font, known by its layout routine: the glyphs of a text at a size. */
  datatype ParsedFont = ParsedFont(layout: (F64, string) -> seq<Glyph>)

  /** A loaded font: the raw bytes and the font parsed from them, kept together at one address. */
  class OwnedFont {
    const data: Bytes
    const font: ParsedFont

    constructor (data: Bytes, font: ParsedFont)
      ensures this.data == data && this.font == font
    {
      this.data := data;
      this.font := font;
    }
  }

  /** `OwnedFont::new`: parses the bytes and, on success, keeps them with the parsed font in a new object. */
  method NewOwnedFont(data: Bytes, parse: Bytes -> Result<ParsedFont, ParseError>)
    returns (r: Result<OwnedFont, ParseError>)
    ensures parse(data).Err? ==> r == Err(parse(data).error)
    ensures parse(data).Ok? ==> r.Ok? && fresh(r.value) && r.value.data == data && r.value.font == parse(data).value
  {
    var parsed := parse(data);
    if parsed.Err? {
      return Err(parsed.error);
    }
    var owned := new OwnedFont(data, parsed.value);
    r := Ok(owned);
  }

  // ===========================================================================
  // The font cache

  /**
   * The process-wide cache `FONT_DATA_CACHE`, face name to loaded font. The
   * system font lookup and the font parser are its collaborators. Entries are
   * only ever added.
   */
  class FontCache {
    const lookup: string -> Option<Bytes>
    const parse: Bytes -> Result<ParsedFont, ParseError>
    var entries: map<string, OwnedFont>

    /** `font` is what loading `face` from scratch produces, up to object identity. */
    ghost predicate Loaded(face: string, font: OwnedFont) {
      lookup(face) == Some(font.data) && parse(font.data) == Ok(font.font)
    }

    /** Every cached entry is the font its face loads to. */
    ghost predicate Valid()
      reads this
    {
      forall face :: face in entries ==> Loaded(face, entries[face])
    }

    /** The error loading `face` from scratch ends in, if any. */
    function Failure(face: string): (e: Option<FontError>)
      ensures e.None? <==> lookup(face).Some? && parse(lookup(face).value).Ok?
    {
      var query := lookup(face);
      if query.Some? then
        var parsed := parse(query.value);
        if parsed.Err? then Some(FontLoadError(parsed.error)) else Option.None
      else Some(NoSuchFont)
    }

    constructor (lookup: string -> Option<Bytes>, parse: Bytes -> Result<ParsedFont, ParseError>)
      ensures Valid() && entries == map[]
      ensures this.lookup == lookup && this.parse == parse
    {
      this.lookup := lookup;
      this.parse := parse;
      entries := map[];
    }

    /**
     * `load_font_data`: a cached face is returned as it is, without asking the
     * lookup; otherwise the face is looked up and parsed, and on success
     * inserted. A failed load leaves the cache as it was.
     */
    method LoadFontData(face: string) returns (r: Result<OwnedFont, FontError>)
      requires Valid()
      modifies this
      ensures Valid()
      ensures face in old(entries) ==> r == Ok(old(entries)[face]) && entries == old(entries)
      ensures face !in old(entries) && Failure(face).Some? ==>
                r == Err(Failure(face).value) && entries == old(entries)
      ensures face !in old(entries) && Failure(face).None? ==>
                r.Ok? && fresh(r.value) && entries == old(entries)[face := r.value]
      ensures r.Ok? ==> face in entries && entries[face] == r.value && Loaded(face, r.value)
    {
      if face !in entries {
        var query := lookup(face);
        if query.Some? {
          var font := NewOwnedFont(query.value, parse);
          if font.Err? {
            return Err(FontLoadError(font.error));
          }
          entries := entries[face := font.value];
        } else {
          return Err(NoSuchFont);
        }
      }
      r := Ok(entries[face]);
    }
  }

  /**
   * Loading the same face twice gives the identical outcome: the same font
   * object when it loads, the same error every time when it does not.
   */
  method LoadTwice(cache: FontCache, face: string)
    returns (first: Result<OwnedFont, FontError>, second: Result<OwnedFont, FontError>)
    requires cache.Valid()
    modifies cache
    ensures cache.Valid()
    ensures second == first
    ensures first.Err? ==> cache.entries == old(cache.entries)
  {
    first := cache.LoadFontData(face);
    second := cache.LoadFontData(face);
  }

  // ===========================================================================
  // Font data and layout

  /** `FontDataInternal`: a handle on a cached font. */
  datatype FontDataInternal = FontDataInternal(face: OwnedFont)

  /** `FontDataInternal::new`: loads the font named by the family through the cache. */
  method NewFontData(cache: FontCache, family: FontFamilies.FontFamily) returns (r: Result<FontDataInternal, FontError>)
    requires cache.Valid()
    modifies cache
    ensures cache.Valid()
    ensures var face := FontFamilies.AsStr(family);
            (face in old(cache.entries) ==>
               r == Ok(FontDataInternal(old(cache.entries)[face])) && cache.entries == old(cache.entries)) &&
            (face !in old(cache.entries) && cache.Failure(face).Some? ==>
               r == Err(cache.Failure(face).value) && cache.entries == old(cache.entries)) &&
            (face !in old(cache.entries) && cache.Failure(face).None? ==>
               r.Ok? && fresh(r.value.face) && cache.entries == old(cache.entries)[face := r.value.face]) &&
            (r.Ok? ==> face in cache.entries && cache.entries[face] == r.value.face)
  {
    var font := cache.LoadFontData(FontFamilies.AsStr(family));
    match font
    case Ok(f) => r := Ok(FontDataInternal(f));
    case Err(e) => r := Err(e);
  }

  /** The glyphs the font lays `text` out into at `size`. */
  function Glyphs(font: FontDataInternal, size: F64, text: string): seq<Glyph> {
    font.face.font.layout(size, text)
  }

  /** The running `(min_x, min_y, max_x, max_y)` of `estimate_layout`. */
  datatype Extent = Extent(minX: I32, minY: I32, maxX: I32, maxY: I32)

  /** The seed: minima at `i32::MAX`, maxima at zero. */
  const Unseen: Extent := Extent(MAX, MAX, 0, 0)

  /** Folds one glyph into the running extent; a glyph without ink changes nothing. */
  function Include(e: Extent, g: Glyph): Extent {
    if g.bbox.Some? then
      var rect := g.bbox.value;
      Extent(Min(e.minX, rect.min.x), Min(e.minY, rect.min.y), Max(e.maxX, rect.max.x), Max(e.maxY, rect.max.y))
    else e
  }

  /** The extent after folding every glyph of `gs`, in order. */
  function Accumulate(gs: seq<Glyph>): Extent
    decreases |gs|
  {
    if gs == [] then Unseen else Include(Accumulate(gs[..|gs| - 1]), gs[|gs| - 1])
  }

  /** The layout box `estimate_layout` reports: zero when a minimum is still at its seed. */
  function LayoutOf(gs: seq<Glyph>): Box {
    var e := Accumulate(gs);
    if e.minX == MAX || e.minY == MAX then ZeroBox
    else Box(Point(e.minX, e.minY), Point(e.maxX, e.maxY))
  }

  /** `estimate_layout`: folds the pixel boxes of the glyphs into one box. It never fails. */
  method EstimateLayout(font: FontDataInternal, size: F64, text: string) returns (r: Result<Box, FontError>)
    ensures r == Ok(LayoutOf(Glyphs(font, size, text)))
  {
    var minX: I32, minY: I32 := MAX, MAX;
    var maxX: I32, maxY: I32 := 0, 0;
    var gs := Glyphs(font, size, text);
    for i := 0 to |gs|
      invariant Extent(minX, minY, maxX, maxY) == Accumulate(gs[..i])
    {
      assert gs[..i + 1][..i] == gs[..i];
      if gs[i].bbox.Some? {
        var rect := gs[i].bbox.value;
        minX := Min(minX, rect.min.x);
        minY := Min(minY, rect.min.y);
        maxX := Max(maxX, rect.max.x);
        maxY := Max(maxY, rect.max.y);
      }
    }
    assert gs[..|gs|] == gs;
    if minX == MAX || minY == MAX {
      return Ok(ZeroBox);
    }
    r := Ok(Box(Point(minX, minY), Point(maxX, maxY)));
  }

  /**
   * What the fold computes: the minima are lower bounds of the glyph boxes'
   * minima and are either still at the seed or attained by some glyph; the
   * maxima are upper bounds of the glyph boxes' maxima, at least zero, and
   * either zero or attained by some glyph.
   */
  lemma {:induction false} AccumulateBounds(gs: seq<Glyph>)
    ensures var e := Accumulate(gs);
            forall i :: 0 <= i < |gs| && gs[i].bbox.Some? ==>
              e.minX <= gs[i].bbox.value.min.x && e.minY <= gs[i].bbox.value.min.y &&
              e.maxX >= gs[i].bbox.value.max.x && e.maxY >= gs[i].bbox.value.max.y
    ensures var e := Accumulate(gs); e.maxX >= 0 && e.maxY >= 0
    ensures var e := Accumulate(gs);
            e.minX == MAX || exists i :: 0 <= i < |gs| && gs[i].bbox.Some? && gs[i].bbox.value.min.x == e.minX
    ensures var e := Accumulate(gs);
            e.minY == MAX || exists i :: 0 <= i < |gs| && gs[i].bbox.Some? && gs[i].bbox.value.min.y == e.minY
    ensures var e := Accumulate(gs);
            e.maxX == 0 || exists i :: 0 <= i < |gs| && gs[i].bbox.Some? && gs[i].bbox.value.max.x == e.maxX
    ensures var e := Accumulate(gs);
            e.maxY == 0 || exists i :: 0 <= i < |gs| && gs[i].bbox.Some? && gs[i].bbox.value.max.y == e.maxY
    decreases |gs|
  {
    if gs != [] {
      var n := |gs| - 1;
      var front := gs[..n];
      AccumulateBounds(front);
      assert forall i :: 0 <= i < n ==> front[i] == gs[i];
      var e := Accumulate(front);
      var e' := Accumulate(gs);
      assert e' == Include(e, gs[n]);
      if gs[n].bbox.Some? {
        var rect := gs[n].bbox.value;
        if e'.minX != MAX && e'.minX != rect.min.x {
          var i :| 0 <= i < n && front[i].bbox.Some? && front[i].bbox.value.min.x == e.minX;
          assert gs[i].bbox.value.min.x == e'.minX;
        }
        if e'.minY != MAX && e'.minY != rect.min.y {
          var i :| 0 <= i < n && front[i].bbox.Some? && front[i].bbox.value.min.y == e.minY;
          assert gs[i].bbox.value.min.y == e'.minY;
        }
        if e'.maxX != 0 && e'.maxX != rect.max.x {
          var i :| 0 <= i < n && front[i].bbox.Some? && front[i].bbox.value.max.x == e.maxX;
          assert gs[i].bbox.value.max.x == e'.maxX;
        }
        if e'.maxY != 0 && e'.maxY != rect.max.y {
          var i :| 0 <= i < n && front[i].bbox.Some? && front[i].bbox.value.max.y == e.maxY;
          assert gs[i].bbox.value.max.y == e'.maxY;
        }
      } else {
        if e'.minX != MAX {
          var i :| 0 <= i < n && front[i].bbox.Some? && front[i].bbox.value.min.x == e.minX;
          assert gs[i].bbox.value.min.x == e'.minX;
        }
        if e'.minY != MAX {
          var i :| 0 <= i < n && front[i].bbox.Some? && front[i].bbox.value.min.y == e.minY;
          assert gs[i].bbox.value.min.y == e'.minY;
        }
        if e'.maxX != 0 {
          var i :| 0 <= i < n && front[i].bbox.Some? && front[i].bbox.value.max.x == e.maxX;
          assert gs[i].bbox.value.max.x == e'.maxX;
        }
        if e'.maxY != 0 {
          var i :| 0 <= i < n && front[i].bbox.Some? && front[i].bbox.value.max.y == e.maxY;
          assert gs[i].bbox.value.max.y == e'.maxY;
        }
      }
    }
  }

  /** No glyph with ink (an empty or blank text among them): the layout box is `((0,0),(0,0))`. */
  lemma LayoutOfNoInk(gs: seq<Glyph>)
    requires forall i :: 0 <= i < |gs| ==> gs[i].bbox.None?
    ensures LayoutOf(gs) == ZeroBox
  {
    AccumulateBounds(gs);
  }

  /**
   * With ink whose minima are below `i32::MAX` (the seed), the layout box's
   * minimum is the componentwise least glyph minimum, and its maximum the
   * componentwise greatest of zero and the glyph maxima.
   */
  lemma LayoutOfInk(gs: seq<Glyph>)
    requires exists i :: 0 <= i < |gs| && gs[i].bbox.Some? && gs[i].bbox.value.min.x < MAX
    requires exists i :: 0 <= i < |gs| && gs[i].bbox.Some? && gs[i].bbox.value.min.y < MAX
    ensures var b := LayoutOf(gs);
            forall i :: 0 <= i < |gs| && gs[i].bbox.Some? ==>
              b.min.x <= gs[i].bbox.value.min.x && b.min.y <= gs[i].bbox.value.min.y &&
              b.max.x >= gs[i].bbox.value.max.x && b.max.y >= gs[i].bbox.value.max.y
    ensures var b := LayoutOf(gs);
            (exists i :: 0 <= i < |gs| && gs[i].bbox.Some? && gs[i].bbox.value.min.x == b.min.x) &&
            (exists i :: 0 <= i < |gs| && gs[i].bbox.Some? && gs[i].bbox.value.min.y == b.min.y)
    ensures var b := LayoutOf(gs);
            b.max.x >= 0 && b.max.y >= 0 &&
            (b.max.x == 0 || exists i :: 0 <= i < |gs| && gs[i].bbox.Some? && gs[i].bbox.value.max.x == b.max.x) &&
            (b.max.y == 0 || exists i :: 0 <= i < |gs| && gs[i].bbox.Some? && gs[i].bbox.value.max.y == b.max.y)
  {
    AccumulateBounds(gs);
  }

  /**
   * The seed doubles as the "no ink" marker: the layout box is the zero box
   * by that route exactly when every inked glyph's minimum x, or every inked
   * glyph's minimum y, is `i32::MAX` (vacuously so without ink).
   */
  lemma LayoutOfSentinel(gs: seq<Glyph>)
    ensures var e := Accumulate(gs);
            (e.minX == MAX || e.minY == MAX) <==>
            ((forall i :: 0 <= i < |gs| && gs[i].bbox.Some? ==> gs[i].bbox.value.min.x == MAX) ||
             (forall i :: 0 <= i < |gs| && gs[i].bbox.Some? ==> gs[i].bbox.value.min.y == MAX))
  {
    AccumulateBounds(gs);
  }

  // ===========================================================================
  // Rasterisation

  /** One invocation of the caller's draw callback: the target pixel and its coverage. */
  datatype Call = Call(x: I32, y: I32, v: F32)

  /**
   * The caller's `FnMut(i32, i32, f32) -> Result<(), E>`: its answer may
   * depend on the calls it received before, which are passed to it.
   */
  type Callback<E> = (seq<Call>, Call) -> Result<(), E>

  /** The calls a draw made, in order, and the latched result. */
  datatype Drawn<E> = Drawn(calls: seq<Call>, result: Result<(), E>)

  /** Where a pixel lands: rotate `(x + x0, y + y0)`, then shift by `base`. */
  function PixelCall(t: FontTransform, base: Point, x0: I32, y0: I32, p: Pixel): Call {
    var q := Transform(t, Add(FromU32(p.x), x0), Add(FromU32(p.y), y0));
    Call(Add(q.x, base.x), Add(q.y, base.y), p.v)
  }

  /** Pixels with a negative coordinate are skipped. */
  predicate Visible(c: Call) {
    c.x >= 0 && c.y >= 0
  }

  /** The visible landing points of a glyph's pixels, in order. */
  function PixelCalls(t: FontTransform, base: Point, x0: I32, y0: I32, ps: seq<Pixel>): seq<Call>
    decreases |ps|
  {
    if ps == [] then []
    else
      var c := PixelCall(t, base, x0, y0, ps[|ps| - 1]);
      PixelCalls(t, base, x0, y0, ps[..|ps| - 1]) + if Visible(c) then [c] else []
  }

  /** Where pixel `j` of an inked glyph lands: relative to the glyph's box, vertically to the layout's top. */
  function GlyphPixelCall(t: FontTransform, base: Point, layout: Box, g: Glyph, j: nat): Call
    requires g.bbox.Some? && j < |g.pixels|
  {
    PixelCall(t, base, g.bbox.value.min.x, Sub(g.bbox.value.min.y, layout.min.y), g.pixels[j])
  }

  /** The visible landing points of one glyph; a glyph without ink draws nothing. */
  function GlyphCalls(t: FontTransform, base: Point, layout: Box, g: Glyph): seq<Call> {
    if g.bbox.Some? then
      var rect := g.bbox.value;
      PixelCalls(t, base, rect.min.x, Sub(rect.min.y, layout.min.y), g.pixels)
    else []
  }

  /** The visible landing points of all glyphs, in order: the calls a callback that never fails receives. */
  function Candidates(t: FontTransform, base: Point, layout: Box, gs: seq<Glyph>): seq<Call>
    decreases |gs|
  {
    if gs == [] then []
    else Candidates(t, base, layout, gs[..|gs| - 1]) + GlyphCalls(t, base, layout, gs[|gs| - 1])
  }

  /** Offers the candidates to the callback in order, latching the first failure and calling nothing after it. */
  function Feed<E>(cb: Callback<E>, cs: seq<Call>): Drawn<E>
    decreases |cs|
  {
    if cs == [] then Drawn([], Ok(()))
    else
      var d := Feed(cb, cs[..|cs| - 1]);
      if d.result.Err? then d
      else Drawn(d.calls + [cs[|cs| - 1]], cb(d.calls, cs[|cs| - 1]))
  }

  /** The origin shifted by the rotation's anchoring offset. */
  function Base(t: FontTransform, layout: Box, origin: Point): Point {
    var o := Offset(t, layout);
    Point(Add(origin.x, o.x), Add(origin.y, o.y))
  }

  /** What drawing the glyphs `gs` at `origin` under `t` does. */
  function DrawSpec<E>(gs: seq<Glyph>, origin: Point, t: FontTransform, cb: Callback<E>): Drawn<E> {
    var layout := LayoutOf(gs);
    Feed(cb, Candidates(t, Base(t, layout, origin), layout, gs))
  }

  /** Offering one more candidate: a latched failure ignores it, otherwise the callback is called on it. */
  lemma FeedSnoc<E>(cb: Callback<E>, cs: seq<Call>, c: Call)
    ensures var d := Feed(cb, cs);
            Feed(cb, cs + [c]) == if d.result.Err? then d else Drawn(d.calls + [c], cb(d.calls, c))
  {
    assert (cs + [c])[..|cs|] == cs;
  }

  /**
   * One pixel of the closure: after the candidates offered so far, pixel `j`
   * reaches the callback exactly when it is visible and no call has failed.
   */
  lemma DrawPixelStep<E>(cb: Callback<E>, offered: seq<Call>, t: FontTransform, base: Point, x0: I32, y0: I32,
                         pixels: seq<Pixel>, j: nat, calls: seq<Call>, result: Result<(), E>)
    requires j < |pixels|
    requires Drawn(calls, result) == Feed(cb, offered + PixelCalls(t, base, x0, y0, pixels[..j]))
    ensures var c := PixelCall(t, base, x0, y0, pixels[j]);
            Feed(cb, offered + PixelCalls(t, base, x0, y0, pixels[..j + 1])) ==
              if Visible(c) && result.Ok? then Drawn(calls + [c], cb(calls, c)) else Drawn(calls, result)
  {
    var c := PixelCall(t, base, x0, y0, pixels[j]);
    var before := offered + PixelCalls(t, base, x0, y0, pixels[..j]);
    assert pixels[..j + 1][..j] == pixels[..j];
    if Visible(c) {
      assert offered + PixelCalls(t, base, x0, y0, pixels[..j + 1]) == before + [c];
      FeedSnoc(cb, before, c);
    } else {
      assert offered + PixelCalls(t, base, x0, y0, pixels[..j + 1]) == before;
    }
  }

  /**
   * The rasteriser's per-pixel closure over one inked glyph: each visible
   * pixel goes to the callback while no call has failed yet.
   */
  method DrawGlyph<E>(t: FontTransform, baseX: I32, baseY: I32, x0: I32, y0: I32, pixels: seq<Pixel>,
                      cb: Callback<E>, calls0: seq<Call>, result0: Result<(), E>, ghost offered: seq<Call>)
    returns (calls: seq<Call>, result: Result<(), E>)
    requires Drawn(calls0, result0) == Feed(cb, offered)
    ensures Drawn(calls, result) == Feed(cb, offered + PixelCalls(t, Point(baseX, baseY), x0, y0, pixels))
  {
    calls, result := calls0, result0;
    assert pixels[..0] == [] && offered + [] == offered;
    for j := 0 to |pixels|
      invariant Drawn(calls, result) == Feed(cb, offered + PixelCalls(t, Point(baseX, baseY), x0, y0, pixels[..j]))
    {
      DrawPixelStep(cb, offered, t, Point(baseX, baseY), x0, y0, pixels, j, calls, result);
      // the pixel's landing point, `transform(x + x0, y + y0)` shifted by the base
      var c := PixelCall(t, Point(baseX, baseY), x0, y0, pixels[j]);
      if c.x >= 0 && c.y >= 0 && result.Ok? {
        result := cb(calls, c);
        calls := calls + [c];
      }
    }
    assert pixels[..|pixels|] == pixels;
  }

  lemma CandidatesSnoc(t: FontTransform, base: Point, layout: Box, gs: seq<Glyph>, i: nat)
    requires i < |gs|
    ensures Candidates(t, base, layout, gs[..i + 1]) ==
              Candidates(t, base, layout, gs[..i]) + GlyphCalls(t, base, layout, gs[i])
  {
    assert gs[..i + 1][..i] == gs[..i];
  }

  /**
   * `FontDataInternal::draw`: walks the glyphs and their pixels, sends every
   * visible pixel to the callback until the callback first fails, and returns
   * the calls made with the latched result. The outer result is always `Ok`.
   */
  method Draw<E>(font: FontDataInternal, origin: Point, size: F64, text: string, t: FontTransform, cb: Callback<E>)
    returns (r: Result<Result<(), E>, FontError>, calls: seq<Call>)
    ensures var d := DrawSpec(Glyphs(font, size, text), origin, t, cb);
            r == Ok(d.result) && calls == d.calls
  {
    // `estimate_layout` never fails, so the `?` of the source always continues.
    var estimated := EstimateLayout(font, size, text);
    var layout := estimated.value;
    var gs := Glyphs(font, size, text);
    var result: Result<(), E> := Ok(());
    var o := Offset(t, layout);
    var baseX := Add(origin.x, o.x);
    var baseY := Add(origin.y, o.y);
    ghost var base := Point(baseX, baseY);
    ghost var offered: seq<Call> := [];
    calls := [];
    for i := 0 to |gs|
      invariant offered == Candidates(t, base, layout, gs[..i])
      invariant Drawn(calls, result) == Feed(cb, offered)
    {
      CandidatesSnoc(t, base, layout, gs, i);
      var g := gs[i];
      if g.bbox.Some? {
        var rect := g.bbox.value;
        var x0 := rect.min.x;
        var y0 := Sub(rect.min.y, layout.min.y);
        calls, result := DrawGlyph(t, baseX, baseY, x0, y0, g.pixels, cb, calls, result, offered);
        offered := offered + GlyphCalls(t, base, layout, g);
      } else {
        assert offered + GlyphCalls(t, base, layout, g) == offered;
      }
    }
    assert gs[..|gs|] == gs;
    r := Ok(result);
  }

  // ===========================================================================
  // Properties of rasterisation

  /**
   * `Feed` calls a prefix of the candidates: all of them when it ends in `Ok`,
   * and at least one when it ends in `Err`.
   */
  lemma {:induction false} FeedPrefix<E>(cb: Callback<E>, cs: seq<Call>)
    ensures var d := Feed(cb, cs); |d.calls| <= |cs| && d.calls == cs[..|d.calls|]
    ensures var d := Feed(cb, cs); d.result.Ok? ==> d.calls == cs
    ensures var d := Feed(cb, cs); d.result.Err? ==> 0 < |d.calls|
    decreases |cs|
  {
    if cs != [] {
      var n := |cs| - 1;
      FeedPrefix(cb, cs[..n]);
      var d := Feed(cb, cs[..n]);
      if d.result.Ok? {
        assert d.calls + [cs[n]] == cs;
      } else {
        assert cs[..n][..|d.calls|] == cs[..|d.calls|];
      }
    }
  }

  /**
   * The failure is latched: every call but the last one made succeeded, a
   * final `Err` is the last call's answer, and a final `Ok` means every call
   * succeeded.
   */
  lemma {:induction false} FeedLatches<E>(cb: Callback<E>, cs: seq<Call>)
    ensures var d := Feed(cb, cs);
            forall k :: 0 <= k < |d.calls| - 1 ==> cb(d.calls[..k], d.calls[k]).Ok?
    ensures var d := Feed(cb, cs);
            d.result.Err? ==>
              |d.calls| > 0 && d.result == cb(d.calls[..|d.calls| - 1], d.calls[|d.calls| - 1])
    ensures var d := Feed(cb, cs);
            d.result.Ok? ==> forall k :: 0 <= k < |d.calls| ==> cb(d.calls[..k], d.calls[k]).Ok?
    decreases |cs|
  {
    if cs != [] {
      var n := |cs| - 1;
      FeedLatches(cb, cs[..n]);
      var d := Feed(cb, cs[..n]);
      if d.result.Ok? {
        var d' := Feed(cb, cs);
        var m := |d.calls|;
        assert d'.calls == d.calls + [cs[n]];
        assert d'.calls[..m] == d.calls;
        forall k | 0 <= k < m
          ensures d'.calls[..k] == d.calls[..k] && d'.calls[k] == d.calls[k]
        {
        }
      }
    }
  }

  /** A callback that never fails receives every candidate, and the draw ends in `Ok`. */
  lemma FeedNoFailure<E>(cb: Callback<E>, cs: seq<Call>)
    requires forall k :: 0 <= k < |cs| ==> cb(cs[..k], cs[k]).Ok?
    ensures Feed(cb, cs).calls == cs && Feed(cb, cs).result.Ok?
  {
    FeedPrefix(cb, cs);
    FeedLatches(cb, cs);
    var d := Feed(cb, cs);
    var m := |d.calls|;
    if m > 0 {
      assert d.calls[..m - 1] == cs[..m - 1] && d.calls[m - 1] == cs[m - 1];
    }
  }

  lemma {:induction false} PixelCallsVisible(t: FontTransform, base: Point, x0: I32, y0: I32, ps: seq<Pixel>)
    ensures forall c :: c in PixelCalls(t, base, x0, y0, ps) ==> Visible(c)
    decreases |ps|
  {
    if ps != [] {
      PixelCallsVisible(t, base, x0, y0, ps[..|ps| - 1]);
    }
  }

  lemma {:induction false} CandidatesVisible(t: FontTransform, base: Point, layout: Box, gs: seq<Glyph>)
    ensures forall c :: c in Candidates(t, base, layout, gs) ==> Visible(c)
    decreases |gs|
  {
    if gs != [] {
      var g := gs[|gs| - 1];
      CandidatesVisible(t, base, layout, gs[..|gs| - 1]);
      if g.bbox.Some? {
        PixelCallsVisible(t, base, g.bbox.value.min.x, Sub(g.bbox.value.min.y, layout.min.y), g.pixels);
      }
    }
  }

  /** `draw` never hands the callback a negative coordinate. */
  lemma DrawNeverNegative<E>(gs: seq<Glyph>, origin: Point, t: FontTransform, cb: Callback<E>)
    ensures forall c :: c in DrawSpec(gs, origin, t, cb).calls ==> c.x >= 0 && c.y >= 0
  {
    var layout := LayoutOf(gs);
    var cs := Candidates(t, Base(t, layout, origin), layout, gs);
    var d := Feed(cb, cs);
    assert DrawSpec(gs, origin, t, cb) == d;
    FeedPrefix(cb, cs);
    CandidatesVisible(t, Base(t, layout, origin), layout, gs);
    forall c | c in d.calls
      ensures c.x >= 0 && c.y >= 0
    {
      assert c in cs;
    }
  }

  /** Pixel `j` of glyph `i` was drawn to `c`. */
  ghost predicate EmittedBy(t: FontTransform, base: Point, layout: Box, gs: seq<Glyph>, c: Call) {
    exists i, j :: 0 <= i < |gs| && gs[i].bbox.Some? && 0 <= j < |gs[i].pixels| &&
                   c == GlyphPixelCall(t, base, layout, gs[i], j)
  }

  lemma {:induction false} PixelCallsFrom(t: FontTransform, base: Point, x0: I32, y0: I32, ps: seq<Pixel>)
    ensures forall c :: c in PixelCalls(t, base, x0, y0, ps) ==>
              exists j :: 0 <= j < |ps| && c == PixelCall(t, base, x0, y0, ps[j])
    decreases |ps|
  {
    if ps != [] {
      var n := |ps| - 1;
      PixelCallsFrom(t, base, x0, y0, ps[..n]);
      forall c | c in PixelCalls(t, base, x0, y0, ps)
        ensures exists j :: 0 <= j < |ps| && c == PixelCall(t, base, x0, y0, ps[j])
      {
        if c in PixelCalls(t, base, x0, y0, ps[..n]) {
          var j :| 0 <= j < n && c == PixelCall(t, base, x0, y0, ps[..n][j]);
          assert ps[j] == ps[..n][j];
        } else {
          assert c == PixelCall(t, base, x0, y0, ps[n]);
        }
      }
    }
  }

  lemma {:induction false} CandidatesFrom(t: FontTransform, base: Point, layout: Box, gs: seq<Glyph>)
    ensures forall c :: c in Candidates(t, base, layout, gs) ==> EmittedBy(t, base, layout, gs, c)
    decreases |gs|
  {
    if gs != [] {
      var n := |gs| - 1;
      var front := gs[..n];
      var g := gs[n];
      CandidatesFrom(t, base, layout, front);
      forall c | c in Candidates(t, base, layout, gs)
        ensures EmittedBy(t, base, layout, gs, c)
      {
        if c in Candidates(t, base, layout, front) {
          var i, j :| 0 <= i < |front| && front[i].bbox.Some? && 0 <= j < |front[i].pixels| &&
                      c == GlyphPixelCall(t, base, layout, front[i], j);
          assert front[i] == gs[i];
        } else {
          var rect := g.bbox.value;
          PixelCallsFrom(t, base, rect.min.x, Sub(rect.min.y, layout.min.y), g.pixels);
          var j :| 0 <= j < |g.pixels| && c == PixelCall(t, base, rect.min.x, Sub(rect.min.y, layout.min.y), g.pixels[j]);
          assert c == GlyphPixelCall(t, base, layout, gs[n], j);
        }
      }
    }
  }

  /**
   * Each callback coordinate is the rotation of `(px + rect.min.x,
   * py + rect.min.y - layout.min.y)` for some pixel `(px, py)` of some inked
   * glyph, shifted by the origin plus the rotation's offset of the layout box.
   */
  lemma DrawCallsAreGlyphPixels<E>(gs: seq<Glyph>, origin: Point, t: FontTransform, cb: Callback<E>)
    ensures var layout := LayoutOf(gs);
            forall c :: c in DrawSpec(gs, origin, t, cb).calls ==>
              EmittedBy(t, Base(t, layout, origin), layout, gs, c)
  {
    var layout := LayoutOf(gs);
    var cs := Candidates(t, Base(t, layout, origin), layout, gs);
    var d := Feed(cb, cs);
    assert DrawSpec(gs, origin, t, cb) == d;
    FeedPrefix(cb, cs);
    CandidatesFrom(t, Base(t, layout, origin), layout, gs);
    forall c | c in d.calls
      ensures EmittedBy(t, Base(t, layout, origin), layout, gs, c)
    {
      assert c in cs;
    }
  }
}
