# Text layout and rasterisation of plotters, modelled in Dafny

This project models the text layer of the plotters drawing library: the font
descriptor with its rotation model (`src/style/font/font_desc.rs`) and the
TrueType back end with its font cache, layout estimation and glyph
rasterisation (`src/style/font/ttf.rs`).

- `results.dfy` — `Option` and `Result`.
- `int32.dfy` (module `Int32`) — the source's `i32`/`u32` arithmetic. Overflow
  wraps around in two's complement, as in a release build; `-i32::MIN` is
  `i32::MIN`, and `x.abs() as u32` is `|x|` for every `x`.
- `font_transform.dfy` (module `FontTransforms`) — `FontTransform` with
  `offset` and `transform`, and the layout box. A reference model (every
  rotation is a number of quarter turns) gives composition, inverses and the
  anchoring property of `offset`.
- `font_family.dfy` (module `FontFamilies`) — `FontFamily`, `as_str`, and
  `From<&str>`, with the string round trips.
- `ttf.dfy` (module `Ttf`) — `FontError`, the loaded font (`OwnedFont`), the
  cache as a class whose `entries` map only grows, `load_font_data`,
  `FontDataInternal::new`, `estimate_layout` and `draw`. The three loops are
  methods: `EstimateLayout` is proved against the specification function
  `LayoutOf`, and `Draw` with its inner per-pixel loop `DrawGlyph` against
  `DrawSpec`. Lemmas state what those functions mean.
- `font_desc.dfy` (module `FontDescs`) — the immutable `FontDesc` and its
  operations. `resize`, `transform` and the getters are `Resize`,
  `WithTransform`, `GetTransform`, `GetSize` and `GetName`.

Collaborators are inputs to the model:

- The system font lookup (`system_fonts::get`) is the cache's `lookup`
  function from a face name to bytes.
- The parser (`Font::from_bytes`) is the cache's `parse` function.
- A parsed font is its layout routine: the glyphs of a text at a size. Each
  glyph has an optional pixel box and the pixels its rasteriser visits.
- The caller's draw callback is a function of the calls it already received
  and the current call. A `draw` returns the calls it made.

A layout box reads naturally as the tightest box around the ink. The code
differs from that reading in two edge cases, and the model follows the code.
The maximum is seeded at `(0, 0)` (ttf.rs:130), so it is never negative even
when all ink lies above or left of the pen origin. "No ink" is detected by a
minimum still at its seed `i32::MAX` (ttf.rs:143), so inked glyphs whose
minimum is `i32::MAX` also give the zero box. `LayoutOfInk` and
`LayoutOfSentinel` state the consequences.

## Model

| member | source | states |
|---|---|---|
| `Int32.WrapIsModular` | src/style/font/ttf.rs:165-175 | the wrapped `i32` result differs from the exact one by a multiple of 2^32, and it is the only `i32` that does |
| `Int32.Wrap` | src/style/font/ttf.rs:165-175 | an `i32` sum or difference that does not overflow is kept exactly |
| `Int32.Neg` | src/style/font/font_desc.rs:37-39 | `-a` is exact except at `i32::MIN`, which negates to itself |
| `Int32.UnsignedAbs` | src/style/font/font_desc.rs:186 | `a.abs() as u32` equals the mathematical absolute value for every `i32` |
| `Int32.FromU32` | src/style/font/ttf.rs:173 | `x as i32` keeps values up to `i32::MAX` and subtracts 2^32 from larger ones |
| `Int32.UnsignedAbsNeg` | src/style/font/font_desc.rs:185-186 | negating never changes the unsigned magnitude, even at `i32::MIN` |
| `Int32.NegInvolutive` | src/style/font/font_desc.rs:37-39 | negating twice gives back every `i32`, `i32::MIN` included |
| `FontTransforms.Offset` | src/style/font/font_desc.rs:24-31 | the offset has non-negative components whenever `max >= min` and the extents fit in `i32` |
| `FontTransforms.OffsetAnchorsBox` | src/style/font/font_desc.rs:22-31 | rotating any point of the extent box `[0,w]x[0,h]` and adding the offset lands in `[0,w']x[0,h']`. Here `(w',h')` is `(h,w)` for a quarter turn and `(w,h)` otherwise. The anchor corner lands on `(0,0)` |
| `FontTransforms.TransformExact` | src/style/font/font_desc.rs:34-41 | `transform` gives `(x,y)`, `(-y,x)`, `(-x,-y)`, `(y,-x)` for the four rotations when no negation overflows |
| `FontTransforms.Quarters` | src/style/font/font_desc.rs:14-19 | each rotation is fewer than four quarter turns |
| `FontTransforms.FromQuarters` | src/style/font/font_desc.rs:14-19 | every count of quarter turns below four has the rotation with that count |
| `FontTransforms.Compose` | src/style/font/font_desc.rs:34-41 | the composed rotation turns by the sum of the two angles, modulo a full turn |
| `FontTransforms.Inverse` | src/style/font/font_desc.rs:34-41 | each rotation composed with its inverse, in either order, is `None` |
| `FontTransforms.QuarterTurnsPeriodic` | src/style/font/font_desc.rs:37 | four more quarter turns change no point, even with wrapping negation |
| `FontTransforms.QuarterTurnsAdd` | src/style/font/font_desc.rs:37 | `k` quarter turns after `j` quarter turns are `j + k` quarter turns |
| `FontTransforms.TransformIsQuarterTurns` | src/style/font/font_desc.rs:34-41 | each rotation equals its number of quarter turns applied to the point |
| `FontTransforms.TransformCompose` | src/style/font/font_desc.rs:34-41 | applying two rotations in turn equals the rotation by the sum of their angles. This is exact, also at `i32::MIN` |
| `FontTransforms.RotationCompositions` | src/style/font/font_desc.rs:34-41 | `Rotate90` twice is `Rotate180`; `Rotate180` twice, and `Rotate90` then `Rotate270`, are the identity |
| `FontTransforms.TransformRoundTrip` | src/style/font/font_desc.rs:34-41 | rotating and then rotating by the inverse restores every coordinate |
| `FontTransforms.TransformMagnitudes` | src/style/font/font_desc.rs:34-41 | rotation keeps the unsigned magnitudes of the two coordinates, exchanging them for a quarter turn |
| `FontFamilies.AsStr` | src/style/font/font_desc.rs:63-70 | a named face's string is its name, and a generic family's string is one of the three reserved names |
| `FontFamilies.FromStr` | src/style/font/font_desc.rs:73-82 | `from(s).as_str() == s` for every string. The result is a named face exactly when `s` is not reserved |
| `FontFamilies.FromAsStr` | src/style/font/font_desc.rs:63-82 | `from(f.as_str()) == f` exactly when `f` is not a named face carrying a reserved name |
| `Ttf.NewOwnedFont` | src/style/font/ttf.rs:45-63 | a parse failure is returned as the error; otherwise a new font object holds the bytes and the parsed font |
| `Ttf.FontCache.constructor` | src/style/font/ttf.rs:78-81 | the cache starts empty and consistent |
| `Ttf.FontCache.Failure` | src/style/font/ttf.rs:86-95 | loading a face from scratch fails exactly when the lookup finds nothing or the parser rejects the bytes |
| `Ttf.FontCache.LoadFontData` | src/style/font/ttf.rs:84-104 | a cached face returns its cached object and leaves the cache alone. On a miss, a lookup miss gives `NoSuchFont` and a parse failure gives `FontLoadError`, and neither changes the cache. On success a new object is stored under exactly `face` and every other entry is unchanged. The cache invariant (every entry is what its face loads to) is kept |
| `Ttf.LoadTwice` | src/style/font/ttf.rs:189-197 | loading the same face twice gives the identical outcome: the same font object, or the same error |
| `Ttf.NewFontData` | src/style/font/ttf.rs:122-124 | `FontDataInternal::new` loads the family's `as_str` name with `LoadFontData`'s guarantees |
| `Ttf.EstimateLayout` | src/style/font/ttf.rs:126-148 | the loop computes `Ok(LayoutOf(glyphs))`, never an error |
| `Ttf.AccumulateBounds` | src/style/font/ttf.rs:129-141 | the running minima bound every glyph box's minima from below and are at the seed or attained. The running maxima bound every glyph box's maxima from above, are at least 0, and are 0 or attained |
| `Ttf.LayoutOfNoInk` | src/style/font/ttf.rs:143-145 | without any inked glyph, the empty text included, the box is `((0,0),(0,0))` |
| `Ttf.LayoutOfInk` | src/style/font/ttf.rs:129-147 | with ink below the seed, `min` is the componentwise least glyph minimum, attained. `max` is the greatest of 0 and the glyph maxima, and so `max >= (0,0)` |
| `Ttf.LayoutOfSentinel` | src/style/font/ttf.rs:129-145 | the box falls back to zero through the seed exactly when every inked glyph's minimum x, or every inked glyph's minimum y, is `i32::MAX` |
| `Ttf.FeedSnoc` | src/style/font/ttf.rs:174-176 | after a failure a further pixel is skipped; otherwise the callback receives it and its answer becomes the result |
| `Ttf.DrawPixelStep` | src/style/font/ttf.rs:172-176 | one pixel reaches the callback exactly when it is visible and no earlier call failed |
| `Ttf.DrawGlyph` | src/style/font/ttf.rs:169-178 | the per-pixel closure over one glyph performs exactly the latched calls of `Feed` over that glyph's visible pixels |
| `Ttf.CandidatesSnoc` | src/style/font/ttf.rs:168-179 | the pixels offered by one more glyph come after those of the glyphs before it |
| `Ttf.Draw` | src/style/font/ttf.rs:150-181 | `draw` returns `Ok` of the latched result, and the calls it makes are exactly those of `DrawSpec` |
| `Ttf.FeedPrefix` | src/style/font/ttf.rs:174-176 | the calls made are a prefix of the visible pixels in order. All of them are called when the result is `Ok`, and at least one when it is `Err` |
| `Ttf.FeedLatches` | src/style/font/ttf.rs:174-176 | every call but the last one succeeded. A final `Err` is the last call's answer, so nothing is called after the first failure. A final `Ok` means every call succeeded |
| `Ttf.FeedNoFailure` | src/style/font/ttf.rs:162-180 | a callback that never fails receives every visible pixel, and the result is `Ok` |
| `Ttf.PixelCallsVisible` | src/style/font/ttf.rs:174 | the pixels of one glyph that pass the guard have non-negative coordinates |
| `Ttf.CandidatesVisible` | src/style/font/ttf.rs:174 | every pixel offered to the callback has non-negative coordinates |
| `Ttf.DrawNeverNegative` | src/style/font/ttf.rs:165-176 | `draw` never invokes the callback with a negative x or y |
| `Ttf.PixelCallsFrom` | src/style/font/ttf.rs:172-174 | every offered call of one glyph is the landing point of one of its pixels |
| `Ttf.CandidatesFrom` | src/style/font/ttf.rs:168-177 | every offered call comes from some pixel of some inked glyph |
| `Ttf.DrawCallsAreGlyphPixels` | src/style/font/ttf.rs:165-175 | each callback coordinate is `transform(px + rect.min.x, py + rect.min.y - layout.min.y)` plus the origin plus `offset(layout)`, for a pixel `(px, py)` of an inked glyph |
| `FontDescs.New` | src/style/font/font_desc.rs:120-127 | the descriptor has the given size and family, transform `None`, and stores the outcome of loading the family through the cache |
| `FontDescs.GetName` | src/style/font/font_desc.rs:163-165 | a named face's name is the face itself. The name parses back to the family exactly when the family is not a named face with a reserved name |
| `FontDescs.LayoutBox` | src/style/font/font_desc.rs:173-178 | a stored error is returned as it is. Otherwise the result is `estimate_layout`'s box for the font's glyphs at the descriptor's size |
| `FontDescs.BoxSize` | src/style/font/font_desc.rs:183-187 | a stored error is returned as it is. Otherwise the result is `(abs w, abs h)` for `None`/`Rotate180` and `(abs h, abs w)` for `Rotate90`/`Rotate270`, where `w, h` are the layout box's extents |
| `FontDescs.Draw` | src/style/font/font_desc.rs:190-200 | a stored error is returned as it is, with no callback invocation. Otherwise the result is the back end's draw at the descriptor's size and rotation |
| `FontDescs.SettersChangeOneField` | src/style/font/font_desc.rs:129-170 | `resize` changes only `get_size` and `transform` changes only `get_transform`. Name and stored font are kept |
| `FontDescs.ResizeBack` | src/style/font/font_desc.rs:130-137 | resizing and resizing back gives the original descriptor, and so the same `layout_box` |
| `FontDescs.LayoutBoxIgnoresTransform` | src/style/font/font_desc.rs:173-178 | the layout box does not depend on the rotation |
| `FontDescs.BoxSizeUnderRotation` | src/style/font/font_desc.rs:183-187 | a quarter turn swaps the two components of `box_size` relative to the unrotated descriptor, and a half turn keeps them |
| `FontDescs.NoInkLayout` | src/style/font/font_desc.rs:173-187 | a text without ink has layout box `((0,0),(0,0))` and box size `(0,0)` |
| `FontDescs.UnknownFamily` | src/style/font/font_desc.rs:120-200 | for a family the system lacks, the descriptor stores `NoSuchFont` and the cache is unchanged. `layout_box` and `draw` both return that error without calling the callback |

## Left out

- The system font lookup and the parser are taken to be fixed for the life of the cache. The source calls `system_fonts::get` again on every cache miss and never caches a failure (ttf.rs:86-94). The model instead treats the system's font set as a constant function, so a font installed or removed while the program runs is not modelled. The next three members depend on this assumption.
- Ttf.LoadTwice: the error half (two failed loads give the same error) holds only because the lookup is fixed.
- Ttf.FontCache.Valid: the invariant (every cache entry is what its face loads to now) holds only because the lookup and the parser are fixed.
- FontDescs.UnknownFamily: it deduces "not cached" from "lookup finds nothing" through `Valid`, so it depends on the same assumption.

- The cache's `Mutex` and `lazy_static` wrapper, and with them the `LockError` path (ttf.rs:78-81, 100-103). The model's cache is an explicit object. `FontError.LockError` is declared but never produced.
- `clear_font_cache` (ttf.rs:106-114): it is unsafe by its own comment and reports `LockError` even when it succeeds. It is not modelled; the model's cache only grows.
- The pinning of `OwnedFont`, the `unsafe` transmutes, the raw-pointer lifetime extension and `Drop` (ttf.rs:38-76, 96-99). A loaded font is an object whose identity stands for the address handed out.
- `Ttf.NewOwnedFont`: an empty byte buffer makes the source panic when it takes the address of the first byte (ttf.rs:55). The model passes every buffer to the parser.
- `Int32`: overflow is modelled as wrap-around, as in a release build. A debug build panics at the same inputs instead, for example when negating `i32::MIN` or when an extent `max - min` overflows.
- Floating point: the `f64` size, the `Scale::uniform(size as f32)` conversion and the `f32` coverage are opaque values passed through unchanged.
- The font query built by `FontPropertyBuilder` is reduced to the face name. The rest of `system_fonts::get`, and the text shaping and rasterising of `rusttype`, are external code. They appear as the cache's `lookup` and `parse` functions and as the parsed font's glyph sequence.
- `Ttf.Draw`: the source lays out the text twice, once in `estimate_layout` and once in the drawing loop. The model uses one glyph sequence for both, because the layout routine is a function.
- `Ttf.DrawGlyph` computes a pixel's landing point with `PixelCall`, which is the same formula as ttf.rs:173-174.
- A stateful callback (`FnMut`) is modelled as a function of the calls it already received. Effects it has outside that history are not captured.
- `FontDesc::color` and `TextStyle`, the `Display` impl of `FontError`, and the `From`/`IntoFont` conversions into `FontDesc` (font_desc.rs:84-116, 154-160).
