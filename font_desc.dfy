/**
 * The font descriptor (`FontDesc` in src/style/font/font_desc.rs): an
 * immutable value holding a size, a family, a rotation and the stored outcome
 * of loading the family's font. Its "setters" return modified copies; its
 * layout and drawing operations replay a stored load failure.
 */
module FontDescs {
  import opened Int32
  import opened Results
  import opened FontTransforms
  import opened FontFamilies
  import opened Ttf

  datatype FontDesc = FontDesc(size: F64, family: FontFamily, data: Result<FontDataInternal, FontError>,
                               transform: FontTransform)

  /**
   * `FontDesc::new`: resolves the family through the cache once, stores the
   * outcome whatever it is, and starts unrotated.
   */
  method New(cache: FontCache, family: FontFamily, size: F64) returns (d: FontDesc)
    requires cache.Valid()
    modifies cache
    ensures cache.Valid()
    ensures d.size == size && d.family == family && d.transform == FontTransform.None
    ensures var face := AsStr(family);
            (face in old(cache.entries) ==>
               d.data == Ok(FontDataInternal(old(cache.entries)[face])) && cache.entries == old(cache.entries)) &&
            (face !in old(cache.entries) && cache.Failure(face).Some? ==>
               d.data == Err(cache.Failure(face).value) && cache.entries == old(cache.entries)) &&
            (face !in old(cache.entries) && cache.Failure(face).None? ==>
               d.data.Ok? && fresh(d.data.value.face) &&
               cache.entries == old(cache.entries)[face := d.data.value.face])
  {
    var data := NewFontData(cache, family);
    d := FontDesc(size, family, data, FontTransform.None);
  }

  /** `FontDesc::resize`: the same font at another size. */
  function Resize(d: FontDesc, size: F64): FontDesc {
    FontDesc(size, d.family, d.data, d.transform)
  }

  /** `FontDesc::transform`: the same font under another rotation. */
  function WithTransform(d: FontDesc, t: FontTransform): FontDesc {
    FontDesc(d.size, d.family, d.data, t)
  }

  /** `FontDesc::get_transform`. */
  function GetTransform(d: FontDesc): FontTransform {
    d.transform
  }

  /** `FontDesc::get_size`. */
  function GetSize(d: FontDesc): F64 {
    d.size
  }

  /** `FontDesc::get_name`: the family's name, which parses back to the family unless it is a reserved name given as a face. */
  function GetName(d: FontDesc): (name: string)
    ensures d.family.Name? ==> name == d.family.face
    ensures FromStr(name) == d.family <==> !(d.family.Name? && Reserved(d.family.face))
  {
    FromAsStr(d.family);
    AsStr(d.family)
  }

  /** `FontDesc::layout_box`: the unrotated box of the text, or the stored load failure. */
  function LayoutBox(d: FontDesc, text: string): (r: Result<Box, FontError>)
    ensures d.data.Err? ==> r == Err(d.data.error)
    ensures d.data.Ok? ==> r == Ok(LayoutOf(Glyphs(d.data.value, d.size, text)))
  {
    match d.data
    case Ok(font) => Ok(LayoutOf(Glyphs(font, d.size, text)))
    case Err(e) => Err(e)
  }

  /**
   * `FontDesc::box_size`: the magnitudes of the box's extents after rotation;
   * a quarter turn swaps width and height.
   */
  function BoxSize(d: FontDesc, text: string): (r: Result<(U32, U32), FontError>)
    ensures d.data.Err? ==> r == Err(d.data.error)
    ensures d.data.Ok? ==>
              var b := LayoutBox(d, text).value;
              var w, h := UnsignedAbs(Width(b)), UnsignedAbs(Height(b));
              r == Ok(if SwapsAxes(d.transform) then (h, w) else (w, h))
  {
    match LayoutBox(d, text)
    case Err(e) => Err(e)
    case Ok(b) =>
      var p := Transform(GetTransform(d), Width(b), Height(b));
      TransformMagnitudes(GetTransform(d), Width(b), Height(b));
      Ok((UnsignedAbs(p.x), UnsignedAbs(p.y)))
  }

  /**
   * `FontDesc::draw`: rasterises the text through the stored font, or returns
   * the stored load failure without calling the callback.
   */
  method Draw<E>(d: FontDesc, text: string, origin: Point, cb: Callback<E>)
    returns (r: Result<Result<(), E>, FontError>, calls: seq<Call>)
    ensures d.data.Err? ==> r == Err(d.data.error) && calls == []
    ensures d.data.Ok? ==>
              var drawn := DrawSpec(Glyphs(d.data.value, d.size, text), origin, d.transform, cb);
              r == Ok(drawn.result) && calls == drawn.calls
  {
    match d.data
    case Ok(font) =>
      r, calls := Ttf.Draw(font, origin, d.size, text, GetTransform(d), cb);
    case Err(e) =>
      r, calls := Err(e), [];
  }

  // ===========================================================================
  // Properties of descriptors

  /**
   * `resize` changes only the size and `transform` only the rotation: every
   * other getter, and the stored font, are as before.
   */
  lemma SettersChangeOneField(d: FontDesc, size: F64, t: FontTransform)
    ensures GetSize(Resize(d, size)) == size
    ensures GetName(Resize(d, size)) == GetName(d) && GetTransform(Resize(d, size)) == GetTransform(d)
    ensures Resize(d, size).data == d.data
    ensures GetTransform(WithTransform(d, t)) == t
    ensures GetName(WithTransform(d, t)) == GetName(d) && GetSize(WithTransform(d, t)) == GetSize(d)
    ensures WithTransform(d, t).data == d.data
  {
  }

  /** Resizing and resizing back gives the original descriptor, so the same layout boxes. */
  lemma ResizeBack(d: FontDesc, size: F64, text: string)
    ensures Resize(Resize(d, size), GetSize(d)) == d
    ensures LayoutBox(Resize(Resize(d, size), GetSize(d)), text) == LayoutBox(d, text)
  {
  }

  /** The layout box is unrotated: changing the rotation does not change it. */
  lemma LayoutBoxIgnoresTransform(d: FontDesc, t: FontTransform, text: string)
    ensures LayoutBox(WithTransform(d, t), text) == LayoutBox(d, text)
  {
  }

  /**
   * Rotating by a quarter turn swaps the two components of `box_size`;
   * a half turn keeps them.
   */
  lemma BoxSizeUnderRotation(d: FontDesc, t: FontTransform, text: string)
    requires d.data.Ok?
    ensures var upright := BoxSize(WithTransform(d, FontTransform.None), text).value;
            BoxSize(WithTransform(d, t), text) ==
              Ok(if SwapsAxes(t) then (upright.1, upright.0) else upright)
  {
  }

  /** A text without ink (an empty text in particular) has the zero layout box and a zero box size. */
  lemma NoInkLayout(d: FontDesc, text: string)
    requires d.data.Ok?
    requires var gs := Glyphs(d.data.value, d.size, text); forall i :: 0 <= i < |gs| ==> gs[i].bbox.None?
    ensures LayoutBox(d, text) == Ok(ZeroBox)
    ensures BoxSize(d, text) == Ok((0, 0))
  {
    LayoutOfNoInk(Glyphs(d.data.value, d.size, text));
  }

  /**
   * A family the system does not have: the descriptor stores `NoSuchFont`,
   * the cache is unchanged, and layout and drawing both return that error
   * without calling the callback.
   */
  method UnknownFamily<E>(cache: FontCache, family: FontFamily, size: F64, text: string, origin: Point, cb: Callback<E>)
    returns (d: FontDesc, layout: Result<Box, FontError>, drawn: Result<Result<(), E>, FontError>, calls: seq<Call>)
    requires cache.Valid()
    requires cache.lookup(AsStr(family)).None?
    modifies cache
    ensures cache.entries == old(cache.entries)
    ensures d.data == Err(NoSuchFont)
    ensures layout == Err(NoSuchFont) && drawn == Err(NoSuchFont) && calls == []
  {
    d := New(cache, family, size);
    layout := LayoutBox(d, text);
    drawn, calls := Draw(d, text, origin, cb);
  }
}
