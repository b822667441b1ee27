/** Font families and their canonical names (`FontFamily` in src/style/font/font_desc.rs). */
module FontFamilies {

  datatype FontFamily = Sans | SansSerif | Monospace | Name(face: string)

  /** The three names that denote a generic family rather than a named face. */
  predicate Reserved(s: string) {
    s == "sans" || s == "sans-serif" || s == "monospace"
  }

  /** `FontFamily::as_str`: a named face is its own name; a generic family is its reserved name. */
  function AsStr(f: FontFamily): (s: string)
    ensures f.Name? ==> s == f.face
    ensures !f.Name? ==> Reserved(s)
  {
    match f
    case Sans => "sans"
    case SansSerif => "sans-serif"
    case Monospace => "monospace"
    case Name(face) => face
  }

  /** `FontFamily::from(&str)`: reserved names become the generic families, anything else a named face. */
  function FromStr(s: string): (f: FontFamily)
    ensures AsStr(f) == s
    ensures f.Name? <==> !Reserved(s)
  {
    match s
    case "sans" => Sans
    case "sans-serif" => SansSerif
    case "monospace" => Monospace
    case _ => Name(s)
  }

  /**
   * Parsing the name of a family gives the family back exactly when the
   * family is generic or a named face whose name is not reserved.
   */
  lemma FromAsStr(f: FontFamily)
    ensures FromStr(AsStr(f)) == f <==> !(f.Name? && Reserved(f.face))
  {
  }
}
