/**
 * The colour-scheme configuration: a scheme's base colours plus optional colour
 * sets for headings, subheadings, links and buttons.
 *
 * The source declares one interface per set kind, but the converter decides which
 * kind it was handed by asking which keys are present, so a set is modelled as one
 * record whose optional members are `Option`s; the typed constructors below build the
 * values each interface allows.
 */
module Theme {
  import opened Wrappers
  import opened Strings

  /** `ColourPair | string`: a single colour or a text/background pair. */
  datatype ColourValue = Str(s: string) | Pair(text: string, background: string)

  /** A raw colour is written as a '#' colour code; anything else names a class. */
  predicate IsRaw(s: string) {
    StartsWith(s, "#")
  }

  /** A value the converter writes as inline style (for a pair: both members raw). */
  predicate IsRawValue(v: ColourValue) {
    match v
    case Str(s) => IsRaw(s)
    case Pair(t, b) => IsRaw(b) && IsRaw(t)
  }

  /** A pair with one raw member and one class member, which the converter rejects. */
  predicate IsMixed(v: ColourValue) {
    v.Pair? && IsRaw(v.background) != IsRaw(v.text)
  }

  /** The text colour a value carries. */
  function TextOf(v: ColourValue): string {
    match v
    case Str(s) => s
    case Pair(t, _) => t
  }

  /** `ColourSet` and its extensions, with every optional member explicit. */
  datatype ColourSet = ColourSet(
    default: ColourValue,
    hover: Option<ColourValue>,
    active: Option<ColourValue>,
    visited: Option<string>,
    disabled: Option<ColourValue>)

  datatype Image = ImageElement(src: string) | ImageName(name: string)

  datatype ColourScheme = ColourScheme(
    foregroundColour: string,
    backgroundColour: string,
    backgroundImage: Option<Image>,
    headingColour: Option<ColourSet>,
    subheadingColour: Option<ColourSet>,
    linkColours: Option<ColourSet>,
    buttonColours: Option<ColourSet>)

  datatype Theme = Theme(stretch: Option<bool>, padding: Option<int>, schemes: seq<ColourScheme>)

  /** A plain `ColourSet`: a default and nothing else. */
  function HeadingSet(default: ColourValue): ColourSet {
    ColourSet(default, None, None, None, None)
  }

  /** A `LinkColourSet`: hover and active are required, visited is optional and a single string. */
  function LinkSet(default: ColourValue, hover: ColourValue, active: ColourValue, visited: Option<string>): ColourSet {
    ColourSet(default, Some(hover), Some(active), visited, None)
  }

  /** A `ButtonColourSet`: hover, active and disabled are all required; there is no visited. */
  function ButtonSet(default: ColourValue, hover: ColourValue, active: ColourValue, disabled: ColourValue): ColourSet {
    ColourSet(default, Some(hover), Some(active), None, Some(disabled))
  }

  /** A scheme that sets no per-role colours at all. */
  predicate IsEmptyScheme(scheme: ColourScheme) {
    scheme.headingColour.None? && scheme.subheadingColour.None?
      && scheme.linkColours.None? && scheme.buttonColours.None?
  }
}
