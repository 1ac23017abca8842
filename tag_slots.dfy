/**
 * The tag passes both tree walkers run: five tags, in a fixed order, each with the
 * scheme's colour set for it (buttons and inputs share the button set).
 */
module TagSlots {
  import opened Wrappers
  import opened Theme

  /** The tags converted, in pass order. */
  const Tags: seq<string> := ["h2", "h3", "a", "button", "input"]

  /** The colour set of each pass; a pass without a set is skipped. */
  function PassSets(scheme: ColourScheme): (r: seq<Option<ColourSet>>)
    ensures |r| == |Tags|
    ensures r[3] == r[4] == scheme.buttonColours
  {
    [scheme.headingColour, scheme.subheadingColour, scheme.linkColours, scheme.buttonColours, scheme.buttonColours]
  }

  /** A scheme with none of the optional sets runs no pass at all. */
  lemma EmptySchemeNoPass(scheme: ColourScheme)
    ensures IsEmptyScheme(scheme) <==> forall c :: 0 <= c < |Tags| ==> PassSets(scheme)[c].None?
  {
    if !IsEmptyScheme(scheme) {
      var sets := PassSets(scheme);
      if scheme.headingColour.Some? {
        assert sets[0].Some?;
      } else if scheme.subheadingColour.Some? {
        assert sets[1].Some?;
      } else if scheme.linkColours.Some? {
        assert sets[2].Some?;
      } else {
        assert sets[3].Some?;
      }
    }
  }

  /** The tags are pairwise distinct, so no element is matched by two passes. */
  lemma TagsDistinct()
    ensures forall i, j :: 0 <= i < j < |Tags| ==> Tags[i] != Tags[j]
  {
  }
}
