/** `GenerateGraphicPaths`: the implied race gets a single, freshly
    constructed graphic-paths entry whose custom draw sizes come from the
    morph (falling back to the new object's defaults), whose head offset is
    raised for a custom body size by the same amount as the head addons,
    and whose directional head offset is the first human entry's. */
module GraphicPathsGen {
  import opened Wrappers
  import opened RaceTypes
  import opened BodyAddons

  /** `GenerateGraphicPaths(humanGraphicPaths, morph)`; `blank` is what
      `new GraphicPaths()` holds. `First()` of an empty list throws. */
  function GenerateGraphicPaths(human: seq<GraphicPaths>, morph: MorphDef, blank: GraphicPaths): (r: Result<seq<GraphicPaths>, RaceError>)
    ensures r.Failure? <==> |human| == 0
    ensures r.Failure? ==> r.error == HumanGraphicPathsEmpty
    ensures r.Success? ==> |r.value| == 1
    ensures r.Success? ==>
      var p := r.value[0];
      && p.body == blank.body && p.head == blank.head
      && p.customDrawSize == CustomDrawSize(morph).GetOr(blank.customDrawSize)
      && p.customPortraitDrawSize == CustomDrawSize(morph).GetOr(blank.customPortraitDrawSize)
      && p.customHeadDrawSize == CustomHeadDrawSize(morph).GetOr(blank.customHeadDrawSize)
      && p.customPortraitHeadDrawSize == CustomHeadDrawSize(morph).GetOr(blank.customPortraitHeadDrawSize)
      && p.headOffsetDirectional == human[0].headOffsetDirectional
      && (CustomDrawSize(morph).None? ==> p.headOffset == blank.headOffset)
      && (CustomDrawSize(morph).Some? ==> p.headOffset == Vector2(0.0, HeadOffsetShift(CustomDrawSize(morph).value)))
  {
    if |human| == 0 then Failure(HumanGraphicPathsEmpty)
    else
      var customSize := CustomDrawSize(morph);
      var customHeadSize := CustomHeadDrawSize(morph);
      var temp := blank.(
        customDrawSize := customSize.GetOr(blank.customDrawSize),
        customPortraitDrawSize := customSize.GetOr(blank.customPortraitDrawSize),
        customHeadDrawSize := customHeadSize.GetOr(blank.customHeadDrawSize),
        customPortraitHeadDrawSize := customHeadSize.GetOr(blank.customPortraitHeadDrawSize),
        headOffset := if customSize.Some? then Vector2(0.0, HeadOffsetShift(customSize.value)) else blank.headOffset,
        headOffsetDirectional := human[0].headOffsetDirectional);
      Success([temp])
  }

  /** The head of the implied race moves up by exactly as much as each
      head addon's body-type offsets do, so heads and head addons stay aligned. */
  lemma HeadOffsetMatchesAddonShift(humanPaths: seq<GraphicPaths>, addons: seq<BodyAddon>, morph: MorphDef, blank: GraphicPaths, i: nat)
    requires |humanPaths| > 0 && i < |addons|
    requires addons[i].bodyPart in HeadParts && CustomDrawSize(morph).Some?
    ensures OffsetsShifted(addons[i].offsets, GenerateBodyAddons(addons, morph)[i].offsets,
                           GenerateGraphicPaths(humanPaths, morph, blank).value[0].headOffset.y)
  {
  }
}
