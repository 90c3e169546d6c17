/** Body addons of the implied race (`GenerateBodyAddons` and the offset
    copies it makes). Each human addon is copied; head addons take the
    morph's custom head draw size and, when the morph has a custom body draw
    size, have every body-type offset raised by 0.34 * (bodySize.y - 1);
    body addons take the custom body draw size. Nothing else among the
    modelled fields changes.
    The copies are values here, so the human's own offsets cannot be touched
    by the shift, as the source's fresh offset objects ensure. */
module BodyAddons {
  import opened Wrappers
  import opened RaceTypes

  const HeadParts: seq<string> := ["Jaw", "Ear", "left ear", "right ear", "Skull"]
  const BodyParts: seq<string> := ["Arm", "Tail", "Waist"]
  const HeadOffsetScale: real := 0.34

  /** `morph?.raceSettings?.graphicsSettings?.customDrawSize`. */
  function CustomDrawSize(morph: MorphDef): Option<Vector2>
  {
    match morph.raceSettings.graphicsSettings
    case None => None
    case Some(g) => g.customDrawSize
  }

  /** `morph?.raceSettings?.graphicsSettings?.customHeadDrawSize`. */
  function CustomHeadDrawSize(morph: MorphDef): Option<Vector2>
  {
    match morph.raceSettings.graphicsSettings
    case None => None
    case Some(g) => g.customHeadDrawSize
  }

  /** How far head parts move for a custom body draw size. */
  function HeadOffsetShift(bodySize: Vector2): real
  {
    HeadOffsetScale * (bodySize.y - 1.0)
  }

  lemma HeadAndBodyPartsDisjoint(part: string)
    ensures !(part in HeadParts && part in BodyParts)
  {
  }

  // ---- the copies ----

  /** `GenerateBodyTypeOffsets`: a fresh entry per element, same body type and offset. */
  function GenerateBodyTypeOffsets(human: seq<BodyTypeOffset>): (r: seq<BodyTypeOffset>)
    ensures r == human
  {
    seq(|human|, i requires 0 <= i < |human| => BodyTypeOffset(human[i].bodyType, human[i].offset))
  }

  /** `GenerateRotationOffsets`: the body-type list is copied when present;
      the portrait and crown lists are shared. */
  function GenerateRotationOffsets(human: RotationOffset): (r: RotationOffset)
    ensures r == human
  {
    RotationOffset(
      bodyTypes := if human.bodyTypes.Some? then Some(GenerateBodyTypeOffsets(human.bodyTypes.value)) else None,
      portraitBodyTypes := human.portraitBodyTypes,
      portraitCrownTypes := human.portraitCrownTypes,
      crownTypes := human.crownTypes)
  }

  function CopyFacing(o: Option<RotationOffset>): (r: Option<RotationOffset>)
    ensures r == o
  {
    if o.Some? then Some(GenerateRotationOffsets(o.value)) else None
  }

  /** `GenerateBodyAddonOffsets`: only the facings that are present are copied. */
  function GenerateBodyAddonOffsets(human: BodyAddonOffsets): (r: BodyAddonOffsets)
    ensures r == human
  {
    BodyAddonOffsets(CopyFacing(human.south), CopyFacing(human.north), CopyFacing(human.east), CopyFacing(human.west))
  }

  // ---- the head shift ----

  datatype Facing = South | North | East | West

  function OnFacing(o: BodyAddonOffsets, d: Facing): Option<RotationOffset>
  {
    match d
    case South => o.south
    case North => o.north
    case East => o.east
    case West => o.west
  }

  /** `b` is `a` with the y of every body-type offset raised by `dy`. */
  predicate RotationShifted(a: RotationOffset, b: RotationOffset, dy: real)
  {
    && b.portraitBodyTypes == a.portraitBodyTypes
    && b.portraitCrownTypes == a.portraitCrownTypes
    && b.crownTypes == a.crownTypes
    && b.bodyTypes.Some? == a.bodyTypes.Some?
    && (a.bodyTypes.Some? ==>
          && |b.bodyTypes.value| == |a.bodyTypes.value|
          && forall i :: 0 <= i < |a.bodyTypes.value| ==>
               && b.bodyTypes.value[i].bodyType == a.bodyTypes.value[i].bodyType
               && b.bodyTypes.value[i].offset.x == a.bodyTypes.value[i].offset.x
               && b.bodyTypes.value[i].offset.y == a.bodyTypes.value[i].offset.y + dy)
  }

  /** Every present facing of `a` is shifted by `dy` in `b`; absent ones stay absent. */
  predicate OffsetsShifted(a: BodyAddonOffsets, b: BodyAddonOffsets, dy: real)
  {
    forall d: Facing ::
      && OnFacing(b, d).Some? == OnFacing(a, d).Some?
      && (OnFacing(a, d).Some? ==> RotationShifted(OnFacing(a, d).value, OnFacing(b, d).value, dy))
  }

  function ShiftBodyTypes(bts: seq<BodyTypeOffset>, dy: real): seq<BodyTypeOffset>
  {
    seq(|bts|, i requires 0 <= i < |bts| => bts[i].(offset := bts[i].offset.(y := bts[i].offset.y + dy)))
  }

  function ShiftFacing(o: Option<RotationOffset>, dy: real): Option<RotationOffset>
  {
    match o
    case None => None
    case Some(ro) =>
      if ro.bodyTypes.Some? then Some(ro.(bodyTypes := Some(ShiftBodyTypes(ro.bodyTypes.value, dy)))) else o
  }

  /** The four `foreach (bodyType in temp.offsets.<facing>.bodyTypes)` loops. */
  function ShiftOffsets(o: BodyAddonOffsets, dy: real): (r: BodyAddonOffsets)
    ensures OffsetsShifted(o, r, dy)
  {
    BodyAddonOffsets(ShiftFacing(o.south, dy), ShiftFacing(o.north, dy), ShiftFacing(o.east, dy), ShiftFacing(o.west, dy))
  }

  /** Shifting back undoes a shift, and a zero shift changes nothing. */
  lemma ShiftOffsetsInverse(o: BodyAddonOffsets, dy: real)
    ensures ShiftOffsets(ShiftOffsets(o, dy), -dy) == o
    ensures ShiftOffsets(o, 0.0) == o
  {
    ShiftFacingInverse(o.south, dy);
    ShiftFacingInverse(o.north, dy);
    ShiftFacingInverse(o.east, dy);
    ShiftFacingInverse(o.west, dy);
  }

  lemma ShiftFacingInverse(f: Option<RotationOffset>, dy: real)
    ensures ShiftFacing(ShiftFacing(f, dy), -dy) == f
    ensures ShiftFacing(f, 0.0) == f
  {
    if f.Some? && f.value.bodyTypes.Some? {
      var bts := f.value.bodyTypes.value;
      assert ShiftBodyTypes(ShiftBodyTypes(bts, dy), -dy) == bts;
      assert ShiftBodyTypes(bts, 0.0) == bts;
    }
  }

  // ---- the addons ----

  /** One iteration of the `foreach (addon in human)` loop. */
  function GenerateBodyAddon(addon: BodyAddon, bodySize: Option<Vector2>, headSize: Option<Vector2>): BodyAddon
  {
    var temp := addon.(offsets := GenerateBodyAddonOffsets(addon.offsets));
    var isHead := temp.bodyPart in HeadParts;
    var headSized := if isHead && headSize.Some? then temp.(drawSize := headSize.value) else temp;
    var shifted :=
      if isHead && bodySize.Some? then headSized.(offsets := ShiftOffsets(headSized.offsets, HeadOffsetShift(bodySize.value)))
      else headSized;
    if bodySize.Some? && temp.bodyPart in BodyParts then shifted.(drawSize := bodySize.value) else shifted
  }

  /** `GenerateBodyAddons(human, morph)`. */
  function GenerateBodyAddons(human: seq<BodyAddon>, morph: MorphDef): (r: seq<BodyAddon>)
    ensures |r| == |human|
    ensures forall i :: 0 <= i < |human| ==>
      && r[i].path == human[i].path
      && r[i].bodyPart == human[i].bodyPart
      && r[i].angle == human[i].angle
      && r[i].inFrontOfBody == human[i].inFrontOfBody
      && r[i].layerOffset == human[i].layerOffset
      && r[i].variantCount == human[i].variantCount
    ensures forall i :: 0 <= i < |human| && human[i].bodyPart in HeadParts && CustomHeadDrawSize(morph).Some? ==>
      r[i].drawSize == CustomHeadDrawSize(morph).value
    ensures forall i :: 0 <= i < |human| && human[i].bodyPart in BodyParts && CustomDrawSize(morph).Some? ==>
      r[i].drawSize == CustomDrawSize(morph).value
    ensures forall i :: 0 <= i < |human| ==>
      ((human[i].bodyPart !in HeadParts || CustomHeadDrawSize(morph).None?) &&
       (human[i].bodyPart !in BodyParts || CustomDrawSize(morph).None?) ==>
         r[i].drawSize == human[i].drawSize)
    ensures forall i :: 0 <= i < |human| && human[i].bodyPart in HeadParts && CustomDrawSize(morph).Some? ==>
      OffsetsShifted(human[i].offsets, r[i].offsets, HeadOffsetShift(CustomDrawSize(morph).value))
    ensures forall i :: 0 <= i < |human| && (human[i].bodyPart !in HeadParts || CustomDrawSize(morph).None?) ==>
      r[i].offsets == human[i].offsets
  {
    var bodySize := CustomDrawSize(morph);
    var headSize := CustomHeadDrawSize(morph);
    seq(|human|, i requires 0 <= i < |human| => GenerateBodyAddon(human[i], bodySize, headSize))
  }
}
