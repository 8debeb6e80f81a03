/**
 * The per-frame geometry of an arc note: the lane-to-world map, the start and
 * end points (with re-anchoring of a note in progress and clipping at the far
 * end of the track), the style, the placement of attached sky notes and the
 * chain of prism segments that approximates the arc.
 */
module ArcGeometry {
  import opened Geometry
  import opened Entities
  import opened Rendering

  /** The number of straight segments an arc is drawn with. */
  const SegmentCount: nat := 9

  const TranslucentRed: Color := Translucent(Red, 0.8)
  const TranslucentRoyalBlue: Color := Translucent(RoyalBlue, 0.8)
  const TranslucentMediumPurple: Color := Translucent(MediumPurple, 0.5)

  /** An easing helper: a point between `start` and `end` at a ratio, shaped by an easing kind. */
  type Easer = (Vec3, Vec3, real, ArcEasing) -> Vec3

  // ---------------------------------------------------------------------------
  // Lane coordinates to world coordinates

  /**
   * Maps a lane X coordinate in [-0.5, 1.5] onto the track's inner width: the
   * left edge of the lanes lands on the left edge of the track, and the right
   * edge on the right one.
   */
  function LaneToWorld(m: StageMetrics, lane: real): (r: real)
    ensures lane == -0.5 ==> r == -m.halfTrackInnerWidth
    ensures lane == 1.5 && m.halfTrackInnerWidth == m.trackInnerWidth / 2.0 ==> r == m.halfTrackInnerWidth
  {
    (lane - (-0.5)) * m.trackInnerWidth / (1.5 - (-0.5)) - m.halfTrackInnerWidth
  }

  /** The lane map preserves interpolation, that is, it is affine. */
  lemma LaneToWorldAffine(m: StageMetrics, a: real, b: real, t: real)
    ensures LaneToWorld(m, Lerp(a, b, t)) == Lerp(LaneToWorld(m, a), LaneToWorld(m, b), t)
  {
  }

  /** With a non-negative width the lane map never reverses the order of lanes; with a positive one it keeps them apart. */
  lemma LaneToWorldMonotone(m: StageMetrics, a: real, b: real)
    requires m.trackInnerWidth >= 0.0 && a <= b
    ensures LaneToWorld(m, a) <= LaneToWorld(m, b)
    ensures m.trackInnerWidth > 0.0 && a < b ==> LaneToWorld(m, a) < LaneToWorld(m, b)
  {
    var w, d := m.trackInnerWidth, b - a;
    assert LaneToWorld(m, b) - LaneToWorld(m, a) == d * w / 2.0;
    ProductSign(d, w);
  }

  /** A product of non-negative factors is non-negative, and positive when both are. */
  lemma ProductSign(d: real, w: real)
    requires d >= 0.0 && w >= 0.0
    ensures d * w >= 0.0
    ensures d > 0.0 && w > 0.0 ==> d * w > 0.0
  {
  }

  // ---------------------------------------------------------------------------
  // Windows

  predicate Within(t: real, lo: real, hi: real) {
    lo <= t <= hi
  }

  /** Two closed intervals share a point. */
  ghost predicate Meets(lo1: real, hi1: real, lo2: real, hi2: real) {
    exists t :: Within(t, lo1, hi1) && Within(t, lo2, hi2)
  }

  /** For non-empty intervals, sharing a point is the same as neither lying wholly before the other. */
  lemma MeetsIff(lo1: real, hi1: real, lo2: real, hi2: real)
    requires lo1 <= hi1 && lo2 <= hi2
    ensures Meets(lo1, hi1, lo2, hi2) <==> !(hi1 < lo2 || hi2 < lo1)
  {
    if !(hi1 < lo2 || hi2 < lo1) {
      var t := if lo1 < lo2 then lo2 else lo1;
      assert Within(t, lo1, hi1) && Within(t, lo2, hi2);
    }
  }

  // ---------------------------------------------------------------------------
  // Start and end points

  /** How far through the note's duration a tick is: 0 at the start tick, 1 at the end tick. */
  function TickRatio(n: ArcNote, tick: int): (r: real)
    requires n.endTick != n.startTick
    ensures tick == n.startTick ==> r == 0.0
    ensures tick == n.endTick ==> r == 1.0
  {
    (tick - n.startTick) as real / (n.endTick - n.startTick) as real
  }

  /** Where the note's start sits in world space, `currentY` being the scroll offset. */
  function NominalStart(n: ArcNote, m: StageMetrics, previewStartY: real, currentY: real): Vec3 {
    Vec3(LaneToWorld(m, n.startX), previewStartY - currentY, m.skyInputZ * n.startY)
  }

  /** Where the note's end sits in world space, before clipping. */
  function NominalEnd(n: ArcNote, m: StageMetrics, previewEndY: real, currentY: real): Vec3 {
    Vec3(LaneToWorld(m, n.endX), previewEndY - currentY, m.skyInputZ * n.endY)
  }

  /**
   * The start point of the drawn arc. Once the start tick has passed, the start
   * is moved onto the finish line; across and in depth it takes the place the
   * note's course has reached at the current tick: only the part still to come
   * is drawn.
   */
  function ResolveStart(n: ArcNote, m: StageMetrics, previewStartY: real, previewEndY: real, ticks: int, currentY: real): (r: Vec3)
    requires n.startTick < ticks ==> n.endTick != n.startTick
    ensures n.startTick < ticks ==>
      var ratio := TickRatio(n, ticks);
      var s := NominalStart(n, m, previewStartY, currentY);
      var e := NominalEnd(n, m, previewEndY, currentY);
      && r.y == m.finishLineY
      && r.x == LaneToWorld(m, Lerp(n.startX, n.endX, ratio))
      && r.z == m.skyInputZ * Lerp(n.startY, n.endY, ratio)
      && r.x == Lerp(s.x, e.x, ratio)
      && r.z == Lerp(s.z, e.z, ratio)
    ensures ticks <= n.startTick ==> r == NominalStart(n, m, previewStartY, currentY)
  {
    if n.startTick < ticks then
      var ratio := TickRatio(n, ticks);
      var xRatio := Lerp(n.startX, n.endX, ratio);
      var yRatio := Lerp(n.startY, n.endY, ratio);
      Vec3(LaneToWorld(m, xRatio), m.finishLineY, m.skyInputZ * yRatio)
    else
      NominalStart(n, m, previewStartY, currentY)
  }

  /** The ratio along start-to-end at which Y reaches the far end of the track. */
  function ClipRatio(m: StageMetrics, start: Vec3, end: Vec3): (r: real)
    requires end.y != start.y
    ensures start.y + r * (end.y - start.y) == m.trackLength
  {
    (m.trackLength - start.y) / (end.y - start.y)
  }

  /**
   * The end point of the drawn arc. An end beyond the visible track length is
   * pulled back along the line from the start to where that line crosses the
   * far end of the track.
   */
  function ResolveEnd(m: StageMetrics, start: Vec3, end: Vec3): (r: Vec3)
    requires end.y > m.trackLength ==> end.y != start.y
    ensures r.y <= m.trackLength
    ensures end.y <= m.trackLength ==> r == end
    ensures end.y > m.trackLength ==> r.y == m.trackLength && r == Lerp3(start, end, ClipRatio(m, start, end))
  {
    if end.y > m.trackLength then
      var ratio := ClipRatio(m, start, end);
      Vec3(Lerp(start.x, end.x, ratio), m.trackLength, Lerp(start.z, end.z, ratio))
    else
      end
  }

  /** When the start is on the track and the end beyond it, the clipped end lies between them. */
  lemma ClipWithinSegment(m: StageMetrics, start: Vec3, end: Vec3)
    requires start.y <= m.trackLength < end.y
    ensures 0.0 <= ClipRatio(m, start, end) < 1.0
  {
    var d := end.y - start.y;
    var q := ClipRatio(m, start, end);
    assert d > 0.0 && q * d == m.trackLength - start.y;
    assert d - q * d == end.y - m.trackLength;
    assert (1.0 - q) * d == d - q * d;
    FactorSign(q, d);
    FactorSign(1.0 - q, d);
  }

  /** Dividing out a positive factor keeps the sign of a product. */
  lemma FactorSign(a: real, d: real)
    requires d > 0.0
    ensures a * d >= 0.0 ==> a >= 0.0
    ensures a * d > 0.0 ==> a > 0.0
  {
  }

  // ---------------------------------------------------------------------------
  // Style

  /** The colour and the width-by-tallness cross-section of an arc. */
  datatype Style = Style(color: Color, section: Vec2)

  /**
   * The style of an arc. The tint alone tells which kind of arc was drawn:
   * red only for a playable magenta arc, purple exactly for a guiding one.
   */
  function ArcStyle(n: ArcNote, m: StageMetrics): (s: Style)
    ensures s.color.tint == Red <==> n.isPlayable && n.color == Magenta
    ensures s.color.tint == RoyalBlue <==> n.isPlayable && n.color != Magenta
    ensures s.color.tint == MediumPurple <==> !n.isPlayable
    ensures s.color.alpha == 0.8 <==> n.isPlayable
    ensures n.isPlayable && n.color == Magenta ==>
      s == Style(Translucent(Red, 0.8), Vec2(m.playableArcWidth, m.playableArcTallness))
    ensures n.isPlayable && n.color != Magenta ==>
      s == Style(Translucent(RoyalBlue, 0.8), Vec2(m.playableArcWidth, m.playableArcTallness))
    ensures !n.isPlayable ==>
      s == Style(Translucent(MediumPurple, 0.5), Vec2(m.guidingArcWidth, m.guidingArcTallness))
  {
    if n.isPlayable then
      Style(if n.color == Magenta then TranslucentRed else TranslucentRoyalBlue,
            Vec2(m.playableArcWidth, m.playableArcTallness))
    else
      Style(TranslucentMediumPurple, Vec2(m.guidingArcWidth, m.guidingArcTallness))
  }

  // ---------------------------------------------------------------------------
  // Sky notes

  /** The fixed size of a sky note's box. */
  function SkyNoteSize(m: StageMetrics): Vec3 {
    Vec3(m.skyNoteWidth, m.skyNoteHeight, m.skyNoteTallness)
  }

  /**
   * The bottom-near-left corner of a sky note's box: on the parent arc's course
   * at the sky note's own tick, centred across and in depth on it, and at the
   * sky note's own preview Y.
   */
  function SkyCorner(n: ArcNote, m: StageMetrics, skyTick: int, skyPreviewY: real,
                     previewStartY: real, previewEndY: real, currentY: real): (c: Vec3)
    requires n.endTick != n.startTick
    ensures
      var ratio := TickRatio(n, skyTick);
      var s := NominalStart(n, m, previewStartY, currentY);
      var e := NominalEnd(n, m, previewEndY, currentY);
      && c.x + m.skyNoteWidth / 2.0 == Lerp(s.x, e.x, ratio)
      && c.y == skyPreviewY - currentY
      && c.z + m.skyNoteTallness / 2.0 == Lerp(s.z, e.z, ratio)
  {
    var ratio := TickRatio(n, skyTick);
    var xRatio := Lerp(n.startX, n.endX, ratio);
    var yRatio := Lerp(n.startY, n.endY, ratio);
    var left := LaneToWorld(m, xRatio) - m.skyNoteWidth / 2.0;
    var bottom := skyPreviewY - currentY;
    var corner := m.skyInputZ * yRatio - m.skyNoteTallness / 2.0;
    Vec3(left, bottom, corner)
  }

  // ---------------------------------------------------------------------------
  // Tessellation

  /** The k-th joint of the chain: the start, eased points in between, and exactly `end` last. */
  function ArcPoint(start: Vec3, end: Vec3, easing: ArcEasing, ease: Easer, k: nat): Vec3
    requires k <= SegmentCount
  {
    if k == 0 then start
    else if k == SegmentCount then end
    else ease(start, end, k as real / SegmentCount as real, easing)
  }

  /**
   * The draw calls of one arc body, segment k joining joint k to joint k + 1:
   * a connected chain of nine prisms from `start` exactly to `end`, with eased
   * joints in between, all of one colour and section.
   */
  function ArcChain(start: Vec3, end: Vec3, easing: ArcEasing, ease: Easer, color: Color, section: Vec2): (c: seq<Call>)
    ensures |c| == 9
    ensures forall k :: 0 <= k < |c| ==> c[k].PrismDrawn? && c[k].prism.color == color && c[k].prism.section == section
    ensures c[0].prism.near == start
    ensures forall k :: 1 <= k < |c| ==> c[k].prism.near == c[k - 1].prism.far
    ensures forall k :: 0 <= k < |c| - 1 ==> c[k].prism.far == ease(start, end, (k + 1) as real / 9.0, easing)
    ensures c[8].prism.far == end
  {
    seq(SegmentCount, k requires 0 <= k < SegmentCount =>
      PrismDrawn(Prism(ArcPoint(start, end, easing, ease, k), ArcPoint(start, end, easing, ease, k + 1), color, section)))
  }

  /** The end-to-end case of a note from tick 0 to tick 100 and lane 0 to lane 1, halfway through. */
  lemma HalfwayExample(n: ArcNote, m: StageMetrics, previewStartY: real, previewEndY: real, currentY: real)
    requires n.startTick == 0 && n.endTick == 100 && n.startX == 0.0 && n.endX == 1.0
    ensures TickRatio(n, 50) == 0.5
    ensures ResolveStart(n, m, previewStartY, previewEndY, 50, currentY).x == LaneToWorld(m, 0.5)
    ensures ResolveStart(n, m, previewStartY, previewEndY, 50, currentY).y == m.finishLineY
  {
  }
}
