/**
 * The arc visual note: the view of one arc note that culls itself against the
 * scrolling window, places its attached sky notes, and draws its body as a
 * chain of prism segments through the hexahedron buffer it owns.
 */
module Visualization {
  import opened Geometry
  import opened Entities
  import opened Rendering
  import opened SkyVisual
  import opened ArcGeometry

  class ArcVisualNote {
    const device: Device
    const baseNote: ArcNote
    const metrics: StageMetrics
    const PreviewStartY: real
    const PreviewEndY: real
    /** The views of the attached sky notes; absent when the note has none. */
    const SkyNotes: Option<seq<SkyVisualNote>>
    var hexahedron: ColoredHexahedron?

    /** The sky-note views in order, empty when there are none. */
    function Children(): seq<SkyVisualNote> {
      match SkyNotes
      case None => []
      case Some(s) => s
    }

    ghost function ChildSet(): set<object> {
      set k | 0 <= k < |Children()| :: Children()[k]
    }

    /** The note owns a live hexahedron until it is disposed, and sky-note views of its own. */
    ghost predicate Valid()
      reads this, hexahedron
    {
      && (hexahedron != null ==> hexahedron.device == device && !hexahedron.disposed)
      && (forall j, k :: 0 <= j < k < |Children()| ==> Children()[j] != Children()[k])
      && (forall k :: 0 <= k < |Children()| ==> Children()[k].device == device)
    }

    constructor (device: Device, baseNote: ArcNote, metrics: StageMetrics, calculateY: int -> real,
                 skyPreviewY: SkyNote -> real, skyVisibility: SkyNote -> (int, real) -> bool)
      ensures Valid()
      ensures this.device == device && this.baseNote == baseNote && this.metrics == metrics
      ensures PreviewStartY == calculateY(baseNote.startTick) && PreviewEndY == calculateY(baseNote.endTick)
      ensures hexahedron != null && fresh(hexahedron) && hexahedron.device == device && !hexahedron.disposed
      ensures SkyNotes.None? <==> baseNote.skyNotes.None? || |baseNote.skyNotes.value| == 0
      ensures SkyNotes.Some? ==>
        && |Children()| == |baseNote.skyNotes.value|
        && forall k :: 0 <= k < |Children()| ==>
             && fresh(Children()[k])
             && Children()[k].baseNote == baseNote.skyNotes.value[k]
             && Children()[k].previewY == skyPreviewY(baseNote.skyNotes.value[k])
             && Children()[k].visibility == skyVisibility(baseNote.skyNotes.value[k])
             && Children()[k].disposeCount == 0
    {
      this.device := device;
      this.baseNote := baseNote;
      this.metrics := metrics;
      PreviewStartY := calculateY(baseNote.startTick);
      PreviewEndY := calculateY(baseNote.endTick);
      var hex := new ColoredHexahedron(device);
      hexahedron := hex;
      if baseNote.skyNotes.Some? && |baseNote.skyNotes.value| > 0 {
        var notes := baseNote.skyNotes.value;
        var views: seq<SkyVisualNote> := [];
        for i := 0 to |notes|
          invariant |views| == i
          invariant !hex.disposed
          invariant forall j, k :: 0 <= j < k < i ==> views[j] != views[k]
          invariant forall k :: 0 <= k < i ==>
            && fresh(views[k]) && views[k].device == device
            && views[k].baseNote == notes[k] && views[k].previewY == skyPreviewY(notes[k])
            && views[k].visibility == skyVisibility(notes[k]) && views[k].disposeCount == 0
        {
          var view := new SkyVisualNote(device, notes[i], skyPreviewY(notes[i]), skyVisibility(notes[i]));
          views := views + [view];
        }
        SkyNotes := Some(views);
      } else {
        SkyNotes := None;
      }
    }

    /**
     * Whether the note can be seen: its ticks meet the window around the
     * current tick, and its preview Y range meets the visible stretch of track.
     */
    function IsVisible(ticks: int, currentY: real): (r: bool)
      ensures (|| baseNote.endTick as real < ticks as real - metrics.pastTickThreshold
               || ticks as real + metrics.futureTickThreshold < baseNote.startTick as real) ==> !r
      ensures (&& ticks as real - metrics.pastTickThreshold <= baseNote.endTick as real
               && baseNote.startTick as real <= ticks as real + metrics.futureTickThreshold) ==>
        (r <==> !(PreviewEndY < currentY || currentY + metrics.trackLength < PreviewStartY))
      ensures && baseNote.startTick <= baseNote.endTick && PreviewStartY <= PreviewEndY
              && metrics.pastTickThreshold + metrics.futureTickThreshold >= 0.0 && metrics.trackLength >= 0.0 ==>
        (r <==> && Meets(baseNote.startTick as real, baseNote.endTick as real,
                         ticks as real - metrics.pastTickThreshold, ticks as real + metrics.futureTickThreshold)
                && Meets(PreviewStartY, PreviewEndY, currentY, currentY + metrics.trackLength))
    {
      var lo, hi := ticks as real - metrics.pastTickThreshold, ticks as real + metrics.futureTickThreshold;
      if baseNote.endTick as real < lo || hi < baseNote.startTick as real then
        false
      else
        var r := !(PreviewEndY < currentY || currentY + metrics.trackLength < PreviewStartY);
        if && baseNote.startTick <= baseNote.endTick && PreviewStartY <= PreviewEndY
           && metrics.pastTickThreshold + metrics.futureTickThreshold >= 0.0 && metrics.trackLength >= 0.0 then
          MeetsIff(baseNote.startTick as real, baseNote.endTick as real, lo, hi);
          MeetsIff(PreviewStartY, PreviewEndY, currentY, currentY + metrics.trackLength);
          r
        else
          r
    }

    /** The start of the arc body drawn at this tick and scroll offset. */
    function StartPoint(ticks: int, currentY: real): Vec3
      requires baseNote.startTick < ticks ==> baseNote.endTick != baseNote.startTick
    {
      ResolveStart(baseNote, metrics, PreviewStartY, PreviewEndY, ticks, currentY)
    }

    /** Every ratio the draw computes has a non-zero denominator. */
    predicate DrawDefined(ticks: int, currentY: real) {
      && (baseNote.startTick < ticks ==> baseNote.endTick != baseNote.startTick)
      && (forall k :: 0 <= k < |Children()| && Children()[k].IsVisible(ticks, currentY) ==>
            baseNote.endTick != baseNote.startTick)
      && (NominalEnd(baseNote, metrics, PreviewEndY, currentY).y > metrics.trackLength ==>
            NominalEnd(baseNote, metrics, PreviewEndY, currentY).y != StartPoint(ticks, currentY).y)
    }

    /** The end of the arc body drawn at this tick and scroll offset, clipped to the track. */
    function EndPoint(ticks: int, currentY: real): Vec3
      requires DrawDefined(ticks, currentY)
    {
      ResolveEnd(metrics, StartPoint(ticks, currentY), NominalEnd(baseNote, metrics, PreviewEndY, currentY))
    }

    /** The box a sky-note view is given when it is visible. */
    function SkyBoxOf(sky: SkyVisualNote, currentY: real): Vec3
      requires baseNote.endTick != baseNote.startTick
    {
      SkyCorner(baseNote, metrics, sky.baseNote.tick, sky.previewY, PreviewStartY, PreviewEndY, currentY)
    }

    /** The draw calls of the visible sky notes among `notes`, in order; the hidden ones leave no trace. */
    function SkyTrace(notes: seq<SkyVisualNote>, ticks: int, currentY: real): (t: seq<Call>)
      requires forall k :: 0 <= k < |notes| && notes[k].IsVisible(ticks, currentY) ==>
                 baseNote.endTick != baseNote.startTick
      ensures |t| <= |notes|
      decreases |notes|
    {
      if notes == [] then []
      else
        var last := notes[|notes| - 1];
        SkyTrace(notes[..|notes| - 1], ticks, currentY)
          + (if last.IsVisible(ticks, currentY) then [SkyBoxDrawn(SkyBoxOf(last, currentY), SkyNoteSize(metrics))] else [])
    }

    /** How many of `notes` are visible at this tick and scroll offset. */
    function VisibleCount(notes: seq<SkyVisualNote>, ticks: int, currentY: real): nat {
      if notes == [] then 0
      else VisibleCount(notes[..|notes| - 1], ticks, currentY) + (if notes[|notes| - 1].IsVisible(ticks, currentY) then 1 else 0)
    }

    /** `c` is the box of some visible view among `notes`. */
    ghost predicate BoxOfVisible(c: Call, notes: seq<SkyVisualNote>, ticks: int, currentY: real)
      requires forall k :: 0 <= k < |notes| && notes[k].IsVisible(ticks, currentY) ==>
                 baseNote.endTick != baseNote.startTick
    {
      exists k :: 0 <= k < |notes| && notes[k].IsVisible(ticks, currentY)
        && c == SkyBoxDrawn(SkyBoxOf(notes[k], currentY), SkyNoteSize(metrics))
    }

    /**
     * Only visible sky notes are drawn, one entry per visible view: every
     * visible view's box is in the trace, every trace entry is the box of a
     * visible view, and with none visible nothing is drawn.
     */
    lemma {:induction false} SkyTraceDrawsVisibleOnly(notes: seq<SkyVisualNote>, ticks: int, currentY: real)
      requires forall k :: 0 <= k < |notes| && notes[k].IsVisible(ticks, currentY) ==>
                 baseNote.endTick != baseNote.startTick
      ensures var t := SkyTrace(notes, ticks, currentY);
        && |t| == VisibleCount(notes, ticks, currentY)
        && (forall i :: 0 <= i < |t| ==> t[i].SkyBoxDrawn? && t[i].size == SkyNoteSize(metrics))
        && (forall i :: 0 <= i < |t| ==> BoxOfVisible(t[i], notes, ticks, currentY))
        && (forall k :: 0 <= k < |notes| && notes[k].IsVisible(ticks, currentY) ==>
              SkyBoxDrawn(SkyBoxOf(notes[k], currentY), SkyNoteSize(metrics)) in t)
        && ((forall k :: 0 <= k < |notes| ==> !notes[k].IsVisible(ticks, currentY)) ==> t == [])
    {
      if notes != [] {
        var init := notes[..|notes| - 1];
        SkyTraceDrawsVisibleOnly(init, ticks, currentY);
        var t := SkyTrace(notes, ticks, currentY);
        var t0 := SkyTrace(init, ticks, currentY);
        assert t0 <= t;
        forall i | 0 <= i < |t| ensures BoxOfVisible(t[i], notes, ticks, currentY) {
          if i < |t0| {
            assert BoxOfVisible(t0[i], init, ticks, currentY);
            var k :| 0 <= k < |init| && init[k].IsVisible(ticks, currentY)
              && t0[i] == SkyBoxDrawn(SkyBoxOf(init[k], currentY), SkyNoteSize(metrics));
            assert notes[k] == init[k] && t[i] == t0[i];
          } else {
            assert t[i] == SkyBoxDrawn(SkyBoxOf(notes[|notes| - 1], currentY), SkyNoteSize(metrics));
          }
        }
        forall k | 0 <= k < |notes| && notes[k].IsVisible(ticks, currentY)
          ensures SkyBoxDrawn(SkyBoxOf(notes[k], currentY), SkyNoteSize(metrics)) in t
        {
          if k < |notes| - 1 {
            assert notes[k] == init[k];
            var i :| 0 <= i < |t0| && t0[i] == SkyBoxDrawn(SkyBoxOf(notes[k], currentY), SkyNoteSize(metrics));
            assert t[i] == t0[i];
          } else {
            assert t[|t| - 1] == SkyBoxDrawn(SkyBoxOf(notes[k], currentY), SkyNoteSize(metrics));
          }
        }
      }
    }

    /**
     * In what one draw appends, every sky box comes before the arc body, and
     * the body is the last nine calls.
     */
    lemma SkyNotesBeforeBody(ease: Easer, ticks: int, currentY: real)
      requires DrawDefined(ticks, currentY)
      ensures var sky := SkyTrace(Children(), ticks, currentY);
        var t := sky + ArcChain(StartPoint(ticks, currentY), EndPoint(ticks, currentY), baseNote.easing, ease,
                                ArcStyle(baseNote, metrics).color, ArcStyle(baseNote, metrics).section);
        && |t| == |sky| + SegmentCount
        && (forall i :: 0 <= i < |sky| ==> t[i].SkyBoxDrawn?)
        && (forall i :: |sky| <= i < |t| ==> t[i].PrismDrawn?)
    {
      SkyTraceDrawsVisibleOnly(Children(), ticks, currentY);
    }

    /** The releases of the sky-note views among `notes`, in order. */
    function Releases(notes: seq<SkyVisualNote>): seq<Call> {
      seq(|notes|, k requires 0 <= k < |notes| => SkyNoteReleased(notes[k].baseNote.tick))
    }

    /**
     * Draws the visible sky notes, each after placing it on the arc, then the
     * arc body from its resolved start to its resolved end.
     */
    method Draw(ease: Easer, ticks: int, currentY: real)
      requires Valid() && hexahedron != null
      requires DrawDefined(ticks, currentY)
      modifies hexahedron, device, ChildSet()
      ensures Valid()
      ensures device.log == old(device.log) + SkyTrace(Children(), ticks, currentY)
        + ArcChain(StartPoint(ticks, currentY), EndPoint(ticks, currentY), baseNote.easing, ease,
                   ArcStyle(baseNote, metrics).color, ArcStyle(baseNote, metrics).section)
      ensures forall k :: 0 <= k < |Children()| ==> Placed(Children()[k], ticks, currentY)
      ensures hexahedron.buffer == Prism(
        ArcPoint(StartPoint(ticks, currentY), EndPoint(ticks, currentY), baseNote.easing, ease, SegmentCount - 1),
        EndPoint(ticks, currentY), ArcStyle(baseNote, metrics).color, ArcStyle(baseNote, metrics).section)
    {
      DrawSkyNotes(ticks, currentY);
      var start := StartPoint(ticks, currentY);
      var end := EndPoint(ticks, currentY);
      var style := ArcStyle(baseNote, metrics);
      DrawArc(start, end, baseNote.easing, ease, style.color, style.section);
    }

    /** A sky-note view after a draw: placed on the arc when visible, untouched otherwise, never disposed. */
    twostate predicate Placed(sky: SkyVisualNote, ticks: int, currentY: real)
      requires DrawDefined(ticks, currentY)
      requires sky in Children()
      reads sky
    {
      && sky.disposeCount == old(sky.disposeCount)
      && (sky.IsVisible(ticks, currentY) ==> sky.corner == SkyBoxOf(sky, currentY) && sky.size == SkyNoteSize(metrics))
      && (!sky.IsVisible(ticks, currentY) ==> sky.corner == old(sky.corner) && sky.size == old(sky.size))
    }

    /** The sky-note loop of a draw: visible views are placed and drawn in order, hidden ones are skipped. */
    method DrawSkyNotes(ticks: int, currentY: real)
      requires Valid()
      requires DrawDefined(ticks, currentY)
      modifies device, ChildSet()
      ensures device.log == old(device.log) + SkyTrace(Children(), ticks, currentY)
      ensures forall k :: 0 <= k < |Children()| ==> Placed(Children()[k], ticks, currentY)
    {
      var skyNotes := Children();
      if SkyNotes.Some? && |SkyNotes.value| > 0 {
        var skyNoteSize := SkyNoteSize(metrics);
        for i := 0 to |skyNotes|
          invariant device.log == old(device.log) + SkyTrace(skyNotes[..i], ticks, currentY)
          invariant forall k :: 0 <= k < i ==> Placed(skyNotes[k], ticks, currentY)
          invariant forall k :: i <= k < |skyNotes| ==> unchanged(skyNotes[k])
        {
          var skyNote := skyNotes[i];
          assert skyNotes[..i + 1][..i] == skyNotes[..i];
          if skyNote.IsVisible(ticks, currentY) {
            var bottomNearLeft := SkyBoxOf(skyNote, currentY);
            skyNote.SetVertices(bottomNearLeft, skyNoteSize);
            skyNote.Draw(ticks, currentY);
          }
        }
        assert skyNotes[..|skyNotes|] == skyNotes;
      }
    }

    /** Draws the arc body as nine connected prisms, the last ending exactly at `end`. */
    method DrawArc(start: Vec3, end: Vec3, easing: ArcEasing, ease: Easer, color: Color, section: Vec2)
      requires hexahedron != null && hexahedron.device == device
      modifies hexahedron, device
      ensures device.log == old(device.log) + ArcChain(start, end, easing, ease, color, section)
      ensures hexahedron.disposed == old(hexahedron.disposed)
      ensures hexahedron.buffer == Prism(ArcPoint(start, end, easing, ease, SegmentCount - 1), end, color, section)
    {
      var lastPoint := start;
      ghost var chain := ArcChain(start, end, easing, ease, color, section);
      for i := 1 to SegmentCount + 1
        invariant lastPoint == ArcPoint(start, end, easing, ease, i - 1)
        invariant device.log == old(device.log) + chain[..i - 1]
        invariant hexahedron.disposed == old(hexahedron.disposed)
        invariant i > 1 ==> hexahedron.buffer == chain[i - 2].prism
      {
        var currentPoint;
        if i == SegmentCount {
          currentPoint := end;
        } else {
          var ratio := i as real / SegmentCount as real;
          currentPoint := ease(start, end, ratio, easing);
        }
        hexahedron.SetVertices(lastPoint, currentPoint, color, section);
        hexahedron.Draw();
        assert chain[..i] == chain[..i - 1] + [chain[i - 1]];
        lastPoint := currentPoint;
      }
      assert chain[..SegmentCount] == chain;
    }

    /** Disposes every sky-note view, then releases the hexahedron once and forgets it. */
    method Dispose()
      requires Valid()
      modifies this, hexahedron, device, ChildSet()
      ensures Valid() && hexahedron == null
      ensures old(hexahedron) != null ==> old(hexahedron).disposed
      ensures device.log == old(device.log) + Releases(Children())
        + (if old(hexahedron) != null then [PrismReleased] else [])
      ensures forall k :: 0 <= k < |Children()| ==>
        && Children()[k].disposeCount == old(Children()[k].disposeCount) + 1
        && Children()[k].corner == old(Children()[k].corner) && Children()[k].size == old(Children()[k].size)
      ensures old(hexahedron) != null ==> old(hexahedron).buffer == old(hexahedron.buffer)
    {
      var skyNotes := Children();
      var hex := hexahedron;
      if SkyNotes.Some? {
        for i := 0 to |skyNotes|
          invariant device.log == old(device.log) + Releases(skyNotes[..i])
          invariant hexahedron == hex && (hex != null ==> unchanged(hex))
          invariant forall k :: 0 <= k < i ==> skyNotes[k].disposeCount == old(skyNotes[k].disposeCount) + 1
          invariant forall k :: i <= k < |skyNotes| ==> skyNotes[k].disposeCount == old(skyNotes[k].disposeCount)
          invariant forall k :: 0 <= k < |skyNotes| ==>
            skyNotes[k].corner == old(skyNotes[k].corner) && skyNotes[k].size == old(skyNotes[k].size)
        {
          assert Releases(skyNotes[..i + 1]) == Releases(skyNotes[..i]) + [SkyNoteReleased(skyNotes[i].baseNote.tick)];
          skyNotes[i].Dispose();
        }
        assert skyNotes[..|skyNotes|] == skyNotes;
      }
      if hexahedron != null {
        hexahedron.Dispose();
      }
      hexahedron := null;
    }
  }

  /**
   * Disposing twice: the hexahedron is released once, while every sky-note
   * view is disposed on both calls.
   */
  method DisposeTwice(note: ArcVisualNote)
    requires note.Valid() && note.hexahedron != null
    modifies note, note.hexahedron, note.device, note.ChildSet()
    ensures note.hexahedron == null && old(note.hexahedron).disposed
    ensures note.device.log == old(note.device.log)
      + note.Releases(note.Children()) + [PrismReleased] + note.Releases(note.Children())
    ensures forall k :: 0 <= k < |note.Children()| ==>
      note.Children()[k].disposeCount == old(note.Children()[k].disposeCount) + 2
  {
    note.Dispose();
    note.Dispose();
  }
}
