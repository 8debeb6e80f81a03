# Arc visual note

A model of the arc-note renderer of ArcaeaSim2: the view of one arc note (a curved hold note with
optional attached sky notes) that culls itself against the scrolling window, resolves the world-space
start and end of the part still to be drawn, places its visible sky notes on the arc, and draws the
arc body as a chain of nine prism segments through a hexahedron buffer it owns.

Layout:

- `geometry.dfy` (`Geometry`): world vectors and `Lerp` in the form XNA's `MathHelper.Lerp` computes it.
- `entities.dfy` (`Entities`): the read-only arc note, sky note and stage metrics.
- `rendering.dfy` (`Rendering`): the graphics device as a recorder. Every draw call and every buffer
  release goes, in order, into `Device.log`. `ColoredHexahedron` is the reusable prism buffer:
  `SetVertices` overwrites it and `Draw` records it.
- `sky_visual_note.dfy` (`SkyVisual`): the sky-note view, kept to what the arc renderer uses.
- `arc_geometry.dfy` (`ArcGeometry`): the pure parts of drawing: the lane map, start and end
  resolution, clipping, style, sky-note placement and the segment chain, with their lemmas.
- `arc_visual_note.dfy` (`Visualization`): the `ArcVisualNote` class. It holds the constructor,
  `IsVisible`, `Draw` and its two loops, and `Dispose`.

Numbers are `real`: this is a model of the geometry, not of IEEE arithmetic. Code that is not part of
this model enters as parameters:

- the easing helper is the function `ease` passed to `Draw`;
- the beatmap's tick-to-Y mapping is `calculateY`, given to the constructor;
- each sky note's own preview Y and visibility test are `skyPreviewY` and `skyVisibility`, also
  given to the constructor.

Two behaviours of the code are kept as written:

- A second `Dispose` disposes every sky-note view again (lines 126-130 have no guard). Only the
  hexahedron is released once, because of the `?.` call and the null assignment at lines 132-133.
- Zero durations (`EndTick == StartTick`, lines 44 and 64) and a clip with `endY == startY` (line 82)
  are not guarded: the code divides by zero there. These cases are preconditions (`DrawDefined`).

The code also has no upper bound on the in-progress ratio. A note drawn after its end tick, which the
past-tick threshold allows, gets a ratio above 1. Its start is then extrapolated beyond the note's
end, and the model keeps this.

## Model

| member | source | states |
|---|---|---|
| ArcGeometry.LaneToWorld | ArcaeaView/Subsystems/Scores/Visualization/ArcVisualNote.cs:68-77 | the one lane-to-world formula used for the in-progress start, the nominal start and the end: lane -0.5 maps to -HalfTrackInnerWidth, and lane 1.5 to +HalfTrackInnerWidth when the half width is half the width |
| ArcGeometry.ClipRatio | ArcaeaView/Subsystems/Scores/Visualization/ArcVisualNote.cs:82 | the clip ratio is the one at which start.y + ratio * (end.y - start.y) reaches TrackLength |
| ArcGeometry.ArcChain | ArcaeaView/Subsystems/Scores/Visualization/ArcVisualNote.cs:139-157 | the draw calls the loop emits: 9 prisms; the first starts at `start`; each starts where the previous one ended; joints 1 to 8 are Ease(start, end, i/9); the last ends exactly at `end`; all share one colour and section |
| Visualization.ArcVisualNote.SkyTrace | ArcaeaView/Subsystems/Scores/Visualization/ArcVisualNote.cs:39-58 | the draw calls of the sky-note loop: the visible views' boxes in array order, never more entries than views |
| ArcGeometry.LaneToWorldAffine | ArcaeaView/Subsystems/Scores/Visualization/ArcVisualNote.cs:68-77 | the lane-to-world map commutes with interpolation, so it is affine |
| ArcGeometry.LaneToWorldMonotone | ArcaeaView/Subsystems/Scores/Visualization/ArcVisualNote.cs:72 | with a non-negative track width the map is non-decreasing; with a positive one it is strictly increasing |
| ArcGeometry.TickRatio | ArcaeaView/Subsystems/Scores/Visualization/ArcVisualNote.cs:64 | the tick ratio is 0 at the start tick and 1 at the end tick |
| ArcGeometry.ResolveStart | ArcaeaView/Subsystems/Scores/Visualization/ArcVisualNote.cs:61-75 | a note in progress starts with Y on the finish line and with its X and Z those of the start-to-end world line at the tick ratio; otherwise it starts at its nominal start (lane map of StartX, PreviewStartY - currentY, SkyInputZ * StartY) |
| ArcGeometry.ResolveEnd | ArcaeaView/Subsystems/Scores/Visualization/ArcVisualNote.cs:77-87 | the resolved end never lies past TrackLength; an end within the track is kept exactly; an end beyond it becomes the point of the start-to-end line at the clip ratio, with Y exactly TrackLength |
| ArcGeometry.ClipWithinSegment | ArcaeaView/Subsystems/Scores/Visualization/ArcVisualNote.cs:81-86 | with the start on the track and the end beyond it, the clip ratio lies in [0, 1), so the clipped end is between start and unclipped end |
| ArcGeometry.MeetsIff | ArcaeaView/Subsystems/Scores/Visualization/ArcVisualNote.cs:112 | for non-empty closed intervals, "neither lies wholly before the other" holds exactly when they share a point |
| ArcGeometry.ArcStyle | ArcaeaView/Subsystems/Scores/Visualization/ArcVisualNote.cs:92-101 | playable magenta gives red at 0.8, playable of another colour royal blue at 0.8, both with the playable section; guiding gives medium purple at 0.5 with the guiding section; conversely the tint identifies the kind of arc and alpha 0.8 holds exactly for playable arcs |
| ArcGeometry.SkyCorner | ArcaeaView/Subsystems/Scores/Visualization/ArcVisualNote.cs:44-53 | a sky note's box is centred across and in depth on the arc's world line at the sky note's tick ratio; its bottom is its preview Y minus currentY |
| ArcGeometry.HalfwayExample | ArcaeaView/Subsystems/Scores/Visualization/ArcVisualNote.cs:63-70 | a note from tick 0 to 100 and lane 0 to 1, drawn at tick 50, has ratio 0.5 and starts at the lane map of 0.5 on the finish line |
| Visualization.ArcVisualNote.constructor | ArcaeaView/Subsystems/Scores/Visualization/ArcVisualNote.cs:16-29 | the preview Ys are the mapped start and end ticks; a fresh live hexahedron is owned; the sky-note views are absent exactly when the note has none or an empty list, and otherwise are one fresh view per sky note, in order |
| Visualization.ArcVisualNote.IsVisible | ArcaeaView/Subsystems/Scores/Visualization/ArcVisualNote.cs:107-113 | false when the note ends before the past threshold or starts after the future threshold; when StartTick <= EndTick, PreviewStartY <= PreviewEndY, the tick window is non-empty and TrackLength >= 0, true exactly when the tick range meets the tick window and the preview-Y range meets [currentY, currentY + TrackLength] |
| Visualization.ArcVisualNote.Draw | ArcaeaView/Subsystems/Scores/Visualization/ArcVisualNote.cs:31-105 | appends the visible sky notes' boxes, then the nine-segment chain from the resolved start to the clipped end in the chosen style; visible views are placed on the arc and hidden ones are left as they were; the buffer ends holding the last segment |
| Visualization.ArcVisualNote.DrawSkyNotes | ArcaeaView/Subsystems/Scores/Visualization/ArcVisualNote.cs:36-59 | sky-note views are visited in order; each visible one is positioned at its corner with the fixed size and draws itself; hidden ones are neither positioned nor drawn |
| Visualization.ArcVisualNote.DrawArc | ArcaeaView/Subsystems/Scores/Visualization/ArcVisualNote.cs:136-158 | the device receives exactly the nine-segment chain, and the buffer ends holding its last segment |
| Visualization.ArcVisualNote.SkyTraceDrawsVisibleOnly | ArcaeaView/Subsystems/Scores/Visualization/ArcVisualNote.cs:39-58 | the trace has exactly one entry per visible view; every entry is a fixed-size box of some visible view; every visible view's box is among them; with none visible nothing is drawn |
| Visualization.ArcVisualNote.SkyNotesBeforeBody | ArcaeaView/Subsystems/Scores/Visualization/ArcVisualNote.cs:36-103 | in one draw, every sky box precedes the arc body, and the body is the last nine calls |
| Visualization.ArcVisualNote.Dispose | ArcaeaView/Subsystems/Scores/Visualization/ArcVisualNote.cs:125-134 | every sky-note view is disposed, in order, before the hexahedron is released; the hexahedron is released only if still held, and afterwards it is null; the views' boxes and the buffer's contents are left as they were |
| Visualization.DisposeTwice | ArcaeaView/Subsystems/Scores/Visualization/ArcVisualNote.cs:125-134 | two disposals release the hexahedron once but dispose every sky-note view twice |

## Left out

- The `Effect` and `EffectTechnique` passed to the draw calls are not modelled. Every segment is drawn with the same current technique.
- Vertex-buffer contents and GPU plumbing are not modelled. A hexahedron is its last set prism and a disposed flag.
- IEEE single-precision behaviour is not modelled (rounding, Infinity and NaN). Ticks are unbounded integers, so the tick differences cannot overflow.
- The bodies of `ArcEasingHelper.Ease` and `VisualBeatmap.CalculateY` are not part of this model. Both are parameters.
- `SkyVisualNote` is not part of this model: its `IsVisible`, `PreviewY`, `SetVertices`, `Draw` and `Dispose` are stand-ins. Its draw is recorded as one box at its last set corner.
- The `VisualNoteBase` dispose pattern is not part of this model. The `disposing` argument is ignored, as the code ignores it.
- Visualization.ArcVisualNote.Draw: requires `DrawDefined`, meaning the ratios on lines 44, 64 and 82 do not divide by zero. In the code those cases give Infinity or NaN.
- Visualization.ArcVisualNote.Draw: requires a hexahedron that has not been disposed. After `Dispose`, line 152 dereferences the null `_hexahedron`.
- Visualization.ArcVisualNote.IsVisible: its interval reading is stated only for well-ordered data: StartTick <= EndTick, PreviewStartY <= PreviewEndY, a non-negative sum of thresholds and a non-negative track length. Its other two ensures hold for all inputs.
- `StageMetrics` is not part of this model. `HalfTrackInnerWidth` is kept as a separate field, and the thresholds are real numbers.
- `Vector3Extensions.XY` only copies two fields. It appears as `Vec3.XY` with nothing to state.
- Concrete RGB values are not modelled: a colour is one of three named tints with an alpha.
