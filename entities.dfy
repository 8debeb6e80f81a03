/** The read-only inputs of a visual note: the beatmap's note records and the stage metrics. */
module Entities {

  datatype Option<T> = None | Some(value: T)

  /** The colour tag of an arc. Only Magenta is told apart by the renderer. */
  datatype ArcColor = Magenta | OtherColor(code: int)

  /** The easing kind of an arc; its meaning lies in the easing helper, which is a parameter of the model. */
  datatype ArcEasing = ArcEasing(code: int)

  /** A sky note attached to an arc: only its tick is read by the arc renderer. */
  datatype SkyNote = SkyNote(tick: int)

  /** An arc note as the beatmap loader produces it. Lane X runs over [-0.5, 1.5]; lane Y is the height. */
  datatype ArcNote = ArcNote(
    startTick: int, endTick: int,
    startX: real, endX: real,
    startY: real, endY: real,
    easing: ArcEasing, color: ArcColor, isPlayable: bool,
    skyNotes: Option<seq<SkyNote>>)

  /** The stage geometry the renderer reads. */
  datatype StageMetrics = StageMetrics(
    trackInnerWidth: real, halfTrackInnerWidth: real,
    trackLength: real, finishLineY: real,
    pastTickThreshold: real, futureTickThreshold: real,
    skyInputZ: real,
    skyNoteWidth: real, skyNoteHeight: real, skyNoteTallness: real,
    playableArcWidth: real, playableArcTallness: real,
    guidingArcWidth: real, guidingArcTallness: real)
}
