/**
 * The view of one sky note, as far as the arc renderer uses it. Its own
 * preview Y and visibility test are computed by code outside this model, so
 * they are fixed when the view is created.
 */
module SkyVisual {
  import opened Geometry
  import opened Entities
  import opened Rendering

  class SkyVisualNote {
    const device: Device
    const baseNote: SkyNote
    const previewY: real
    const visibility: (int, real) -> bool
    var corner: Vec3
    var size: Vec3
    var disposeCount: nat

    constructor (device: Device, baseNote: SkyNote, previewY: real, visibility: (int, real) -> bool)
      ensures this.device == device && this.baseNote == baseNote
      ensures this.previewY == previewY && this.visibility == visibility
      ensures disposeCount == 0
    {
      this.device := device;
      this.baseNote := baseNote;
      this.previewY := previewY;
      this.visibility := visibility;
      corner := Vec3(0.0, 0.0, 0.0);
      size := Vec3(0.0, 0.0, 0.0);
      disposeCount := 0;
    }

    function IsVisible(ticks: int, currentY: real): bool {
      visibility(ticks, currentY)
    }

    method SetVertices(bottomNearLeft: Vec3, size: Vec3)
      modifies this
      ensures corner == bottomNearLeft && this.size == size
      ensures disposeCount == old(disposeCount)
    {
      corner := bottomNearLeft;
      this.size := size;
    }

    method Draw(ticks: int, currentY: real)
      modifies device
      ensures device.log == old(device.log) + [SkyBoxDrawn(corner, size)]
    {
      device.log := device.log + [SkyBoxDrawn(corner, size)];
    }

    method Dispose()
      modifies this, device
      ensures disposeCount == old(disposeCount) + 1
      ensures corner == old(corner) && size == old(size)
      ensures device.log == old(device.log) + [SkyNoteReleased(baseNote.tick)]
    {
      disposeCount := disposeCount + 1;
      device.log := device.log + [SkyNoteReleased(baseNote.tick)];
    }
  }
}
