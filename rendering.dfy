/**
 * The graphics side, reduced to what can be observed: every draw call and every
 * release of a GPU buffer is appended, in order, to the device's log.
 */
module Rendering {
  import opened Geometry

  datatype Tint = Red | RoyalBlue | MediumPurple

  /** A named colour with an alpha between 0 and 1. */
  datatype Color = Translucent(tint: Tint, alpha: real)

  /** One straight prism segment of an arc: from `near` to `far`, with a width-by-tallness cross-section. */
  datatype Prism = Prism(near: Vec3, far: Vec3, color: Color, section: Vec2)

  datatype Call =
    | PrismDrawn(prism: Prism)                 // a hexahedron drew its current vertices
    | SkyBoxDrawn(corner: Vec3, size: Vec3)    // a sky note drew itself
    | PrismReleased                            // a hexahedron released its buffers
    | SkyNoteReleased(tick: int)               // a sky note view was disposed

  /** The graphics device shared by every visual note of a beatmap. */
  class Device {
    var log: seq<Call>

    constructor ()
      ensures log == []
    {
      log := [];
    }
  }

  /** The reusable prism buffer an arc note owns: its vertices are overwritten before every draw. */
  class ColoredHexahedron {
    const device: Device
    var buffer: Prism
    var disposed: bool

    constructor (device: Device)
      ensures this.device == device && !disposed
    {
      this.device := device;
      buffer := Prism(Vec3(0.0, 0.0, 0.0), Vec3(0.0, 0.0, 0.0), Translucent(Red, 0.0), Vec2(0.0, 0.0));
      disposed := false;
    }

    method SetVertices(near: Vec3, far: Vec3, color: Color, section: Vec2)
      modifies this
      ensures buffer == Prism(near, far, color, section)
      ensures disposed == old(disposed)
    {
      buffer := Prism(near, far, color, section);
    }

    method Draw()
      modifies device
      ensures device.log == old(device.log) + [PrismDrawn(buffer)]
    {
      device.log := device.log + [PrismDrawn(buffer)];
    }

    method Dispose()
      modifies this, device
      ensures disposed && buffer == old(buffer)
      ensures device.log == old(device.log) + [PrismReleased]
    {
      disposed := true;
      device.log := device.log + [PrismReleased];
    }
  }
}
