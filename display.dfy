/** The frame-buffer shape and the renderer the emulator hands it to (src/display.rs). */
module Display {
  import opened Common

  const WIDTH: nat := 64
  const HEIGHT: nat := 32

  /** `[[bool; 32]; 64]`: 64 columns of 32 pixels, indexed `[x][y]`. */
  type FrameBuffer = fb: seq<seq<bool>> | |fb| == WIDTH && forall x | 0 <= x < |fb| :: |fb[x]| == HEIGHT
    witness seq(64, _ => seq(32, _ => false))

  /** The frame buffer with every pixel off. */
  function BlankFrame(): (fb: FrameBuffer)
    ensures forall x, y | 0 <= x < WIDTH && 0 <= y < HEIGHT :: !fb[x][y]
  {
    seq(WIDTH, _ => seq(HEIGHT, _ => false))
  }

  /** The `Render` capability. What it shows is outside the model: a call may succeed or fail
      for reasons of its own, and the model keeps only the frames it was handed. */
  class Renderer {
    ghost var frames: seq<FrameBuffer>

    constructor ()
      ensures frames == []
    {
      frames := [];
    }

    /** `Render::draw`: takes one snapshot of the frame buffer and may fail. */
    method Draw(frameBuffer: FrameBuffer) returns (r: Outcome)
      modifies this
      ensures frames == old(frames) + [frameBuffer]
      ensures r.Fail? ==> r.error == RenderFailed
    {
      frames := frames + [frameBuffer];
      var succeeded: bool := *;
      r := if succeeded then Pass else Fail(RenderFailed);
    }
  }
}
