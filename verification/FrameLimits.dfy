/** The limits on one frame that the sender, the daemon's readers and its transforms share. */
module FrameLimits {
  const MAX_FRAME_BYTES: nat := 16 * 1024 * 1024

  const MAX_PIXELS: nat := 3840 * 2160
}
