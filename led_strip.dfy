/** The part of Zephyr's LED strip driver API that the remap compositor uses:
    the pixel type `struct led_rgb` and the transport `led_strip_update_rgb`. */
module LedStrip {

  /** An 8-bit unsigned channel or counter (`uint8_t`). */
  newtype uint8 = x: int | 0 <= x < 0x100

  /** A 32-bit unsigned word (`uint32_t`). */
  newtype uint32 = x: int | 0 <= x < 0x1_0000_0000

  /** One pixel, `struct led_rgb`. */
  datatype Rgb = Rgb(r: uint8, g: uint8, b: uint8)

  /** The all-zero pixel that statically allocated frames start with. */
  const Black := Rgb(0, 0, 0)

  /** The errno a driver returns, negated, for an invalid configuration. */
  const EINVAL := 22

  /** The physical strip behind a remap device. The hardware protocol is not
      modelled: `UpdateRgb` records the frame it was handed and reports
      `status`, the return code the hardware driver gives on that call, which
      may differ from call to call and is chosen by the environment. */
  class Strip {
    var shown: seq<Rgb>
    var status: int

    constructor ()
      ensures shown == [] && status == 0
    {
      shown := [];
      status := 0;
    }

    /** `led_strip_update_rgb(strip, pixels, numPixels)`. */
    method UpdateRgb(pixels: array<Rgb>, numPixels: nat) returns (ret: int)
      requires numPixels <= pixels.Length
      modifies this
      ensures shown == pixels[..numPixels]
      ensures ret == status
    {
      shown := pixels[..numPixels];
      var s: int :| true;
      status := s;
      ret := status;
    }
  }
}
