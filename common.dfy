/** Values shared by the camera pipeline, the HTTP endpoints and the
    connection supervisor: bytes, an optional value, ASCII text as bytes,
    and the frames the camera driver hands out. */
module Common {

  /** One octet, as carried by a C `uint8_t` or `char` buffer. */
  type Byte = b: int | 0 <= b < 256

  /** A 16-bit unsigned value (`uint16_t`). */
  type Word = w: int | 0 <= w < 0x1_0000

  /** A null-or-present value. */
  datatype Option<+T> = None | Some(value: T)

  /** The bytes of a text literal; every literal of the source is ASCII. */
  function Ascii(s: string): seq<Byte>
  {
    seq(|s|, i requires 0 <= i < |s| => (s[i] as int) % 256)
  }

  lemma AsciiConcat(a: string, b: string)
    ensures Ascii(a + b) == Ascii(a) + Ascii(b)
  {
    assert forall i :: 0 <= i < |a + b| ==> Ascii(a + b)[i] == (Ascii(a) + Ascii(b))[i];
  }

  /** Pixel formats of the camera driver that the core distinguishes. */
  datatype PixFormat = Jpeg | Rgb565 | OtherFormat(code: int)

  /** A frame buffer (`camera_fb_t`) handed out by `esp_camera_fb_get`.
      `id` tells apart the buffers the driver lends, so that the model can
      count which ones went back to it. */
  datatype Frame = Frame(id: nat, format: PixFormat, buf: seq<Byte>, width: nat, height: nat)
  {
    function Len(): nat { |buf| }
  }
}
