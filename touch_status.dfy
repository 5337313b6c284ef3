/** The touch status page's channel line: one character per channel of a
    sensor, '-' for a disabled channel and '1' or '0' for an enabled one
    that is or is not touched. */
module TouchStatus {
  import opened Common
  import opened Bits

  /** At most 24 channels are shown. */
  const MAX_SHOWN_CHANNELS: nat := 24

  /** The character shown for channel `i`. */
  function ChannelChar(touchMask: u32, enabledMask: u32, i: nat): char
  {
    if !Bit(enabledMask, i) then '-' else if Bit(touchMask, i) then '1' else '0'
  }

  /** `format_touch_bitmap`. */
  method FormatTouchBitmap(touchMask: u32, maxChannels: byte, enabledMask: u32) returns (s: string)
    ensures |s| == Min(maxChannels, MAX_SHOWN_CHANNELS)
    ensures forall i :: 0 <= i < |s| ==> (s[i] == '-' <==> !Bit(enabledMask, i))
    ensures forall i :: 0 <= i < |s| ==> (s[i] == '1' <==> Bit(enabledMask, i) && Bit(touchMask, i))
    ensures forall i :: 0 <= i < |s| ==> (s[i] == '0' <==> Bit(enabledMask, i) && !Bit(touchMask, i))
  {
    var channels := Min(maxChannels, MAX_SHOWN_CHANNELS);
    s := [];
    var i := 0;
    while i < channels
      invariant 0 <= i <= channels && |s| == i
      invariant forall j :: 0 <= j < i ==> s[j] == ChannelChar(touchMask, enabledMask, j)
    {
      if !Bit(enabledMask, i) {
        s := s + ['-'];
      } else {
        var touched := Bit(touchMask, i);
        s := s + [if touched then '1' else '0'];
      }
      i := i + 1;
    }
  }
}
