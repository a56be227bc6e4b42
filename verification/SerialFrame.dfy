/** A frame of the serial "alpha" protocol byte by byte (oscam/module-serial.c, lines 154-182). */
module SerialFrame {
  import opened SerialAlpha

  lemma {:induction false} EscapedAt(p: seq<Byte>, i: nat)
    requires i < |p|
    ensures var at := i + SpecialCount(p[..i]);
            at + |EscapedByte(p[i])| <= |Escaped(p)| && Escaped(p)[at..at + |EscapedByte(p[i])|] == EscapedByte(p[i])
  {
    hide EscapedByte, Special;
    var first, rest := EscapedByte(p[0]), Escaped(p[1..]);
    assert Escaped(p) == first + rest;
    if i > 0 {
      EscapedAt(p[1..], i - 1);
      EscapedByteShape(p[0]);
      assert p[..i][0] == p[0] && p[..i][1..] == p[1..][..i - 1];
      var at, n := i - 1 + SpecialCount(p[1..][..i - 1]), |EscapedByte(p[i])|;
      assert i + SpecialCount(p[..i]) == |first| + at;
      assert (first + rest)[|first| + at..|first| + at + n] == rest[at..at + n];
    } else {
      assert (first + rest)[..|first|] == first;
    }
  }

  lemma EscapedByteIs(x: Byte)
    ensures EscapedByte(x) == if x == 0x20 || x == 0x7E || x == 0x7F then [0x20, x - 0x20] else [x]
  {
  }

  /** Behind 0x7E each payload byte stands as it is, or if it is 0x20, 0x7E or 0x7F, as 0x20 and the byte
      less 0x20; 0x7F ends the frame. */
  lemma FrameAt(p: seq<Byte>, i: nat)
    requires i < |p|
    ensures var f, at := Framed(p), 1 + i + SpecialCount(p[..i]);
            var stands := if p[i] == 0x20 || p[i] == 0x7E || p[i] == 0x7F then [0x20, p[i] - 0x20] else [p[i]];
            f[0] == 0x7E && f[|f| - 1] == 0x7F && at + |stands| < |f| && f[at..at + |stands|] == stands
  {
    hide Escaped, SpecialCount, EscapedByte;
    EscapedAt(p, i);
    EscapedByteIs(p[i]);
    var f, at, n := Framed(p), i + SpecialCount(p[..i]), |EscapedByte(p[i])|;
    assert f[1 + at..1 + at + n] == Escaped(p)[at..at + n];
  }
}
