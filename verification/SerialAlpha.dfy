/** Byte stuffing of the serial "alpha" protocol (oscam/module-serial.c, lines 154-182 and 580-585).

    One function converts in both directions, in place: a buffer that starts with 0x7E is taken for
    a received frame and normalised, every other buffer is framed.  A frame is 0x7E, the payload
    with 0x20, 0x7E and 0x7F escaped as 0x20 followed by the byte with bit 5 flipped, and 0x7F. */
module SerialAlpha {

  type Byte = bv8

  const BOT: Byte := 0x7E
  const EOT: Byte := 0x7F
  const ESC: Byte := 0x20

  predicate Special(x: Byte) {
    x == ESC || x == BOT || x == EOT
  }

  function Flip(x: Byte): Byte {
    x ^ 0x20
  }

  lemma FlipTwice(x: Byte)
    ensures Flip(Flip(x)) == x
    ensures Special(x) ==> !Special(Flip(x))
  {
  }

  // ---------- What the conversion means ----------

  function EscapedByte(x: Byte): (e: seq<Byte>)
    ensures 1 <= |e| <= 2
  {
    if Special(x) then [ESC, Flip(x)] else [x]
  }

  function Escaped(p: seq<Byte>): seq<Byte> {
    if p == [] then [] else EscapedByte(p[0]) + Escaped(p[1..])
  }

  /** A lone ESC at the end stands for nothing: the byte after it lies outside the buffer. */
  function Unescaped(s: seq<Byte>): (r: seq<Byte>)
    ensures |r| <= |s|
  {
    if s == [] then []
    else if s[0] != ESC then [s[0]] + Unescaped(s[1..])
    else if |s| == 1 then []
    else [Flip(s[1])] + Unescaped(s[2..])
  }

  function Framed(p: seq<Byte>): seq<Byte> {
    [BOT] + Escaped(p) + [EOT]
  }

  /** What the caller may pass: the source reads the first byte and, in a frame, drops both ends. */
  predicate Convertible(s: seq<Byte>) {
    |s| > 0 && (s[0] == BOT ==> |s| >= 2)
  }

  function Converted(s: seq<Byte>): seq<Byte>
    requires Convertible(s)
  {
    if s[0] == BOT then Unescaped(s[1..|s| - 1]) else Framed(s)
  }

  /** The number of bytes that need an escape. */
  function SpecialCount(p: seq<Byte>): nat {
    if p == [] then 0 else (if Special(p[0]) then 1 else 0) + SpecialCount(p[1..])
  }

  // ---------- Round trip and framing ----------

  lemma {:induction false} UnescapedEscaped(p: seq<Byte>)
    ensures Unescaped(Escaped(p)) == p
  {
    if p != [] {
      UnescapedEscaped(p[1..]);
      FlipTwice(p[0]);
      var e, rest := Escaped(p), Escaped(p[1..]);
      if Special(p[0]) {
        assert e[0] == ESC && e[1] == Flip(p[0]) && e[2..] == rest;
      } else {
        assert e[0] == p[0] && e[1..] == rest;
      }
    }
  }

  /** Framing and then normalising gives every nonempty payload back, unless it starts with the
      frame marker: such a payload is taken for a frame the first time (see MarkerIsNotFramed). */
  lemma {:induction false} RoundTrip(p: seq<Byte>)
    requires p != [] && p[0] != BOT
    ensures Convertible(Converted(p)) && Converted(Converted(p)) == p
  {
    UnescapedEscaped(p);
    var f := Framed(p);
    assert f[1..|f| - 1] == Escaped(p);
  }

  /** A payload that starts with the marker comes back at least two bytes shorter, never framed. */
  lemma {:induction false} MarkerIsNotFramed(p: seq<Byte>)
    requires |p| >= 2 && p[0] == BOT
    ensures |Converted(p)| <= |p| - 2
    ensures Converted(p) != Framed(p)
    ensures Convertible(Converted(p)) && Converted(Converted(p)) == p
            ==> Converted(p)[0] != BOT && p == Framed(Converted(p))
  {
    FrameShape(p);
  }

  /** The escaped bytes hold neither marker, and each escape costs exactly one byte. */
  lemma {:induction false} FrameShape(p: seq<Byte>)
    ensures |Framed(p)| == |p| + 2 + SpecialCount(p)
    ensures BOT !in Escaped(p) && EOT !in Escaped(p)
  {
    if p != [] {
      FrameShape(p[1..]);
      EscapedByteShape(p[0]);
      hide EscapedByte;
      var e, rest := EscapedByte(p[0]), Escaped(p[1..]);
      assert Escaped(p) == e + rest;
    }
  }

  lemma EscapedByteShape(x: Byte)
    ensures BOT !in EscapedByte(x) && EOT !in EscapedByte(x)
    ensures |EscapedByte(x)| == if Special(x) then 2 else 1
  {
  }

  // ---------- Reading frames back from the line ----------

  /** The receiver takes bytes up to and including the first EOT. */
  function FirstFrame(line: seq<Byte>): (n: nat)
    requires EOT in line
    ensures 0 < n <= |line| && line[n - 1] == EOT && EOT !in line[..n - 1]
  {
    if line[0] == EOT then 1 else
      var n := 1 + FirstFrame(line[1..]);
      assert line[..n - 1] == [line[0]] + line[1..][..n - 2];
      n
  }

  lemma FirstFrameIs(line: seq<Byte>, n: nat)
    requires 0 < n <= |line| && line[n - 1] == EOT && EOT !in line[..n - 1]
    ensures FirstFrame(line) == n
  {
    var m := FirstFrame(line);
    assert forall i :: 0 <= i < n - 1 ==> line[i] == line[..n - 1][i];
    assert forall i :: 0 <= i < m - 1 ==> line[i] == line[..m - 1][i];
  }

  function Sent(payloads: seq<seq<Byte>>): seq<Byte>
    requires forall i :: 0 <= i < |payloads| ==> Convertible(payloads[i])
  {
    if payloads == [] then [] else Converted(payloads[0]) + Sent(payloads[1..])
  }

  /** Cuts a line into frames and normalises each. */
  function Received(line: seq<Byte>, count: nat): (r: seq<seq<Byte>>)
    decreases count
  {
    if count == 0 || EOT !in line then [] else
      var n := FirstFrame(line);
      if !Convertible(line[..n]) then [] else
        [Converted(line[..n])] + Received(line[n..], count - 1)
  }

  lemma FirstFrameOfSent(p: seq<Byte>, tail: seq<Byte>)
    requires p != [] && p[0] != BOT
    ensures var line := Converted(p) + tail;
            EOT in line && FirstFrame(line) == |Converted(p)|
  {
    FrameShape(p);
    var f := Framed(p);
    var line := f + tail;
    assert line[|f| - 1] == EOT;
    assert line[..|f| - 1] == [BOT] + Escaped(p);
    FirstFrameIs(line, |f|);
  }

  lemma ReceivedStep(f: seq<Byte>, tail: seq<Byte>, count: nat)
    requires EOT in f + tail && FirstFrame(f + tail) == |f| && Convertible(f)
    ensures Received(f + tail, count + 1) == [Converted(f)] + Received(tail, count)
  {
    hide FirstFrame, Converted;
    assert (f + tail)[..|f|] == f && (f + tail)[|f|..] == tail;
  }

  /** Any sequence of framed payloads is cut at exactly the frame boundaries and read back. */
  lemma {:induction false} LineRoundTrip(payloads: seq<seq<Byte>>, rest: seq<Byte>)
    requires forall i :: 0 <= i < |payloads| ==> payloads[i] != [] && payloads[i][0] != BOT
    ensures Received(Sent(payloads) + rest, |payloads|) == payloads
  {
    hide Converted, FirstFrame, Received;
    if payloads == [] {
      assert Received(Sent([]) + rest, 0) == [] by { ReceivedNone(Sent([]) + rest); }
    } else {
      var p, later := payloads[0], payloads[1..];
      LineRoundTrip(later, rest);
      RoundTrip(p);
      var f, tail := Converted(p), Sent(later) + rest;
      FirstFrameOfSent(p, tail);
      ReceivedStep(f, tail, |later|);
      assert Sent(payloads) + rest == f + tail;
    }
  }

  lemma ReceivedNone(line: seq<Byte>)
    ensures Received(line, 0) == []
  {
  }

  // ---------- The code ----------

  /** C's memmove inside one buffer. */
  method Memmove(buf: array<Byte>, dst: nat, src: nat, n: nat)
    requires dst + n <= buf.Length && src + n <= buf.Length
    modifies buf
    ensures forall k :: dst <= k < dst + n ==> buf[k] == old(buf[k - dst + src])
    ensures forall k :: 0 <= k < dst || dst + n <= k < buf.Length ==> buf[k] == old(buf[k])
  {
    forall k | 0 <= k < n {
      buf[dst + k] := buf[src + k];
    }
  }

  lemma {:induction false} EscapedAppend(p: seq<Byte>, x: Byte)
    ensures Escaped(p + [x]) == Escaped(p) + EscapedByte(x)
  {
    hide EscapedByte;
    if p == [] {
      assert p + [x] == [x] && [x][1..] == [];
    } else {
      EscapedAppend(p[1..], x);
      assert (p + [x])[0] == p[0] && (p + [x])[1..] == p[1..] + [x];
    }
  }

  /** Opens a gap before `buf[i]` and escapes it.  The `memmove` copies `l` bytes from `i` on although
      only `l - i` belong to the message, so bytes behind the message must belong to the buffer. */
  method EscapeAt(buf: array<Byte>, i: nat, l: nat)
    requires i < l && i + 1 + l <= buf.Length
    modifies buf
    ensures forall k :: 0 <= k < i ==> buf[k] == old(buf[k])
    ensures buf[i] == ESC && buf[i + 1] == Flip(old(buf[i]))
    ensures forall k :: i + 2 <= k < l + 1 ==> buf[k] == old(buf[k - 1])
  {
    hide Flip;
    buf[i] := Flip(buf[i]);
    Memmove(buf, i + 1, i, l);
    buf[i] := ESC;
  }

  /** The loop body of the framing loop: `done` is framed, `todo` is not. */
  method EscapeStep(buf: array<Byte>, i0: nat, l0: nat, ghost done: seq<Byte>, ghost todo: seq<Byte>)
    returns (i: nat, l: nat)
    requires i0 < l0 && i0 + 1 + l0 <= buf.Length
    requires |done| == i0 && buf[..l0] == done + todo
    modifies buf
    ensures i == i0 + |EscapedByte(todo[0])| && l - i == l0 - i0 - 1 && l <= buf.Length
    ensures buf[..l] == done + EscapedByte(todo[0]) + todo[1..]
  {
    hide Flip;
    i, l := i0, l0;
    assert forall k :: 0 <= k < l0 ==> buf[k] == (done + todo)[k];
    assert buf[i] == todo[0];
    if buf[i] == ESC || buf[i] == BOT || buf[i] == EOT {
      EscapeAt(buf, i, l);
      l := l + 1;
      i := i + 1;
    }
    i := i + 1;
  }

  method ToAlphastar(buf: array<Byte>, l0: nat) returns (l: nat)
    requires 4 * l0 + 4 <= buf.Length
    modifies buf
    ensures l <= buf.Length && buf[..l] == Framed(old(buf[..l0]))
  {
    ghost var p := buf[..l0];
    l := InsertBot(buf, l0);
    l := EscapeAll(buf, l, p);
    buf[l] := EOT;
    l := l + 1;
    assert buf[..l] == buf[..l - 1] + [EOT];
  }

  method InsertBot(buf: array<Byte>, l0: nat) returns (l: nat)
    requires l0 < buf.Length
    modifies buf
    ensures l == l0 + 1 && buf[..l] == [BOT] + old(buf[..l0])
  {
    hide *;
    l := l0;
    ghost var p := buf[..l0];
    Memmove(buf, 1, 0, l);
    l := l + 1;
    buf[0] := BOT;
    ghost var q := [BOT] + p;
    assert |q| == l && forall k :: 0 <= k < l ==> buf[k] == q[k];
    assert buf[..l] == q;
  }

  method EscapeAll(buf: array<Byte>, l0: nat, ghost p: seq<Byte>) returns (l: nat)
    requires 4 * l0 <= buf.Length && l0 <= buf.Length && buf[..l0] == [BOT] + p
    modifies buf
    ensures l < 2 * l0 && buf[..l] == [BOT] + Escaped(p)
  {
    ghost var done, todo := [BOT], p;
    assert [BOT] + Escaped([]) == [BOT];
    hide Escaped, EscapedByte;
    l := l0;
    var i := 1;
    ghost var j := 0;
    while i < l
      invariant 0 <= j <= |p| && todo == p[j..] && done == [BOT] + Escaped(p[..j])
      invariant i == |done| <= 1 + 2 * j && l == |done| + |todo|
      invariant buf[..l] == done + todo
      decreases |todo|
    {
      EscapedAppend(p[..j], p[j]);
      assert p[..j] + [p[j]] == p[..j + 1];
      i, l := EscapeStep(buf, i, l, done, todo);
      done, todo := done + EscapedByte(todo[0]), todo[1..];
      j := j + 1;
    }
    assert p[..j] == p && done + todo == done;
  }

  /** Drops the ESC at `i` and restores the byte behind it. */
  method UnescapeAt(buf: array<Byte>, i: nat, l: nat)
    requires i < l && i + l <= buf.Length
    modifies buf
    ensures forall k :: 0 <= k < i ==> buf[k] == old(buf[k])
    ensures i + 1 < l ==> buf[i] == Flip(old(buf[i + 1]))
    ensures forall k :: i < k < l - 1 ==> buf[k] == old(buf[k + 1])
  {
    hide Flip;
    Memmove(buf, i, i + 1, l - 1);
    buf[i] := Flip(buf[i]);
  }

  lemma UnescapedStep(s: seq<Byte>)
    ensures Unescaped([]) == []
    ensures |s| > 1 && s[0] == ESC ==> Unescaped(s) == [Flip(s[1])] + Unescaped(s[2..])
    ensures |s| == 1 && s[0] == ESC ==> Unescaped(s) == []
    ensures s != [] && s[0] != ESC ==> Unescaped(s) == [s[0]] + Unescaped(s[1..])
  {
  }

  /** The loop body of the normalising loop; it returns what is done and what is left. */
  method UnescapeStep(buf: array<Byte>, i: nat, l0: nat, ghost done0: seq<Byte>, ghost todo0: seq<Byte>)
    returns (l: nat, ghost done: seq<Byte>, ghost todo: seq<Byte>)
    requires i < l0 && i + l0 <= buf.Length
    requires |done0| == i && buf[..l0] == done0 + todo0
    modifies buf
    ensures l <= l0 && buf[..l] == done + todo && |todo| < |todo0|
    ensures done + Unescaped(todo) == done0 + Unescaped(todo0)
    ensures |done| == i + 1 || (l == i == |done| && todo == [])
  {
    hide Flip, Unescaped;
    l := l0;
    assert forall k :: 0 <= k < l0 ==> buf[k] == (done0 + todo0)[k];
    assert buf[i] == todo0[0];
    UnescapedStep(todo0);
    if buf[i] == ESC {
      UnescapeAt(buf, i, l);
      l := l - 1;
      if |todo0| > 1 {
        done, todo := done0 + [Flip(todo0[1])], todo0[2..];
      } else {
        done, todo := done0, [];
        UnescapedStep(todo);
      }
    } else {
      done, todo := done0 + [todo0[0]], todo0[1..];
    }
  }

  method FromAlphastar(buf: array<Byte>, l0: nat) returns (l: nat)
    requires 2 <= l0 && 2 * l0 <= buf.Length
    modifies buf
    ensures l <= buf.Length && buf[..l] == Unescaped(old(buf[1..l0 - 1]))
  {
    hide Flip, Unescaped;
    ghost var body := buf[1..l0 - 1];
    l := l0 - 2;
    Memmove(buf, 0, 1, l);
    var i := 0;
    ghost var done, todo := [], body;
    while i < l
      invariant l <= l0 - 2 && buf[..l] == done + todo
      invariant Unescaped(body) == done + Unescaped(todo)
      invariant |done| == i || (i == l + 1 && todo == [])
      decreases |todo|
    {
      l, done, todo := UnescapeStep(buf, i, l, done, todo);
      i := i + 1;
    }
    UnescapedStep(todo);
    assert todo == [];
  }

  method AlphaConvert(buf: array<Byte>, l0: nat) returns (l: nat)
    requires 4 * l0 + 4 <= buf.Length && Convertible(buf[..l0])
    modifies buf
    ensures l <= buf.Length && buf[..l] == Converted(old(buf[..l0]))
  {
    if buf[0] == BOT {
      ghost var s := buf[..l0];
      assert s[1..|s| - 1] == buf[1..l0 - 1];
      l := FromAlphastar(buf, l0);
    } else {
      l := ToAlphastar(buf, l0);
    }
  }

  /** The read-until-EOT rule: one byte at a time until the last one read is EOT.  `None` is a line
      that ends first. */
  method ReceiveFrame(line: seq<Byte>) returns (complete: bool, n: nat)
    ensures complete <==> EOT in line
    ensures complete ==> n == FirstFrame(line)
  {
    n := 0;
    complete := false;
    while n < |line| && !complete
      invariant n <= |line|
      invariant !complete ==> EOT !in line[..n]
      invariant complete ==> 0 < n && line[n - 1] == EOT && EOT !in line[..n - 1]
    {
      n := n + 1;
      assert line[..n] == line[..n - 1] + [line[n - 1]];
      complete := line[n - 1] == EOT;
    }
    if complete {
      FirstFrameIs(line, n);
    } else {
      assert line[..n] == line;
    }
  }
}
