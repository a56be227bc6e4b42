/** The gbox buffer cipher (oscam/module-gbox.c, lines 77-196).

    Two 32-round mixers work in place on an 8-byte window while a 4-byte key is rotated by one bit
    per round.  `Encrypt` runs mixer A on the head of the buffer, chains neighbouring bytes with
    xor, runs the second mixer forwards on the head and backwards on the window that ends one byte
    before the end of the buffer.  The two windows overlap in buffers shorter than 17 bytes.

    Bytes are `bv8`, so every addition and subtraction wraps as it does in an `unsigned char`. */
module Gbox {

  type Byte = bv8
  type Table = t: seq<Byte> | |t| == 64 witness LOOKUP_TABLE
  type Window = w: seq<Byte> | |w| == 8 witness [0, 0, 0, 0, 0, 0, 0, 0]

  /** The table the daemon uses.  Nothing below depends on its entries. */
  const LOOKUP_TABLE: seq<Byte> := [
    0x25, 0x38, 0xD4, 0xCD, 0x17, 0x7A, 0x5E, 0x6C, 0x52, 0x42, 0xFE, 0x68, 0xAB, 0x3F, 0xF7, 0xBE,
    0x47, 0x57, 0x71, 0xB0, 0x23, 0xC1, 0x26, 0x6C, 0x41, 0xCE, 0x94, 0x37, 0x45, 0x04, 0xA2, 0xEA,
    0x07, 0x58, 0x35, 0x55, 0x08, 0x2A, 0x0F, 0xE7, 0xAC, 0x76, 0xF0, 0xC1, 0xE6, 0x09, 0x10, 0xDD,
    0xC5, 0x8D, 0x2E, 0xD9, 0x03, 0x9C, 0x3D, 0x2C, 0x4D, 0x41, 0x0C, 0x5E, 0xDE, 0xE4, 0x90, 0xAE]

  const ROUNDS: nat := 32

  // ---------- The rotating key ----------

  datatype Key = Key(p0: Byte, p1: Byte, p2: Byte, p3: Byte) {
    /** `pass[i & 3]` */
    function At(i: nat): Byte {
      match i % 4 case 0 => p0 case 1 => p1 case 2 => p2 case _ => p3
    }
  }

  /** One bit to the right over all 32 bits, the last bit of `p3` re-entering at the top of `p0`. */
  function RotateRight(k: Key): Key {
    Key(k.p0 / 2 + (k.p3 & 1) * 0x80, k.p1 / 2 + (k.p0 & 1) * 0x80,
        k.p2 / 2 + (k.p1 & 1) * 0x80, k.p3 / 2 + (k.p2 & 1) * 0x80)
  }

  function RotateLeft(k: Key): Key {
    Key((k.p0 << 1) + ((k.p1 & 0x80) >> 7), (k.p1 << 1) + ((k.p2 & 0x80) >> 7),
        (k.p2 << 1) + ((k.p3 & 0x80) >> 7), (k.p3 << 1) + ((k.p0 & 0x80) >> 7))
  }

  function RotatedRight(k: Key, n: nat): Key {
    if n == 0 then k else RotateRight(RotatedRight(k, n - 1))
  }

  lemma RotationsCancel(k: Key)
    ensures RotateLeft(RotateRight(k)) == k
    ensures RotateRight(RotateLeft(k)) == k
  {
  }

  /** Eight one-bit rotations move every byte one place, so 32 of them are the identity. */
  lemma {:induction false} FullTurn(k: Key)
    ensures RotatedRight(k, 32) == k
  {
    ByteTurn(k, 0);
    ByteTurn(k, 8);
    ByteTurn(k, 16);
    ByteTurn(k, 24);
  }

  lemma {:induction false} ByteTurn(k: Key, n: nat)
    ensures var r := RotatedRight(k, n);
            RotatedRight(k, n + 8) == Key(r.p3, r.p0, r.p1, r.p2)
  {
    var r := RotatedRight(k, n);
    var r2 := RotateRight(RotateRight(r));
    assert RotatedRight(k, n + 2) == r2 by { assert RotatedRight(k, n + 1) == RotateRight(r); }
    var r4 := RotateRight(RotateRight(r2));
    assert RotatedRight(k, n + 4) == r4 by { assert RotatedRight(k, n + 3) == RotateRight(r2); }
    var r6 := RotateRight(RotateRight(r4));
    assert RotatedRight(k, n + 6) == r6 by { assert RotatedRight(k, n + 5) == RotateRight(r4); }
    assert RotatedRight(k, n + 8) == RotateRight(RotateRight(r6)) by {
      assert RotatedRight(k, n + 7) == RotateRight(r6);
    }
  }

  // ---------- One round, both mixers ----------

  datatype Mixer = Eight | A

  function Plus(x: Byte, y: Byte): Byte { x + y }

  function Minus(x: Byte, y: Byte): Byte { x - y }

  function Xor(x: Byte, y: Byte): Byte { x ^ y }

  function Twice(x: Byte): Byte { x * 2 }

  function Quarter(x: Byte): Byte { x >> 2 }

  lemma ByteLaws(x: Byte, y: Byte)
    ensures Plus(y, Minus(x, y)) == x
    ensures Minus(Plus(y, x), y) == x
    ensures Xor(x, Xor(x, y)) == y
  {
  }

  /** `Lookup_Table[x & 0x3F]` */
  function Lookup(t: Table, x: Byte): Byte {
    t[x & 0x3F]
  }

  /** The first table byte of a round: `y` is the byte before the one replaced, `p` the key byte
      `pass[(b + 1) & 3]`. */
  function Grain(t: Table, y: Byte, p: Byte): Byte {
    Lookup(t, Minus(y, p))
  }

  /** The second table byte of a round. */
  function Spice(m: Mixer, t: Table, y: Byte, p: Byte): Byte {
    match m
    case Eight => Lookup(t, Quarter(y))
    case A => Twice(Lookup(t, Quarter(Xor(p, y))))
  }

  /** The byte a forward round writes over `x`; `q` is the key byte `pass[b & 3]`. */
  function Put(m: Mixer, t: Table, x: Byte, y: Byte, p: Byte, q: Byte): Byte {
    var g, e := Grain(t, y, p), Spice(m, t, y, p);
    match m
    case Eight => Minus(Xor(g, Minus(x, e)), q)
    case A => Plus(q, Xor(g, Plus(e, x)))
  }

  /** The byte a backward round writes over `x`. */
  function Unput(m: Mixer, t: Table, x: Byte, y: Byte, p: Byte, q: Byte): Byte {
    var g, e := Grain(t, y, p), Spice(m, t, y, p);
    match m
    case Eight => Plus(e, Xor(g, Plus(q, x)))
    case A => Minus(Xor(g, Minus(x, q)), e)
  }

  lemma UnputPut(m: Mixer, t: Table, x: Byte, y: Byte, p: Byte, q: Byte)
    ensures Unput(m, t, Put(m, t, x, y, p, q), y, p, q) == x
    ensures Put(m, t, Unput(m, t, x, y, p, q), y, p, q) == x
  {
    hide Plus, Minus, Xor, Grain, Spice;
    var g, e := Grain(t, y, p), Spice(m, t, y, p);
    var xe, qx := Minus(x, e), Plus(q, x);
    var ex, xq := Plus(e, x), Minus(x, q);
    ByteLaws(x, e);
    ByteLaws(x, q);
    ByteLaws(g, xe);
    ByteLaws(g, qx);
    ByteLaws(g, ex);
    ByteLaws(g, xq);
    ByteLaws(Xor(g, xe), q);
    ByteLaws(Xor(g, qx), e);
    ByteLaws(Xor(g, ex), q);
    ByteLaws(Xor(g, xq), e);
  }

  function Mix(m: Mixer, t: Table, w: Window, k: Key, b: nat): Window
    requires b < 8
  {
    var n := (b + 1) % 8;
    w[n := Put(m, t, w[n], w[b], k.At(b + 1), k.At(b))]
  }

  function Unmix(m: Mixer, t: Table, w: Window, k: Key, b: nat): Window
    requires b < 8
  {
    var n := (b + 1) % 8;
    w[n := Unput(m, t, w[n], w[b], k.At(b + 1), k.At(b))]
  }

  lemma UnmixMix(m: Mixer, t: Table, w: Window, k: Key, b: nat)
    requires b < 8
    ensures Unmix(m, t, Mix(m, t, w, k, b), k, b) == w
    ensures Mix(m, t, Unmix(m, t, w, k, b), k, b) == w
  {
    hide Put, Unput, Key.At;
    UnputPut(m, t, w[(b + 1) % 8], w[b], k.At(b + 1), k.At(b));
  }

  // ---------- Thirty-two rounds ----------

  datatype State = State(w: Window, k: Key)

  /** The window byte that the forward round after `i` earlier ones reads. */
  function ForwardByte(i: nat): (b: nat)
    ensures b < 8
  {
    7 - i % 8
  }

  function Forward(m: Mixer, t: Table, s: State, n: nat): State
  {
    if n == 0 then s else
      var p := Forward(m, t, s, n - 1);
      var k := RotateRight(p.k);
      State(Mix(m, t, p.w, k, ForwardByte(n - 1)), k)
  }

  function Backward(m: Mixer, t: Table, s: State, n: nat): State
  {
    if n == 0 then s else
      var p := Backward(m, t, s, n - 1);
      State(Unmix(m, t, p.w, p.k, (n - 1) % 8), RotateLeft(p.k))
  }

  lemma {:induction false} ForwardKey(m: Mixer, t: Table, s: State, n: nat)
    ensures Forward(m, t, s, n).k == RotatedRight(s.k, n)
  {
    if n > 0 { ForwardKey(m, t, s, n - 1); }
  }

  /** Backward round `n - 1` works on the byte of the forward round it has to undo. */
  lemma BytesMeet(n: nat)
    requires 0 < n <= ROUNDS
    ensures ForwardByte(ROUNDS - n) == (n - 1) % 8
  {
  }

  /** After `n` backward rounds on a forward-mixed state, the last `n` forward rounds are undone. */
  lemma {:induction false} BackwardUndoes(m: Mixer, t: Table, s: State, n: nat)
    requires n <= ROUNDS
    ensures Backward(m, t, Forward(m, t, s, ROUNDS), n) == Forward(m, t, s, ROUNDS - n)
  {
    hide Mix, Unmix, RotateRight, RotateLeft;
    if n > 0 {
      BackwardUndoes(m, t, s, n - 1);
      var p := Forward(m, t, s, ROUNDS - n);
      var k := RotateRight(p.k);
      BytesMeet(n);
      assert Forward(m, t, s, ROUNDS - (n - 1)) == State(Mix(m, t, p.w, k, (n - 1) % 8), k);
      UnmixMix(m, t, p.w, k, (n - 1) % 8);
      RotationsCancel(p.k);
    }
  }

  lemma {:induction false} ForwardUndoes(m: Mixer, t: Table, s: State, n: nat)
    requires n <= ROUNDS
    ensures Forward(m, t, Backward(m, t, s, ROUNDS), n) == Backward(m, t, s, ROUNDS - n)
  {
    hide Mix, Unmix, RotateRight, RotateLeft;
    if n > 0 {
      ForwardUndoes(m, t, s, n - 1);
      var p := Backward(m, t, s, ROUNDS - n);
      BytesMeet(ROUNDS + 1 - n);
      UnmixMix(m, t, p.w, p.k, (ROUNDS - n) % 8);
      RotationsCancel(p.k);
    }
  }

  /** Each mixer's two directions invert each other in both orders, and both give the key back. */
  lemma {:induction false} MixerInverse(m: Mixer, t: Table, s: State)
    ensures Backward(m, t, Forward(m, t, s, ROUNDS), ROUNDS) == s
    ensures Forward(m, t, Backward(m, t, s, ROUNDS), ROUNDS) == s
    ensures Forward(m, t, s, ROUNDS).k == s.k == Backward(m, t, s, ROUNDS).k
  {
    BackwardUndoes(m, t, s, ROUNDS);
    ForwardUndoes(m, t, s, ROUNDS);
    ForwardKey(m, t, s, ROUNDS);
    FullTurn(s.k);
    var b := Backward(m, t, s, ROUNDS);
    ForwardKey(m, t, b, ROUNDS);
    FullTurn(b.k);
  }

  // ---------- Whole buffers ----------

  /** `s` with the window at `base` replaced by `w`. */
  function Splice(s: seq<Byte>, base: nat, w: Window): (r: seq<Byte>)
    requires base + 8 <= |s|
    ensures |r| == |s| && r[base..base + 8] == w
    ensures r[..base] == s[..base] && r[base + 8..] == s[base + 8..]
  {
    s[..base] + w + s[base + 8..]
  }

  /** A round changes one byte of the window, so one byte of the buffer. */
  lemma RoundIsOneByte(m: Mixer, t: Table, s: seq<Byte>, base: nat, k: Key, b: nat)
    requires base + 8 <= |s| && b < 8
    ensures var n, w := (b + 1) % 8, s[base..base + 8];
            Splice(s, base, Mix(m, t, w, k, b))
            == s[base + n := Put(m, t, s[base + n], s[base + b], k.At(b + 1), k.At(b))]
    ensures var n, w := (b + 1) % 8, s[base..base + 8];
            Splice(s, base, Unmix(m, t, w, k, b))
            == s[base + n := Unput(m, t, s[base + n], s[base + b], k.At(b + 1), k.At(b))]
  {
    hide Put, Unput, Key.At;
  }

  function MixedAt(m: Mixer, t: Table, s: seq<Byte>, base: nat, k: Key): (r: seq<Byte>)
    requires base + 8 <= |s|
    ensures |r| == |s|
  {
    Splice(s, base, Forward(m, t, State(s[base..base + 8], k), ROUNDS).w)
  }

  function UnmixedAt(m: Mixer, t: Table, s: seq<Byte>, base: nat, k: Key): (r: seq<Byte>)
    requires base + 8 <= |s|
    ensures |r| == |s|
  {
    Splice(s, base, Backward(m, t, State(s[base..base + 8], k), ROUNDS).w)
  }

  lemma {:induction false} WindowInverse(m: Mixer, t: Table, s: seq<Byte>, base: nat, k: Key)
    requires base + 8 <= |s|
    ensures UnmixedAt(m, t, MixedAt(m, t, s, base, k), base, k) == s
    ensures MixedAt(m, t, UnmixedAt(m, t, s, base, k), base, k) == s
  {
    var st := State(s[base..base + 8], k);
    MixerInverse(m, t, st);
    assert s[..base] + s[base..base + 8] + s[base + 8..] == s;
    var f := Forward(m, t, st, ROUNDS);
    assert State(MixedAt(m, t, s, base, k)[base..base + 8], k) == f;
    var b := Backward(m, t, st, ROUNDS);
    assert State(UnmixedAt(m, t, s, base, k)[base..base + 8], k) == b;
  }

  /** Every byte xored with its right neighbour, left to right; the last byte stays. */
  function Chain(s: seq<Byte>): (r: seq<Byte>)
    ensures |r| == |s|
  {
    if |s| <= 1 then s else [Xor(s[1], s[0])] + Chain(s[1..])
  }

  /** Every byte xored with its already restored right neighbour, right to left. */
  function Unchain(s: seq<Byte>): (r: seq<Byte>)
    ensures |r| == |s|
  {
    if |s| <= 1 then s else
      var rest := Unchain(s[1..]);
      [Xor(rest[0], s[0])] + rest
  }

  lemma {:induction false} ChainInverse(s: seq<Byte>)
    ensures Unchain(Chain(s)) == s
    ensures Chain(Unchain(s)) == s
  {
    hide Xor;
    if |s| > 1 {
      ChainInverse(s[1..]);
      ByteLaws(s[1], s[0]);
      assert Chain(s)[1..] == Chain(s[1..]);
      var rest := Unchain(s[1..]);
      ByteLaws(rest[0], s[0]);
      assert Unchain(s)[1..] == rest;
    }
  }

  function Encrypted(t: Table, s: seq<Byte>, k: Key): (r: seq<Byte>)
    requires |s| >= 9
    ensures |r| == |s|
  {
    var chained := Chain(MixedAt(A, t, s, 0, k));
    UnmixedAt(Eight, t, MixedAt(Eight, t, chained, 0, k), |s| - 9, k)
  }

  function Decrypted(t: Table, s: seq<Byte>, k: Key): (r: seq<Byte>)
    requires |s| >= 9
    ensures |r| == |s|
  {
    var unmixed := UnmixedAt(Eight, t, MixedAt(Eight, t, s, |s| - 9, k), 0, k);
    UnmixedAt(A, t, Unchain(unmixed), 0, k)
  }

  /** Encryption under one key is a bijection on the buffers of every length from 9 on. */
  lemma {:induction false} RoundTrip(t: Table, s: seq<Byte>, k: Key)
    requires |s| >= 9
    ensures Decrypted(t, Encrypted(t, s, k), k) == s
    ensures Encrypted(t, Decrypted(t, s, k), k) == s
  {
    var a := MixedAt(A, t, s, 0, k);
    WindowInverse(A, t, s, 0, k);
    ChainInverse(a);
    WindowInverse(Eight, t, Chain(a), 0, k);
    WindowInverse(Eight, t, MixedAt(Eight, t, Chain(a), 0, k), |s| - 9, k);

    var e := MixedAt(Eight, t, s, |s| - 9, k);
    WindowInverse(Eight, t, s, |s| - 9, k);
    var d := UnmixedAt(Eight, t, e, 0, k);
    WindowInverse(Eight, t, e, 0, k);
    ChainInverse(d);
    WindowInverse(A, t, Unchain(d), 0, k);
  }

  // ---------- The code: in place on the buffer and on the key bytes ----------

  function KeyOf(pass: array<Byte>): Key
    requires pass.Length == 4
    reads pass
  {
    Key(pass[0], pass[1], pass[2], pass[3])
  }

  method RotatePassRight(pass: array<Byte>)
    requires pass.Length == 4
    modifies pass
    ensures KeyOf(pass) == RotateRight(old(KeyOf(pass)))
  {
    var temp := pass[3];
    pass[3] := pass[3] / 2 + (pass[2] & 1) * 0x80;
    pass[2] := pass[2] / 2 + (pass[1] & 1) * 0x80;
    pass[1] := pass[1] / 2 + (pass[0] & 1) * 0x80;
    pass[0] := pass[0] / 2 + (temp & 1) * 0x80;
  }

  method RotatePassLeft(pass: array<Byte>)
    requires pass.Length == 4
    modifies pass
    ensures KeyOf(pass) == RotateLeft(old(KeyOf(pass)))
  {
    var temp := pass[0] & 0x80;
    pass[0] := ((pass[1] & 0x80) >> 7) + (pass[0] << 1);
    pass[1] := ((pass[2] & 0x80) >> 7) + (pass[1] << 1);
    pass[2] := ((pass[3] & 0x80) >> 7) + (pass[2] << 1);
    pass[3] := (temp >> 7) + (pass[3] << 1);
  }

  lemma PassAt(pass: array<Byte>, i: nat)
    requires pass.Length == 4
    ensures pass[i % 4] == KeyOf(pass).At(i)
  {
  }

  /** One round's three updates of `buffer[base + ((b + 1) & 7)]` in gbox_encrypt8. */
  method MixRound8(buffer: array<Byte>, base: nat, pass: array<Byte>, t: Table, b: nat)
    requires base + 8 <= buffer.Length && pass.Length == 4 && pass != buffer && b < 8
    modifies buffer
    ensures buffer[..] == Splice(old(buffer[..]), base,
                                 Mix(Eight, t, old(buffer[base..base + 8]), KeyOf(pass), b))
  {
    hide Plus, Minus, Xor, Twice, Quarter, Lookup, Key.At, Mix, Unmix, Splice;
    ghost var s := buffer[..];
    var n := (b + 1) % 8;
    assert n != b && n < 8;
    PassAt(pass, b);
    PassAt(pass, b + 1);
    buffer[base + n] := Minus(buffer[base + n], Lookup(t, Quarter(buffer[base + b])));
    buffer[base + n] := Xor(Lookup(t, Minus(buffer[base + b], pass[(b + 1) % 4])), buffer[base + n]);
    buffer[base + n] := Minus(buffer[base + n], pass[b % 4]);
    RoundIsOneByte(Eight, t, s, base, KeyOf(pass), b);
  }

  /** One round's three updates in gbox_decrypt8. */
  method UnmixRound8(buffer: array<Byte>, base: nat, pass: array<Byte>, t: Table, b: nat)
    requires base + 8 <= buffer.Length && pass.Length == 4 && pass != buffer && b < 8
    modifies buffer
    ensures buffer[..] == Splice(old(buffer[..]), base,
                                 Unmix(Eight, t, old(buffer[base..base + 8]), KeyOf(pass), b))
  {
    hide Plus, Minus, Xor, Twice, Quarter, Lookup, Key.At, Mix, Unmix, Splice;
    ghost var s := buffer[..];
    var n := (b + 1) % 8;
    assert n != b && n < 8;
    PassAt(pass, b);
    PassAt(pass, b + 1);
    buffer[base + n] := Plus(pass[b % 4], buffer[base + n]);
    var temp := Minus(buffer[base + b], pass[(b + 1) % 4]);
    buffer[base + n] := Xor(Lookup(t, temp), buffer[base + n]);
    temp := Quarter(buffer[base + b]);
    buffer[base + n] := Plus(Lookup(t, temp), buffer[base + n]);
    RoundIsOneByte(Eight, t, s, base, KeyOf(pass), b);
  }

  method Encrypt8(buffer: array<Byte>, base: nat, pass: array<Byte>, t: Table)
    requires base + 8 <= buffer.Length && pass.Length == 4 && pass != buffer
    modifies buffer, pass
    ensures buffer[..] == MixedAt(Eight, t, old(buffer[..]), base, old(KeyOf(pass)))
    ensures KeyOf(pass) == old(KeyOf(pass))
  {
    hide Mix, Unmix, RotateRight, RotateLeft;
    ghost var s := buffer[..];
    ghost var st := State(s[base..base + 8], KeyOf(pass));
    for passcounter := 0 to 4
      invariant KeyOf(pass) == Forward(Eight, t, st, 8 * passcounter).k
      invariant buffer[..] == Splice(s, base, Forward(Eight, t, st, 8 * passcounter).w)
    {
      for bufcounter := 8 downto 0
        invariant KeyOf(pass) == Forward(Eight, t, st, 8 * passcounter + 8 - bufcounter).k
        invariant buffer[..] == Splice(s, base, Forward(Eight, t, st, 8 * passcounter + 8 - bufcounter).w)
      {
        RotatePassRight(pass);
        assert buffer[base..base + 8] == buffer[..][base..base + 8];
        assert ForwardByte(8 * passcounter + 7 - bufcounter) == bufcounter;
        MixRound8(buffer, base, pass, t, bufcounter);
      }
    }
    MixerInverse(Eight, t, st);
  }

  method Decrypt8(buffer: array<Byte>, base: nat, pass: array<Byte>, t: Table)
    requires base + 8 <= buffer.Length && pass.Length == 4 && pass != buffer
    modifies buffer, pass
    ensures buffer[..] == UnmixedAt(Eight, t, old(buffer[..]), base, old(KeyOf(pass)))
    ensures KeyOf(pass) == old(KeyOf(pass))
  {
    hide Mix, Unmix, RotateRight, RotateLeft;
    ghost var s := buffer[..];
    ghost var st := State(s[base..base + 8], KeyOf(pass));
    for passcounter := 4 downto 0
      invariant KeyOf(pass) == Backward(Eight, t, st, 8 * (4 - passcounter)).k
      invariant buffer[..] == Splice(s, base, Backward(Eight, t, st, 8 * (4 - passcounter)).w)
    {
      for bufcounter := 0 to 8
        invariant KeyOf(pass) == Backward(Eight, t, st, 8 * (3 - passcounter) + bufcounter).k
        invariant buffer[..] == Splice(s, base, Backward(Eight, t, st, 8 * (3 - passcounter) + bufcounter).w)
      {
        assert buffer[base..base + 8] == buffer[..][base..base + 8];
        assert (8 * (3 - passcounter) + bufcounter) % 8 == bufcounter;
        UnmixRound8(buffer, base, pass, t, bufcounter);
        RotatePassLeft(pass);
      }
    }
    MixerInverse(Eight, t, st);
  }

  method MixRoundA(buffer: array<Byte>, pass: array<Byte>, t: Table, b: nat)
    requires 8 <= buffer.Length && pass.Length == 4 && pass != buffer && b < 8
    modifies buffer
    ensures buffer[..] == Splice(old(buffer[..]), 0, Mix(A, t, old(buffer[0..8]), KeyOf(pass), b))
  {
    hide Plus, Minus, Xor, Twice, Quarter, Lookup, Key.At, Mix, Unmix, Splice;
    ghost var s := buffer[..];
    var n := (b + 1) % 8;
    assert n != b && n < 8;
    PassAt(pass, b);
    PassAt(pass, b + 1);
    var temp := Quarter(Xor(pass[(b + 1) % 4], buffer[b]));
    buffer[n] := Plus(Twice(Lookup(t, temp)), buffer[n]);
    temp := Minus(buffer[b], pass[(b + 1) % 4]);
    buffer[n] := Xor(Lookup(t, temp), buffer[n]);
    buffer[n] := Plus(pass[b % 4], buffer[n]);
    RoundIsOneByte(A, t, s, 0, KeyOf(pass), b);
  }

  method UnmixRoundA(buffer: array<Byte>, pass: array<Byte>, t: Table, b: nat)
    requires 8 <= buffer.Length && pass.Length == 4 && pass != buffer && b < 8
    modifies buffer
    ensures buffer[..] == Splice(old(buffer[..]), 0, Unmix(A, t, old(buffer[0..8]), KeyOf(pass), b))
  {
    hide Plus, Minus, Xor, Twice, Quarter, Lookup, Key.At, Mix, Unmix, Splice;
    ghost var s := buffer[..];
    var n := (b + 1) % 8;
    assert n != b && n < 8;
    PassAt(pass, b);
    PassAt(pass, b + 1);
    buffer[n] := Minus(buffer[n], pass[b % 4]);
    var temp := Minus(buffer[b], pass[(b + 1) % 4]);
    buffer[n] := Xor(Lookup(t, temp), buffer[n]);
    temp := Quarter(Xor(pass[(b + 1) % 4], buffer[b]));
    buffer[n] := Minus(buffer[n], Twice(Lookup(t, temp)));
    RoundIsOneByte(A, t, s, 0, KeyOf(pass), b);
  }

  method EncryptA(buffer: array<Byte>, pass: array<Byte>, t: Table)
    requires 8 <= buffer.Length && pass.Length == 4 && pass != buffer
    modifies buffer, pass
    ensures buffer[..] == MixedAt(A, t, old(buffer[..]), 0, old(KeyOf(pass)))
    ensures KeyOf(pass) == old(KeyOf(pass))
  {
    hide Mix, Unmix, RotateRight, RotateLeft;
    ghost var s := buffer[..];
    ghost var st := State(s[0..8], KeyOf(pass));
    for counter := 32 downto 0
      invariant KeyOf(pass) == Forward(A, t, st, 32 - counter).k
      invariant buffer[..] == Splice(s, 0, Forward(A, t, st, 32 - counter).w)
    {
      RotatePassRight(pass);
      assert buffer[0..8] == buffer[..][0..8];
      assert ForwardByte(31 - counter) == counter % 8;
      MixRoundA(buffer, pass, t, counter % 8);
    }
    MixerInverse(A, t, st);
  }

  method DecryptA(buffer: array<Byte>, pass: array<Byte>, t: Table)
    requires 8 <= buffer.Length && pass.Length == 4 && pass != buffer
    modifies buffer, pass
    ensures buffer[..] == UnmixedAt(A, t, old(buffer[..]), 0, old(KeyOf(pass)))
    ensures KeyOf(pass) == old(KeyOf(pass))
  {
    hide Mix, Unmix, RotateRight, RotateLeft;
    ghost var s := buffer[..];
    ghost var st := State(s[0..8], KeyOf(pass));
    for counter := 0 to 32
      invariant KeyOf(pass) == Backward(A, t, st, counter).k
      invariant buffer[..] == Splice(s, 0, Backward(A, t, st, counter).w)
    {
      assert buffer[0..8] == buffer[..][0..8];
      UnmixRoundA(buffer, pass, t, counter % 8);
      RotatePassLeft(pass);
    }
    MixerInverse(A, t, st);
  }

  method EncryptB(buffer: array<Byte>, key: array<Byte>, t: Table)
    requires 9 <= buffer.Length && key.Length == 4 && key != buffer
    modifies buffer, key
    ensures buffer[..] == UnmixedAt(Eight, t, MixedAt(Eight, t, Chain(old(buffer[..])), 0, old(KeyOf(key))),
                                    buffer.Length - 9, old(KeyOf(key)))
    ensures KeyOf(key) == old(KeyOf(key))
  {
    hide Xor, MixedAt, UnmixedAt, Chain;
    ghost var s := buffer[..];
    for counter := 0 to buffer.Length - 1
      invariant forall i :: counter <= i < buffer.Length ==> buffer[i] == s[i]
      invariant forall i :: 0 <= i < counter ==> buffer[i] == Xor(s[i + 1], s[i])
      invariant KeyOf(key) == old(KeyOf(key))
    {
      buffer[counter] := Xor(buffer[counter + 1], buffer[counter]);
    }
    ChainAt(s);
    assert buffer[buffer.Length - 1] == Chain(s)[|s| - 1];
    forall i | 0 <= i < |s| - 1 ensures buffer[i] == Chain(s)[i] {
      assert buffer[i] == Xor(s[i + 1], s[i]);
    }
    assert buffer[..] == Chain(s);
    Encrypt8(buffer, 0, key, t);
    Decrypt8(buffer, buffer.Length - 9, key, t);
  }

  lemma {:induction false} ChainAt(s: seq<Byte>)
    ensures forall i :: 0 <= i < |s| - 1 ==> Chain(s)[i] == Xor(s[i + 1], s[i])
    ensures |s| > 0 ==> Chain(s)[|s| - 1] == s[|s| - 1]
  {
    hide Xor;
    if |s| > 1 {
      ChainAt(s[1..]);
      forall i | 0 <= i < |s| - 1 ensures Chain(s)[i] == Xor(s[i + 1], s[i]) {
        if i > 0 {
          assert Chain(s)[i] == Chain(s[1..])[i - 1];
        }
      }
    }
  }

  /** The closing loop of gbox_decryptB. */
  method UnchainInPlace(buffer: array<Byte>)
    requires buffer.Length > 0
    modifies buffer
    ensures buffer[..] == Unchain(old(buffer[..]))
  {
    hide Xor;
    ghost var s := buffer[..];
    assert buffer[buffer.Length - 1..] == Unchain(s[buffer.Length - 1..]);
    for counter := buffer.Length - 1 downto 0
      invariant buffer[..counter] == s[..counter]
      invariant buffer[counter..] == Unchain(s[counter..])
    {
      ghost var rest := buffer[counter + 1..];
      assert s[counter..][1..] == s[counter + 1..];
      buffer[counter] := Xor(buffer[counter + 1], buffer[counter]);
      assert buffer[counter..] == [Xor(rest[0], s[counter])] + rest;
    }
    assert buffer[0..] == buffer[..] && s[0..] == s;
  }

  method DecryptB(buffer: array<Byte>, key: array<Byte>, t: Table)
    requires 9 <= buffer.Length && key.Length == 4 && key != buffer
    modifies buffer, key
    ensures buffer[..] == Unchain(UnmixedAt(Eight, t, MixedAt(Eight, t, old(buffer[..]), buffer.Length - 9,
                                            old(KeyOf(key))), 0, old(KeyOf(key))))
    ensures KeyOf(key) == old(KeyOf(key))
  {
    hide Unchain, MixedAt, UnmixedAt;
    Encrypt8(buffer, buffer.Length - 9, key, t);
    Decrypt8(buffer, 0, key, t);
    UnchainInPlace(buffer);
  }

  method Encrypt(buffer: array<Byte>, key: array<Byte>, t: Table)
    requires 9 <= buffer.Length && key.Length == 4 && key != buffer
    modifies buffer, key
    ensures buffer[..] == Encrypted(t, old(buffer[..]), old(KeyOf(key)))
    ensures KeyOf(key) == old(KeyOf(key))
  {
    EncryptA(buffer, key, t);
    EncryptB(buffer, key, t);
  }

  method Decrypt(buffer: array<Byte>, key: array<Byte>, t: Table)
    requires 9 <= buffer.Length && key.Length == 4 && key != buffer
    modifies buffer, key
    ensures buffer[..] == Decrypted(t, old(buffer[..]), old(KeyOf(key)))
    ensures KeyOf(key) == old(KeyOf(key))
  {
    DecryptB(buffer, key, t);
    DecryptA(buffer, key, t);
  }
}
