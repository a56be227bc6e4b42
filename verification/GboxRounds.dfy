/** What the gbox cipher computes (oscam/module-gbox.c, lines 82-196), with the password as a number of 32
    bits and bytes as numbers modulo 256. */
module GboxRounds {
  import opened Gbox
  import CcCrypt
  import CcKeystream

  function Value(x: Byte): (v: nat)
    ensures v < 256
  {
    CcCrypt.Index(x)
  }

  // ---------- Bytes as numbers ----------

  lemma PlusValue(x: Byte, y: Byte)
    ensures Value(Plus(x, y)) == (Value(x) + Value(y)) % 256
  {
    CcKeystream.AddValue(x, y);
    assert CcCrypt.Add(x, y) == Plus(x, y);
    hide CcCrypt.Index;
  }

  lemma MinusValue(x: Byte, y: Byte)
    ensures Value(Minus(x, y)) == (Value(x) - Value(y)) % 256
  {
    ByteLaws(x, y);
    PlusValue(y, Minus(x, y));
    hide CcCrypt.Index, Plus, Minus;
  }

  lemma TwiceValue(x: Byte)
    ensures Value(Twice(x)) == 2 * Value(x) % 256
  {
    assert Twice(x) == Plus(x, x);
    hide Twice, Plus;
    PlusValue(x, x);
  }

  lemma QuarterValue(x: Byte)
    ensures Value(Quarter(x)) == Value(x) / 4
  {
  }

  lemma LowSix(x: Byte)
    ensures Value(x & 0x3F) == Value(x) % 64
  {
  }

  /** The table entry for a number. */
  function Entry(t: Table, n: nat): Byte
    requires n < 64
  {
    t[n]
  }

  lemma LookupValue(t: Table, x: Byte)
    ensures Lookup(t, x) == Entry(t, Value(x) % 64)
  {
    LowSix(x);
  }

  // ---------- The password ----------

  /** The password as a number, its first byte the highest. */
  function Number(k: Key): (n: nat)
    ensures n < 0x1_0000_0000
  {
    Value(k.p0) * 0x100_0000 + Value(k.p1) * 0x1_0000 + Value(k.p2) * 0x100 + Value(k.p3)
  }

  /** Its byte number `i` modulo 4. */
  function Digit(n: nat, i: nat): nat {
    match i % 4
    case 0 => n / 0x100_0000 % 256
    case 1 => n / 0x1_0000 % 256
    case 2 => n / 0x100 % 256
    case _ => n % 256
  }

  /** One bit to the right, the last bit comes first. */
  function Turned(n: nat): nat {
    n / 2 + n % 2 * 0x8000_0000
  }

  lemma Multiples(d: int, m: int)
    requires m > 0
    ensures d >= 1 ==> d * m >= m
    ensures d <= -1 ==> d * m <= -m
  {
  }

  lemma Cut(h: nat, l: nat, m: nat)
    requires l < m
    ensures (h * m + l) / m == h && (h * m + l) % m == l
  {
    assert (h * m + l) / m * m + (h * m + l) % m == h * m + l;
    var d := (h * m + l) / m - h;
    assert d * m == l - (h * m + l) % m;
    Multiples(d, m);
  }

  lemma FourDigits(a: nat, b: nat, c: nat, d: nat)
    requires a < 256 && b < 256 && c < 256 && d < 256
    ensures var n := a * 0x100_0000 + b * 0x1_0000 + c * 0x100 + d;
            Digit(n, 0) == a && Digit(n, 1) == b && Digit(n, 2) == c && Digit(n, 3) == d
  {
    Cut(a, b * 0x1_0000 + c * 0x100 + d, 0x100_0000);
    Cut(a * 0x100 + b, c * 0x100 + d, 0x1_0000);
    Cut(a * 0x1_0000 + b * 0x100 + c, d, 0x100);
    Cut(a, b, 0x100);
    Cut(a * 0x100 + b, c, 0x100);
  }

  lemma DigitIs(k: Key, i: nat)
    ensures Digit(Number(k), i) == Value(k.At(i))
  {
    hide Value;
    FourDigits(Value(k.p0), Value(k.p1), Value(k.p2), Value(k.p3));
    assert Digit(Number(k), i) == Digit(Number(k), i % 4);
  }

  lemma HalfBits(x: Byte, y: Byte)
    ensures x / 2 + (y & 1) * 0x80 == if y & 1 == 0 then x >> 1 else (x >> 1) | 0x80
  {
  }

  lemma HalfOf(x: Byte)
    ensures Value(x >> 1) == Value(x) / 2 && Value((x >> 1) | 0x80) == Value(x) / 2 + 128
  {
  }

  lemma LowBit(y: Byte)
    ensures Value(y) % 2 == if y & 1 == 0 then 0 else 1
  {
  }

  function Half(x: Byte, y: Byte): Byte {
    x / 2 + (y & 1) * 0x80
  }

  lemma HalfValue(x: Byte, y: Byte)
    ensures Value(Half(x, y)) == Value(x) / 2 + Value(y) % 2 * 128
  {
    HalfBits(x, y);
    HalfOf(x);
    LowBit(y);
    hide Value;
  }

  lemma HalfNumber(a: nat, b: nat, c: nat, d: nat)
    ensures (a / 2 + d % 2 * 128) * 0x100_0000 + (b / 2 + a % 2 * 128) * 0x1_0000 + (c / 2 + b % 2 * 128) * 0x100
            + (d / 2 + c % 2 * 128)
            == Turned(a * 0x100_0000 + b * 0x1_0000 + c * 0x100 + d)
  {
    var n := a * 0x100_0000 + b * 0x1_0000 + c * 0x100 + d;
    assert a == a / 2 * 2 + a % 2 && b == b / 2 * 2 + b % 2 && c == c / 2 * 2 + c % 2 && d == d / 2 * 2 + d % 2;
    var half := a * 0x80_0000 + b * 0x8000 + c * 0x80 + d / 2;
    assert n == half * 2 + d % 2;
    Cut(half, d % 2, 2);
  }

  lemma RotatedHalves(k: Key)
    ensures RotateRight(k) == Key(Half(k.p0, k.p3), Half(k.p1, k.p0), Half(k.p2, k.p1), Half(k.p3, k.p2))
  {
  }

  /** The four bytes together are rotated by one bit. */
  lemma PasswordTurns(k: Key)
    ensures Number(RotateRight(k)) == Turned(Number(k))
  {
    hide Value, Turned, Half, RotateRight;
    RotatedHalves(k);
    HalfValue(k.p0, k.p3);
    HalfValue(k.p1, k.p0);
    HalfValue(k.p2, k.p1);
    HalfValue(k.p3, k.p2);
    HalfNumber(Value(k.p0), Value(k.p1), Value(k.p2), Value(k.p3));
  }

  // ---------- The rounds ----------

  /** The number written over `x`: `y` is the byte before it, `p` the key byte at its place and `q` the
      one before that. */
  function Written(m: Mixer, t: Table, x: nat, y: Byte, p: nat, q: nat): nat {
    var g := Entry(t, (Value(y) - p) % 64);
    match m
    case Eight => (Value(Xor(g, CcCrypt.ByteOf((x - Value(Entry(t, Value(y) / 4))) % 256))) - q) % 256
    case A =>
      var e := 2 * Value(Entry(t, Value(Xor(CcCrypt.ByteOf(p), y)) / 4));
      (q + Value(Xor(g, CcCrypt.ByteOf((e + x) % 256)))) % 256
  }

  lemma GrainIs(t: Table, y: Byte, p: Byte)
    ensures Grain(t, y, p) == Entry(t, (Value(y) - Value(p)) % 64)
  {
    hide Value, Minus, Lookup, Entry;
    MinusValue(y, p);
    LookupValue(t, Minus(y, p));
    Mod64(Value(y) - Value(p));
  }

  lemma Mod64(d: int)
    ensures d % 256 % 64 == d % 64
  {
  }

  lemma SpiceIs(t: Table, y: Byte, p: Byte)
    ensures Spice(Eight, t, y, p) == Entry(t, Value(y) / 4)
    ensures Value(Spice(A, t, y, p)) == 2 * Value(Entry(t, Value(Xor(CcCrypt.ByteOf(Value(p)), y)) / 4)) % 256
  {
    hide Value, CcCrypt.ByteOf, Quarter, Lookup, Entry, Twice, Xor;
    QuarterValue(y);
    LookupValue(t, Quarter(y));
    CcKeystream.ByteIs(p);
    SameIndex(p);
    QuarterValue(Xor(p, y));
    LookupValue(t, Quarter(Xor(p, y)));
    TwiceValue(Lookup(t, Quarter(Xor(p, y))));
  }

  lemma SameIndex(x: Byte)
    ensures CcCrypt.Index(x) == Value(x)
  {
  }

  lemma PutEight(t: Table, x: Byte, y: Byte, p: Byte, q: Byte)
    ensures Value(Put(Eight, t, x, y, p, q)) == Written(Eight, t, Value(x), y, Value(p), Value(q))
  {
    hide Value, CcCrypt.ByteOf, Plus, Minus, Xor, Grain, Spice, Entry;
    GrainIs(t, y, p);
    SpiceIs(t, y, p);
    var g, e := Grain(t, y, p), Spice(Eight, t, y, p);
    MinusValue(x, e);
    CcKeystream.ByteIs(Minus(x, e));
    SameIndex(Minus(x, e));
    MinusValue(Xor(g, Minus(x, e)), q);
  }

  lemma SumIs(e: Byte, x: Byte, n: nat)
    requires Value(e) == n % 256
    ensures Plus(e, x) == CcCrypt.ByteOf((n + Value(x)) % 256)
  {
    hide Value, CcCrypt.ByteOf, Plus;
    PlusValue(e, x);
    CcKeystream.ByteIs(Plus(e, x));
    SameIndex(Plus(e, x));
    Carry(n, Value(x));
  }

  lemma PutA(t: Table, x: Byte, y: Byte, p: Byte, q: Byte)
    ensures Value(Put(A, t, x, y, p, q)) == Written(A, t, Value(x), y, Value(p), Value(q))
  {
    hide Value, CcCrypt.ByteOf, Plus, Minus, Xor, Grain, Spice, Entry;
    GrainIs(t, y, p);
    SpiceIs(t, y, p);
    var g, e := Grain(t, y, p), Spice(A, t, y, p);
    SumIs(e, x, 2 * Value(Entry(t, Value(Xor(CcCrypt.ByteOf(Value(p)), y)) / 4)));
    PlusValue(q, Xor(g, Plus(e, x)));
  }

  lemma PutValue(m: Mixer, t: Table, x: Byte, y: Byte, p: Byte, q: Byte)
    ensures Value(Put(m, t, x, y, p, q)) == Written(m, t, Value(x), y, Value(p), Value(q))
  {
    hide Value, Put, Written;
    match m
    case Eight => PutEight(t, x, y, p, q);
    case A => PutA(t, x, y, p, q);
  }

  lemma Carry(e: nat, x: nat)
    ensures (e % 256 + x) % 256 == (e + x) % 256
  {
  }

  /** `n` rounds: the password is turned, then the byte after the one in turn is written; the bytes take
      turns from the last to the first. */
  function Rounds(m: Mixer, t: Table, w: Window, pass: nat, n: nat): (Window, nat) {
    if n == 0 then (w, pass)
    else
      var (v, key) := Rounds(m, t, w, pass, n - 1);
      var k := Turned(key);
      var i := 7 - (n - 1) % 8;
      var j := if i == 7 then 0 else i + 1;
      (v[j := CcCrypt.ByteOf(Written(m, t, Value(v[j]), v[i], Digit(k, j), Digit(k, i)))], k)
  }

  lemma MixIs(m: Mixer, t: Table, w: Window, k: Key, i: nat)
    requires i < 8
    ensures var j := if i == 7 then 0 else i + 1;
            var v := Written(m, t, Value(w[j]), w[i], Digit(Number(k), j), Digit(Number(k), i));
            Mix(m, t, w, k, i) == w[j := CcCrypt.ByteOf(v)]
  {
    hide Value, CcCrypt.ByteOf, Put, Written, Digit, Number;
    var j := if i == 7 then 0 else i + 1;
    assert j == (i + 1) % 8 && k.At(i + 1) == k.At(j);
    DigitIs(k, i);
    DigitIs(k, j);
    hide Key.At;
    var b := Put(m, t, w[j], w[i], k.At(j), k.At(i));
    PutValue(m, t, w[j], w[i], k.At(j), k.At(i));
    CcKeystream.ByteIs(b);
    SameIndex(b);
  }

  lemma {:induction false} ForwardIsRounds(m: Mixer, t: Table, s: State, n: nat)
    ensures Rounds(m, t, s.w, Number(s.k), n) == (Forward(m, t, s, n).w, Number(Forward(m, t, s, n).k))
  {
    hide Mix, Written, Value, CcCrypt.ByteOf, Digit, Number, RotateRight, Turned;
    if n > 0 {
      ForwardIsRounds(m, t, s, n - 1);
      var p := Forward(m, t, s, n - 1);
      PasswordTurns(p.k);
      MixIs(m, t, p.w, RotateRight(p.k), ForwardByte(n - 1));
    }
  }

  // ---------- Whole buffers ----------

  /** The 32 rounds on the eight bytes from `base` on. */
  function Stirred(m: Mixer, t: Table, s: seq<Byte>, base: nat, pass: nat): (r: seq<Byte>)
    requires base + 8 <= |s|
    ensures |r| == |s|
  {
    Splice(s, base, Rounds(m, t, s[base..base + 8], pass, 32).0)
  }

  lemma MixedIsStirred(m: Mixer, t: Table, s: seq<Byte>, base: nat, k: Key)
    requires base + 8 <= |s|
    ensures MixedAt(m, t, s, base, k) == Stirred(m, t, s, base, Number(k))
  {
    ForwardIsRounds(m, t, State(s[base..base + 8], k), ROUNDS);
    hide Forward, Rounds;
  }

  lemma {:induction false} ChainAt(s: seq<Byte>, i: nat)
    requires i < |s|
    ensures Chain(s)[i] == if i + 1 < |s| then Xor(s[i], s[i + 1]) else s[i]
  {
    hide Xor;
    if |s| > 1 {
      XorCommutes(s[0], s[1]);
      if i > 0 {
        ChainAt(s[1..], i - 1);
      }
    }
  }

  lemma XorCommutes(x: Byte, y: Byte)
    ensures Xor(x, y) == Xor(y, x)
  {
  }

  /** Each byte and its right neighbour added bit by bit. */
  ghost predicate Chained(s: seq<Byte>, r: seq<Byte>) {
    |r| == |s| && forall i :: 0 <= i < |s| ==> r[i] == if i + 1 < |s| then Xor(s[i], s[i + 1]) else s[i]
  }

  lemma ChainedIsChain(s: seq<Byte>, r: seq<Byte>)
    ensures Chained(s, r) <==> r == Chain(s)
  {
    hide Chain, Xor;
    forall i | 0 <= i < |s| ensures Chain(s)[i] == if i + 1 < |s| then Xor(s[i], s[i + 1]) else s[i] {
      ChainAt(s, i);
    }
    if Chained(s, r) {
      forall i | 0 <= i < |s| ensures r[i] == Chain(s)[i] {
        ChainAt(s, i);
      }
    }
  }

  /** The encrypted buffer is the one that becomes, with the window before the last byte stirred, what the
      plain buffer becomes with its first window stirred by the second mixer, chained, and stirred at the
      start by the first one.  Every buffer of 9 or more bytes has exactly one. */
  lemma EncryptedIs(t: Table, s: seq<Byte>, k: Key, r: seq<Byte>)
    requires |s| >= 9 && |r| == |s|
    ensures var n := Number(k);
            r == Encrypted(t, s, k)
            <==> exists c :: Chained(Stirred(A, t, s, 0, n), c)
                             && Stirred(Eight, t, r, |s| - 9, n) == Stirred(Eight, t, c, 0, n)
  {
    hide MixedAt, UnmixedAt, Stirred, Chain, Chained, Xor, Number;
    var n, a := Number(k), MixedAt(A, t, s, 0, k);
    MixedIsStirred(A, t, s, 0, k);
    forall c: seq<Byte> ensures Chained(a, c) <==> c == Chain(a) {
      ChainedIsChain(a, c);
    }
    MixedIsStirred(Eight, t, Chain(a), 0, k);
    MixedIsStirred(Eight, t, r, |s| - 9, k);
    WindowInverse(Eight, t, r, |s| - 9, k);
    WindowInverse(Eight, t, MixedAt(Eight, t, Chain(a), 0, k), |s| - 9, k);
  }
}
