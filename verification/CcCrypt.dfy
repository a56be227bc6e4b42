/** The CCcam stream cipher and its message framing (oscam/module-cccam.c, lines 33-68 and 501-619).

    The cipher permutes a 256-byte key table with every byte and mixes the plain text into its state,
    so both ends of a connection must have seen the same bytes in the same order to understand each
    other.  A message travels as a four-byte header (flag, command, length) and a payload. */
module CcCrypt {

  type Byte = bv8
  type Table = t: seq<Byte> | |t| == 256 witness Identity()

  datatype Mode = DECRYPT | ENCRYPT

  datatype Block = Block(keytable: Table, state: Byte, counter: Byte, sum: Byte)

  function Identity(): seq<Byte> {
    seq(256, i requires 0 <= i < 256 => i as Byte)
  }

  // ---------- The cipher ----------

  function Swapped(t: Table, i: nat, j: nat): Table
    requires i < 256 && j < 256
  {
    t[i := t[j]][j := t[i]]
  }

  /** Addition in a `uint8_t`. */
  function Add(x: Byte, y: Byte): Byte {
    x + y
  }

  function Index(x: Byte): (i: nat)
    ensures i < 256
  {
    x as nat
  }

  /** One step of the key schedule: the state byte is not touched. */
  function Stepped(b: Block): Block {
    var counter := Add(b.counter, 1);
    var sum := Add(b.sum, b.keytable[Index(counter)]);
    Block(Swapped(b.keytable, Index(counter), Index(sum)), b.state, counter, sum)
  }

  function KeyByte(b: Block): Byte {
    b.keytable[Index(Add(b.keytable[Index(b.counter)], b.keytable[Index(b.sum)]))]
  }

  function Xor(x: Byte, y: Byte): Byte {
    x ^ y
  }

  /** One byte through the cipher.  In both modes the state absorbs the plain byte. */
  function CryptByte(b: Block, x: Byte, mode: Mode): (Block, Byte) {
    var n := Stepped(b);
    var out := Xor(Xor(x, KeyByte(n)), n.state);
    (n.(state := Xor(n.state, if mode == ENCRYPT then x else out)), out)
  }

  function Crypt(b: Block, data: seq<Byte>, mode: Mode): (r: (Block, seq<Byte>))
    ensures |r.1| == |data|
    decreases |data|
  {
    if data == [] then (b, []) else
      var (b1, out) := CryptByte(b, data[0], mode);
      var (b2, rest) := Crypt(b1, data[1..], mode);
      (b2, [out] + rest)
  }

  lemma XorLaws(x: Byte, k: Byte, s: Byte)
    ensures Xor(Xor(Xor(Xor(x, k), s), k), s) == x
  {
  }

  /** Decrypting what was encrypted from an equal state gives the plain text and an equal state; so
      does encrypting what was decrypted. */
  lemma {:induction false} Mirror(b: Block, data: seq<Byte>)
    ensures var (b', c) := Crypt(b, data, ENCRYPT); Crypt(b, c, DECRYPT) == (b', data)
    ensures var (b', p) := Crypt(b, data, DECRYPT); Crypt(b, p, ENCRYPT) == (b', data)
    decreases |data|
  {
    if data != [] {
      var x, rest := data[0], data[1..];
      assert data == [x] + rest;
      MirrorByte(b, x);
      hide CryptByte, Crypt;
      var (e, c) := CryptByte(b, x, ENCRYPT);
      var (d, p) := CryptByte(b, x, DECRYPT);
      Mirror(e, rest);
      Mirror(d, rest);
      CryptCons(b, x, rest, ENCRYPT);
      CryptCons(b, c, Crypt(e, rest, ENCRYPT).1, DECRYPT);
      CryptCons(b, x, rest, DECRYPT);
      CryptCons(b, p, Crypt(d, rest, DECRYPT).1, ENCRYPT);
    }
  }

  lemma MirrorByte(b: Block, x: Byte)
    ensures var (e, c) := CryptByte(b, x, ENCRYPT); CryptByte(b, c, DECRYPT) == (e, x)
    ensures var (d, p) := CryptByte(b, x, DECRYPT); CryptByte(b, p, ENCRYPT) == (d, x)
  {
    hide Stepped, KeyByte, Xor;
    var n := Stepped(b);
    XorLaws(x, KeyByte(n), n.state);
  }

  lemma CryptCons(b: Block, x: Byte, rest: seq<Byte>, m: Mode)
    ensures var (b1, out) := CryptByte(b, x, m);
            var (b2, outs) := Crypt(b1, rest, m);
            Crypt(b, [x] + rest, m) == (b2, [out] + outs)
  {
    hide CryptByte;
    assert ([x] + rest)[1..] == rest;
  }

  /** The cipher does not see how its input was cut. */
  lemma {:induction false} Chunked(b: Block, x: seq<Byte>, y: seq<Byte>, mode: Mode)
    ensures var (b1, o1) := Crypt(b, x, mode);
            var (b2, o2) := Crypt(b1, y, mode);
            Crypt(b, x + y, mode) == (b2, o1 + o2)
    decreases |x|
  {
    hide CryptByte;
    if x == [] {
      assert x + y == y;
      assert [] + Crypt(b, y, mode).1 == Crypt(b, y, mode).1;
    } else {
      assert x + y == [x[0]] + (x[1..] + y) && [x[0]] + x[1..] == x;
      var (b0, o0) := CryptByte(b, x[0], mode);
      Chunked(b0, x[1..], y, mode);
      CryptCons(b, x[0], x[1..] + y, mode);
      var (b1, o1) := Crypt(b0, x[1..], mode);
      assert [o0] + (o1 + Crypt(b1, y, mode).1) == ([o0] + o1) + Crypt(b1, y, mode).1;
    }
  }

  // ---------- The key table stays a permutation ----------

  ghost predicate Permutation(t: Table) {
    multiset(t) == multiset(Identity())
  }

  lemma SwapKeeps(t: Table, i: nat, j: nat)
    requires i < 256 && j < 256
    ensures multiset(Swapped(t, i, j)) == multiset(t)
  {
  }

  lemma {:induction false} CryptKeepsPermutation(b: Block, data: seq<Byte>, mode: Mode)
    requires Permutation(b.keytable)
    ensures Permutation(Crypt(b, data, mode).0.keytable)
    decreases |data|
  {
    if data != [] {
      var next := CryptByte(b, data[0], mode).0;
      assert Permutation(next.keytable) by {
        hide Swapped, KeyByte, Xor, Identity, Add;
        var counter := Add(b.counter, 1);
        SwapKeeps(b.keytable, Index(counter), Index(Add(b.sum, b.keytable[Index(counter)])));
      }
      hide CryptByte, Permutation;
      CryptKeepsPermutation(next, data[1..], mode);
    }
  }

  // ---------- Key setup ----------

  datatype Setup = Setup(t: Table, j: Byte)

  /** The first `n` swaps of the key setup. */
  function Mixed(key: seq<Byte>, n: nat): Setup
    requires key != [] && n <= 256
  {
    if n == 0 then Setup(Identity(), 0) else
      var s := Mixed(key, n - 1);
      var i := n - 1;
      var j := Add(s.j, Add(key[i % |key|], s.t[i]));
      Setup(Swapped(s.t, i, Index(j)), j)
  }

  function InitCrypt(key: seq<Byte>): Block
    requires key != []
  {
    Block(Mixed(key, 256).t, key[0], 0, 0)
  }

  lemma {:induction false} InitIsPermutation(key: seq<Byte>, n: nat)
    requires key != [] && n <= 256
    ensures Permutation(Mixed(key, n).t)
  {
    if n > 0 {
      InitIsPermutation(key, n - 1);
      hide Swapped, Identity, Add;
      var s := Mixed(key, n - 1);
      SwapKeeps(s.t, n - 1, Index(Add(s.j, Add(key[(n - 1) % |key|], s.t[n - 1]))));
    }
  }

  /** Whatever a connection has sent or received, its key table is a permutation of 0..255. */
  lemma {:induction false} TablesStayPermutations(key: seq<Byte>, data: seq<Byte>, mode: Mode)
    requires key != []
    ensures Permutation(Crypt(InitCrypt(key), data, mode).0.keytable)
  {
    InitIsPermutation(key, 256);
    CryptKeepsPermutation(InitCrypt(key), data, mode);
  }

  // ---------- Messages ----------

  datatype Message = Message(flag: Byte, cmd: Byte, payload: seq<Byte>)

  const MAX_PAYLOAD: nat := 0xFFFF

  /** A length cut to the eight bits of a `uint8_t`. */
  function ByteOf(n: nat): Byte {
    if n == 0 then 0 else Add(ByteOf(n - 1), 1)
  }

  lemma {:induction false} ByteValue(n: nat)
    ensures Index(ByteOf(n)) == n % 256
  {
    hide Add, Index;
    NextByte(if n == 0 then 0 else ByteOf(n - 1));
    if n > 0 {
      ByteValue(n - 1);
    }
  }

  lemma NextByte(x: Byte)
    ensures Index(0) == 0 && Index(Add(x, 1)) == (Index(x) + 1) % 256
  {
  }

  /** Header and payload; the length field holds the low 16 bits. */
  function Packet(m: Message): (p: seq<Byte>)
    ensures |p| == 4 + |m.payload|
  {
    [m.flag, m.cmd, ByteOf(|m.payload| / 256), ByteOf(|m.payload|)] + m.payload
  }

  function Sent(b: Block, m: Message): (Block, seq<Byte>) {
    Crypt(b, Packet(m), ENCRYPT)
  }

  function SentAll(b: Block, ms: seq<Message>): (Block, seq<Byte>)
    decreases |ms|
  {
    if ms == [] then (b, []) else
      var (b1, w1) := Sent(b, ms[0]);
      var (b2, w2) := SentAll(b1, ms[1..]);
      (b2, w1 + w2)
  }

  datatype Outcome = Received(m: Message) | Disconnected | TooBig

  /** What a receiver makes of the bytes on the line: the outcome, its cipher and the bytes left. */
  datatype Reading = Reading(out: Outcome, b: Block, line: seq<Byte>)

  function SizeField(header: seq<Byte>): nat
    requires |header| == 4
  {
    Index(header[2]) * 256 + Index(header[3])
  }

  /** Four bytes of header, then as many bytes as the header says, decrypted in two pieces. */
  function Receive(b: Block, line: seq<Byte>, maxlen: nat): Reading {
    if maxlen < 4 then Reading(Disconnected, b, line)
    else if |line| < 4 then Reading(Disconnected, b, [])
    else
      var (b1, h) := Crypt(b, line[..4], DECRYPT);
      var size := SizeField(h);
      if size > maxlen then Reading(TooBig, b1, line[4..])
      else if |line| < 4 + size then Reading(Disconnected, b1, [])
      else
        var (b2, p) := Crypt(b1, line[4..4 + size], DECRYPT);
        Reading(Received(Message(h[0], h[1], p)), b2, line[4 + size..])
  }

  function ReceiveAll(b: Block, line: seq<Byte>, maxlen: nat, n: nat): (seq<Outcome>, Block, seq<Byte>)
    decreases n
  {
    if n == 0 then ([], b, line) else
      var r := Receive(b, line, maxlen);
      var (outs, b2, rest) := ReceiveAll(r.b, r.line, maxlen, n - 1);
      ([r.out] + outs, b2, rest)
  }

  /** Every message, in order. */
  function Arrivals(ms: seq<Message>): seq<Outcome> {
    if ms == [] then [] else [Received(ms[0])] + Arrivals(ms[1..])
  }

  lemma SizeRoundTrip(m: Message)
    requires |m.payload| <= MAX_PAYLOAD
    ensures SizeField(Packet(m)[..4]) == |m.payload|
  {
    hide Index, ByteOf;
    var n := |m.payload|;
    ByteValue(n / 256);
    ByteValue(n);
    var header := Packet(m)[..4];
    assert header[2] == ByteOf(n / 256) && header[3] == ByteOf(n);
    assert (n / 256) % 256 == n / 256;
  }

  /** A message that fits is received as sent, from equal cipher states and leaving equal ones; one
      that is longer than the receiver's buffer is refused after its header, and its body stays on
      the line still encrypted.  Both halves of the bound are exact.  A buffer of less than four
      bytes is refused before anything is read. */
  lemma {:induction false} MessageArrives(b: Block, m: Message, rest: seq<Byte>, maxlen: nat)
    requires |m.payload| <= MAX_PAYLOAD
    ensures var (b', wire) := Sent(b, m);
            var r := Receive(b, wire + rest, maxlen);
            if maxlen < 4 then r == Reading(Disconnected, b, wire + rest)
            else if |m.payload| <= maxlen then r == Reading(Received(m), b', rest)
            else r.out == TooBig && |r.line| == |m.payload| + |rest| && r.b == Crypt(b, wire[..4], DECRYPT).0
  {
    hide Crypt;
    var p := Packet(m);
    var (b', wire) := Sent(b, m);
    var line := wire + rest;
    Mirror(b, p);
    assert wire == wire[..4] + wire[4..];
    Chunked(b, wire[..4], wire[4..], DECRYPT);
    var (b1, h) := Crypt(b, wire[..4], DECRYPT);
    var (b2, body) := Crypt(b1, wire[4..], DECRYPT);
    assert h + body == p && b2 == b';
    assert h == p[..4] && body == m.payload;
    SizeRoundTrip(m);
    assert line[..4] == wire[..4];
    if |m.payload| <= maxlen {
      assert line[4..4 + |m.payload|] == wire[4..] && line[4 + |m.payload|..] == rest;
    }
  }

  /** The channel: any sequence of messages that fit arrives unchanged and in order, the receiver's
      cipher ends in the sender's state and nothing else is taken from the line. */
  lemma {:induction false} Channel(b: Block, ms: seq<Message>, rest: seq<Byte>, maxlen: nat)
    requires maxlen >= 4
    requires forall i :: 0 <= i < |ms| ==> |ms[i].payload| <= maxlen && |ms[i].payload| <= MAX_PAYLOAD
    ensures var (b', wire) := SentAll(b, ms);
            ReceiveAll(b, wire + rest, maxlen, |ms|) == (Arrivals(ms), b', rest)
    decreases |ms|
  {
    hide Sent, Receive;
    if ms == [] {
      assert SentAll(b, ms).1 + rest == rest;
    } else {
      var (b1, w1) := Sent(b, ms[0]);
      var (b2, w2) := SentAll(b1, ms[1..]);
      assert w1 + w2 + rest == w1 + (w2 + rest);
      MessageArrives(b, ms[0], w2 + rest, maxlen);
      Channel(b1, ms[1..], rest, maxlen);
    }
  }

  lemma OneByte(b: Block, x: Byte, mode: Mode)
    ensures Crypt(b, [x], mode) == (CryptByte(b, x, mode).0, [CryptByte(b, x, mode).1])
  {
    hide CryptByte;
    CryptCons(b, x, [], mode);
    assert [x] + [] == [x];
    var out := CryptByte(b, x, mode).1;
    assert Crypt(CryptByte(b, x, mode).0, [], mode).1 == [] && [out] + [] == [out];
  }

  // ---------- The code ----------

  class CryptBlock {
    const keytable: array<Byte>
    var state: Byte
    var counter: Byte
    var sum: Byte

    ghost predicate Valid()
      reads this
    {
      keytable.Length == 256
    }

    function Now(): Block
      requires Valid()
      reads this, keytable
    {
      Block(keytable[..], state, counter, sum)
    }

    constructor ()
      ensures Valid() && fresh(keytable)
    {
      keytable := new Byte[256](_ => 0);
      state, counter, sum := 0, 0, 0;
    }

    method SwapBytes(i: nat, j: nat)
      requires Valid() && i < 256 && j < 256
      modifies keytable
      ensures keytable[..] == Swapped(old(keytable[..]), i, j)
    {
      var p := keytable[i];
      keytable[i] := keytable[j];
      keytable[j] := p;
    }

    method Init(key: seq<Byte>)
      requires Valid() && key != []
      modifies this, keytable
      ensures Now() == InitCrypt(key)
    {
      hide Swapped, Index, Add;
      for i := 0 to 256
        invariant forall k :: 0 <= k < i ==> keytable[k] == k as Byte
      {
        keytable[i] := i as Byte;
      }
      assert keytable[..] == Identity();
      var j: Byte := 0;
      for i := 0 to 256
        invariant Setup(keytable[..], j) == Mixed(key, i)
      {
        j := Add(j, Add(key[i % |key|], keytable[i]));
        SwapBytes(i, Index(j));
      }
      state, counter, sum := key[0], 0, 0;
    }

    /** One turn of the loop in cc_crypt. */
    method CryptOne(x: Byte, mode: Mode) returns (out: Byte)
      requires Valid()
      modifies this, keytable
      ensures (Now(), out) == CryptByte(old(Now()), x, mode)
    {
      hide Swapped, Xor, Index, Add;
      counter := Add(counter, 1);
      sum := Add(sum, keytable[Index(counter)]);
      SwapBytes(Index(counter), Index(sum));
      var z := x;
      out := Xor(z, keytable[Index(Add(keytable[Index(counter)], keytable[Index(sum)]))]);
      out := Xor(out, state);
      if mode == DECRYPT {
        z := out;
      }
      state := Xor(state, z);
    }

    /** `memcpy` of a saved block. */
    method Restore(b: Block)
      requires Valid()
      modifies this, keytable
      ensures Now() == b
    {
      for i := 0 to 256
        invariant forall k :: 0 <= k < i ==> keytable[k] == b.keytable[k]
      {
        keytable[i] := b.keytable[i];
      }
      state, counter, sum := b.state, b.counter, b.sum;
    }

    method CryptData(data: array<Byte>, mode: Mode)
      requires Valid() && data != keytable
      modifies this, keytable, data
      ensures (Now(), data[..]) == Crypt(old(Now()), old(data[..]), mode)
    {
      hide CryptByte;
      ghost var b, d := Now(), data[..];
      for i := 0 to data.Length
        invariant Valid()
        invariant (Now(), data[..i]) == Crypt(b, d[..i], mode)
        invariant forall k :: i <= k < data.Length ==> data[k] == d[k]
      {
        Chunked(b, d[..i], [d[i]], mode);
        OneByte(Now(), d[i], mode);
        assert d[..i] + [d[i]] == d[..i + 1];
        ghost var before := data[..i];
        var out := CryptOne(data[i], mode);
        data[i] := out;
        assert data[..i + 1] == before + [out];
      }
      assert data[..] == data[..data.Length] && d[..data.Length] == d;
    }
  }
}
