/** What the CCcam cipher is (oscam/module-cccam.c, lines 33-68), in integers modulo 256: the RC4 key
    schedule and key stream, and on top of it every plain byte is added to all that follow. */
module CcKeystream {
  import opened CcCrypt
  import CcLogin

  /** A permutation and two indices, all of them integers. */
  datatype Rc4 = Rc4(t: seq<int>, i: int, j: int)

  ghost predicate Bytes(t: seq<int>) {
    |t| == 256 && forall k :: 0 <= k < 256 ==> 0 <= t[k] < 256
  }

  ghost function Exchanged(t: seq<int>, i: int, j: int): (r: seq<int>)
    requires Bytes(t) && 0 <= i < 256 && 0 <= j < 256
    ensures Bytes(r)
  {
    seq(256, k requires 0 <= k < 256 => if k == i then t[j] else if k == j then t[i] else t[k])
  }

  /** One turn of the generator. */
  ghost function Turned(r: Rc4): (n: Rc4)
    requires Bytes(r.t)
    ensures Bytes(n.t) && 0 <= n.i < 256 && 0 <= n.j < 256
  {
    var i := (r.i + 1) % 256;
    var j := (r.j + r.t[i]) % 256;
    Rc4(Exchanged(r.t, i, j), i, j)
  }

  ghost function After(r: Rc4, n: nat): (s: Rc4)
    requires Bytes(r.t)
    ensures Bytes(s.t) && (n > 0 ==> 0 <= s.i < 256 && 0 <= s.j < 256)
  {
    if n == 0 then r else Turned(After(r, n - 1))
  }

  /** The key byte number `n`, counted from 0. */
  ghost function KeyAt(r: Rc4, n: nat): (k: int)
    requires Bytes(r.t)
    ensures 0 <= k < 256
  {
    var s := After(r, n + 1);
    s.t[(s.t[s.i] + s.t[s.j]) % 256]
  }

  /** The key schedule: the table and the second index after `n` exchanges. */
  ghost function Scheduled(key: seq<Byte>, n: nat): (s: (seq<int>, int))
    requires key != [] && n <= 256
    ensures Bytes(s.0) && 0 <= s.1 < 256
  {
    if n == 0 then (seq(256, k => k), 0)
    else
      var (t, j) := Scheduled(key, n - 1);
      var j1 := (j + Index(key[(n - 1) % |key|]) + t[n - 1]) % 256;
      (Exchanged(t, n - 1, j1), j1)
  }

  // ---------- The model keeps to it ----------

  ghost predicate SameTable(kt: Table, t: seq<int>) {
    Bytes(t) && forall k :: 0 <= k < 256 ==> Index(kt[k]) == t[k]
  }

  ghost predicate Runs(b: Block, r: Rc4) {
    SameTable(b.keytable, r.t) && Index(b.counter) == r.i && Index(b.sum) == r.j
  }

  lemma ByteBack(x: Byte)
    ensures Index(x) as Byte == x
  {
  }

  lemma ByteIs(x: Byte)
    ensures ByteOf(Index(x)) == x
  {
    ByteValue(Index(x));
    ByteBack(x);
    ByteBack(ByteOf(Index(x)));
    hide Index, ByteOf;
  }

  lemma AddTwice(x: Byte, y: Byte)
    ensures Add(x, Add(y, 1)) == Add(Add(x, y), 1) && Add(x, 0) == x
  {
  }

  lemma {:induction false} AddSteps(x: Byte, n: nat)
    ensures Index(Add(x, ByteOf(n))) == (Index(x) + n) % 256
  {
    hide Index, Add;
    AddTwice(x, if n == 0 then 0 else ByteOf(n - 1));
    NextByte(if n == 0 then 0 else Add(x, ByteOf(n - 1)));
    if n > 0 {
      AddSteps(x, n - 1);
    }
  }

  /** Addition in a `uint8_t` is addition modulo 256. */
  lemma AddValue(x: Byte, y: Byte)
    ensures Index(Add(x, y)) == (Index(x) + Index(y)) % 256
  {
    hide Index, Add, ByteOf;
    ByteIs(y);
    AddSteps(x, Index(y));
  }

  lemma ExchangedTable(kt: Table, t: seq<int>, i: nat, j: nat)
    requires SameTable(kt, t) && i < 256 && j < 256
    ensures SameTable(Swapped(kt, i, j), Exchanged(t, i, j))
  {
    hide Index;
  }

  lemma SteppedIndices(b: Block, r: Rc4)
    requires Runs(b, r)
    ensures Index(Stepped(b).counter) == Turned(r).i && Index(Stepped(b).sum) == Turned(r).j
  {
    hide Index, Add, Swapped, Exchanged;
    NextByte(b.counter);
    AddValue(b.sum, b.keytable[Index(Add(b.counter, 1))]);
  }

  lemma SteppedRuns(b: Block, r: Rc4)
    requires Runs(b, r)
    ensures Runs(Stepped(b), Turned(r)) && Stepped(b).state == b.state
    ensures Index(KeyByte(Stepped(b))) == KeyAt(r, 0)
  {
    hide Index, Add, Swapped, Exchanged;
    var n := Stepped(b);
    SteppedIndices(b, r);
    ExchangedTable(b.keytable, r.t, Index(n.counter), Index(n.sum));
    KeyOf(n, Turned(r));
    assert After(r, 1) == Turned(After(r, 0)) && After(r, 0) == r;
  }

  lemma KeyOf(b: Block, r: Rc4)
    requires Runs(b, r)
    ensures Index(KeyByte(b)) == r.t[(r.t[r.i] + r.t[r.j]) % 256]
  {
    hide Index, Add;
    AddValue(b.keytable[Index(b.counter)], b.keytable[Index(b.sum)]);
  }

  lemma {:induction false} LaterTurns(r: Rc4, n: nat)
    requires Bytes(r.t)
    ensures After(Turned(r), n) == After(r, n + 1)
  {
    hide Turned;
    if n > 0 {
      LaterTurns(r, n - 1);
    }
  }

  /** All of some bytes, added to a first one. */
  function XorAll(first: Byte, s: seq<Byte>): Byte
    decreases |s|
  {
    if s == [] then first else XorAll(Xor(first, s[0]), s[1..])
  }

  function PlainByte(mode: Mode, x: Byte, out: Byte): Byte {
    if mode == ENCRYPT then x else out
  }

  lemma FirstByte(b: Block, r: Rc4, x: Byte, mode: Mode)
    requires Runs(b, r)
    ensures var (b1, o) := CryptByte(b, x, mode);
            && Runs(b1, Turned(r)) && o == Xor(Xor(x, KeyAt(r, 0) as Byte), b.state)
            && b1.state == Xor(b.state, PlainByte(mode, x, o))
  {
    SteppedRuns(b, r);
    ByteBack(KeyByte(Stepped(b)));
    hide Stepped, KeyByte, Xor, Turned, KeyAt, SameTable, Index;
  }

  lemma LaterKey(r: Rc4, k: nat)
    requires Bytes(r.t)
    ensures KeyAt(Turned(r), k) == KeyAt(r, k + 1)
  {
    hide Turned, After;
    LaterTurns(r, k + 1);
  }

  lemma XorMore(first: Byte, x: Byte, s: seq<Byte>)
    ensures XorAll(first, [x] + s) == XorAll(Xor(first, x), s)
  {
    hide Xor;
    assert ([x] + s)[1..] == s;
  }

  function Plain(mode: Mode, data: seq<Byte>, out: seq<Byte>): seq<Byte> {
    if mode == ENCRYPT then data else out
  }

  /** Every byte of the output is the byte of the input, the key byte of its position and all plain bytes
      before it, added bit by bit. */
  lemma {:induction false} OutputByte(b: Block, r: Rc4, data: seq<Byte>, mode: Mode, k: nat)
    requires Runs(b, r) && k < |data|
    ensures var out := Crypt(b, data, mode).1;
            out[k] == Xor(Xor(data[k], KeyAt(r, k) as Byte), XorAll(b.state, Plain(mode, data, out)[..k]))
    decreases k
  {
    hide Xor, Turned, KeyAt, CryptByte;
    FirstByte(b, r, data[0], mode);
    hide Runs;
    var (b1, o) := CryptByte(b, data[0], mode);
    var x := PlainByte(mode, data[0], o);
    assert data == [data[0]] + data[1..];
    CryptCons(b, data[0], data[1..], mode);
    var out := Crypt(b, data, mode).1;
    if k > 0 {
      OutputByte(b1, Turned(r), data[1..], mode, k - 1);
      LaterKey(r, k - 1);
      var tail := Plain(mode, data[1..], Crypt(b1, data[1..], mode).1);
      XorMore(b.state, x, tail[..k - 1]);
      assert Plain(mode, data, out) == [x] + tail;
      assert Plain(mode, data, out)[..k] == [x] + tail[..k - 1];
    }
  }

  lemma ByteThere(k: int)
    requires 0 <= k < 256
    ensures Index(k as Byte) == k
  {
  }

  lemma IdentityTable()
    ensures SameTable(Identity(), seq(256, k => k))
  {
    forall k | 0 <= k < 256 ensures Index(Identity()[k]) == k {
      ByteThere(k);
    }
    hide Index, Identity;
  }

  lemma Sum3(a: nat, b: nat, c: nat)
    ensures (a + (b + c) % 256) % 256 == (a + b + c) % 256
  {
  }

  lemma {:induction false} MixedScheduled(key: seq<Byte>, n: nat)
    requires key != [] && n <= 256
    ensures SameTable(Mixed(key, n).t, Scheduled(key, n).0) && Index(Mixed(key, n).j) == Scheduled(key, n).1
  {
    hide Index, Add, Swapped, Exchanged;
    if n == 0 {
      IdentityTable();
      NextByte(0);
    } else {
      MixedScheduled(key, n - 1);
      var s := Mixed(key, n - 1);
      AddValue(key[(n - 1) % |key|], s.t[n - 1]);
      AddValue(s.j, Add(key[(n - 1) % |key|], s.t[n - 1]));
      Sum3(Index(s.j), Index(key[(n - 1) % |key|]), Index(s.t[n - 1]));
      ExchangedTable(s.t, Scheduled(key, n - 1).0, n - 1, Index(Mixed(key, n).j));
    }
  }

  /** So for every key and every text: the generator starts from the schedule of the key, with the first
      byte of the key as the first summand. */
  lemma CipherIsRc4WithFeedback(key: seq<Byte>, data: seq<Byte>, mode: Mode, k: nat)
    requires key != [] && k < |data|
    ensures var out := Crypt(InitCrypt(key), data, mode).1;
            var rc4 := Rc4(Scheduled(key, 256).0, 0, 0);
            out[k] == Xor(Xor(data[k], KeyAt(rc4, k) as Byte), XorAll(key[0], Plain(mode, data, out)[..k]))
  {
    hide Crypt, Mixed, Scheduled, KeyAt, XorAll, Xor;
    MixedScheduled(key, 256);
    OutputByte(InitCrypt(key), Rc4(Scheduled(key, 256).0, 0, 0), data, mode, k);
  }

  // ---------- Headers and seeds ----------

  /** The four bytes before a payload: flag, command and its length, the high byte first. */
  lemma HeaderIs(m: Message)
    ensures var p := Packet(m);
            && p[0] == m.flag && p[1] == m.cmd && p[4..] == m.payload
            && Index(p[2]) == |m.payload| / 256 % 256 && Index(p[3]) == |m.payload| % 256
  {
    ByteValue(|m.payload| / 256);
    ByteValue(|m.payload|);
    hide Index, ByteOf;
  }

  lemma {:induction false} TimesValue(i: nat, x: Byte)
    ensures Index(CcLogin.Times(i, x)) == i * Index(x) % 256
  {
    hide Index, Add;
    NextByte(0);
    if i > 0 {
      TimesValue(i - 1, x);
      AddValue(CcLogin.Times(i - 1, x), x);
      NextMultiple(i - 1, Index(x));
    }
  }

  lemma NextMultiple(i: nat, v: nat)
    ensures (i * v % 256 + v) % 256 == (i + 1) * v % 256
  {
    assert (i + 1) * v == i * v + v;
  }

  /** The seed that both ends hash: each byte of the second half is a multiple of one of the first, and
      "CCcam" with its terminating zero is added bit by bit to the start. */
  lemma SeedIsMixed(seed: seq<Byte>, i: nat)
    requires |seed| == 16 && i < 8
    ensures var mixed, cccam := CcLogin.Xored(seed), [0x43, 0x43, 0x63, 0x61, 0x6D, 0, 0, 0];
            mixed[i] == Xor(seed[i], cccam[i]) && Index(mixed[8 + i]) == i * Index(seed[i]) % 256
  {
    TimesValue(i, seed[i]);
    hide Index, CcLogin.Times;
  }
}
