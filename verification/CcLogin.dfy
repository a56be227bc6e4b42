/** The CCcam login handshake (oscam/module-cccam.c, lines 88-98, 3134-3298 and 3374-3515) and the two
    socket routines of a connection (lines 501-619).

    The server sends a random seed.  Both ends derive two cipher blocks from it, with the roles of the
    blocks exchanged.  The client then sends its hash, its name in 20 bytes and the string "CCcam"
    encrypted after its cipher has been stirred with the password, and the server answers in kind.
    SHA-1 is a parameter. */
module CcLogin {
  import opened CcCrypt

  const HASH_LEN: nat := 20
  const NAME_LEN: nat := 20

  /** "CCcam" with its terminating zero. */
  const CCCAM: seq<Byte> := [0x43, 0x43, 0x63, 0x61, 0x6D, 0]

  /** The two cipher blocks of one end. */
  datatype Ends = Ends(enc: Block, dec: Block)

  ghost predicate Mirrored(server: Ends, client: Ends) {
    server.enc == client.dec && server.dec == client.enc
  }

  // ---------- Deriving the blocks from the seed ----------

  function Times(i: nat, x: Byte): Byte {
    if i == 0 then 0 else Add(Times(i - 1, x), x)
  }

  /** cc_xor: multiples of the first half into the second, then "CCcam\0" onto the first. */
  function Xored(seed: seq<Byte>): (r: seq<Byte>)
    requires |seed| == 16
    ensures |r| == 16
  {
    seq(16, i requires 0 <= i < 16 =>
      if i < 6 then Xor(seed[i], CCCAM[i]) else if i < 8 then seed[i] else Times(i - 8, seed[i - 8]))
  }

  /** The block keyed by the hash, the one keyed by the seed it encrypts, and the hash as both ends
      keep it. */
  datatype Derived = Derived(first: Block, second: Block, hash: seq<Byte>)

  function Derive(seed: seq<Byte>, sha: seq<Byte> -> seq<Byte>): (r: Derived)
    requires |seed| == 16 && |sha(Xored(seed))| == HASH_LEN
    ensures |r.hash| == HASH_LEN
  {
    var data, hash := Xored(seed), sha(Xored(seed));
    var (first, key) := Crypt(InitCrypt(hash), data, DECRYPT);
    var (second, kept) := Crypt(InitCrypt(key), hash, DECRYPT);
    Derived(first, second, kept)
  }

  function ServerStart(seed: seq<Byte>, sha: seq<Byte> -> seq<Byte>): Ends
    requires |seed| == 16 && |sha(Xored(seed))| == HASH_LEN
  {
    var d := Derive(seed, sha);
    Ends(d.first, d.second)
  }

  function ClientStart(seed: seq<Byte>, sha: seq<Byte> -> seq<Byte>): Ends
    requires |seed| == 16 && |sha(Xored(seed))| == HASH_LEN
  {
    var d := Derive(seed, sha);
    Ends(d.second, d.first)
  }

  // ---------- C strings ----------

  /** The characters of a C string: no zero among them. */
  ghost predicate Text(s: seq<Byte>) {
    0 !in s
  }

  function Prefix(s: seq<Byte>, n: nat): (r: seq<Byte>)
    ensures |r| <= n
  {
    if |s| <= n then s else s[..n]
  }

  function Zeros(n: nat): (r: seq<Byte>)
    ensures |r| == n
  {
    if n == 0 then [] else [0] + Zeros(n - 1)
  }

  /** The text in a field of `n` bytes, zeros behind it. */
  function Field(s: seq<Byte>, n: nat): (r: seq<Byte>)
    ensures |r| == n
  {
    Prefix(s, n) + Zeros(n - |Prefix(s, n)|)
  }

  function UntilZero(s: seq<Byte>): seq<Byte> {
    if s == [] || s[0] == 0 then [] else [s[0]] + UntilZero(s[1..])
  }

  lemma {:induction false} FieldText(s: seq<Byte>, zeros: nat)
    requires Text(s)
    ensures UntilZero(s + Zeros(zeros)) == s
  {
    if s == [] {
      assert s + Zeros(zeros) == Zeros(zeros);
    } else {
      FieldText(s[1..], zeros);
      assert s + Zeros(zeros) == [s[0]] + (s[1..] + Zeros(zeros));
    }
  }

  // ---------- The login ----------

  datatype Account = Account(usr: seq<Byte>, pwd: seq<Byte>)

  const CLIENT_PWD: nat := 63
  const SERVER_PWD: nat := 64

  /** What the client puts on the line, in its three sends, and its blocks afterwards. */
  datatype Offer = LoginOffer(hash: seq<Byte>, name: seq<Byte>, check: seq<Byte>, ends: Ends)

  function ClientOffer(c: Ends, hash: seq<Byte>, a: Account): (r: Offer)
    ensures |r.hash| == |hash| && |r.name| == NAME_LEN && |r.check| == 6
  {
    var (e1, w1) := Crypt(c.enc, hash, ENCRYPT);
    var (e2, w2) := Crypt(e1, Field(a.usr, NAME_LEN), ENCRYPT);
    var e3 := Crypt(e2, Prefix(a.pwd, CLIENT_PWD), ENCRYPT).0;
    var (e4, w3) := Crypt(e3, CCCAM, ENCRYPT);
    LoginOffer(w1, w2, w3, c.(enc := e4))
  }

  predicate Printable(name: seq<Byte>) {
    forall i :: 0 <= i < |name| ==> name[i] >= 0x20
  }

  datatype Verdict = Accepted(account: Account, s: Ends, ack: seq<Byte>) | IllegalName | Refused

  /** The account search: each account with the client's name is tried from the saved cipher, on what
      the attempts before have made of the check bytes. */
  function Search(saved: Block, name: seq<Byte>, check: seq<Byte>, accounts: seq<Account>):
    (r: (seq<Account>, Block))
    ensures |r.0| <= 1
    decreases |accounts|
  {
    if accounts == [] then ([], saved)
    else if Prefix(accounts[0].usr, NAME_LEN) != name then Search(saved, name, check, accounts[1..])
    else
      var d1 := Crypt(saved, Prefix(accounts[0].pwd, SERVER_PWD), ENCRYPT).0;
      var (d2, plain) := Crypt(d1, check, DECRYPT);
      if plain == CCCAM then ([accounts[0]], d2) else Search(saved, name, plain, accounts[1..])
  }

  function Ack(): seq<Byte> {
    CCCAM + Zeros(14)
  }

  function ServerLogin(s: Ends, hash: seq<Byte>, nameField: seq<Byte>, check: seq<Byte>,
      accounts: seq<Account>): Verdict {
    var d1 := Crypt(s.dec, hash, DECRYPT).0;
    var (d2, field) := Crypt(d1, nameField, DECRYPT);
    var name := UntilZero(field);
    if !Printable(name) then IllegalName else
      var (found, d3) := Search(d2, name, check, accounts);
      if found == [] then Refused else
        var (e, ack) := Crypt(s.enc, Ack(), ENCRYPT);
        Accepted(found[0], Ends(e, d3), ack)
  }

  function ClientAccepts(c: Ends, ack: seq<Byte>): (Ends, bool)
    requires |ack| == 20
  {
    var (d, plain) := Crypt(c.dec, ack, DECRYPT);
    (c.(dec := d), plain[..5] == CCCAM[..5])
  }

  // ---------- Both ends stay in step ----------

  lemma StartsMirrored(seed: seq<Byte>, sha: seq<Byte> -> seq<Byte>)
    requires |seed| == 16 && |sha(Xored(seed))| == HASH_LEN
    ensures Mirrored(ServerStart(seed, sha), ClientStart(seed, sha))
  {
  }

  /** From mirrored blocks the server reads exactly the client's name and cipher state. */
  lemma {:induction false} NameArrives(s: Ends, c: Ends, hash: seq<Byte>, a: Account)
    requires Mirrored(s, c) && Text(a.usr)
    ensures var offer := ClientOffer(c, hash, a);
            var d1 := Crypt(s.dec, offer.hash, DECRYPT).0;
            var (d2, field) := Crypt(d1, offer.name, DECRYPT);
            && field == Field(a.usr, NAME_LEN)
            && UntilZero(field) == Prefix(a.usr, NAME_LEN)
            && d2 == Crypt(Crypt(c.enc, hash, ENCRYPT).0, Field(a.usr, NAME_LEN), ENCRYPT).0
  {
    hide Crypt;
    Mirror(c.enc, hash);
    Mirror(Crypt(c.enc, hash, ENCRYPT).0, Field(a.usr, NAME_LEN));
    FieldText(Prefix(a.usr, NAME_LEN), NAME_LEN - |Prefix(a.usr, NAME_LEN)|);
  }

  /** The first account with the client's name decides when its password is the client's. */
  lemma {:induction false} SearchFinds(saved: Block, name: seq<Byte>, check: seq<Byte>, accounts: seq<Account>,
      k: nat, d: Block)
    requires k < |accounts| && Prefix(accounts[k].usr, NAME_LEN) == name
    requires forall i :: 0 <= i < k ==> Prefix(accounts[i].usr, NAME_LEN) != name
    requires Crypt(Crypt(saved, Prefix(accounts[k].pwd, SERVER_PWD), ENCRYPT).0, check, DECRYPT) == (d, CCCAM)
    ensures Search(saved, name, check, accounts) == ([accounts[k]], d)
    decreases k
  {
    hide Crypt;
    if k > 0 { SearchFinds(saved, name, check, accounts[1..], k - 1, d); }
  }

  /** A login with the right password succeeds: for every seed and every printable name, when account
      `k` is the first with the name's first 20 characters and has the client's password of at most
      63 characters, the server accepts with that account, the client accepts the answer, and the
      cipher blocks of the two ends mirror each other. */
  lemma {:induction false} LoginSucceeds(seed: seq<Byte>, sha: seq<Byte> -> seq<Byte>, a: Account,
      accounts: seq<Account>, k: nat)
    requires |seed| == 16 && |sha(Xored(seed))| == HASH_LEN
    requires Text(a.usr) && Printable(Prefix(a.usr, NAME_LEN)) && |a.pwd| <= CLIENT_PWD
    requires k < |accounts| && accounts[k].pwd == a.pwd
    requires Prefix(accounts[k].usr, NAME_LEN) == Prefix(a.usr, NAME_LEN)
    requires forall i :: 0 <= i < k ==> Prefix(accounts[i].usr, NAME_LEN) != Prefix(a.usr, NAME_LEN)
    ensures var offer := ClientOffer(ClientStart(seed, sha), Derive(seed, sha).hash, a);
            var v := ServerLogin(ServerStart(seed, sha), offer.hash, offer.name, offer.check, accounts);
            && v.Accepted? && v.account == accounts[k] && |v.ack| == 20
            && var (client, ok) := ClientAccepts(offer.ends, v.ack);
               ok && Mirrored(v.s, client)
  {
    var s, c := ServerStart(seed, sha), ClientStart(seed, sha);
    StartsMirrored(seed, sha);
    LoginFromMirrored(s, c, Derive(seed, sha).hash, a, accounts, k);
  }

  lemma {:induction false} LoginFromMirrored(s: Ends, c: Ends, hash: seq<Byte>, a: Account, accounts: seq<Account>,
      k: nat)
    requires Mirrored(s, c)
    requires Text(a.usr) && Printable(Prefix(a.usr, NAME_LEN)) && |a.pwd| <= CLIENT_PWD
    requires k < |accounts| && accounts[k].pwd == a.pwd
    requires Prefix(accounts[k].usr, NAME_LEN) == Prefix(a.usr, NAME_LEN)
    requires forall i :: 0 <= i < k ==> Prefix(accounts[i].usr, NAME_LEN) != Prefix(a.usr, NAME_LEN)
    ensures var offer := ClientOffer(c, hash, a);
            var v := ServerLogin(s, offer.hash, offer.name, offer.check, accounts);
            && v.Accepted? && v.account == accounts[k] && |v.ack| == 20
            && var (client, ok) := ClientAccepts(offer.ends, v.ack);
               ok && Mirrored(v.s, client)
  {
    hide Crypt, Search, Printable, Prefix, Field, UntilZero;
    var offer := ClientOffer(c, hash, a);
    NameArrives(s, c, hash, a);
    var e2 := Crypt(Crypt(c.enc, hash, ENCRYPT).0, Field(a.usr, NAME_LEN), ENCRYPT).0;
    ShortEnough(a.pwd);
    var e3 := Crypt(e2, a.pwd, ENCRYPT).0;
    Mirror(e3, CCCAM);
    SearchFinds(e2, Prefix(a.usr, NAME_LEN), offer.check, accounts, k, offer.ends.enc);
    Mirror(s.enc, Ack());
  }

  lemma ShortEnough(pwd: seq<Byte>)
    requires |pwd| <= CLIENT_PWD
    ensures Prefix(pwd, CLIENT_PWD) == pwd == Prefix(pwd, SERVER_PWD)
  {
  }

  /** A name decides the refusals: a control character in the first 20 bytes is illegal, and a name
      that no account shares is refused. */
  lemma {:induction false} NameDecides(s: Ends, c: Ends, hash: seq<Byte>, a: Account, accounts: seq<Account>)
    requires Mirrored(s, c) && Text(a.usr)
    ensures var offer := ClientOffer(c, hash, a);
            var v := ServerLogin(s, offer.hash, offer.name, offer.check, accounts);
            && (v.IllegalName? <==> !Printable(Prefix(a.usr, NAME_LEN)))
            && (v.Accepted? ==> v.account in accounts
                                && Prefix(v.account.usr, NAME_LEN) == Prefix(a.usr, NAME_LEN))
  {
    hide Crypt, Search, Printable, Prefix, Field, UntilZero;
    var offer := ClientOffer(c, hash, a);
    NameArrives(s, c, hash, a);
    var saved := Crypt(Crypt(s.dec, offer.hash, DECRYPT).0, offer.name, DECRYPT).0;
    SearchedName(saved, Prefix(a.usr, NAME_LEN), offer.check, accounts);
  }

  lemma {:induction false} SearchedName(saved: Block, name: seq<Byte>, check: seq<Byte>, accounts: seq<Account>)
    ensures var found := Search(saved, name, check, accounts).0;
            found != [] ==> found[0] in accounts && Prefix(found[0].usr, NAME_LEN) == name
    decreases |accounts|
  {
    hide Crypt;
    if accounts != [] {
      SearchedName(saved, name, check, accounts[1..]);
      if Prefix(accounts[0].usr, NAME_LEN) == name {
        var d1 := Crypt(saved, Prefix(accounts[0].pwd, SERVER_PWD), ENCRYPT).0;
        SearchedName(saved, name, Crypt(d1, check, DECRYPT).1, accounts[1..]);
      }
    }
  }

  // ---------- The code ----------

  method Buffer(s: seq<Byte>) returns (a: array<Byte>)
    ensures fresh(a) && a[..] == s
  {
    a := new Byte[|s|](i requires 0 <= i < |s| => s[i]);
  }

  method CcXor(buf: array<Byte>)
    requires buf.Length == 16
    modifies buf
    ensures buf[..] == Xored(old(buf[..]))
  {
    hide Xor, Times;
    ghost var s := buf[..];
    for i := 0 to 8
      invariant forall k :: 0 <= k < 8 ==> buf[k] == if k < i && k < 6 then Xor(s[k], CCCAM[k]) else s[k]
      invariant forall k :: 8 <= k < 8 + i ==> buf[k] == Times(k - 8, s[k - 8])
    {
      buf[8 + i] := Times(i, buf[i]);
      if i <= 5 {
        buf[i] := Xor(buf[i], CCCAM[i]);
      }
    }
  }

  /** One end of a connection: its two cipher blocks and the flag byte of its headers. */
  class Peer {
    const enc: CryptBlock
    const dec: CryptBlock
    var gflag: Byte

    ghost predicate Valid()
      reads this, enc, dec
    {
      enc != dec && enc.Valid() && dec.Valid() && enc.keytable != dec.keytable
    }

    ghost function Now(): Ends
      requires Valid()
      reads this, enc, dec, enc.keytable, dec.keytable
    {
      Ends(enc.Now(), dec.Now())
    }

    constructor ()
      ensures Valid() && fresh(enc) && fresh(dec) && fresh(enc.keytable) && fresh(dec.keytable)
    {
      enc := new CryptBlock();
      dec := new CryptBlock();
      gflag := 0;
    }

    /** Both ends run this on the seed, with the roles of `first` and `second` exchanged. */
    static method Setup(first: CryptBlock, second: CryptBlock, data: array<Byte>, sha: seq<Byte> -> seq<Byte>)
      returns (hash: seq<Byte>)
      requires first != second && first.Valid() && second.Valid() && first.keytable != second.keytable
      requires data.Length == 16 && data != first.keytable && data != second.keytable
      requires |sha(Xored(data[..]))| == HASH_LEN
      modifies first, second, first.keytable, second.keytable, data
      ensures Derived(first.Now(), second.Now(), hash) == Derive(old(data[..]), sha)
    {
      hide Xored, InitCrypt, Crypt;
      CcXor(data);
      var digest := sha(data[..]);
      first.Init(digest);
      first.CryptData(data, DECRYPT);
      assert data.Length == 16;
      second.Init(data[..]);
      var buf := Buffer(digest);
      second.CryptData(buf, DECRYPT);
      hash := buf[..];
    }

    method StartServer(data: array<Byte>, sha: seq<Byte> -> seq<Byte>) returns (hash: seq<Byte>)
      requires Valid() && data.Length == 16 && data != enc.keytable && data != dec.keytable
      requires |sha(Xored(data[..]))| == HASH_LEN
      modifies enc, dec, enc.keytable, dec.keytable, data
      ensures Now() == ServerStart(old(data[..]), sha) && hash == Derive(old(data[..]), sha).hash
    {
      hash := Setup(enc, dec, data, sha);
    }

    method StartClient(data: array<Byte>, sha: seq<Byte> -> seq<Byte>) returns (hash: seq<Byte>)
      requires Valid() && data.Length == 16 && data != enc.keytable && data != dec.keytable
      requires |sha(Xored(data[..]))| == HASH_LEN
      modifies enc, dec, enc.keytable, dec.keytable, data
      ensures Now() == ClientStart(old(data[..]), sha) && hash == Derive(old(data[..]), sha).hash
    {
      hash := Setup(dec, enc, data, sha);
    }

    /** cc_cmd_send with MSG_NO_HEADER. */
    method SendRaw(buf: seq<Byte>) returns (wire: seq<Byte>)
      requires Valid()
      modifies enc, enc.keytable
      ensures (enc.Now(), wire) == Crypt(old(enc.Now()), buf, ENCRYPT)
    {
      var netbuf := Buffer(buf);
      enc.CryptData(netbuf, ENCRYPT);
      wire := netbuf[..];
    }

    /** cc_cmd_send with a header. */
    method CmdSend(cmd: Byte, buf: seq<Byte>) returns (wire: seq<Byte>)
      requires Valid()
      modifies enc, enc.keytable
      ensures (enc.Now(), wire) == Sent(old(enc.Now()), Message(gflag, cmd, buf))
    {
      wire := SendRaw([gflag, cmd, ByteOf(|buf| / 256), ByteOf(|buf|)] + buf);
    }

    /** cc_msg_recv.  The caller's buffer has room for the header and `maxlen` bytes. */
    method MsgRecv(line: seq<Byte>, maxlen: nat) returns (out: Outcome, rest: seq<Byte>)
      requires Valid()
      modifies this, dec, dec.keytable
      ensures Valid() && Reading(out, dec.Now(), rest) == Receive(old(dec.Now()), line, maxlen)
      ensures out.Received? ==> gflag == out.m.flag
    {
      hide Crypt;
      if maxlen < 4 {
        return Disconnected, line;
      }
      if |line| < 4 {
        return Disconnected, [];
      }
      var header := Buffer(line[..4]);
      dec.CryptData(header, DECRYPT);
      assert header.Length == 4;
      gflag := header[0];
      var size := SizeField(header[..]);
      if size > maxlen {
        return TooBig, line[4..];
      }
      if |line| < 4 + size {
        return Disconnected, [];
      }
      var body := Buffer(line[4..4 + size]);
      dec.CryptData(body, DECRYPT);
      return Received(Message(header[0], header[1], body[..])), line[4 + size..];
    }

    /** The client's three sends. */
    method SendOffer(hash: seq<Byte>, a: Account) returns (w1: seq<Byte>, w2: seq<Byte>, w3: seq<Byte>)
      requires Valid()
      modifies enc, enc.keytable
      ensures LoginOffer(w1, w2, w3, Now()) == ClientOffer(old(Now()), hash, a)
    {
      hide Crypt;
      w1 := SendRaw(hash);
      w2 := SendRaw(Field(a.usr, NAME_LEN));
      var pwd := Buffer(Prefix(a.pwd, CLIENT_PWD));
      enc.CryptData(pwd, ENCRYPT);
      w3 := SendRaw(CCCAM);
    }

    /** The server's account search, on the check bytes as they change from attempt to attempt. */
    method FindAccount(name: seq<Byte>, check: array<Byte>, accounts: seq<Account>)
      returns (found: bool, account: Account)
      requires Valid() && check.Length == 6 && check != enc.keytable && check != dec.keytable
      modifies dec, dec.keytable, check
      ensures Valid() && enc.Now() == old(enc.Now())
      ensures var (f, d) := Search(old(dec.Now()), name, old(check[..]), accounts);
              && (found <==> f != [])
              && (found ==> f == [account] && dec.Now() == d)
    {
      hide Crypt;
      var save := dec.Now();
      ghost var all := Search(save, name, check[..], accounts);
      account := Account([], []);
      var i := 0;
      while i < |accounts|
        invariant i <= |accounts| && Valid() && enc.Now() == old(enc.Now())
        invariant Search(save, name, check[..], accounts[i..]) == all
      {
        if Prefix(accounts[i].usr, NAME_LEN) == name {
          dec.Restore(save);
          var pwd := Buffer(Prefix(accounts[i].pwd, SERVER_PWD));
          dec.CryptData(pwd, ENCRYPT);
          dec.CryptData(check, DECRYPT);
          if check[..] == CCCAM {
            return true, accounts[i];
          }
        }
        assert accounts[i..][1..] == accounts[i + 1..];
        i := i + 1;
      }
      return false, account;
    }

    method Login(hash: seq<Byte>, nameField: seq<Byte>, check: seq<Byte>, accounts: seq<Account>)
      returns (v: Verdict)
      requires Valid() && |check| == 6
      modifies this, enc, enc.keytable, dec, dec.keytable
      ensures Valid() && v == ServerLogin(old(Now()), hash, nameField, check, accounts)
      ensures v.Accepted? ==> Now() == v.s
    {
      hide Crypt, Search;
      ghost var s := Now();
      var buf := Buffer(hash);
      dec.CryptData(buf, DECRYPT);
      var field := Buffer(nameField);
      dec.CryptData(field, DECRYPT);
      var usr := UntilZero(field[..]);
      if !Printable(usr) {
        return IllegalName;
      }
      var pwdhash := Buffer(check);
      var found, account := FindAccount(usr, pwdhash, accounts);
      if !found {
        return Refused;
      }
      var ack := SendRaw(Ack());
      v := Accepted(account, Ends(enc.Now(), dec.Now()), ack);
    }

    method CheckAck(ack: seq<Byte>) returns (ok: bool)
      requires Valid() && |ack| == 20
      modifies dec, dec.keytable
      ensures (Now(), ok) == ClientAccepts(old(Now()), ack)
    {
      var data := Buffer(ack);
      dec.CryptData(data, DECRYPT);
      ok := data[..][..5] == CCCAM[..5];
    }
  }
}
