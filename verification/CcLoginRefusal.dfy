/** When a login is refused (oscam/module-cccam.c, lines 3199-3265 and 3499-3508): which check words the
    server accepts, and which answers the client. */
module CcLoginRefusal {
  import opened CcCrypt
  import opened CcLogin

  /** "CCcam" and its terminating zero, as both ends compare it. */
  const WELCOME: seq<Byte> := [0x43, 0x43, 0x63, 0x61, 0x6D, 0]

  // ---------- The server ----------

  predicate Matches(name: seq<Byte>, a: Account) {
    Prefix(a.usr, NAME_LEN) == name
  }

  /** The cipher for an attempt with the password of an account. */
  function Stirred(saved: Block, a: Account): Block {
    Crypt(saved, Prefix(a.pwd, SERVER_PWD), ENCRYPT).0
  }

  /** The one check word that makes the attempt with account `k` succeed.  Earlier attempts leave the
      check bytes decrypted under the wrong passwords, so it is encrypted once for each of them. */
  function WordFor(saved: Block, name: seq<Byte>, accounts: seq<Account>, k: nat): seq<Byte>
    requires k < |accounts|
    decreases k
  {
    if k == 0 then Crypt(Stirred(saved, accounts[0]), WELCOME, ENCRYPT).1
    else
      var w := WordFor(saved, name, accounts[1..], k - 1);
      if Matches(name, accounts[0]) then Crypt(Stirred(saved, accounts[0]), w, ENCRYPT).1 else w
  }

  ghost predicate Hits(saved: Block, name: seq<Byte>, check: seq<Byte>, accounts: seq<Account>, k: nat) {
    k < |accounts| && Matches(name, accounts[k]) && check == WordFor(saved, name, accounts, k)
  }

  /** The check bytes after a turn that did not end the search. */
  function Next(saved: Block, name: seq<Byte>, check: seq<Byte>, a: Account): seq<Byte> {
    if Matches(name, a) then Crypt(Stirred(saved, a), check, DECRYPT).1 else check
  }

  /** A cipher text and its plain text determine each other. */
  lemma OneWord(b: Block, text: seq<Byte>, plain: seq<Byte>)
    ensures Crypt(b, text, DECRYPT).1 == plain <==> text == Crypt(b, plain, ENCRYPT).1
  {
    hide Crypt;
    Mirror(b, text);
    Mirror(b, plain);
  }

  lemma HitsLater(saved: Block, name: seq<Byte>, check: seq<Byte>, accounts: seq<Account>, k: nat)
    requires accounts != []
    ensures var next := Next(saved, name, check, accounts[0]);
            Hits(saved, name, check, accounts, k + 1) <==> Hits(saved, name, next, accounts[1..], k)
  {
    hide Crypt, Stirred, Matches;
    if k + 1 < |accounts| {
      OneWord(Stirred(saved, accounts[0]), check, WordFor(saved, name, accounts[1..], k));
    }
  }

  /** `k` is the first account whose word was sent. */
  ghost predicate FirstHit(saved: Block, name: seq<Byte>, check: seq<Byte>, accounts: seq<Account>, k: nat) {
    Hits(saved, name, check, accounts, k) && forall i: nat :: i < k ==> !Hits(saved, name, check, accounts, i)
  }

  lemma FirstHitLater(saved: Block, name: seq<Byte>, check: seq<Byte>, accounts: seq<Account>, k: nat)
    requires accounts != []
    ensures FirstHit(saved, name, check, accounts, k + 1)
            <==> FirstHit(saved, name, Next(saved, name, check, accounts[0]), accounts[1..], k)
                 && !Hits(saved, name, check, accounts, 0)
  {
    hide Hits, Next;
    var next := Next(saved, name, check, accounts[0]);
    forall i: nat
      ensures Hits(saved, name, check, accounts, i + 1) <==> Hits(saved, name, next, accounts[1..], i)
    {
      HitsLater(saved, name, check, accounts, i);
    }
    if FirstHit(saved, name, next, accounts[1..], k) && !Hits(saved, name, check, accounts, 0) {
      forall i: nat | i < k + 1 ensures !Hits(saved, name, check, accounts, i) {
        if i > 0 {
          assert !Hits(saved, name, next, accounts[1..], i - 1);
          HitsLater(saved, name, check, accounts, i - 1);
        }
      }
    }
    if FirstHit(saved, name, check, accounts, k + 1) {
      forall i: nat | i < k ensures !Hits(saved, name, next, accounts[1..], i) {
        HitsLater(saved, name, check, accounts, i);
        assert !Hits(saved, name, check, accounts, i + 1);
      }
    }
  }

  /** One turn of the search. */
  lemma SearchStep(saved: Block, name: seq<Byte>, check: seq<Byte>, accounts: seq<Account>)
    requires accounts != []
    ensures Search(saved, name, check, accounts).0
            == if Hits(saved, name, check, accounts, 0) then [accounts[0]]
               else Search(saved, name, Next(saved, name, check, accounts[0]), accounts[1..]).0
  {
    hide Crypt, Prefix;
    OneWord(Stirred(saved, accounts[0]), check, WELCOME);
  }

  /** The search ends with the first account whose word was sent. */
  lemma {:induction false} SearchEndsAt(saved: Block, name: seq<Byte>, check: seq<Byte>, accounts: seq<Account>, k: nat)
    requires FirstHit(saved, name, check, accounts, k)
    ensures k < |accounts| && Search(saved, name, check, accounts).0 == [accounts[k]]
    decreases k
  {
    assert k < |accounts| by {
      hide WordFor, Matches;
    }
    hide Hits, Search, Next;
    SearchStep(saved, name, check, accounts);
    if k > 0 {
      FirstHitLater(saved, name, check, accounts, k - 1);
      SearchEndsAt(saved, name, Next(saved, name, check, accounts[0]), accounts[1..], k - 1);
    }
  }

  lemma {:induction false} FoundHits(saved: Block, name: seq<Byte>, check: seq<Byte>, accounts: seq<Account>) returns (k: nat)
    requires Search(saved, name, check, accounts).0 != []
    ensures FirstHit(saved, name, check, accounts, k)
    decreases |accounts|
  {
    assert accounts != [];
    hide Hits, Search, Next;
    SearchStep(saved, name, check, accounts);
    if Hits(saved, name, check, accounts, 0) {
      k := 0;
    } else {
      k := FoundHits(saved, name, Next(saved, name, check, accounts[0]), accounts[1..]);
      FirstHitLater(saved, name, check, accounts, k);
      k := k + 1;
    }
  }

  lemma {:induction false} LeastHit(saved: Block, name: seq<Byte>, check: seq<Byte>, accounts: seq<Account>, k: nat, n: nat)
    returns (m: nat)
    requires n <= k && Hits(saved, name, check, accounts, k)
    requires forall i: nat :: i < n ==> !Hits(saved, name, check, accounts, i)
    ensures FirstHit(saved, name, check, accounts, m)
    decreases k - n
  {
    hide Hits;
    if Hits(saved, name, check, accounts, n) {
      m := n;
    } else {
      m := LeastHit(saved, name, check, accounts, k, n + 1);
    }
  }

  /** The client's cipher once it has sent its hash and its name. */
  function Named(c: Ends, hash: seq<Byte>, usr: seq<Byte>): Block {
    Crypt(Crypt(c.enc, hash, ENCRYPT).0, Field(usr, NAME_LEN), ENCRYPT).0
  }

  /** What the server says to a client that sends its hash, its name and some check word. */
  function Answer(s: Ends, c: Ends, hash: seq<Byte>, a: Account, check: seq<Byte>, accounts: seq<Account>): Verdict {
    var offer := ClientOffer(c, hash, a);
    ServerLogin(s, offer.hash, offer.name, check, accounts)
  }

  lemma AnswerSearches(s: Ends, c: Ends, hash: seq<Byte>, a: Account, check: seq<Byte>, accounts: seq<Account>)
    requires Mirrored(s, c) && Text(a.usr) && Printable(Prefix(a.usr, NAME_LEN))
    ensures var v := Answer(s, c, hash, a, check, accounts);
            var found := Search(Named(c, hash, a.usr), Prefix(a.usr, NAME_LEN), check, accounts).0;
            if found == [] then v.Refused? else v.Accepted? && v.account == found[0]
  {
    hide Crypt, Search, Printable, Prefix, Field, UntilZero;
    NameArrives(s, c, hash, a);
  }

  /** For all accounts and check words: a client of a printable name is accepted exactly when it sent the
      word for an account of its name, as the first account whose word it sent, and refused otherwise. */
  lemma AcceptedExactly(s: Ends, c: Ends, hash: seq<Byte>, a: Account, check: seq<Byte>, accounts: seq<Account>)
    requires Mirrored(s, c) && Text(a.usr) && Printable(Prefix(a.usr, NAME_LEN))
    ensures var v := Answer(s, c, hash, a, check, accounts);
            && (v.Accepted? || v.Refused?)
            && (v.Accepted? <==> exists k: nat :: Hits(Named(c, hash, a.usr), Prefix(a.usr, NAME_LEN), check, accounts, k))
    ensures forall k: nat :: FirstHit(Named(c, hash, a.usr), Prefix(a.usr, NAME_LEN), check, accounts, k)
                             ==> k < |accounts| && Answer(s, c, hash, a, check, accounts).account == accounts[k]
  {
    hide Printable, Prefix, Hits, Search, Answer, Named;
    var name, saved := Prefix(a.usr, NAME_LEN), Named(c, hash, a.usr);
    AnswerSearches(s, c, hash, a, check, accounts);
    if Search(saved, name, check, accounts).0 != [] {
      var k := FoundHits(saved, name, check, accounts);
    }
    forall k: nat | FirstHit(saved, name, check, accounts, k)
      ensures k < |accounts| && Search(saved, name, check, accounts).0 == [accounts[k]]
    {
      SearchEndsAt(saved, name, check, accounts, k);
    }
    if k: nat :| Hits(saved, name, check, accounts, k) {
      var m := LeastHit(saved, name, check, accounts, k, 0);
    }
  }

  lemma {:induction false} OnlyWord(saved: Block, name: seq<Byte>, accounts: seq<Account>, k: nat)
    requires k < |accounts| && forall i :: 0 <= i < k ==> !Matches(name, accounts[i])
    ensures WordFor(saved, name, accounts, k) == Crypt(Stirred(saved, accounts[k]), WELCOME, ENCRYPT).1
    decreases k
  {
    hide Crypt, Matches;
    if k > 0 {
      OnlyWord(saved, name, accounts[1..], k - 1);
    }
  }

  /** A wrong password is refused: with one account of the client's name and a password of at most 63
      bytes, the server accepts if and only if the check word is the one that the client computes for
      this password. */
  lemma OnlyTheRightWord(s: Ends, c: Ends, hash: seq<Byte>, a: Account, check: seq<Byte>, accounts: seq<Account>, k: nat)
    requires Mirrored(s, c) && Text(a.usr) && Printable(Prefix(a.usr, NAME_LEN))
    requires k < |accounts| && |accounts[k].pwd| <= CLIENT_PWD
    requires forall i :: 0 <= i < |accounts| ==> (Prefix(accounts[i].usr, NAME_LEN) == Prefix(a.usr, NAME_LEN) <==> i == k)
    ensures var v := Answer(s, c, hash, a, check, accounts);
            && (v.Accepted? <==> check == ClientOffer(c, hash, a.(pwd := accounts[k].pwd)).check)
            && (v.Accepted? ==> v.account == accounts[k])
            && (!v.Accepted? ==> v.Refused?)
  {
    hide Crypt, Printable, Prefix, Field, Answer, WordFor;
    var name, saved := Prefix(a.usr, NAME_LEN), Named(c, hash, a.usr);
    AcceptedExactly(s, c, hash, a, check, accounts);
    OnlyWord(saved, name, accounts, k);
    ShortEnough(accounts[k].pwd);
    assert Hits(saved, name, check, accounts, k) <==> check == WordFor(saved, name, accounts, k);
    assert forall i: nat :: i != k ==> !Hits(saved, name, check, accounts, i);
    assert Hits(saved, name, check, accounts, k) ==> FirstHit(saved, name, check, accounts, k);
  }

  // ---------- The client ----------

  /** The client accepts exactly an answer that decrypts to a text starting with "CCcam", and so exactly
      one that starts with the five bytes which an end mirroring it makes of "CCcam". */
  lemma AnswerExactly(s: Ends, c: Ends, ack: seq<Byte>)
    requires |ack| == 20 && Mirrored(s, c)
    ensures var p := Crypt(c.dec, ack, DECRYPT).1;
            ClientAccepts(c, ack).1 <==> p[0] == 0x43 && p[1] == 0x43 && p[2] == 0x63 && p[3] == 0x61 && p[4] == 0x6D
    ensures ClientAccepts(c, ack).1 <==> ack[..5] == Crypt(s.enc, WELCOME[..5], ENCRYPT).1
  {
    hide Crypt;
    assert ack[..5] + ack[5..] == ack;
    Chunked(c.dec, ack[..5], ack[5..], DECRYPT);
    OneWord(c.dec, ack[..5], WELCOME[..5]);
    var p := Crypt(c.dec, ack, DECRYPT).1;
    assert p[..5] == Crypt(c.dec, ack[..5], DECRYPT).1;
    assert WELCOME[..5] == CCCAM[..5] == [0x43, 0x43, 0x63, 0x61, 0x6D];
    assert p[..5] == [p[0], p[1], p[2], p[3], p[4]];
  }
}
