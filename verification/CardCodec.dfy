/** A card as a message: write_card (oscam/module-cccshare.c, lines 121-239) and read_card
    (oscam/module-cccam.c, lines 1765-1858).

    The writer fills a buffer of CC_MAXMSGSIZE zeros, counting providers, services and nodes in bytes
    of the buffer itself; the reader walks over it with the counts.  Reading what was written gives the
    card back as far as the format can carry it. */
module CardCodec {
  import opened Cards

  const CC_MAXMSGSIZE: nat := 0x400

  /** A service table of the configuration. */
  datatype SidTab = SidTab(srvids: seq<nat>, caids: seq<nat>)

  /** What write_card is given besides the card; `rejected` holds the tables that the card or the client
      excludes. */
  datatype Form = Form(addOwn: bool, ext: bool, au: bool, own: NodeId, tabs: seq<SidTab>, rejected: set<nat>)

  // ---------- Numbers ----------

  function B2(x: nat): seq<Byte> {
    [x / 0x100 % 0x100, x % 0x100]
  }

  function B3(x: nat): seq<Byte> {
    [x / 0x1_0000 % 0x100, x / 0x100 % 0x100, x % 0x100]
  }

  function B4(x: nat): seq<Byte> {
    [x / 0x100_0000 % 0x100, x / 0x1_0000 % 0x100, x / 0x100 % 0x100, x % 0x100]
  }

  /** b2i */
  function Big(s: seq<Byte>): nat {
    if s == [] then 0 else Big(s[..|s| - 1]) * 0x100 + s[|s| - 1]
  }

  lemma BigTwo(s: seq<Byte>)
    requires |s| == 2
    ensures Big(s) == (s[0] as nat) * 0x100 + s[1]
  {
    assert s[..1][..0] == [];
    assert Big(s[..1]) == s[0];
  }

  lemma BigThree(s: seq<Byte>)
    requires |s| == 3
    ensures Big(s) == (s[0] as nat) * 0x1_0000 + (s[1] as nat) * 0x100 + s[2]
  {
    BigTwo(s[..2]);
  }

  lemma BigFour(s: seq<Byte>)
    requires |s| == 4
    ensures Big(s) == (s[0] as nat) * 0x100_0000 + (s[1] as nat) * 0x1_0000 + (s[2] as nat) * 0x100 + s[3]
  {
    BigThree(s[..3]);
  }

  lemma LowBytes(x: nat)
    ensures x / 0x100 % 0x100 * 0x100 + x % 0x100 == x % 0x1_0000
  {
  }

  lemma ThreeBytes(x: nat)
    ensures x / 0x1_0000 % 0x100 * 0x1_0000 + x / 0x100 % 0x100 * 0x100 + x % 0x100 == x % 0x100_0000
  {
    LowBytes(x);
  }

  lemma FourBytes(x: nat)
    requires x < 0x1_0000_0000
    ensures x / 0x100_0000 % 0x100 * 0x100_0000 + x / 0x1_0000 % 0x100 * 0x1_0000 + x / 0x100 % 0x100 * 0x100 + x % 0x100 == x
  {
    ThreeBytes(x);
  }

  lemma Sizes(x: nat)
    ensures |B2(x)| == 2 && |B3(x)| == 3 && |B4(x)| == 4
  {
  }

  lemma TwoReadBack(x: nat)
    requires x < 0x1_0000
    ensures Big(B2(x)) == x
  {
    hide Big;
    BigTwo(B2(x));
    LowBytes(x);
  }

  lemma ThreeReadBack(x: nat)
    ensures Big(B3(x)) == x % 0x100_0000
  {
    hide Big;
    BigThree(B3(x));
    ThreeBytes(x);
  }

  lemma FourReadBack(x: nat)
    requires x < 0x1_0000_0000
    ensures Big(B4(x)) == x
  {
    hide Big;
    BigFour(B4(x));
    FourBytes(x);
  }

  // ---------- The format ----------

  function Zeros(n: nat): (z: seq<Byte>)
    ensures |z| == n && forall i :: 0 <= i < n ==> z[i] == 0
  {
    if n == 0 then [] else Zeros(n - 1) + [0]
  }

  /** The widths of the fields in the program. */
  ghost predicate Sized(c: Card) {
    && c.id < 0x1_0000_0000 && c.remoteId < 0x1_0000_0000 && c.caid < 0x1_0000 && c.hop < 0x100 && c.reshare < 0x100
    && |c.hexserial| == 8
    && (forall i :: 0 <= i < |c.providers| ==> |c.providers[i].sa| == 4)
    && (forall i :: 0 <= i < |c.goodsids| ==> c.goodsids[i].sid < 0x1_0000)
    && (forall i :: 0 <= i < |c.badsids| ==> c.badsids[i].sid < 0x1_0000)
    && (forall i :: 0 <= i < |c.nodes| ==> |c.nodes[i]| == 8)
  }

  ghost predicate FormFor(f: Form, c: Card) {
    && |f.own| == 8
    && (c.sidtab.Some? ==> c.sidtab.value < |f.tabs|)
    && (forall n, i :: 0 <= n < |f.tabs| && 0 <= i < |f.tabs[n].srvids| ==> f.tabs[n].srvids[i] < 0x1_0000)
  }

  function FirstOf<T>(s: seq<T>, n: nat): seq<T> {
    if |s| <= n then s else s[..n]
  }

  function SidsOf(s: seq<Sid>): seq<nat> {
    if s == [] then [] else [s[0].sid] + SidsOf(s[1..])
  }

  /** The assigned services: those of the card's table, at most 240, or of its list, at most 200. */
  function GoodList(c: Card, f: Form): seq<nat>
    requires c.sidtab.Some? ==> c.sidtab.value < |f.tabs|
  {
    match c.sidtab
    case Some(t) => FirstOf(f.tabs[t].srvids, 240)
    case None => FirstOf(SidsOf(c.goodsids), 200)
  }

  predicate Excluded(c: Card, f: Form, n: nat) {
    n < |f.tabs| && n in f.rejected && c.caid in f.tabs[n].caids
  }

  /** The services of all excluded tables from the `n`-th on. */
  function ExcludedSids(c: Card, f: Form, n: nat): seq<nat>
    requires n <= |f.tabs|
    decreases |f.tabs| - n
  {
    if n == |f.tabs| then []
    else (if Excluded(c, f, n) then f.tabs[n].srvids else []) + ExcludedSids(c, f, n + 1)
  }

  function BadList(c: Card, f: Form): seq<nat> {
    if c.sidtab.Some? then FirstOf(ExcludedSids(c, f, 0), 240) else FirstOf(SidsOf(c.badsids), 200)
  }

  /** What the writer lists after the fixed part. */
  function Good(c: Card, f: Form): seq<nat>
    requires c.sidtab.Some? ==> c.sidtab.value < |f.tabs|
  {
    if f.ext then GoodList(c, f) else []
  }

  function Bad(c: Card, f: Form): seq<nat> {
    if f.ext then BadList(c, f) else []
  }

  function NodeList(c: Card, f: Form): seq<NodeId> {
    if f.addOwn then c.nodes + [f.own] else c.nodes
  }

  function ProvBytes(ps: seq<Provider>, au: bool): seq<Byte> {
    if ps == [] then []
    else ProvBytes(ps[..|ps| - 1], au) + OneProv(ps[|ps| - 1], au)
  }

  function OneProv(p: Provider, au: bool): seq<Byte> {
    B3(p.prov) + if au then p.sa else Zeros(4)
  }

  function SidBytes(s: seq<nat>): (r: seq<Byte>)
    ensures |r| == 2 * |s|
  {
    if s == [] then [] else SidBytes(s[..|s| - 1]) + B2(s[|s| - 1])
  }

  function NodeBytes(s: seq<NodeId>): seq<Byte> {
    if s == [] then [] else NodeBytes(s[..|s| - 1]) + s[|s| - 1]
  }

  function Fixed(c: Card, au: bool): seq<Byte> {
    B4(c.id) + B4(c.remoteId) + B2(c.caid) + [c.hop % 0x100, c.reshare % 0x100] + if au then c.hexserial else Zeros(8)
  }

  /** A count kept in one byte. */
  function Low(n: nat): (r: seq<Byte>)
    ensures |r| == 1
  {
    [n % 0x100]
  }

  function Counts(ext: bool, np: nat, na: nat, nr: nat): (r: seq<Byte>)
    ensures |r| == if ext then 3 else 1
  {
    Low(np) + if ext then Low(na) + Low(nr) else []
  }

  function Encode(c: Card, f: Form): seq<Byte>
    requires c.sidtab.Some? ==> c.sidtab.value < |f.tabs|
  {
    Fixed(c, f.au) + Counts(f.ext, |c.providers|, |Good(c, f)|, |Bad(c, f)|)
    + ProvBytes(c.providers, f.au) + SidBytes(Good(c, f)) + SidBytes(Bad(c, f))
    + Low(|NodeList(c, f)|) + NodeBytes(NodeList(c, f))
  }

  // ---------- Reading ----------

  function ReadProvs(s: seq<Byte>, ofs: nat, caid: nat, i: nat, n: nat): seq<Provider>
    requires i <= n && ofs + 7 * (n - i) <= |s|
    decreases n - i
  {
    if i == n then []
    else
      var p := Big(s[ofs..ofs + 3]);
      [Provider(if p == 0xFF_FFFF && caid / 0x100 == 0x17 then i else p, s[ofs + 3..ofs + 7])]
      + ReadProvs(s, ofs + 7, caid, i + 1, n)
  }

  function ReadSids(s: seq<Byte>, ofs: nat, n: nat): seq<Sid>
    requires ofs + 2 * n <= |s|
    decreases n
  {
    if n == 0 then [] else [Sid(Big(s[ofs..ofs + 2]), 0, 0)] + ReadSids(s, ofs + 2, n - 1)
  }

  function ReadNodes(s: seq<Byte>, ofs: nat, n: nat): seq<NodeId>
    requires ofs + 8 * n <= |s|
    decreases n
  {
    if n == 0 then [] else [s[ofs..ofs + 8]] + ReadNodes(s, ofs + 8, n - 1)
  }

  function HeadSize(ext: bool): nat {
    if ext then 23 else 21
  }

  function AssignOfs(s: seq<Byte>, ext: bool): nat
    requires |s| >= HeadSize(ext)
  {
    HeadSize(ext) + 7 * (s[20] as nat)
  }

  function NumAssigned(s: seq<Byte>, ext: bool): nat
    requires |s| >= HeadSize(ext)
  {
    if ext then s[21] else 0
  }

  function NumRejected(s: seq<Byte>, ext: bool): nat
    requires |s| >= HeadSize(ext)
  {
    if ext then s[22] else 0
  }

  function NodesOfs(s: seq<Byte>, ext: bool): nat
    requires |s| >= HeadSize(ext)
  {
    AssignOfs(s, ext) + 2 * NumAssigned(s, ext) + 2 * NumRejected(s, ext)
  }

  /** The counts of the message stay inside the buffer. */
  predicate Readable(s: seq<Byte>, ext: bool) {
    |s| >= HeadSize(ext) && NodesOfs(s, ext) < |s| && NodesOfs(s, ext) + 1 + 8 * (s[NodesOfs(s, ext)] as nat) <= |s|
  }

  function Decode(s: seq<Byte>, ext: bool): Card
    requires Readable(s, ext)
  {
    var caid := Big(s[8..10]);
    var a, na, nr := AssignOfs(s, ext), NumAssigned(s, ext), NumRejected(s, ext);
    Card(Big(s[0..4]), Big(s[4..8]), caid, s[10], s[11], s[12..20],
         ReadProvs(s, HeadSize(ext), caid, 0, s[20]), ReadSids(s, a + 2 * na, nr), ReadSids(s, a, na),
         ReadNodes(s, NodesOfs(s, ext) + 1, s[NodesOfs(s, ext)]),
         REMOTECARD, None, 0, false, 0, 0, ext)
  }

  // ---------- Round trip ----------

  /** The provider as the format carries it: 24 bits, and 0xFFFFFF of a 17xx card is its position. */
  function CarriedProvs(ps: seq<Provider>, caid: nat, au: bool): seq<Provider> {
    if ps == [] then []
    else CarriedProvs(ps[..|ps| - 1], caid, au) + [CarriedProv(ps[|ps| - 1], |ps| - 1, caid, au)]
  }

  function CarriedProv(p: Provider, i: nat, caid: nat, au: bool): Provider {
    var low := p.prov % 0x100_0000;
    Provider(if low == 0xFF_FFFF && caid / 0x100 == 0x17 then i else low, if au then p.sa else Zeros(4))
  }

  function CarriedSids(s: seq<nat>): seq<Sid> {
    if s == [] then [] else CarriedSids(s[..|s| - 1]) + [Sid(s[|s| - 1], 0, 0)]
  }

  /** The card that the peer gets. */
  function Carried(c: Card, f: Form): Card
    requires c.sidtab.Some? ==> c.sidtab.value < |f.tabs|
  {
    Card(c.id, c.remoteId, c.caid, c.hop, c.reshare, if f.au then c.hexserial else Zeros(8),
         CarriedProvs(c.providers, c.caid, f.au),
         CarriedSids(Bad(c, f)), CarriedSids(Good(c, f)),
         NodeList(c, f), REMOTECARD, None, 0, false, 0, 0, f.ext)
  }

  lemma NothingWritten(au: bool, caid: nat)
    ensures ProvBytes([], au) == [] && SidBytes([]) == [] && NodeBytes([]) == [] && CarriedProvs([], caid, au) == []
  {
  }

  predicate At(s: seq<Byte>, ofs: nat, bytes: seq<Byte>) {
    ofs + |bytes| <= |s| && s[ofs..ofs + |bytes|] == bytes
  }

  lemma AtFits(s: seq<Byte>, ofs: nat, bytes: seq<Byte>)
    requires At(s, ofs, bytes)
    ensures ofs + |bytes| <= |s|
  {
  }

  lemma AtSplit(s: seq<Byte>, ofs: nat, a: seq<Byte>, b: seq<Byte>)
    requires At(s, ofs, a + b)
    ensures At(s, ofs, a) && At(s, ofs + |a|, b)
  {
    var all := s[ofs..ofs + |a| + |b|];
    assert all[..|a|] == a && all[|a|..] == b;
    assert s[ofs..ofs + |a|] == all[..|a|];
    assert s[ofs + |a|..ofs + |a| + |b|] == all[|a|..];
  }

  lemma {:induction false} ProvBytesSize(ps: seq<Provider>, au: bool)
    requires forall i :: 0 <= i < |ps| ==> |ps[i].sa| == 4
    ensures |ProvBytes(ps, au)| == 7 * |ps|
  {
    if ps != [] {
      ProvBytesSize(ps[..|ps| - 1], au);
    }
  }

  lemma {:induction false} NodeBytesSize(s: seq<NodeId>)
    requires forall i :: 0 <= i < |s| ==> |s[i]| == 8
    ensures |NodeBytes(s)| == 8 * |s|
  {
    if s != [] {
      NodeBytesSize(s[..|s| - 1]);
    }
  }

  /** Reading one more element at the end. */
  lemma {:induction false} ReadProvsMore(s: seq<Byte>, ofs: nat, caid: nat, i: nat, n: nat)
    requires i <= n && ofs + 7 * (n + 1 - i) <= |s|
    ensures var at := ofs + 7 * (n - i); var p := Big(s[at..at + 3]);
            ReadProvs(s, ofs, caid, i, n + 1)
            == ReadProvs(s, ofs, caid, i, n)
               + [Provider(if p == 0xFF_FFFF && caid / 0x100 == 0x17 then n else p, s[at + 3..at + 7])]
    decreases n - i
  {
    if i < n {
      ReadProvsMore(s, ofs + 7, caid, i + 1, n);
    }
  }

  lemma {:induction false} ReadSidsMore(s: seq<Byte>, ofs: nat, n: nat)
    decreases n
    requires ofs + 2 * (n + 1) <= |s|
    ensures ReadSids(s, ofs, n + 1) == ReadSids(s, ofs, n) + [Sid(Big(s[ofs + 2 * n..ofs + 2 * n + 2]), 0, 0)]
  {
    if n > 0 {
      ReadSidsMore(s, ofs + 2, n - 1);
    }
  }

  lemma {:induction false} ReadNodesMore(s: seq<Byte>, ofs: nat, n: nat)
    decreases n
    requires ofs + 8 * (n + 1) <= |s|
    ensures ReadNodes(s, ofs, n + 1) == ReadNodes(s, ofs, n) + [s[ofs + 8 * n..ofs + 8 * n + 8]]
  {
    if n > 0 {
      ReadNodesMore(s, ofs + 8, n - 1);
    }
  }

  lemma {:induction false} ProvsReadBack(s: seq<Byte>, ofs: nat, ps: seq<Provider>, caid: nat, au: bool)
    requires forall i :: 0 <= i < |ps| ==> |ps[i].sa| == 4
    requires At(s, ofs, ProvBytes(ps, au))
    ensures ofs + 7 * |ps| <= |s| && ReadProvs(s, ofs, caid, 0, |ps|) == CarriedProvs(ps, caid, au)
  {
    hide B3, Big;
    ProvBytesSize(ps, au);
    if ps != [] {
      var n := |ps| - 1;
      Sizes(ps[n].prov);
      ProvBytesSize(ps[..n], au);
      AtSplit(s, ofs, ProvBytes(ps[..n], au), OneProv(ps[n], au));
      ProvsReadBack(s, ofs, ps[..n], caid, au);
      ReadProvsMore(s, ofs, caid, 0, n);
      var at := ofs + 7 * n;
      AtSplit(s, at, B3(ps[n].prov), if au then ps[n].sa else Zeros(4));
      ThreeReadBack(ps[n].prov);
    }
  }

  lemma SidReadBack(s: seq<Byte>, ofs: nat, n: nat, sid: nat)
    requires sid < 0x1_0000 && At(s, ofs + 2 * n, B2(sid))
    ensures ofs + 2 * (n + 1) <= |s| && ReadSids(s, ofs, n + 1) == ReadSids(s, ofs, n) + [Sid(sid, 0, 0)]
  {
    hide B2, Big, ReadSids;
    Sizes(sid);
    ReadSidsMore(s, ofs, n);
    TwoReadBack(sid);
  }

  lemma {:induction false} SidsReadBack(s: seq<Byte>, ofs: nat, sids: seq<nat>)
    requires forall i :: 0 <= i < |sids| ==> sids[i] < 0x1_0000
    requires At(s, ofs, SidBytes(sids))
    ensures ReadSids(s, ofs, |sids|) == CarriedSids(sids)
  {
    hide B2, Big, At;
    AtFits(s, ofs, SidBytes(sids));
    if sids != [] {
      var n := |sids| - 1;
      Sizes(sids[n]);
      AtSplit(s, ofs, SidBytes(sids[..n]), B2(sids[n]));
      SidsReadBack(s, ofs, sids[..n]);
      SidReadBack(s, ofs, n, sids[n]);
    }
  }

  lemma {:induction false} NodesReadBack(s: seq<Byte>, ofs: nat, nodes: seq<NodeId>)
    requires forall i :: 0 <= i < |nodes| ==> |nodes[i]| == 8
    requires At(s, ofs, NodeBytes(nodes))
    ensures ofs + 8 * |nodes| <= |s| && ReadNodes(s, ofs, |nodes|) == nodes
  {
    NodeBytesSize(nodes);
    if nodes != [] {
      var n := |nodes| - 1;
      NodeBytesSize(nodes[..n]);
      AtSplit(s, ofs, NodeBytes(nodes[..n]), nodes[n]);
      NodesReadBack(s, ofs, nodes[..n]);
      ReadNodesMore(s, ofs, n);
    }
  }

  lemma FixedReadsBack(s: seq<Byte>, c: Card, au: bool)
    requires Sized(c) && At(s, 0, Fixed(c, au))
    ensures |Fixed(c, au)| == 20 && |s| >= 20
    ensures Big(s[0..4]) == c.id && Big(s[4..8]) == c.remoteId && Big(s[8..10]) == c.caid
    ensures s[10] == c.hop && s[11] == c.reshare && s[12..20] == if au then c.hexserial else Zeros(8)
  {
    hide B2, B4, Big;
    var hex := if au then c.hexserial else Zeros(8);
    var hops: seq<Byte> := [c.hop % 0x100, c.reshare % 0x100];
    Sizes(c.id);
    Sizes(c.remoteId);
    Sizes(c.caid);
    AtSplit(s, 0, B4(c.id) + B4(c.remoteId) + B2(c.caid) + hops, hex);
    AtSplit(s, 0, B4(c.id) + B4(c.remoteId) + B2(c.caid), hops);
    AtSplit(s, 0, B4(c.id) + B4(c.remoteId), B2(c.caid));
    AtSplit(s, 0, B4(c.id), B4(c.remoteId));
    FourReadBack(c.id);
    FourReadBack(c.remoteId);
    TwoReadBack(c.caid);
    assert s[10..12] == hops;
    assert s[10] == s[10..12][0] && s[11] == s[10..12][1];
  }

  lemma HasTab(c: Card, f: Form)
    requires FormFor(f, c)
    ensures c.sidtab.Some? ==> c.sidtab.value < |f.tabs|
    ensures !f.ext ==> Good(c, f) == [] && Bad(c, f) == []
  {
  }

  function SizeOf(c: Card, f: Form): nat
    requires c.sidtab.Some? ==> c.sidtab.value < |f.tabs|
  {
    HeadSize(f.ext) + 7 * |c.providers| + 2 * |Good(c, f)| + 2 * |Bad(c, f)| + 1 + 8 * |NodeList(c, f)|
  }

  /** The length of the message; if it fits the buffer, no count overflows its byte. */
  lemma EncodedSize(c: Card, f: Form)
    requires Sized(c) && FormFor(f, c)
    ensures |Encode(c, f)| == SizeOf(c, f)
    ensures SizeOf(c, f) <= CC_MAXMSGSIZE ==> |c.providers| < 0x100 && |NodeList(c, f)| < 0x100
  {
    hide GoodList, BadList, NodeBytes, ProvBytes, SidBytes, B2, B4;
    ProvBytesSize(c.providers, f.au);
    NodeListSized(c, f);
    NodeBytesSize(NodeList(c, f));
    Sizes(c.id);
    Sizes(c.remoteId);
    Sizes(c.caid);
  }

  lemma NodeListSized(c: Card, f: Form)
    requires Sized(c) && FormFor(f, c)
    ensures forall i :: 0 <= i < |NodeList(c, f)| ==> |NodeList(c, f)[i]| == 8
  {
  }

  /** Where each part of a message lies. */
  lemma Layout(s: seq<Byte>, c: Card, f: Form)
    requires Sized(c) && FormFor(f, c) && At(s, 0, Encode(c, f))
    ensures At(s, 0, Fixed(c, f.au)) && |Fixed(c, f.au)| == 20
    ensures At(s, 20, Counts(f.ext, |c.providers|, |Good(c, f)|, |Bad(c, f)|))
    ensures var p := HeadSize(f.ext); var g := p + 7 * |c.providers|;
            var b := g + 2 * |Good(c, f)|; var n := b + 2 * |Bad(c, f)|;
            && At(s, p, ProvBytes(c.providers, f.au)) && At(s, g, SidBytes(Good(c, f))) && At(s, b, SidBytes(Bad(c, f)))
            && At(s, n, Low(|NodeList(c, f)|)) && At(s, n + 1, NodeBytes(NodeList(c, f)))
  {
    hide At, Fixed, Low, ProvBytes, SidBytes, NodeBytes, NodeList, GoodList, BadList, Sized, FormFor;
    HasTab(c, f);
    var fx, pb := Fixed(c, f.au), ProvBytes(c.providers, f.au);
    var co := Counts(f.ext, |c.providers|, |Good(c, f)|, |Bad(c, f)|);
    var gb, bb, l := SidBytes(Good(c, f)), SidBytes(Bad(c, f)), Low(|NodeList(c, f)|);
    AtSplit(s, 0, fx + co + pb + gb + bb + l, NodeBytes(NodeList(c, f)));
    AtSplit(s, 0, fx + co + pb + gb + bb, l);
    AtSplit(s, 0, fx + co + pb + gb, bb);
    AtSplit(s, 0, fx + co + pb, gb);
    AtSplit(s, 0, fx + co, pb);
    AtSplit(s, 0, fx, co);
    FixedReadsBack(s, c, f.au);
    ProvSizes(c, f.au);
  }

  lemma ProvSizes(c: Card, au: bool)
    requires Sized(c)
    ensures |ProvBytes(c.providers, au)| == 7 * |c.providers|
  {
    ProvBytesSize(c.providers, au);
  }

  lemma {:induction false} SidsSized(sids: seq<Sid>)
    requires forall i :: 0 <= i < |sids| ==> sids[i].sid < 0x1_0000
    ensures forall i :: 0 <= i < |SidsOf(sids)| ==> SidsOf(sids)[i] < 0x1_0000
  {
    if sids != [] {
      SidsSized(sids[1..]);
    }
  }

  lemma {:induction false} ExcludedSized(c: Card, f: Form, n: nat)
    requires FormFor(f, c) && n <= |f.tabs|
    ensures forall i :: 0 <= i < |ExcludedSids(c, f, n)| ==> ExcludedSids(c, f, n)[i] < 0x1_0000
    decreases |f.tabs| - n
  {
    if n < |f.tabs| {
      ExcludedSized(c, f, n + 1);
    }
  }

  lemma ListsSized(c: Card, f: Form)
    requires Sized(c) && FormFor(f, c)
    ensures forall i :: 0 <= i < |Good(c, f)| ==> Good(c, f)[i] < 0x1_0000
    ensures forall i :: 0 <= i < |Bad(c, f)| ==> Bad(c, f)[i] < 0x1_0000
    ensures |Good(c, f)| <= 240 && |Bad(c, f)| <= 240
  {
    SidsSized(c.goodsids);
    SidsSized(c.badsids);
    ExcludedSized(c, f, 0);
  }

  lemma CountsRead(s: seq<Byte>, ext: bool, np: nat, na: nat, nr: nat)
    requires At(s, 20, Counts(ext, np, na, nr)) && np < 0x100 && na < 0x100 && nr < 0x100
    requires !ext ==> na == 0 && nr == 0
    ensures |s| >= HeadSize(ext) && s[20] == np && NumAssigned(s, ext) == na && NumRejected(s, ext) == nr
  {
    var t := s[20..HeadSize(ext)];
    assert s[20] == t[0] && (ext ==> s[21] == t[1] && s[22] == t[2]);
  }

  /** Reading a written card gives the same ids, CAID, hop, reshare and nodes, all providers in order,
      and the services the writer lists: serial number and shared addresses only with AU, services only
      in the extended form.  The one condition is that the message fits the buffer. */
  lemma CardArrives(s: seq<Byte>, c: Card, f: Form)
    requires Sized(c) && FormFor(f, c) && SizeOf(c, f) <= CC_MAXMSGSIZE
    requires At(s, 0, Encode(c, f))
    ensures Readable(s, f.ext) && Decode(s, f.ext) == Carried(c, f)
  {
    hide Encode, Fixed, Counts, ProvBytes, SidBytes, NodeBytes, NodeList, GoodList, BadList, Big, ReadProvs;
    hide ReadSids, ReadNodes;
    hide Sized, FormFor, At, CarriedProvs, CarriedSids, Low, Bad, Good;
    HasTab(c, f);
    var nodes := NodeList(c, f);
    Layout(s, c, f);
    EncodedSize(c, f);
    ListsSized(c, f);
    NodeListSized(c, f);
    ProvsSized(c);
    FixedReadsBack(s, c, f.au);
    CountsRead(s, f.ext, |c.providers|, |Good(c, f)|, |Bad(c, f)|);
    var p := HeadSize(f.ext);
    var g := p + 7 * |c.providers|;
    var b := g + 2 * |Good(c, f)|;
    var n := b + 2 * |Bad(c, f)|;
    ProvsReadBack(s, p, c.providers, c.caid, f.au);
    SidsReadBack(s, g, Good(c, f));
    SidsReadBack(s, b, Bad(c, f));
    LowRead(s, n, |nodes|);
    NodesReadBack(s, n + 1, nodes);
  }

  lemma ProvsSized(c: Card)
    requires Sized(c)
    ensures forall i :: 0 <= i < |c.providers| ==> |c.providers[i].sa| == 4
  {
  }

  lemma LowRead(s: seq<Byte>, n: nat, k: nat)
    requires At(s, n, Low(k)) && k < 0x100
    ensures n < |s| && s[n] == k
  {
    assert s[n] == s[n..n + 1][0];
  }

  lemma {:induction false} CarriedLength(ps: seq<Provider>, caid: nat, au: bool)
    ensures |CarriedProvs(ps, caid, au)| == |ps|
  {
    hide CarriedProv;
    if ps != [] {
      CarriedLength(ps[..|ps| - 1], caid, au);
    }
  }

  lemma {:induction false} CarriedAt(ps: seq<Provider>, caid: nat, au: bool, i: nat)
    requires i < |ps|
    ensures |CarriedProvs(ps, caid, au)| == |ps|
    ensures CarriedProvs(ps, caid, au)[i] == CarriedProv(ps[i], i, caid, au)
  {
    hide CarriedProv;
    var n := |ps| - 1;
    if i < n {
      CarriedAt(ps[..n], caid, au, i);
      assert ps[..n][i] == ps[i];
    } else {
      CarriedLength(ps[..n], caid, au);
    }
  }

  /** With AU the providers arrive unchanged exactly if they have 24 bits and no 17xx card lists
      0xFFFFFF. */
  lemma ProvidersArriveUnchanged(ps: seq<Provider>, caid: nat)
    requires |ps| < 0x100
    ensures CarriedProvs(ps, caid, true) == ps <==>
            forall i :: 0 <= i < |ps| ==> ps[i].prov < 0x100_0000 && !(ps[i].prov == 0xFF_FFFF && caid / 0x100 == 0x17)
  {
    hide CarriedProvs, CarriedProv;
    forall i | 0 <= i < |ps|
      ensures |CarriedProvs(ps, caid, true)| == |ps|
      ensures CarriedProvs(ps, caid, true)[i] == ps[i] <==>
              ps[i].prov < 0x100_0000 && !(ps[i].prov == 0xFF_FFFF && caid / 0x100 == 0x17)
    {
      CarriedAt(ps, caid, true, i);
      CarriedSame(ps[i], i, caid);
    }
    if ps == [] {
      NothingWritten(true, caid);
    } else {
      CarriedAt(ps, caid, true, 0);
    }
  }

  lemma CarriedSame(p: Provider, i: nat, caid: nat)
    requires i < 0x100
    ensures CarriedProv(p, i, caid, true) == p <==>
            p.prov < 0x100_0000 && !(p.prov == 0xFF_FFFF && caid / 0x100 == 0x17)
  {
  }

  // ---------- The code ----------

  /** A buffer that starts with `p` and is zero after it. */
  function Laid(p: seq<Byte>): seq<Byte> {
    p + if |p| <= CC_MAXMSGSIZE then Zeros(CC_MAXMSGSIZE - |p|) else []
  }

  lemma LaidZeros(p: seq<Byte>, n: nat)
    requires |p| + n <= CC_MAXMSGSIZE
    ensures Laid(p + Zeros(n)) == Laid(p)
  {
  }

  method Append(buf: array<Byte>, ofs: nat, ghost p: seq<Byte>, bytes: seq<Byte>)
    requires buf.Length == CC_MAXMSGSIZE && ofs == |p| && ofs + |bytes| <= CC_MAXMSGSIZE && buf[..] == Laid(p)
    modifies buf
    ensures buf[..] == Laid(p + bytes)
  {
    var i := 0;
    while i < |bytes|
      invariant i <= |bytes|
      invariant forall j :: 0 <= j < CC_MAXMSGSIZE ==>
                  buf[j] == if ofs <= j < ofs + i then bytes[j - ofs] else Laid(p)[j]
    {
      buf[ofs + i] := bytes[i];
      i := i + 1;
    }
  }

  method Bump(buf: array<Byte>, at: nat, ghost p: seq<Byte>)
    requires buf.Length == CC_MAXMSGSIZE && at < |p| <= CC_MAXMSGSIZE && p[at] < 0xFF && buf[..] == Laid(p)
    modifies buf
    ensures buf[..] == Laid(p[at := p[at] + 1]) && buf[at] == p[at] + 1
  {
    assert buf[at] == p[at];
    buf[at] := buf[at] + 1;
    assert buf[..] == Laid(p)[at := p[at] + 1];
  }

  function Start(c: Card, f: Form, np: nat, na: nat, nr: nat): seq<Byte> {
    Fixed(c, f.au) + Counts(f.ext, np, na, nr)
  }

  lemma StartSize(c: Card, f: Form, np: nat, na: nat, nr: nat)
    requires Sized(c)
    ensures |Fixed(c, f.au)| == 20 && |Start(c, f, np, na, nr)| == HeadSize(f.ext)
  {
    hide B2, B4;
    Sizes(c.id);
    Sizes(c.remoteId);
    Sizes(c.caid);
  }

  lemma CountProvider(c: Card, f: Form, np: nat, rest: seq<Byte>)
    requires Sized(c) && np < 0xFF
    ensures var p := Start(c, f, np, 0, 0) + rest;
            |p| > 20 && p[20] == np && p[20 := p[20] + 1] == Start(c, f, np + 1, 0, 0) + rest
  {
    hide Fixed, Sized;
    StartSize(c, f, np, 0, 0);
  }

  /** memset and the fixed part, lines 122-137 */
  method WriteFixed(c: Card, f: Form, buf: array<Byte>) returns (ofs: nat)
    requires Sized(c) && buf.Length == CC_MAXMSGSIZE
    modifies buf
    ensures ofs == HeadSize(f.ext) && ofs == |Start(c, f, 0, 0, 0)| && buf[..] == Laid(Start(c, f, 0, 0, 0))
  {
    hide B2, B4;
    Sizes(c.id);
    Sizes(c.remoteId);
    Sizes(c.caid);
    forall i | 0 <= i < buf.Length {
      buf[i] := 0;
    }
    assert buf[..] == Laid([]);
    var head := B4(c.id) + B4(c.remoteId) + B2(c.caid) + [c.hop % 0x100, c.reshare % 0x100];
    Append(buf, 0, [], head);
    assert [] + head == head;
    if f.au {
      Append(buf, 12, head, c.hexserial);
    } else {
      LaidZeros(head, 8);
    }
    ofs := if f.ext then 23 else 21;
    LaidZeros(Fixed(c, f.au), ofs - 20);
    assert Counts(f.ext, 0, 0, 0) == Zeros(ofs - 20);
  }

  lemma MoreProviders(ps: seq<Provider>, k: nat, au: bool)
    requires k < |ps|
    ensures ProvBytes(ps[..k + 1], au) == ProvBytes(ps[..k], au) + OneProv(ps[k], au)
  {
    assert ps[..k + 1][..k] == ps[..k];
  }

  method WriteProvider(prov: Provider, au: bool, buf: array<Byte>, start: nat, ghost p: seq<Byte>) returns (ofs: nat)
    requires buf.Length == CC_MAXMSGSIZE && start == |p| && start + 7 <= CC_MAXMSGSIZE && buf[..] == Laid(p)
    requires |prov.sa| == 4
    modifies buf
    ensures ofs == start + 7 && |OneProv(prov, au)| == 7 && buf[..] == Laid(p + OneProv(prov, au))
  {
    hide B3, Laid;
    Sizes(prov.prov);
    Append(buf, start, p, B3(prov.prov));
    if au {
      Append(buf, start + 3, p + B3(prov.prov), prov.sa);
    } else {
      LaidZeros(p + B3(prov.prov), 4);
    }
    assert p + B3(prov.prov) + (if au then prov.sa else Zeros(4)) == p + OneProv(prov, au);
    ofs := start + 7;
  }

  /** lines 139-150 */
  method WriteProviders(c: Card, f: Form, buf: array<Byte>, start: nat) returns (ofs: nat)
    requires Sized(c) && buf.Length == CC_MAXMSGSIZE && start == HeadSize(f.ext)
    requires HeadSize(f.ext) + 7 * |c.providers| <= CC_MAXMSGSIZE
    requires buf[..] == Laid(Start(c, f, 0, 0, 0))
    modifies buf
    ensures ofs == start + 7 * |c.providers|
    ensures |ProvBytes(c.providers, f.au)| == 7 * |c.providers|
    ensures buf[..] == Laid(Start(c, f, |c.providers|, 0, 0) + ProvBytes(c.providers, f.au))
  {
    hide Sized, Start, ProvBytes, Laid;
    ofs := start;
    var k := 0;
    ghost var p := Start(c, f, 0, 0, 0);
    NothingWritten(f.au, c.caid);
    StartSize(c, f, 0, 0, 0);
    assert p + [] == p && c.providers[..0] == [];
    while k < |c.providers|
      invariant k <= |c.providers| && ofs == start + 7 * k && |p| == ofs && buf[..] == Laid(p)
      invariant p == Start(c, f, k, 0, 0) + ProvBytes(c.providers[..k], f.au)
    {
      ProvsSized(c);
      ofs := WriteProvider(c.providers[k], f.au, buf, ofs, p);
      MoreProviders(c.providers, k, f.au);
      p := p + OneProv(c.providers[k], f.au);
      assert p == Start(c, f, k, 0, 0) + ProvBytes(c.providers[..k + 1], f.au);
      CountProvider(c, f, k, ProvBytes(c.providers[..k + 1], f.au));
      Bump(buf, 20, p);
      p := p[20 := p[20] + 1];
      k := k + 1;
    }
    assert c.providers[..k] == c.providers;
    ProvSizes(c, f.au);
  }

  lemma {:induction false} SidBytesMore(s: seq<nat>, sid: nat)
    ensures SidBytes(s + [sid]) == SidBytes(s) + B2(sid)
  {
    assert (s + [sid])[..|s|] == s;
  }

  /** The writer's loops over services: two bytes each, counted at `at`, until the count is `limit`. */
  method WriteSids(buf: array<Byte>, start: nat, at: nat, limit: nat, sids: seq<nat>, ghost base: seq<Byte>,
      ghost done: seq<nat>) returns (ofs: nat, ghost all: seq<nat>)
    requires buf.Length == CC_MAXMSGSIZE && limit < 0x100 && at < |base|
    requires |done| < limit && base[at] == 0
    requires start == |base| + 2 * |done| && |base| + 2 * |FirstOf(done + sids, limit)| <= CC_MAXMSGSIZE
    requires buf[..] == Laid(Counted(base, at, |done|) + SidBytes(done))
    modifies buf
    ensures all == FirstOf(done + sids, limit) && ofs == |base| + 2 * |all|
    ensures sids != [] ==> buf[at] == |all|
    ensures buf[..] == Laid(Counted(base, at, |all|) + SidBytes(all))
  {
    hide Laid, B2, SidBytes;
    ofs, all := start, done;
    var l := 0;
    assert done + sids[..0] == done;
    while l < |sids|
      invariant l <= |sids| && all == done + sids[..l] && |all| < limit
      invariant ofs == |base| + 2 * |all|
      invariant buf[..] == Laid(Counted(base, at, |all|) + SidBytes(all)) && (l > 0 ==> buf[at] == |all|)
    {
      ghost var p := Counted(base, at, |all|) + SidBytes(all);
      Sizes(sids[l]);
      FirstTaken(done, sids, l, limit);
      Append(buf, ofs, p, B2(sids[l]));
      ofs := ofs + 2;
      SidBytesMore(all, sids[l]);
      assert all + [sids[l]] == done + sids[..l + 1];
      all := all + [sids[l]];
      l := l + 1;
      ghost var q := Counted(base, at, |all| - 1) + SidBytes(all);
      assert p + B2(sids[l - 1]) == q;
      Bump(buf, at, q);
      assert q[at := q[at] + 1] == Counted(base, at, |all|) + SidBytes(all);
      if buf[at] >= limit {
        FirstTaken(done, sids, l, limit);
        return;
      }
    }
    assert sids[..l] == sids;
  }

  lemma FirstTaken(done: seq<nat>, sids: seq<nat>, l: nat, limit: nat)
    requires l <= |sids| && |done| + l <= limit
    ensures l < |sids| && |done| + l < limit ==> |FirstOf(done + sids, limit)| >= |done| + l + 1
    ensures |done| + l == limit ==> FirstOf(done + sids, limit) == done + sids[..l]
  {
    if |done| + l == limit {
      assert (done + sids)[..limit] == done + sids[..l];
    }
  }

  function Counted(base: seq<Byte>, at: nat, n: nat): (r: seq<Byte>)
    requires at < |base|
    ensures |r| == |base| && (n < 0x100 ==> r[at] == n)
  {
    base[at := n % 0x100]
  }

  lemma {:induction false} ExcludedEnd(c: Card, f: Form)
    ensures ExcludedSids(c, f, |f.tabs|) == []
  {
  }

  /** Taking the next table's services after `all`, up to 240 in all. */
  lemma ExcludedTake(c: Card, f: Form, n: nat, all: seq<nat>, goal: seq<nat>)
    requires n < |f.tabs| && |all| < 240 && all + ExcludedSids(c, f, n) == goal
    ensures var w := if Excluded(c, f, n) then FirstOf(all + f.tabs[n].srvids, 240) else all;
            && |w| <= |FirstOf(goal, 240)|
            && if |w| >= 240 then w == FirstOf(goal, 240) else w + ExcludedSids(c, f, n + 1) == goal
  {
    var rest := ExcludedSids(c, f, n + 1);
    if Excluded(c, f, n) {
      assert goal == (all + f.tabs[n].srvids) + rest;
    } else {
      assert ExcludedSids(c, f, n) == [] + rest == rest;
    }
  }

  /** lines 168-192: the rejected services of all excluded tables */
  method WriteExcluded(c: Card, f: Form, buf: array<Byte>, start: nat, ghost base: seq<Byte>) returns (ofs: nat)
    requires buf.Length == CC_MAXMSGSIZE && 22 < |base| && base[22] == 0 && start == |base|
    requires buf[..] == Laid(base)
    requires |base| + 2 * |FirstOf(ExcludedSids(c, f, 0), 240)| <= CC_MAXMSGSIZE
    modifies buf
    ensures var all := FirstOf(ExcludedSids(c, f, 0), 240);
            ofs == |base| + 2 * |all| && buf[..] == Laid(Counted(base, 22, |all|) + SidBytes(all))
  {
    hide Laid, ExcludedSids, Excluded, SidBytes;
    ofs := start;
    ghost var all: seq<nat> := [];
    ghost var goal := ExcludedSids(c, f, 0);
    assert Counted(base, 22, 0) + [] == base;
    NothingWritten(f.au, c.caid);
    assert all + goal == goal;
    var n := 0;
    while n < |f.tabs|
      invariant n <= |f.tabs| && |all| < 240 && all + ExcludedSids(c, f, n) == goal
      invariant ofs == |base| + 2 * |all| && buf[..] == Laid(Counted(base, 22, |all|) + SidBytes(all))
    {
      ExcludedTake(c, f, n, all, goal);
      if Excluded(c, f, n) {
        ofs, all := WriteSids(buf, ofs, 22, 240, f.tabs[n].srvids, base, all);
        LaidCount(buf[..], base, 22, all);
        if buf[22] >= 240 {
          return;
        }
      }
      n := n + 1;
    }
    ExcludedEnd(c, f);
    assert all + [] == all;
  }

  lemma LaidCount(s: seq<Byte>, base: seq<Byte>, at: nat, all: seq<nat>)
    requires at < |base| && |all| < 0x100 && s == Laid(Counted(base, at, |all|) + SidBytes(all))
    ensures at < |s| && s[at] == |all|
  {
  }

  lemma StartCounts(c: Card, f: Form, np: nat, na: nat, nr: nat, rest: seq<Byte>)
    requires Sized(c) && f.ext && na < 0x100 && nr < 0x100
    ensures var p := Start(c, f, np, 0, 0) + rest; |p| > 22 && p[21] == 0 && p[22] == 0
    ensures Counted(Start(c, f, np, 0, 0) + rest, 21, na) == Start(c, f, np, na, 0) + rest
    ensures var p := Start(c, f, np, na, 0) + rest;
            |p| > 22 && p[22] == 0 && Counted(p, 22, nr) == Start(c, f, np, na, nr) + rest
  {
    hide Fixed, Sized;
    StartSize(c, f, np, 0, 0);
    StartSize(c, f, np, na, 0);
    StartSize(c, f, np, na, nr);
  }

  lemma Regroup(a: seq<Byte>, b: seq<Byte>, c: seq<Byte>)
    ensures a + (b + c) == a + b + c
  {
  }

  /** lines 153-217: the services, in the extended form only */
  method WriteServices(c: Card, f: Form, buf: array<Byte>, start: nat, np: nat,
      ghost rest: seq<Byte>) returns (ofs: nat)
    requires Sized(c) && FormFor(f, c) && f.ext && buf.Length == CC_MAXMSGSIZE
    requires start == 23 + |rest| && start + 2 * |Good(c, f)| + 2 * |Bad(c, f)| <= CC_MAXMSGSIZE
    requires buf[..] == Laid(Start(c, f, np, 0, 0) + rest)
    modifies buf
    ensures ofs == start + 2 * |Good(c, f)| + 2 * |Bad(c, f)|
    ensures buf[..] == Laid(Start(c, f, np, |Good(c, f)|, |Bad(c, f)|) + rest + SidBytes(Good(c, f)) + SidBytes(Bad(c, f)))
  {
    hide Laid, Start, ExcludedSids, B2, Sized;
    HasTab(c, f);
    ListsSized(c, f);
    ghost var base := Start(c, f, np, 0, 0) + rest;
    ghost var good, bad := Good(c, f), Bad(c, f);
    StartSize(c, f, np, 0, 0);
    StartCounts(c, f, np, |good|, |bad|, rest);
    ghost var all: seq<nat>;
    NothingWritten(f.au, c.caid);
    assert Counted(base, 21, 0) + [] == base;
    var sids := match c.sidtab case Some(t) => f.tabs[t].srvids case None => SidsOf(c.goodsids);
    assert [] + sids == sids;
    ofs, all := WriteSids(buf, start, 21, if c.sidtab.Some? then 240 else 200, sids, base, []);
    assert all == good;
    ghost var next := Start(c, f, np, |good|, 0) + rest + SidBytes(good);
    StartCounts(c, f, np, |good|, |bad|, rest + SidBytes(good));
    assert Counted(base, 21, |good|) + SidBytes(good) == next;
    Regroup(Start(c, f, np, |good|, 0), rest, SidBytes(good));
    Regroup(Start(c, f, np, |good|, |bad|), rest, SidBytes(good));
    if c.sidtab.Some? {
      ofs := WriteExcluded(c, f, buf, ofs, next);
    } else {
      var rejected := SidsOf(c.badsids);
      assert [] + rejected == rejected;
      assert Counted(next, 22, 0) + [] == next;
      ofs, all := WriteSids(buf, ofs, 22, 200, rejected, next, []);
    }
    assert Counted(next, 22, |bad|) == Start(c, f, np, |good|, |bad|) + rest + SidBytes(good);
  }

  lemma {:induction false} NodeBytesMore(s: seq<NodeId>, node: NodeId)
    ensures NodeBytes(s + [node]) == NodeBytes(s) + node
  {
    assert (s + [node])[..|s|] == s;
  }

  /** One remote node: eight bytes, counted at `at`. */
  method WriteNode(buf: array<Byte>, start: nat, at: nat, node: NodeId, ghost base: seq<Byte>, ghost done: seq<NodeId>)
    returns (ofs: nat)
    requires buf.Length == CC_MAXMSGSIZE && at == |base| && |node| == 8 && |done| < 0xFF
    requires start == |base| + 1 + 8 * |done| == |base| + 1 + |NodeBytes(done)| && start + 8 <= CC_MAXMSGSIZE
    requires buf[..] == Laid(base + Low(|done|) + NodeBytes(done))
    modifies buf
    ensures ofs == start + 8 == |base| + 1 + |NodeBytes(done + [node])|
    ensures buf[..] == Laid(base + Low(|done| + 1) + NodeBytes(done + [node]))
  {
    hide Laid, NodeBytes;
    ghost var p := base + Low(|done|) + NodeBytes(done);
    Append(buf, start, p, node);
    ofs := start + 8;
    NodeBytesMore(done, node);
    ghost var q := base + Low(|done|) + NodeBytes(done + [node]);
    assert p + node == q;
    Bump(buf, at, q);
    assert q[at := q[at] + 1] == base + Low(|done| + 1) + NodeBytes(done + [node]);
  }

  /** lines 220-237: the remote nodes, and the own one */
  method WriteNodes(c: Card, f: Form, buf: array<Byte>, start: nat, ghost base: seq<Byte>) returns (ofs: nat)
    requires Sized(c) && FormFor(f, c) && buf.Length == CC_MAXMSGSIZE && start == |base|
    requires start + 1 + 8 * |NodeList(c, f)| <= CC_MAXMSGSIZE
    requires buf[..] == Laid(base)
    modifies buf
    ensures ofs == start + 1 + 8 * |NodeList(c, f)|
    ensures buf[..] == Laid(base + Low(|NodeList(c, f)|) + NodeBytes(NodeList(c, f)))
  {
    hide Laid;
    NodeListSized(c, f);
    ofs := start + 1;
    LaidZeros(base, 1);
    NothingWritten(f.au, c.caid);
    assert base + Zeros(1) == base + Low(0) + NodeBytes([]);
    var k := 0;
    assert c.nodes[..0] == [];
    while k < |c.nodes|
      invariant k <= |c.nodes| && ofs == start + 1 + 8 * k == |base| + 1 + |NodeBytes(c.nodes[..k])|
      invariant buf[..] == Laid(base + Low(k) + NodeBytes(c.nodes[..k]))
    {
      assert c.nodes[..k + 1] == c.nodes[..k] + [c.nodes[k]];
      ofs := WriteNode(buf, ofs, start, c.nodes[k], base, c.nodes[..k]);
      k := k + 1;
    }
    assert c.nodes[..k] == c.nodes;
    if f.addOwn {
      ofs := WriteNode(buf, ofs, start, f.own, base, c.nodes);
    }
  }

  /** write_card: the buffer holds the message and zeros after it. */
  method WriteCard(c: Card, f: Form, buf: array<Byte>) returns (ofs: nat)
    requires Sized(c) && FormFor(f, c) && SizeOf(c, f) <= CC_MAXMSGSIZE && buf.Length == CC_MAXMSGSIZE
    modifies buf
    ensures ofs == |Encode(c, f)| && buf[..] == Laid(Encode(c, f))
  {
    hide Laid, Start, ProvBytes, SidBytes, NodeBytes, NodeList, GoodList, BadList, Sized, FormFor;
    HasTab(c, f);
    EncodedSize(c, f);
    ProvSizes(c, f.au);
    if !f.ext {
      NothingWritten(f.au, c.caid);
    }
    ghost var pb, gb, bb := ProvBytes(c.providers, f.au), SidBytes(Good(c, f)), SidBytes(Bad(c, f));
    ofs := WriteFixed(c, f, buf);
    ofs := WriteProviders(c, f, buf, ofs);
    if f.ext {
      ofs := WriteServices(c, f, buf, ofs, |c.providers|, pb);
    } else {
      assert Start(c, f, |c.providers|, 0, 0) + pb
          == Start(c, f, |c.providers|, 0, 0) + pb + gb + bb;
    }
    ghost var base := Start(c, f, |c.providers|, |Good(c, f)|, |Bad(c, f)|) + pb + gb + bb;
    StartSize(c, f, |c.providers|, |Good(c, f)|, |Bad(c, f)|);
    ofs := WriteNodes(c, f, buf, ofs, base);
    WrittenIsEncoded(c, f);
  }

  lemma WrittenIsEncoded(c: Card, f: Form)
    requires Sized(c) && FormFor(f, c)
    ensures Start(c, f, |c.providers|, |Good(c, f)|, |Bad(c, f)|) + ProvBytes(c.providers, f.au) + SidBytes(Good(c, f))
            + SidBytes(Bad(c, f)) + Low(|NodeList(c, f)|) + NodeBytes(NodeList(c, f)) == Encode(c, f)
  {
    hide ProvBytes, SidBytes, NodeBytes, NodeList, GoodList, BadList, Fixed, Counts;
  }

  /** What write_card leaves in the buffer, read_card reads back. */
  lemma WrittenCardArrives(c: Card, f: Form)
    requires Sized(c) && FormFor(f, c) && SizeOf(c, f) <= CC_MAXMSGSIZE
    ensures |Encode(c, f)| <= CC_MAXMSGSIZE && Readable(Laid(Encode(c, f)), f.ext)
    ensures Decode(Laid(Encode(c, f)), f.ext) == Carried(c, f)
  {
    hide Encode, Decode, Readable, Carried, Sized, FormFor;
    HasTab(c, f);
    EncodedSize(c, f);
    var m := Encode(c, f);
    assert Laid(m)[0..|m|] == m;
    CardArrives(Laid(m), c, f);
  }

  /** read_card */
  method ReadCard(buf: array<Byte>, ext: bool) returns (c: Card)
    requires Readable(buf[..], ext)
    ensures c == Decode(buf[..], ext)
  {
    hide Big, ReadProvs, ReadSids, ReadNodes;
    ghost var s := buf[..];
    var id, remoteId, caid := Big(buf[0..4]), Big(buf[4..8]), Big(buf[8..10]);
    assert buf[0..4] == s[0..4] && buf[4..8] == s[4..8] && buf[8..10] == s[8..10] && buf[12..20] == s[12..20];
    var hexserial := buf[12..20];
    var nprov, nassign, nreject, offset := buf[20], 0, 0, 21;
    if ext {
      nassign, nreject := buf[21], buf[22];
      offset := offset + 2;
    }
    var providers := ReadProviders(buf, offset, caid, nprov);
    var ptr := offset + 7 * (nprov as nat);
    var good, bad := [], [];
    if ext {
      good := ReadServices(buf, ptr, nassign);
      ptr := ptr + 2 * (nassign as nat);
      bad := ReadServices(buf, ptr, nreject);
      ptr := ptr + 2 * (nreject as nat);
    } else {
      NoServices(s, ptr);
    }
    var nodes := ReadRemoteNodes(buf, ptr + 1, buf[ptr]);
    c := Card(id, remoteId, caid, buf[10], buf[11], hexserial, providers, bad, good, nodes,
              REMOTECARD, None, 0, false, 0, 0, ext);
  }

  lemma NoServices(s: seq<Byte>, ofs: nat)
    requires ofs <= |s|
    ensures ReadSids(s, ofs, 0) == []
  {
  }

  /** lines 1801-1817 of module-cccam.c */
  method ReadProviders(buf: array<Byte>, start: nat, caid: nat, n: nat) returns (providers: seq<Provider>)
    requires start + 7 * n <= buf.Length
    ensures providers == ReadProvs(buf[..], start, caid, 0, n)
  {
    ghost var s := buf[..];
    providers := [];
    var offset := start;
    var i := 0;
    while i < n
      invariant i <= n && offset == start + 7 * i && providers == ReadProvs(s, start, caid, 0, i)
    {
      var prov := Big(buf[offset..offset + 3]);
      if prov == 0xFF_FFFF && caid / 0x100 == 0x17 {
        prov := i;
      }
      assert buf[offset..offset + 3] == s[offset..offset + 3]
                && buf[offset + 3..offset + 7] == s[offset + 3..offset + 7];
      ReadProvsMore(s, start, caid, 0, i);
      providers := providers + [Provider(prov, buf[offset + 3..offset + 7])];
      offset := offset + 7;
      i := i + 1;
    }
  }

  /** lines 1821-1834 and 1836-1849 */
  method ReadServices(buf: array<Byte>, start: nat, n: nat) returns (sids: seq<Sid>)
    requires start + 2 * n <= buf.Length
    ensures sids == ReadSids(buf[..], start, n)
  {
    ghost var s := buf[..];
    sids := [];
    var ptr := start;
    var i := 0;
    while i < n
      invariant i <= n && ptr == start + 2 * i && sids == ReadSids(s, start, i)
    {
      assert buf[ptr..ptr + 2] == s[ptr..ptr + 2];
      ReadSidsMore(s, start, i);
      sids := sids + [Sid(Big(buf[ptr..ptr + 2]), 0, 0)];
      ptr := ptr + 2;
      i := i + 1;
    }
  }

  /** lines 1852-1861 */
  method ReadRemoteNodes(buf: array<Byte>, start: nat, n: nat) returns (nodes: seq<NodeId>)
    requires start + 8 * n <= buf.Length
    ensures nodes == ReadNodes(buf[..], start, n)
  {
    ghost var s := buf[..];
    nodes := [];
    var ptr := start;
    var i := 0;
    while i < n
      invariant i <= n && ptr == start + 8 * i && nodes == ReadNodes(s, start, i)
    {
      assert buf[ptr..ptr + 8] == s[ptr..ptr + 8];
      ReadNodesMore(s, start, i);
      nodes := nodes + [buf[ptr..ptr + 8]];
      ptr := ptr + 8;
      i := i + 1;
    }
  }
}