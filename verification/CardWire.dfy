/** The message of a card, byte by byte (write_card, oscam/module-cccshare.c, lines 121-239): what stands
    at which offset, and which services are listed. */
module CardWire {
  import opened Cards
  import opened CardCodec

  // ---------- The services of a message ----------

  /** No services in the plain form.  In the extended form the good ones of a card made from a service
      table are the first 240 of the table, those of another card the first 200 of its own list. */
  ghost predicate GoodListed(c: Card, f: Form, good: seq<nat>)
    requires FormFor(f, c)
  {
    if !f.ext then good == []
    else if c.sidtab.Some? then
      |good| == Least(|f.tabs[c.sidtab.value].srvids|, 240)
      && forall i :: 0 <= i < |good| ==> good[i] == f.tabs[c.sidtab.value].srvids[i]
    else
      |good| == Least(|c.goodsids|, 200) && forall i :: 0 <= i < |good| ==> good[i] == c.goodsids[i].sid
  }

  function Least(a: nat, b: nat): nat {
    if a < b then a else b
  }

  /** The bad services of a card that no table made are the first 200 of its own list; of any other card
      as many as there are in the tables that it or the client excludes for its CAID, at most 240. */
  ghost predicate BadListed(c: Card, f: Form, bad: seq<nat>) {
    if !f.ext then bad == []
    else if c.sidtab.Some? then
      && |bad| == Least(NumExcluded(c, f, 0), 240)
      && (forall i :: 0 <= i < |bad| ==> FromExcluded(c, f, bad[i]))
      && (NumExcluded(c, f, 0) <= 240 ==> AllFrom(c, f, 0, bad))
    else
      |bad| == Least(|c.badsids|, 200) && forall i :: 0 <= i < |bad| ==> bad[i] == c.badsids[i].sid
  }

  ghost predicate FromExcluded(c: Card, f: Form, sid: nat) {
    exists n, j :: 0 <= n < |f.tabs| && n in f.rejected && c.caid in f.tabs[n].caids
                   && 0 <= j < |f.tabs[n].srvids| && f.tabs[n].srvids[j] == sid
  }

  /** No service of the excluded tables from the `n`-th on is missing. */
  ghost predicate AllFrom(c: Card, f: Form, n: nat, sids: seq<nat>) {
    forall m | n <= m < |f.tabs| && m in f.rejected && c.caid in f.tabs[m].caids ::
      forall j :: 0 <= j < |f.tabs[m].srvids| ==> f.tabs[m].srvids[j] in sids
  }

  function NumExcluded(c: Card, f: Form, n: nat): nat
    requires n <= |f.tabs|
    decreases |f.tabs| - n
  {
    if n == |f.tabs| then 0
    else (if n in f.rejected && c.caid in f.tabs[n].caids then |f.tabs[n].srvids| else 0) + NumExcluded(c, f, n + 1)
  }

  lemma {:induction false} SidsAt(s: seq<Sid>)
    ensures |SidsOf(s)| == |s| && forall i :: 0 <= i < |s| ==> SidsOf(s)[i] == s[i].sid
  {
    if s != [] {
      SidsAt(s[1..]);
    }
  }

  lemma {:induction false} ExcludedListed(c: Card, f: Form, n: nat)
    requires n <= |f.tabs|
    ensures var s := ExcludedSids(c, f, n);
            && |s| == NumExcluded(c, f, n)
            && (forall i :: 0 <= i < |s| ==> FromExcluded(c, f, s[i]))
            && AllFrom(c, f, n, s)
    decreases |f.tabs| - n
  {
    if n < |f.tabs| {
      ExcludedListed(c, f, n + 1);
      if Excluded(c, f, n) {
        forall i | 0 <= i < |f.tabs[n].srvids| ensures FromExcluded(c, f, f.tabs[n].srvids[i]) {
        }
      }
    }
  }

  lemma ListsAreListed(c: Card, f: Form)
    requires FormFor(f, c)
    ensures GoodListed(c, f, Good(c, f)) && BadListed(c, f, Bad(c, f))
  {
    SidsAt(c.goodsids);
    SidsAt(c.badsids);
    ExcludedListed(c, f, 0);
    hide ExcludedSids, NumExcluded, FromExcluded, SidsOf;
  }

  // ---------- The offsets ----------

  /** A number at an offset, the high byte first. */
  ghost predicate Holds2(s: seq<Byte>, ofs: nat, x: nat) {
    ofs + 2 <= |s| && (s[ofs] as nat) * 0x100 + s[ofs + 1] == x
  }

  ghost predicate Holds3(s: seq<Byte>, ofs: nat, x: nat) {
    ofs + 3 <= |s| && (s[ofs] as nat) * 0x1_0000 + (s[ofs + 1] as nat) * 0x100 + s[ofs + 2] == x
  }

  ghost predicate Holds4(s: seq<Byte>, ofs: nat, x: nat) {
    ofs + 4 <= |s|
    && (s[ofs] as nat) * 0x100_0000 + (s[ofs + 1] as nat) * 0x1_0000 + (s[ofs + 2] as nat) * 0x100 + s[ofs + 3] == x
  }

  lemma Holds(s: seq<Byte>, ofs: nat, x: nat)
    ensures At(s, ofs, B2(x)) && x < 0x1_0000 ==> Holds2(s, ofs, x)
    ensures At(s, ofs, B3(x)) ==> Holds3(s, ofs, x % 0x100_0000)
  {
    if At(s, ofs, B2(x)) && x < 0x1_0000 {
      LowBytes(x);
      assert s[ofs..ofs + 2][0] == s[ofs] && s[ofs..ofs + 2][1] == s[ofs + 1];
    }
    if At(s, ofs, B3(x)) {
      ThreeBytes(x);
      var t := s[ofs..ofs + 3];
      assert t[0] == s[ofs] && t[1] == s[ofs + 1] && t[2] == s[ofs + 2];
    }
  }

  /** The low 24 bits of a provider, and its shared address for clients with AU. */
  ghost predicate ProvAt(s: seq<Byte>, ofs: nat, p: Provider, au: bool) {
    Holds3(s, ofs, p.prov % 0x100_0000) && At(s, ofs + 3, if au then p.sa else [0, 0, 0, 0])
  }

  /** Seven bytes for each provider, two for each service, eight for each node. */
  ghost predicate ProvsAt(s: seq<Byte>, ofs: nat, ps: seq<Provider>, au: bool) {
    forall k :: 0 <= k < |ps| ==> ProvAt(s, ofs + 7 * k, ps[k], au)
  }

  ghost predicate SidsStand(s: seq<Byte>, ofs: nat, sids: seq<nat>) {
    forall k :: 0 <= k < |sids| ==> Holds2(s, ofs + 2 * k, sids[k])
  }

  ghost predicate NodesStand(s: seq<Byte>, ofs: nat, nodes: seq<NodeId>) {
    forall k :: 0 <= k < |nodes| ==> At(s, ofs + 8 * k, nodes[k])
  }

  lemma ProvStands(s: seq<Byte>, ofs: nat, p: Provider, au: bool)
    requires At(s, ofs, OneProv(p, au))
    ensures ProvAt(s, ofs, p, au)
  {
    Sizes(p.prov);
    AtSplit(s, ofs, B3(p.prov), if au then p.sa else Zeros(4));
    assert Zeros(4) == [0, 0, 0, 0];
    Holds(s, ofs, p.prov);
    hide At, B3, Zeros, Holds2, Holds3;
  }

  lemma {:induction false} ProvsStand(s: seq<Byte>, ofs: nat, ps: seq<Provider>, au: bool)
    requires At(s, ofs, ProvBytes(ps, au)) && forall i :: 0 <= i < |ps| ==> |ps[i].sa| == 4
    ensures ProvsAt(s, ofs, ps, au)
  {
    hide At, ProvAt, OneProv;
    if ps != [] {
      var n := |ps| - 1;
      ProvBytesSize(ps[..n], au);
      AtSplit(s, ofs, ProvBytes(ps[..n], au), OneProv(ps[n], au));
      ProvStands(s, ofs + 7 * n, ps[n], au);
      ProvsStand(s, ofs, ps[..n], au);
      forall k | 0 <= k < |ps| ensures ProvAt(s, ofs + 7 * k, ps[k], au) {
        if k < n {
          assert ps[..n][k] == ps[k];
        }
      }
    }
  }

  lemma {:induction false} SidsAreThere(s: seq<Byte>, ofs: nat, sids: seq<nat>)
    requires At(s, ofs, SidBytes(sids)) && forall i :: 0 <= i < |sids| ==> sids[i] < 0x1_0000
    ensures SidsStand(s, ofs, sids)
  {
    hide At, Holds2, Holds3, B2, B3;
    if sids != [] {
      var n := |sids| - 1;
      AtSplit(s, ofs, SidBytes(sids[..n]), B2(sids[n]));
      Holds(s, ofs + 2 * n, sids[n]);
      SidsAreThere(s, ofs, sids[..n]);
    }
  }

  lemma {:induction false} NodesAreThere(s: seq<Byte>, ofs: nat, nodes: seq<NodeId>)
    requires At(s, ofs, NodeBytes(nodes)) && forall i :: 0 <= i < |nodes| ==> |nodes[i]| == 8
    ensures NodesStand(s, ofs, nodes)
  {
    hide At;
    if nodes != [] {
      var n := |nodes| - 1;
      NodeBytesSize(nodes[..n]);
      AtSplit(s, ofs, NodeBytes(nodes[..n]), nodes[n]);
      NodesAreThere(s, ofs, nodes[..n]);
    }
  }

  /** The fixed part: ids, CAID, hop, reshare level, and the serial number for clients with AU. */
  ghost predicate HeadStands(s: seq<Byte>, c: Card, au: bool) {
    && |s| >= 20
    && Holds4(s, 0, c.id) && Holds4(s, 4, c.remoteId) && Holds2(s, 8, c.caid) && s[10] == c.hop && s[11] == c.reshare
    && s[12..20] == if au then c.hexserial else [0, 0, 0, 0, 0, 0, 0, 0]
  }

  lemma Number4(s: seq<Byte>, ofs: nat)
    requires ofs + 4 <= |s|
    ensures Holds4(s, ofs, Big(s[ofs..ofs + 4]))
  {
    hide Big;
    BigFour(s[ofs..ofs + 4]);
  }

  lemma Number2(s: seq<Byte>, ofs: nat)
    requires ofs + 2 <= |s|
    ensures Holds2(s, ofs, Big(s[ofs..ofs + 2]))
  {
    hide Big;
    BigTwo(s[ofs..ofs + 2]);
  }

  lemma HeadIsThere(s: seq<Byte>, c: Card, au: bool)
    requires Sized(c) && At(s, 0, Fixed(c, au))
    ensures HeadStands(s, c, au)
  {
    hide Holds2, Holds4, Big, Fixed, At, Sized;
    FixedReadsBack(s, c, au);
    Number4(s, 0);
    Number4(s, 4);
    Number2(s, 8);
    assert Zeros(8) == [0, 0, 0, 0, 0, 0, 0, 0];
  }

  /** The head, the three counts (one in the plain form), providers, good services, bad services, the
      count of nodes and the nodes. */
  ghost predicate Stands(s: seq<Byte>, c: Card, f: Form, good: seq<nat>, bad: seq<nat>, nodes: seq<NodeId>) {
    var p := if f.ext then 23 else 21;
    var g := p + 7 * |c.providers|;
    var b := g + 2 * |good|;
    var n := b + 2 * |bad|;
    && HeadStands(s, c, f.au)
    && |s| > n && s[20] == |c.providers| && (f.ext ==> s[21] == |good| && s[22] == |bad|)
    && ProvsAt(s, p, c.providers, f.au) && SidsStand(s, g, good) && SidsStand(s, b, bad)
    && s[n] == |nodes| && NodesStand(s, n + 1, nodes)
  }

  /** For every card and form, wherever the message stands at the start of a buffer: each part is at its
      place, the services are those to be listed, and the own node is the last one. */
  lemma MessageStands(s: seq<Byte>, c: Card, f: Form)
    requires Sized(c) && FormFor(f, c) && SizeOf(c, f) <= CC_MAXMSGSIZE && At(s, 0, Encode(c, f))
    ensures Stands(s, c, f, Good(c, f), Bad(c, f), if f.addOwn then c.nodes + [f.own] else c.nodes)
    ensures GoodListed(c, f, Good(c, f)) && BadListed(c, f, Bad(c, f))
  {
    ListsAreListed(c, f);
    hide GoodListed, BadListed;
    PartsStand(s, c, f);
  }

  lemma PartsStand(s: seq<Byte>, c: Card, f: Form)
    requires Sized(c) && FormFor(f, c) && SizeOf(c, f) <= CC_MAXMSGSIZE && At(s, 0, Encode(c, f))
    ensures Stands(s, c, f, Good(c, f), Bad(c, f), NodeList(c, f))
  {
    hide At, Encode, Fixed, ProvBytes, SidBytes, NodeBytes, GoodList, BadList, HeadStands, ProvsAt, SidsStand, NodesStand;
    hide Sized, FormFor, Low, Counts, Good, Bad, NodeList;
    HasTab(c, f);
    EncodedSize(c, f);
    Layout(s, c, f);
    ListsSized(c, f);
    NodeListSized(c, f);
    ProvsSized(c);
    HeadIsThere(s, c, f.au);
    CountsRead(s, f.ext, |c.providers|, |Good(c, f)|, |Bad(c, f)|);
    var p := HeadSize(f.ext);
    var g := p + 7 * |c.providers|;
    var b := g + 2 * |Good(c, f)|;
    var n := b + 2 * |Bad(c, f)|;
    ProvsStand(s, p, c.providers, f.au);
    SidsAreThere(s, g, Good(c, f));
    SidsAreThere(s, b, Bad(c, f));
    LowRead(s, n, |NodeList(c, f)|);
    NodesAreThere(s, n + 1, NodeList(c, f));
  }
}
