/** Building the share list: add_card_to_serverlist (oscam/module-cccshare.c, lines 505-606, 631-682 and
    690-830, with the list cursor of oscam/oscam-llist.c, lines 222-266 and 326-349).

    Every card is added under one of three policies.  MINIMIZE_CAID merges the providers of all cards
    of a class, MINIMIZE_HOPS keeps the nearest card of each class and provider set, and the plain
    policy keeps the nearest of identical cards.  A card of an AU reader is split in two first. */
module ShareList {
  import opened Cards

  const CS_MAXPROV: nat := 32

  datatype Policy = MINIMIZE_CAID | MINIMIZE_HOPS | PLAIN

  /** The configured policy; forwarding the origin card switches both minimisations off. */
  function PolicyOf(minimize: Policy, forwardOrigin: bool): Policy {
    if forwardOrigin then PLAIN else minimize
  }

  // ---------- Copying cards ----------

  predicate HasProv(ps: seq<Provider>, prov: nat) {
    exists i :: 0 <= i < |ps| && ps[i].prov == prov
  }

  /** add_card_providers, first part: providers that are missing in `dst` are appended. */
  function AddProviders(dst: seq<Provider>, src: seq<Provider>): seq<Provider>
    decreases |src|
  {
    if src == [] then dst
    else AddProviders(if HasProv(dst, src[0].prov) then dst else dst + [src[0]], src[1..])
  }

  /** add_card_providers, second part. */
  function AddNodes(dst: seq<NodeId>, src: seq<NodeId>): seq<NodeId>
    decreases |src|
  {
    if src == [] then dst else AddNodes(if src[0] in dst then dst else dst + [src[0]], src[1..])
  }

  /** copy_sids */
  function AddSids(dst: seq<Sid>, src: seq<Sid>): seq<Sid>
    decreases |src|
  {
    if src == [] then dst
    else AddSids(if exists i :: 0 <= i < |dst| && SidEq(src[0], dst[i]) then dst else dst + [src[0]], src[1..])
  }

  /** create_card followed by add_card_providers with remote nodes. */
  function Copied(c: Card): Card {
    c.(id := 0, providers := AddProviders([], c.providers), nodes := AddNodes([], c.nodes),
       goodsids := AddSids([], c.goodsids), badsids := AddSids([], c.badsids))
  }

  // ---------- Matching ----------

  /** num_same_providers */
  function NumSameProviders(a: seq<Provider>, b: seq<Provider>): (n: nat)
    ensures n <= |a|
  {
    if a == [] then 0 else (if HasProv(b, a[0].prov) then 1 else 0) + NumSameProviders(a[1..], b)
  }

  /** equal_providers: as many, and each of the first among the second. */
  predicate EqualProviders(a: seq<Provider>, b: seq<Provider>) {
    |a| == |b| && forall i :: 0 <= i < |a| ==> HasProv(b, a[i].prov)
  }

  predicate Matches(p: Policy, card: Card, other: Card) {
    match p
    case MINIMIZE_CAID =>
      SameCard2(card, other, false)
      && |card.providers| - NumSameProviders(card.providers, other.providers) + |other.providers| <= CS_MAXPROV
    case MINIMIZE_HOPS => SameCard2(card, other, false) && EqualProviders(card.providers, other.providers)
    case PLAIN => SameCard(card, other)
  }

  /** The first card that matches; the length of the list if none does. */
  function FindMatch(p: Policy, list: seq<Card>, card: Card, k: nat): (r: nat)
    requires k <= |list|
    ensures k <= r <= |list|
    ensures forall i :: k <= i < r ==> !Matches(p, card, list[i])
    ensures r < |list| ==> Matches(p, card, list[r])
    decreases |list| - k
  {
    if k == |list| || Matches(p, card, list[k]) then k else FindMatch(p, list, card, k + 1)
  }

  // ---------- Adding a card ----------

  /** ll_iter_remove at position `k` and ll_iter_insert: the new element takes the old one's place,
      but goes to the end when the first element was removed. */
  function Replaced(list: seq<Card>, k: nat, card: Card): seq<Card>
    requires k < |list|
  {
    if k == 0 then list[1..] + [card] else list[..k] + [card] + list[k + 1..]
  }

  /** The card that is put into the list when no card is merged. */
  function Inserted(p: Policy, card: Card, free: bool): Card {
    if free then card else if p == MINIMIZE_CAID then Copied(card).(hop := 0) else Copied(card)
  }

  /** The listed card after a matching card was merged into it. */
  function Merged(p: Policy, listed: Card, card: Card): Card {
    match p
    case PLAIN => listed
    case MINIMIZE_HOPS =>
      listed.(grp := listed.grp | card.grp, providers := AddProviders(listed.providers, card.providers),
           badsids := if listed.sidtab == None then [] else listed.badsids)
    case MINIMIZE_CAID =>
      listed.(grp := listed.grp | card.grp, providers := AddProviders(listed.providers, card.providers), nodes := [],
           badsids := if listed.sidtab == None then [] else listed.badsids)
  }

  function AddOne(p: Policy, list: seq<Card>, card: Card, free: bool): seq<Card> {
    var k := FindMatch(p, list, card, 0);
    if k == |list| then list + [Inserted(p, card, free)]
    else if p != MINIMIZE_CAID && list[k].hop > card.hop then Replaced(list, k, Inserted(p, card, free))
    else list[k := Merged(p, list[k], card)]
  }

  /** The copy of an AU card for the other clients. */
  function NonAuCopy(c: Card): Card {
    Copied(c).(aufilter := 2, hexserial := seq(|c.hexserial|, _ => 0))
  }

  predicate Splits(c: Card) {
    c.aufilter == 0 && IsAuCard(c)
  }

  /** The card of the caller after the call: one that was split keeps the mark. */
  function Marked(c: Card): Card {
    if Splits(c) then c.(aufilter := 1) else c
  }

  /** What one call inserts, in order. */
  function Expanded(c: Card, free: bool): seq<(Card, bool)> {
    if Splits(c) then [(NonAuCopy(c.(aufilter := 1)), true), (c.(aufilter := 1), free)] else [(c, free)]
  }

  /** The call itself, with its recursion. */
  function Added(p: Policy, list: seq<Card>, c: Card, free: bool): seq<Card>
    decreases if c.aufilter == 0 then 1 else 0
  {
    if Splits(c) then
      AddOne(p, Added(p, list, NonAuCopy(c.(aufilter := 1)), true), c.(aufilter := 1), free)
    else AddOne(p, list, c, free)
  }

  function AddEach(p: Policy, list: seq<Card>, cards: seq<(Card, bool)>): seq<Card>
    decreases |cards|
  {
    if cards == [] then list else AddEach(p, AddOne(p, list, cards[0].0, cards[0].1), cards[1..])
  }

  function AddAll(p: Policy, list: seq<Card>, calls: seq<(Card, bool)>): seq<Card>
    decreases |calls|
  {
    if calls == [] then list else AddAll(p, Added(p, list, calls[0].0, calls[0].1), calls[1..])
  }

  function ExpandedAll(calls: seq<(Card, bool)>): seq<(Card, bool)> {
    if calls == [] then [] else Expanded(calls[0].0, calls[0].1) + ExpandedAll(calls[1..])
  }

  /** The recursion goes one level deep: a call inserts its expansion, one card after the other. */
  lemma {:induction false} AddedIsExpansion(p: Policy, list: seq<Card>, c: Card, free: bool)
    ensures Added(p, list, c, free) == AddEach(p, list, Expanded(c, free))
  {
    hide AddOne, NonAuCopy, IsAuCard;
    var e := Expanded(c, free);
    if Splits(c) {
      assert NonAuCopy(c.(aufilter := 1)).aufilter == 2 by { NotSplitAgain(c.(aufilter := 1)); }
      assert e[1..] == [(c.(aufilter := 1), free)] && e[1..][1..] == [];
      assert AddEach(p, AddOne(p, list, e[0].0, true), e[1..])
          == AddEach(p, AddOne(p, AddOne(p, list, e[0].0, true), c.(aufilter := 1), free), []);
    } else {
      assert e[1..] == [];
    }
  }

  lemma NotSplitAgain(c: Card)
    ensures NonAuCopy(c).aufilter == 2
  {
  }

  lemma {:induction false} AddEachConcat(p: Policy, list: seq<Card>, a: seq<(Card, bool)>, b: seq<(Card, bool)>)
    ensures AddEach(p, list, a + b) == AddEach(p, AddEach(p, list, a), b)
    decreases |a|
  {
    hide AddOne;
    if a == [] {
      assert a + b == b;
    } else {
      assert (a + b)[0] == a[0] && (a + b)[1..] == a[1..] + b;
      AddEachConcat(p, AddOne(p, list, a[0].0, a[0].1), a[1..], b);
    }
  }

  lemma {:induction false} AddAllIsExpansion(p: Policy, list: seq<Card>, calls: seq<(Card, bool)>)
    ensures AddAll(p, list, calls) == AddEach(p, list, ExpandedAll(calls))
    decreases |calls|
  {
    hide Added, AddOne, Expanded;
    if calls != [] {
      var first := Expanded(calls[0].0, calls[0].1);
      AddedIsExpansion(p, list, calls[0].0, calls[0].1);
      AddEachConcat(p, list, first, ExpandedAll(calls[1..]));
      AddAllIsExpansion(p, Added(p, list, calls[0].0, calls[0].1), calls[1..]);
    }
  }

  // ---------- Providers as sets ----------

  ghost function Provs(ps: seq<Provider>): set<nat> {
    set i | 0 <= i < |ps| :: ps[i].prov
  }

  ghost predicate NoDoubles(ps: seq<Provider>) {
    forall i, j :: 0 <= i < j < |ps| ==> ps[i].prov != ps[j].prov
  }

  lemma {:induction false} AddProvidersFacts(dst: seq<Provider>, src: seq<Provider>)
    ensures var r := AddProviders(dst, src);
            && Provs(r) == Provs(dst) + Provs(src)
            && (NoDoubles(dst) ==> NoDoubles(r))
            && |r| <= |dst| + |src| - NumSameProviders(src, dst)
            && (Provs(src) <= Provs(dst) ==> r == dst)
    decreases |src|
  {
    if src != [] {
      var dst1 := if HasProv(dst, src[0].prov) then dst else dst + [src[0]];
      AddProvidersFacts(dst1, src[1..]);
      assert Provs(src) == {src[0].prov} + Provs(src[1..]) by { ProvsFirst(src); }
      assert Provs(dst1) == Provs(dst) + {src[0].prov} by { ProvsLast(dst, src[0]); }
      MoreSame(src[1..], dst, dst1);
    } else {
      assert Provs(src) == {};
    }
  }

  lemma ProvsFirst(ps: seq<Provider>)
    requires ps != []
    ensures Provs(ps) == {ps[0].prov} + Provs(ps[1..])
  {
    forall x | x in Provs(ps) ensures x in {ps[0].prov} + Provs(ps[1..]) {
      var i :| 0 <= i < |ps| && ps[i].prov == x;
      if i > 0 {
        assert ps[1..][i - 1].prov == x;
      }
    }
    forall x | x in Provs(ps[1..]) ensures x in Provs(ps) {
      var i :| 0 <= i < |ps[1..]| && ps[1..][i].prov == x;
      assert ps[i + 1].prov == x;
    }
  }

  lemma ProvsLast(ps: seq<Provider>, q: Provider)
    ensures Provs(ps + [q]) == Provs(ps) + {q.prov}
    ensures HasProv(ps, q.prov) <==> q.prov in Provs(ps)
  {
    var s := ps + [q];
    forall x | x in Provs(ps) + {q.prov} ensures x in Provs(s) {
      if x == q.prov {
        assert s[|ps|].prov == x;
      } else {
        var i :| 0 <= i < |ps| && ps[i].prov == x;
        assert s[i].prov == x;
      }
    }
  }

  lemma {:induction false} MoreSame(a: seq<Provider>, b: seq<Provider>, c: seq<Provider>)
    requires b <= c
    ensures NumSameProviders(a, b) <= NumSameProviders(a, c)
  {
    if a != [] {
      MoreSame(a[1..], b, c);
      assert HasProv(b, a[0].prov) ==> HasProv(c, a[0].prov) by {
        if HasProv(b, a[0].prov) {
          var i :| 0 <= i < |b| && b[i].prov == a[0].prov;
          assert c[i].prov == a[0].prov;
        }
      }
    }
  }

  lemma {:induction false} SameNone(a: seq<Provider>)
    ensures NumSameProviders(a, []) == 0
  {
    if a != [] {
      SameNone(a[1..]);
    }
  }

  lemma {:induction false} ProvsSize(ps: seq<Provider>)
    requires NoDoubles(ps)
    ensures |Provs(ps)| == |ps|
  {
    if ps == [] {
      assert Provs(ps) == {};
    } else {
      ProvsFirst(ps);
      assert ps[0].prov !in Provs(ps[1..]);
      ProvsSize(ps[1..]);
    }
  }

  /** equal_providers decides equality of provider sets when neither card lists a provider twice. */
  lemma EqualProvidersIsSetEquality(a: seq<Provider>, b: seq<Provider>)
    requires NoDoubles(a) && NoDoubles(b)
    ensures EqualProviders(a, b) <==> Provs(a) == Provs(b)
  {
    ProvsSize(a);
    ProvsSize(b);
    if EqualProviders(a, b) {
      SubsetOfEqualSize(Provs(a), Provs(b));
    }
    if Provs(a) == Provs(b) {
      forall i | 0 <= i < |a| ensures HasProv(b, a[i].prov) {
        assert a[i].prov in Provs(b);
      }
    }
  }

  lemma {:induction false} SubsetOfEqualSize(a: set<nat>, b: set<nat>)
    requires a <= b && |a| == |b|
    ensures a == b
  {
    assert b == a + (b - a);
    assert |b - a| == 0;
  }

  lemma {:induction false} DoublesFewer(ps: seq<Provider>)
    ensures |Provs(ps)| <= |ps| && (!NoDoubles(ps) ==> |Provs(ps)| < |ps|)
  {
    if ps == [] {
      assert Provs(ps) == {};
    } else {
      ProvsFirst(ps);
      DoublesFewer(ps[1..]);
      if ps[0].prov in Provs(ps[1..]) {
        assert Provs(ps) == Provs(ps[1..]);
      } else {
        HeadNoDouble(ps);
      }
    }
  }

  lemma HeadNoDouble(ps: seq<Provider>)
    requires ps != [] && ps[0].prov !in Provs(ps[1..])
    ensures NoDoubles(ps[1..]) ==> NoDoubles(ps)
  {
    assert forall i :: 0 < i < |ps| ==> ps[1..][i - 1] == ps[i];
  }

  /** A number above all providers. */
  function Beyond(ps: seq<Provider>): (n: nat)
    ensures forall i :: 0 <= i < |ps| ==> ps[i].prov < n
  {
    if ps == [] then 0
    else
      var n := Beyond(ps[..|ps| - 1]);
      if ps[|ps| - 1].prov >= n then ps[|ps| - 1].prov + 1 else n
  }

  function Padded(ps: seq<Provider>, size: nat, next: nat): seq<Provider>
    decreases size - |ps|
  {
    if |ps| >= size then ps else Padded(ps + [Provider(next, [])], size, next + 1)
  }

  lemma {:induction false} PaddedFacts(ps: seq<Provider>, size: nat, next: nat)
    requires NoDoubles(ps) && |ps| <= size && forall i :: 0 <= i < |ps| ==> ps[i].prov < next
    ensures var r := Padded(ps, size, next);
            NoDoubles(r) && |r| == size && Provs(ps) <= Provs(r) && (|ps| < size ==> next in Provs(r))
    decreases size - |ps|
  {
    if |ps| < size {
      ProvsLast(ps, Provider(next, []));
      PaddedFacts(ps + [Provider(next, [])], size, next + 1);
    }
  }

  /** Each provider once, and others in place of the doubled ones. */
  function Widened(ps: seq<Provider>): seq<Provider> {
    Padded(AddProviders([], ps), |ps|, Beyond(AddProviders([], ps)))
  }

  lemma WidenedFacts(ps: seq<Provider>)
    ensures NoDoubles(Widened(ps)) && |Widened(ps)| == |ps| && Provs(ps) <= Provs(Widened(ps))
    ensures !NoDoubles(ps) ==> Provs(ps) != Provs(Widened(ps))
  {
    var d := AddProviders([], ps);
    AddProvidersFacts([], ps);
    assert Provs([]) == {};
    ProvsSize(d);
    DoublesFewer(ps);
    PaddedFacts(d, |ps|, Beyond(d));
    assert Beyond(d) !in Provs(d);
  }

  lemma SubsetCounts(a: seq<Provider>, b: seq<Provider>)
    requires |a| == |b| && Provs(a) <= Provs(b)
    ensures EqualProviders(a, b)
  {
    forall i | 0 <= i < |a| ensures HasProv(b, a[i].prov) {
      assert a[i].prov in Provs(b);
    }
  }

  /** equal_providers is right about a card against all listed ones exactly if the card lists no provider
      twice: otherwise it takes the card for any other with as many providers, its own among them. */
  lemma EqualProvidersNeedsNoDoubles(a: seq<Provider>)
    ensures NoDoubles(a) <==>
            forall b :: NoDoubles(b) ==> (EqualProviders(a, b) <==> Provs(a) == Provs(b))
  {
    if NoDoubles(a) {
      forall b | NoDoubles(b) ensures EqualProviders(a, b) <==> Provs(a) == Provs(b) {
        EqualProvidersIsSetEquality(a, b);
      }
    } else {
      WidenedFacts(a);
      SubsetCounts(a, Widened(a));
    }
  }

  // ---------- The nearest card of each kind ----------

  datatype Key = PlainKey(identity: Identity) | HopsKey(class_: Class, provs: set<nat>)

  /** What the policy keeps one card of. */
  ghost function KeyOf(p: Policy, c: Card): Key {
    if p == PLAIN then PlainKey(IdentityOf(c)) else HopsKey(ClassOf(c), Provs(c.providers))
  }

  lemma MatchIsKey(p: Policy, a: Card, b: Card)
    requires p != MINIMIZE_CAID
    requires p == MINIMIZE_HOPS ==> NoDoubles(a.providers) && NoDoubles(b.providers)
    ensures Matches(p, a, b) <==> KeyOf(p, a) == KeyOf(p, b)
  {
    ComparisonsAreEqualities(a, b);
    if p == MINIMIZE_HOPS {
      EqualProvidersIsSetEquality(a.providers, b.providers);
    }
  }

  /** `h[j]` is the earliest of the nearest cards of its key. */
  ghost predicate Nearest(p: Policy, h: seq<(Card, bool)>, j: nat)
    requires j < |h|
  {
    && (forall e :: 0 <= e < j && KeyOf(p, h[e].0) == KeyOf(p, h[j].0) ==> h[e].0.hop > h[j].0.hop)
    && (forall e :: j < e < |h| && KeyOf(p, h[e].0) == KeyOf(p, h[j].0) ==> h[e].0.hop >= h[j].0.hop)
  }

  /** The services of `list` are services of `from`, and each of those matches one of the list. */
  ghost predicate Covers(list: seq<Sid>, from: seq<Sid>) {
    && (forall x :: x in list ==> x in from)
    && (forall y :: y in from ==> exists x :: x in list && SidEq(y, x))
  }

  ghost predicate SameNodes(a: seq<NodeId>, b: seq<NodeId>) {
    forall n :: n in a <==> n in b
  }

  /** The listed card was made from `c`; only its groups may have grown, and under MINIMIZE_HOPS the bad
      services of a card that no service table made may be gone. */
  ghost predicate MadeFrom(p: Policy, listed: Card, c: Card) {
    && listed.remoteId == c.remoteId && ClassOf(listed) == ClassOf(c) && listed.hop == c.hop
    && listed.reshare == c.reshare && listed.aufilter == c.aufilter && FirstNode(listed) == FirstNode(c)
    && listed.grp & c.grp == c.grp
    && SameNodes(listed.nodes, c.nodes) && Covers(listed.goodsids, c.goodsids)
    && (Covers(listed.badsids, c.badsids) || (p != PLAIN && c.sidtab == None && listed.badsids == []))
  }

  /** The list holds one card per key of the history, made from the earliest of the nearest. */
  ghost predicate NearestOfEach(p: Policy, list: seq<Card>, h: seq<(Card, bool)>) {
    && (forall i, j :: 0 <= i < j < |list| ==> KeyOf(p, list[i]) != KeyOf(p, list[j]))
    && (forall i :: 0 <= i < |list| ==> FromHistory(p, list[i], h))
    && (forall j :: 0 <= j < |h| ==> Listed(p, list, KeyOf(p, h[j].0)))
  }

  ghost predicate FromHistory(p: Policy, listed: Card, h: seq<(Card, bool)>) {
    && (p == MINIMIZE_HOPS ==> NoDoubles(listed.providers))
    && exists j :: 0 <= j < |h| && KeyOf(p, h[j].0) == KeyOf(p, listed) && Nearest(p, h, j) && MadeFrom(p, listed, h[j].0)
  }

  ghost predicate Listed(p: Policy, list: seq<Card>, key: Key) {
    exists i :: 0 <= i < |list| && KeyOf(p, list[i]) == key
  }

  lemma FirstNodeKept(nodes: seq<NodeId>)
    ensures nodes != [] ==> |AddNodes([], nodes)| > 0 && AddNodes([], nodes)[0] == nodes[0]
    ensures nodes == [] ==> AddNodes([], nodes) == []
  {
    if nodes != [] {
      assert [] + [nodes[0]] == [nodes[0]];
      NodesPrefix([nodes[0]], nodes[1..]);
    }
  }

  lemma {:induction false} NodesPrefix(dst: seq<NodeId>, src: seq<NodeId>)
    ensures dst <= AddNodes(dst, src)
    decreases |src|
  {
    if src != [] {
      NodesPrefix(if src[0] in dst then dst else dst + [src[0]], src[1..]);
    }
  }

  lemma {:induction false} AddSidsCovers(dst: seq<Sid>, src: seq<Sid>)
    ensures var r := AddSids(dst, src);
            && (forall x :: x in r ==> x in dst || x in src)
            && (forall x :: x in dst ==> x in r)
            && (forall y :: y in src ==> exists x :: x in r && SidEq(y, x))
    decreases |src|
  {
    if src != [] {
      var next := if exists i :: 0 <= i < |dst| && SidEq(src[0], dst[i]) then dst else dst + [src[0]];
      AddSidsCovers(next, src[1..]);
      SidEqSame(src[0]);
      hide SidEq;
      assert exists x :: x in next && SidEq(src[0], x) by {
        if next != dst {
          assert next[|dst|] == src[0];
        }
      }
      forall y | y in src ensures exists x :: x in AddSids(dst, src) && SidEq(y, x) {
        assert y == src[0] || y in src[1..];
      }
    }
  }

  lemma SidEqSame(a: Sid)
    ensures SidEq(a, a)
  {
  }

  lemma {:induction false} AddNodesUnion(dst: seq<NodeId>, src: seq<NodeId>)
    ensures forall n :: n in AddNodes(dst, src) <==> n in dst || n in src
    decreases |src|
  {
    if src != [] {
      AddNodesUnion(if src[0] in dst then dst else dst + [src[0]], src[1..]);
    }
  }

  /** A copy has the good services, the bad services and the nodes of the card. */
  lemma CopiedServices(c: Card)
    ensures Covers(Copied(c).goodsids, c.goodsids) && Covers(Copied(c).badsids, c.badsids)
    ensures SameNodes(Copied(c).nodes, c.nodes)
  {
    hide SidEq;
    AddSidsCovers([], c.goodsids);
    AddSidsCovers([], c.badsids);
    AddNodesUnion([], c.nodes);
  }

  lemma CoversSame(sids: seq<Sid>)
    ensures Covers(sids, sids)
  {
    forall y | y in sids ensures exists x :: x in sids && SidEq(y, x) {
      SidEqSame(y);
    }
  }

  lemma CopiedFacts(c: Card)
    ensures FirstNode(Copied(c)) == FirstNode(c) && ClassOf(Copied(c)) == ClassOf(c)
    ensures Copied(c).remoteId == c.remoteId && Copied(c).hop == c.hop && Copied(c).grp == c.grp
    ensures Copied(c).reshare == c.reshare && Copied(c).aufilter == c.aufilter
    ensures Provs(Copied(c).providers) == Provs(c.providers) && NoDoubles(Copied(c).providers)
    ensures |Copied(c).providers| <= |c.providers|
  {
    hide AddProviders, NumSameProviders, AddSids, AddNodes;
    FirstNodeKept(c.nodes);
    AddProvidersFacts([], c.providers);
    SameNone(c.providers);
    assert Provs([]) == {};
  }

  lemma InsertedFits(p: Policy, c: Card, free: bool)
    requires p != MINIMIZE_CAID
    requires p == MINIMIZE_HOPS ==> NoDoubles(c.providers)
    ensures var x := Inserted(p, c, free);
            KeyOf(p, x) == KeyOf(p, c) && MadeFrom(p, x, c) && (p == MINIMIZE_HOPS ==> NoDoubles(x.providers))
  {
    hide Copied, NoDoubles, MadeFrom;
    CopiedFacts(c);
    MadeFromSelf(p, c);
    MadeFromCopy(p, c);
  }

  lemma MadeFromSelf(p: Policy, c: Card)
    ensures MadeFrom(p, c, c)
  {
    hide Covers, SameNodes;
    CoversSame(c.goodsids);
    CoversSame(c.badsids);
    NodesSame(c.nodes);
    GroupKept(c.grp);
  }

  lemma MadeFromCopy(p: Policy, c: Card)
    ensures MadeFrom(p, Copied(c), c)
  {
    CopiedFacts(c);
    CopiedServices(c);
    GroupKept(c.grp);
    hide Copied, Covers, SameNodes, NoDoubles, Provs;
  }

  lemma GroupKept(g: bv64)
    ensures g & g == g
  {
  }

  lemma NodesSame(nodes: seq<NodeId>)
    ensures SameNodes(nodes, nodes)
  {
  }

  lemma GroupsGrow(a: bv64, b: bv64, c: bv64)
    ensures (a & c == c ==> (a | b) & c == c) && (a | b) & b == b
  {
  }

  lemma MergedFits(p: Policy, listed: Card, c: Card, origin: Card)
    requires p != MINIMIZE_CAID
    requires p == MINIMIZE_HOPS ==> NoDoubles(c.providers) && NoDoubles(listed.providers)
    requires KeyOf(p, listed) == KeyOf(p, c)
    requires MadeFrom(p, listed, origin)
    ensures var x := Merged(p, listed, c);
            KeyOf(p, x) == KeyOf(p, listed) && MadeFrom(p, x, origin) && x.hop == listed.hop
                      && (p == MINIMIZE_HOPS ==> NoDoubles(x.providers))
  {
    hide AddProviders, NumSameProviders, NoDoubles, Covers, SameNodes;
    if p == MINIMIZE_HOPS {
      AddProvidersFacts(listed.providers, c.providers);
      GroupsGrow(listed.grp, c.grp, origin.grp);
    }
  }

  /** A card that is not beaten by the latest one keeps its place in the history. */
  lemma StillNearest(p: Policy, listed: Card, h: seq<(Card, bool)>, x: (Card, bool))
    requires FromHistory(p, listed, h)
    requires KeyOf(p, listed) == KeyOf(p, x.0) ==> listed.hop <= x.0.hop
    ensures FromHistory(p, listed, h + [x])
  {
    hide KeyOf, NoDoubles;
    var j :| 0 <= j < |h| && KeyOf(p, h[j].0) == KeyOf(p, listed) && Nearest(p, h, j) && MadeFrom(p, listed, h[j].0);
    var more := h + [x];
    assert more[j] == h[j];
    assert Nearest(p, more, j);
  }

  lemma NewNearest(p: Policy, listed: Card, h: seq<(Card, bool)>, x: (Card, bool))
    requires KeyOf(p, listed) == KeyOf(p, x.0) && MadeFrom(p, listed, x.0)
    requires p == MINIMIZE_HOPS ==> NoDoubles(listed.providers)
    requires forall j :: 0 <= j < |h| && KeyOf(p, h[j].0) == KeyOf(p, x.0) ==> h[j].0.hop > x.0.hop
    ensures FromHistory(p, listed, h + [x])
  {
    hide KeyOf, NoDoubles, MadeFrom;
    var more := h + [x];
    assert more[|h|] == x;
    assert Nearest(p, more, |h|);
  }

  lemma NearestHop(p: Policy, listed: Card, h: seq<(Card, bool)>)
    requires FromHistory(p, listed, h)
    ensures forall e :: 0 <= e < |h| && KeyOf(p, h[e].0) == KeyOf(p, listed) ==> h[e].0.hop >= listed.hop
  {
    hide KeyOf, NoDoubles;
  }

  lemma StillListed(p: Policy, list: seq<Card>, longer: seq<Card>, key: Key)
    requires Listed(p, list, key)
    requires |list| <= |longer|
    requires forall i :: 0 <= i < |list| ==> KeyOf(p, longer[i]) == KeyOf(p, list[i])
    ensures Listed(p, longer, key)
  {
    hide KeyOf;
    var i :| 0 <= i < |list| && KeyOf(p, list[i]) == key;
    assert KeyOf(p, longer[i]) == key;
  }

  lemma AppendStep(p: Policy, list: seq<Card>, h: seq<(Card, bool)>, x: (Card, bool), y: Card)
    requires NearestOfEach(p, list, h)
    requires KeyOf(p, y) == KeyOf(p, x.0) && MadeFrom(p, y, x.0)
    requires p == MINIMIZE_HOPS ==> NoDoubles(y.providers)
    requires forall i :: 0 <= i < |list| ==> KeyOf(p, list[i]) != KeyOf(p, x.0)
    ensures NearestOfEach(p, list + [y], h + [x])
  {
    hide KeyOf, NoDoubles, MadeFrom, FromHistory, Listed;
    var longer, more := list + [y], h + [x];
    forall j | 0 <= j < |h| ensures KeyOf(p, h[j].0) != KeyOf(p, x.0) && Listed(p, longer, KeyOf(p, h[j].0)) {
      KeyListed(p, list, KeyOf(p, h[j].0));
      StillListed(p, list, longer, KeyOf(p, h[j].0));
    }
    NewNearest(p, y, h, x);
    forall i | 0 <= i < |longer| ensures FromHistory(p, longer[i], more) {
      if i < |list| {
        StillNearest(p, list[i], h, x);
      }
    }
    assert KeyOf(p, longer[|list|]) == KeyOf(p, x.0);
    ListedAt(p, longer, |list|);
    assert forall j :: 0 <= j < |h| ==> more[j] == h[j];
  }

  /** One listed card is exchanged for another of the same key. */
  lemma ExchangeStep(p: Policy, list: seq<Card>, h: seq<(Card, bool)>, x: (Card, bool), k: nat, y: Card)
    requires NearestOfEach(p, list, h)
    requires k < |list| && KeyOf(p, list[k]) == KeyOf(p, y) == KeyOf(p, x.0)
    requires FromHistory(p, y, h + [x])
    ensures NearestOfEach(p, list[k := y], h + [x])
  {
    hide KeyOf, NoDoubles, MadeFrom, FromHistory, Listed;
    var next, more := list[k := y], h + [x];
    forall j | 0 <= j < |more| ensures Listed(p, next, KeyOf(p, more[j].0)) {
      if j < |h| {
        assert more[j] == h[j];
      } else {
        ListedAt(p, list, k);
      }
      StillListed(p, list, next, KeyOf(p, more[j].0));
    }
    forall i | 0 <= i < |next| ensures FromHistory(p, next[i], more) {
      if i != k {
        StillNearest(p, list[i], h, x);
      }
    }
  }

  lemma KeyListed(p: Policy, list: seq<Card>, key: Key)
    requires Listed(p, list, key)
    ensures !forall i :: 0 <= i < |list| ==> KeyOf(p, list[i]) != key
  {
  }

  lemma ListedAt(p: Policy, list: seq<Card>, k: nat)
    requires k < |list|
    ensures Listed(p, list, KeyOf(p, list[k]))
  {
  }

  /** Where the list is cut does not matter. */
  lemma RotatedStep(p: Policy, list: seq<Card>, h: seq<(Card, bool)>)
    requires list != [] && NearestOfEach(p, list, h)
    ensures NearestOfEach(p, list[1..] + [list[0]], h)
  {
    hide KeyOf, FromHistory;
    var turned := list[1..] + [list[0]];
    var n := |list|;
    assert forall i :: 0 <= i < n - 1 ==> turned[i] == list[i + 1];
    assert turned[n - 1] == list[0];
    forall j | 0 <= j < |h| ensures Listed(p, turned, KeyOf(p, h[j].0)) {
      assert Listed(p, list, KeyOf(p, h[j].0));
      var i :| 0 <= i < n && KeyOf(p, list[i]) == KeyOf(p, h[j].0);
      assert KeyOf(p, turned[if i == 0 then n - 1 else i - 1]) == KeyOf(p, h[j].0);
    }
  }

  lemma FirstOfKey(p: Policy, list: seq<Card>, c: Card)
    requires p != MINIMIZE_CAID
    requires p == MINIMIZE_HOPS ==> NoDoubles(c.providers)
    requires p == MINIMIZE_HOPS ==> forall i :: 0 <= i < |list| ==> NoDoubles(list[i].providers)
    ensures var k := FindMatch(p, list, c, 0);
            if k < |list| then KeyOf(p, list[k]) == KeyOf(p, c)
            else forall i :: 0 <= i < |list| ==> KeyOf(p, list[i]) != KeyOf(p, c)
  {
    hide Matches, KeyOf, NoDoubles;
    forall i | 0 <= i < |list| ensures Matches(p, c, list[i]) <==> KeyOf(p, c) == KeyOf(p, list[i]) {
      MatchIsKey(p, c, list[i]);
    }
  }

  lemma MergeStep(p: Policy, list: seq<Card>, h: seq<(Card, bool)>, x: (Card, bool), k: nat)
    requires p != MINIMIZE_CAID && NearestOfEach(p, list, h)
    requires p == MINIMIZE_HOPS ==> NoDoubles(x.0.providers)
    requires k < |list| && KeyOf(p, list[k]) == KeyOf(p, x.0) && list[k].hop <= x.0.hop
    ensures NearestOfEach(p, list[k := Merged(p, list[k], x.0)], h + [x])
  {
    hide KeyOf, NoDoubles, MadeFrom, Merged, Nearest, Listed;
    var listed := list[k];
    assert FromHistory(p, listed, h);
    var j :| 0 <= j < |h| && KeyOf(p, h[j].0) == KeyOf(p, listed) && Nearest(p, h, j) && MadeFrom(p, listed, h[j].0);
    MergedFits(p, listed, x.0, h[j].0);
    StillNearest(p, Merged(p, listed, x.0), h, x);
    ExchangeStep(p, list, h, x, k, Merged(p, listed, x.0));
  }

  lemma AddOneStep(p: Policy, list: seq<Card>, h: seq<(Card, bool)>, x: (Card, bool))
    requires p != MINIMIZE_CAID && NearestOfEach(p, list, h)
    requires p == MINIMIZE_HOPS ==> NoDoubles(x.0.providers)
    ensures NearestOfEach(p, AddOne(p, list, x.0, x.1), h + [x])
  {
    hide KeyOf, NoDoubles, MadeFrom, FindMatch, Inserted, Merged, Nearest;
    var c, k, y := x.0, FindMatch(p, list, x.0, 0), Inserted(p, x.0, x.1);
    FirstOfKey(p, list, c);
    InsertedFits(p, c, x.1);
    if k == |list| {
      AppendStep(p, list, h, x, y);
    } else {
      NearestHop(p, list[k], h);
      if list[k].hop > c.hop {
        NewNearest(p, y, h, x);
        ExchangeStep(p, list, h, x, k, y);
        if k == 0 {
          RotatedStep(p, list[k := y], h + [x]);
          assert list[k := y][1..] == list[1..];
        } else {
          assert Replaced(list, k, y) == list[k := y];
        }
      } else {
        MergeStep(p, list, h, x, k);
      }
    }
  }

  lemma {:induction false} AddEachNearest(p: Policy, list: seq<Card>, h: seq<(Card, bool)>, cards: seq<(Card, bool)>)
    requires p != MINIMIZE_CAID && NearestOfEach(p, list, h)
    requires p == MINIMIZE_HOPS ==> forall i :: 0 <= i < |cards| ==> NoDoubles(cards[i].0.providers)
    ensures NearestOfEach(p, AddEach(p, list, cards), h + cards)
    decreases |cards|
  {
    hide NearestOfEach, AddOne, NoDoubles;
    if cards == [] {
      assert h + cards == h;
    } else {
      AddOneStep(p, list, h, cards[0]);
      AddEachNearest(p, AddOne(p, list, cards[0].0, cards[0].1), h + [cards[0]], cards[1..]);
      assert (h + [cards[0]]) + cards[1..] == h + cards;
    }
  }

  lemma {:induction false} ExpandedNoDoubles(calls: seq<(Card, bool)>)
    requires forall i :: 0 <= i < |calls| ==> NoDoubles(calls[i].0.providers)
    ensures forall i :: 0 <= i < |ExpandedAll(calls)| ==> NoDoubles(ExpandedAll(calls)[i].0.providers)
    decreases |calls|
  {
    hide NoDoubles, Copied, IsAuCard;
    if calls != [] {
      ExpandedNoDoubles(calls[1..]);
      CopiedFacts(calls[0].0.(aufilter := 1));
    }
  }

  lemma EmptyLists(p: Policy)
    ensures NearestOfEach(p, [], []) && MergedByClass([], [])
  {
  }

  /** Whatever was added, in whatever order, the share list holds exactly one card for each kind of
      card that was added, and that card is the first one of the smallest hop count.  Under
      MINIMIZE_HOPS the cards must not list a provider twice. */
  lemma ShareListIsNearestOfEach(p: Policy, calls: seq<(Card, bool)>)
    requires p != MINIMIZE_CAID
    requires p == MINIMIZE_HOPS ==> forall i :: 0 <= i < |calls| ==> NoDoubles(calls[i].0.providers)
    ensures NearestOfEach(p, AddAll(p, [], calls), ExpandedAll(calls))
  {
    hide NearestOfEach, AddOne, NoDoubles, Expanded;
    AddAllIsExpansion(p, [], calls);
    if p == MINIMIZE_HOPS {
      ExpandedNoDoubles(calls);
    }
    EmptyLists(p);
    AddEachNearest(p, [], [], ExpandedAll(calls));
    assert [] + ExpandedAll(calls) == ExpandedAll(calls);
  }

  // ---------- MINIMIZE_CAID ----------

  /** The listed card serves `c`: its class, all its providers and all its groups. */
  ghost predicate Serves(listed: Card, c: Card) {
    ClassOf(listed) == ClassOf(c) && Provs(c.providers) <= Provs(listed.providers) && listed.grp & c.grp == c.grp
  }

  ghost predicate Offers(c: Card, class_: Class, prov: nat) {
    ClassOf(c) == class_ && prov in Provs(c.providers)
  }

  ghost predicate SomeServes(list: seq<Card>, c: Card) {
    exists i :: 0 <= i < |list| && Serves(list[i], c)
  }

  ghost predicate SomeOffers(h: seq<(Card, bool)>, class_: Class, prov: nat) {
    exists j :: 0 <= j < |h| && Offers(h[j].0, class_, prov)
  }

  ghost predicate SomeOfClass(h: seq<(Card, bool)>, class_: Class) {
    exists j :: 0 <= j < |h| && ClassOf(h[j].0) == class_
  }

  /** No listed card has more than CS_MAXPROV providers, every card of the history is served whole by
      one listed card, and nothing is listed that was not added. */
  ghost predicate MergedByClass(list: seq<Card>, h: seq<(Card, bool)>) {
    && (forall i :: 0 <= i < |list| ==> |list[i].providers| <= CS_MAXPROV)
    && (forall j :: 0 <= j < |h| ==> SomeServes(list, h[j].0))
    && (forall i, prov :: 0 <= i < |list| && prov in Provs(list[i].providers) ==> SomeOffers(h, ClassOf(list[i]), prov))
    && (forall i :: 0 <= i < |list| ==> SomeOfClass(h, ClassOf(list[i])))
  }

  lemma MergedServes(listed: Card, c: Card)
    requires ClassOf(listed) == ClassOf(c)
    requires |c.providers| - NumSameProviders(c.providers, listed.providers) + |listed.providers| <= CS_MAXPROV
    ensures var m := Merged(MINIMIZE_CAID, listed, c);
            && Serves(m, c) && ClassOf(m) == ClassOf(listed)
            && Provs(m.providers) == Provs(listed.providers) + Provs(c.providers)
            && |m.providers| <= CS_MAXPROV && m.grp == listed.grp | c.grp
  {
    hide AddProviders, NumSameProviders, NoDoubles;
    AddProvidersFacts(listed.providers, c.providers);
    GroupsGrow(listed.grp, c.grp, c.grp);
  }

  lemma InsertedServes(c: Card, free: bool)
    ensures var x := Inserted(MINIMIZE_CAID, c, free);
            && Serves(x, c) && Provs(x.providers) == Provs(c.providers) && |x.providers| <= |c.providers|
  {
    hide Copied, NoDoubles;
    CopiedFacts(c);
  }

  lemma OffersGrow(h: seq<(Card, bool)>, x: (Card, bool), class_: Class, prov: nat)
    requires SomeOffers(h, class_, prov)
    ensures SomeOffers(h + [x], class_, prov)
  {
    hide Offers;
    var j :| 0 <= j < |h| && Offers(h[j].0, class_, prov);
    assert (h + [x])[j] == h[j];
  }

  /** Position `k` of the list, or the place after its end, now serves `x` besides what it served. */
  ghost predicate Grown(list: seq<Card>, next: seq<Card>, x: Card, k: nat) {
    && k <= |list| && |next| == (if k < |list| then |list| else k + 1)
    && (forall i :: 0 <= i < |list| && i != k ==> next[i] == list[i])
    && Serves(next[k], x) && |next[k].providers| <= CS_MAXPROV
    && (k == |list| ==> Provs(next[k].providers) == Provs(x.providers))
    && (k < |list| ==> Provs(next[k].providers) == Provs(list[k].providers) + Provs(x.providers)
                       && ClassOf(list[k]) == ClassOf(x) && next[k].grp == list[k].grp | x.grp)
  }

  lemma GrowthKeepsService(list: seq<Card>, next: seq<Card>, x: Card, k: nat, c: Card)
    requires Grown(list, next, x, k) && SomeServes(list, c)
    ensures SomeServes(next, c)
  {
    hide Provs;
    var i :| 0 <= i < |list| && Serves(list[i], c);
    GroupsGrow(list[i].grp, x.grp, c.grp);
    assert Serves(next[i], c);
  }

  lemma GrowthOffersNoMore(list: seq<Card>, next: seq<Card>, h: seq<(Card, bool)>, x: (Card, bool), k: nat, i: nat,
      prov: nat)
    requires Grown(list, next, x.0, k) && MergedByClass(list, h)
    requires i < |next| && prov in Provs(next[i].providers)
    ensures SomeOffers(h + [x], ClassOf(next[i]), prov)
  {
    hide Provs;
    if i < |list| && prov in Provs(list[i].providers) {
      OffersGrow(h, x, ClassOf(list[i]), prov);
    } else {
      assert (h + [x])[|h|] == x;
      assert Offers(x.0, ClassOf(next[i]), prov);
    }
  }

  lemma GrowthKeepsClasses(list: seq<Card>, next: seq<Card>, h: seq<(Card, bool)>, x: (Card, bool), k: nat, i: nat)
    requires Grown(list, next, x.0, k) && MergedByClass(list, h)
    requires i < |next|
    ensures SomeOfClass(h + [x], ClassOf(next[i]))
  {
    hide Provs;
    var more := h + [x];
    if i == k {
      assert ClassOf(more[|h|].0) == ClassOf(next[i]);
    } else {
      assert SomeOfClass(h, ClassOf(list[i]));
      var j :| 0 <= j < |h| && ClassOf(h[j].0) == ClassOf(list[i]);
      assert ClassOf(more[j].0) == ClassOf(next[i]);
    }
  }

  lemma GrowthFits(list: seq<Card>, next: seq<Card>, x: Card, k: nat)
    requires Grown(list, next, x, k)
    requires forall i :: 0 <= i < |list| ==> |list[i].providers| <= CS_MAXPROV
    ensures SomeServes(next, x)
    ensures forall i :: 0 <= i < |next| ==> |next[i].providers| <= CS_MAXPROV
  {
    hide Serves, Provs;
    assert Serves(next[k], x);
  }

  lemma GrowthStep(list: seq<Card>, next: seq<Card>, h: seq<(Card, bool)>, x: (Card, bool), k: nat)
    requires Grown(list, next, x.0, k) && MergedByClass(list, h)
    ensures MergedByClass(next, h + [x])
  {
    hide Provs, SomeOffers, ClassOf, SomeOfClass, Grown, Serves, SomeServes;
    var more := h + [x];
    GrowthFits(list, next, x.0, k);
    forall j | 0 <= j < |more| ensures SomeServes(next, more[j].0) {
      if j < |h| {
        GrowthKeepsService(list, next, x.0, k, h[j].0);
      }
    }
    forall i, prov | 0 <= i < |next| && prov in Provs(next[i].providers)
      ensures SomeOffers(more, ClassOf(next[i]), prov)
    {
      GrowthOffersNoMore(list, next, h, x, k, i, prov);
    }
    forall i | 0 <= i < |next| ensures SomeOfClass(more, ClassOf(next[i])) {
      GrowthKeepsClasses(list, next, h, x, k, i);
    }
  }

  lemma AddOneMerges(list: seq<Card>, h: seq<(Card, bool)>, x: (Card, bool))
    requires MergedByClass(list, h) && |x.0.providers| <= CS_MAXPROV
    ensures MergedByClass(AddOne(MINIMIZE_CAID, list, x.0, x.1), h + [x])
  {
    hide MergedByClass, FindMatch, Merged, Inserted, Provs, NumSameProviders;
    var k := FindMatch(MINIMIZE_CAID, list, x.0, 0);
    var next := AddOne(MINIMIZE_CAID, list, x.0, x.1);
    if k == |list| {
      InsertedServes(x.0, x.1);
    } else {
      ComparisonsAreEqualities(x.0, list[k]);
      MergedServes(list[k], x.0);
    }
    assert Grown(list, next, x.0, k);
    GrowthStep(list, next, h, x, k);
  }

  lemma {:induction false} AddEachMerges(list: seq<Card>, h: seq<(Card, bool)>, cards: seq<(Card, bool)>)
    requires MergedByClass(list, h)
    requires forall i :: 0 <= i < |cards| ==> |cards[i].0.providers| <= CS_MAXPROV
    ensures MergedByClass(AddEach(MINIMIZE_CAID, list, cards), h + cards)
    decreases |cards|
  {
    hide MergedByClass, AddOne;
    if cards == [] {
      assert h + cards == h;
    } else {
      AddOneMerges(list, h, cards[0]);
      AddEachMerges(AddOne(MINIMIZE_CAID, list, cards[0].0, cards[0].1), h + [cards[0]], cards[1..]);
      assert (h + [cards[0]]) + cards[1..] == h + cards;
    }
  }

  lemma {:induction false} ExpandedFits(calls: seq<(Card, bool)>)
    requires forall i :: 0 <= i < |calls| ==> |calls[i].0.providers| <= CS_MAXPROV
    ensures forall i :: 0 <= i < |ExpandedAll(calls)| ==> |ExpandedAll(calls)[i].0.providers| <= CS_MAXPROV
    decreases |calls|
  {
    hide Copied, IsAuCard;
    if calls != [] {
      ExpandedFits(calls[1..]);
      CopiedFacts(calls[0].0.(aufilter := 1));
    }
  }

  /** If no added card has more than CS_MAXPROV providers, no listed one ever has, and the list offers
      exactly the pairs of class and provider that were added. */
  lemma ShareListMergesClasses(calls: seq<(Card, bool)>)
    requires forall i :: 0 <= i < |calls| ==> |calls[i].0.providers| <= CS_MAXPROV
    ensures MergedByClass(AddAll(MINIMIZE_CAID, [], calls), ExpandedAll(calls))
  {
    hide MergedByClass, AddOne, Expanded;
    AddAllIsExpansion(MINIMIZE_CAID, [], calls);
    ExpandedFits(calls);
    EmptyLists(MINIMIZE_CAID);
    AddEachMerges([], [], ExpandedAll(calls));
    assert [] + ExpandedAll(calls) == ExpandedAll(calls);
  }

  // ---------- Doubled providers ----------

  /** A card with a doubled provider meets the listed card `list[0]` of the same class and hop, which has
      as many providers, its own among them: it is merged into that card. */
  lemma DoubledIsTaken(list: seq<Card>, c: Card, free: bool)
    requires list != [] && ClassOf(list[0]) == ClassOf(c) && list[0].hop == c.hop
    requires |c.providers| == |list[0].providers| && Provs(c.providers) <= Provs(list[0].providers)
    ensures var next := AddOne(MINIMIZE_HOPS, list, c, free);
            |next| == |list| && (forall i :: 1 <= i < |list| ==> next[i] == list[i])
            && Provs(next[0].providers) == Provs(list[0].providers)
  {
    hide Copied, Provs, EqualProviders, AddProviders;
    SubsetCounts(c.providers, list[0].providers);
    ComparisonsAreEqualities(c, list[0]);
    AddProvidersFacts(list[0].providers, c.providers);
    assert FindMatch(MINIMIZE_HOPS, list, c, 0) == 0;
  }

  lemma MissingKey(list: seq<Card>, h: seq<(Card, bool)>, j: nat)
    requires j < |h|
    requires forall i :: 0 <= i < |list| ==>
               ClassOf(list[i]) != ClassOf(h[j].0) || Provs(list[i].providers) != Provs(h[j].0.providers)
    ensures !NearestOfEach(MINIMIZE_HOPS, list, h)
  {
    hide Provs, ClassOf;
    if NearestOfEach(MINIMIZE_HOPS, list, h) {
      HistoryListed(list, h, j);
    }
  }

  lemma HistoryListed(list: seq<Card>, h: seq<(Card, bool)>, j: nat)
    requires NearestOfEach(MINIMIZE_HOPS, list, h) && j < |h|
    ensures Listed(MINIMIZE_HOPS, list, KeyOf(MINIMIZE_HOPS, h[j].0))
  {
  }

  /** The card without doubled providers that an earlier reader may bring. */
  function Rival(card: Card): Card {
    card.(providers := Widened(card.providers), au := false)
  }

  /** Any card that lists a provider twice breaks the rule: after its rival it has no card of its own. */
  lemma DoublesBreakNearest(card: Card, free: bool)
    requires !NoDoubles(card.providers)
    ensures NoDoubles(Rival(card).providers)
    ensures var calls := [(Rival(card), false), (card, free)];
            !NearestOfEach(MINIMIZE_HOPS, AddAll(MINIMIZE_HOPS, [], calls), ExpandedAll(calls))
  {
    hide NearestOfEach, AddOne, NonAuCopy, Inserted, Widened, NoDoubles, Provs, IsAuCard;
    var p, other := MINIMIZE_HOPS, Rival(card);
    WidenedFacts(card.providers);
    RivalExpansion(card, free);
    var h := Expanded(card, free);
    var calls := [(other, false), (card, free)];
    AddAllIsExpansion(p, [], calls);
    var x := Inserted(p, other, false);
    InsertedFits(p, other, false);
    ProvsSize(x.providers);
    ProvsSize(other.providers);
    AddOneFirst(p, other, false);
    if Splits(card) {
      var copy := NonAuCopy(card.(aufilter := 1));
      CopyApart(x, card);
      AddEachFew(p, [x], h);
      var list := AddOne(p, [x], copy, true);
      DoubledIsTaken(list, card.(aufilter := 1), free);
      MissingKey(AddEach(p, [x], h), ExpandedAll(calls), 2);
    } else {
      AddEachFew(p, [x], h);
      DoubledIsTaken([x], card, free);
      MissingKey(AddEach(p, [x], h), ExpandedAll(calls), 1);
    }
  }

  lemma RivalExpansion(card: Card, free: bool)
    ensures ExpandedAll([(Rival(card), false), (card, free)]) == [(Rival(card), false)] + Expanded(card, free)
    ensures ExpandedAll([(Rival(card), false), (card, free)])[1..] == Expanded(card, free)
  {
    hide NonAuCopy, Widened;
    var calls := [(Rival(card), false), (card, free)];
    assert calls[1..] == [(card, free)] && calls[1..][1..] == [];
    assert ExpandedAll(calls[1..]) == Expanded(card, free);
  }

  lemma AddEachFew(p: Policy, list: seq<Card>, h: seq<(Card, bool)>)
    ensures |h| == 1 ==> AddEach(p, list, h) == AddOne(p, list, h[0].0, h[0].1)
    ensures |h| == 2 ==>
              AddEach(p, list, h) == AddOne(p, AddOne(p, list, h[0].0, h[0].1), h[1].0, h[1].1)
  {
    hide AddOne;
    if |h| == 2 {
      var list1 := AddOne(p, list, h[0].0, h[0].1);
      assert h[1..] == [h[1]] && [h[1]][1..] == [];
      assert AddEach(p, list1, [h[1]]) == AddEach(p, AddOne(p, list1, h[1].0, h[1].1), []);
    } else if |h| == 1 {
      assert h[1..] == [];
    }
  }

  lemma AddOneFirst(p: Policy, c: Card, free: bool)
    ensures AddOne(p, [], c, free) == [Inserted(p, c, free)]
  {
    hide Inserted;
  }

  /** The copy for other clients is listed apart from the cards of an AU reader. */
  lemma CopyApart(x: Card, card: Card)
    requires Splits(card) && ClassOf(x) == ClassOf(card)
    ensures var copy := NonAuCopy(card.(aufilter := 1));
            AddOne(MINIMIZE_HOPS, [x], copy, true) == [x, copy] && ClassOf(copy) != ClassOf(card)
  {
    hide AddProviders, AddNodes, AddSids, EqualProviders;
    var copy := NonAuCopy(card.(aufilter := 1));
    var i :| 0 <= i < |card.hexserial| && card.hexserial[i] != 0;
    assert copy.hexserial[i] == 0;
    ComparisonsAreEqualities(copy, x);
  }

  /** The history `calls`, followed by `card`, is listed as it should be. */
  ghost predicate ListedRight(calls: seq<(Card, bool)>, card: Card, free: bool) {
    var all := calls + [(card, free)];
    NearestOfEach(MINIMIZE_HOPS, AddAll(MINIMIZE_HOPS, [], all), ExpandedAll(all))
  }

  ghost predicate AllNoDoubles(calls: seq<(Card, bool)>) {
    forall i :: 0 <= i < |calls| ==> NoDoubles(calls[i].0.providers)
  }

  /** A card is listed right after every history of cards without doubled providers exactly if it has
      none itself. */
  lemma ListedRightWithoutDoubles(card: Card, free: bool)
    ensures NoDoubles(card.providers) <==> forall calls :: AllNoDoubles(calls) ==> ListedRight(calls, card, free)
  {
    hide NearestOfEach, AddAll, ExpandedAll, NoDoubles;
    if NoDoubles(card.providers) {
      forall calls | AllNoDoubles(calls) ensures ListedRight(calls, card, free) {
        ShareListIsNearestOfEach(MINIMIZE_HOPS, calls + [(card, free)]);
      }
    } else {
      DoublesBreakNearest(card, free);
      var calls := [(Rival(card), false)];
      assert calls + [(card, free)] == [(Rival(card), false), (card, free)];
      assert AllNoDoubles(calls) && !ListedRight(calls, card, free);
    }
  }
}
