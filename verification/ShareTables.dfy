/** The code of the share list: the routines of oscam/module-cccshare.c on lists that they change,
    proved against ShareList and ShareRefresh. */
module ShareTables {
  import opened Cards
  import opened ShareList
  import opened ShareMatching
  import opened ShareRefresh

  // ---------- Loops over one card ----------

  method FindProvider(ps: seq<Provider>, prov: nat) returns (found: bool)
    ensures found <==> HasProv(ps, prov)
  {
    var k := 0;
    while k < |ps| && ps[k].prov != prov
      invariant k <= |ps| && forall i :: 0 <= i < k ==> ps[i].prov != prov
    {
      k := k + 1;
    }
    found := k < |ps|;
  }

  /** add_card_providers, lines 528-549 */
  method AddCardProviders(dst: seq<Provider>, src: seq<Provider>) returns (r: seq<Provider>)
    ensures r == AddProviders(dst, src)
  {
    r := dst;
    var k := 0;
    while k < |src|
      invariant k <= |src| && AddProviders(r, src[k..]) == AddProviders(dst, src)
    {
      assert src[k..][1..] == src[k + 1..];
      var found := FindProvider(r, src[k].prov);
      if !found {
        r := r + [src[k]];
      }
      k := k + 1;
    }
  }

  /** add_card_providers, lines 551-572 */
  method AddCardNodes(dst: seq<NodeId>, src: seq<NodeId>) returns (r: seq<NodeId>)
    ensures r == AddNodes(dst, src)
  {
    r := dst;
    var k := 0;
    while k < |src|
      invariant k <= |src| && AddNodes(r, src[k..]) == AddNodes(dst, src)
    {
      assert src[k..][1..] == src[k + 1..];
      var i := 0;
      while i < |r| && r[i] != src[k]
        invariant i <= |r| && src[k] !in r[..i]
      {
        i := i + 1;
      }
      if i == |r| {
        assert r[..i] == r;
        r := r + [src[k]];
      }
      k := k + 1;
    }
  }

  /** copy_sids, lines 505-523 */
  method CopySids(dst: seq<Sid>, src: seq<Sid>) returns (r: seq<Sid>)
    ensures r == AddSids(dst, src)
  {
    r := dst;
    var k := 0;
    while k < |src|
      invariant k <= |src| && AddSids(r, src[k..]) == AddSids(dst, src)
    {
      assert src[k..][1..] == src[k + 1..];
      var i := 0;
      while i < |r| && !SidEq(src[k], r[i])
        invariant i <= |r| && forall j :: 0 <= j < i ==> !SidEq(src[k], r[j])
      {
        i := i + 1;
      }
      if i == |r| {
        r := r + [src[k]];
      }
      k := k + 1;
    }
  }

  /** create_card, lines 583-606, and add_card_providers */
  method CopyCard(c: Card) returns (r: Card)
    ensures r == Copied(c)
  {
    hide AddProviders, AddNodes, AddSids;
    var good := CopySids([], c.goodsids);
    var bad := CopySids([], c.badsids);
    var provs := AddCardProviders([], c.providers);
    var nodes := AddCardNodes([], c.nodes);
    r := c.(id := 0, providers := provs, nodes := nodes, goodsids := good, badsids := bad);
  }

  /** num_same_providers, lines 635-652 */
  method CountSameProviders(a: seq<Provider>, b: seq<Provider>) returns (found: nat)
    ensures found == NumSameProviders(a, b)
  {
    found := 0;
    var k := 0;
    while k < |a|
      invariant k <= |a| && found + NumSameProviders(a[k..], b) == NumSameProviders(a, b)
    {
      assert a[k..][1..] == a[k + 1..];
      var same := FindProvider(b, a[k].prov);
      if same {
        found := found + 1;
      }
      k := k + 1;
    }
  }

  /** equal_providers, lines 658-682 */
  method CompareProviders(a: seq<Provider>, b: seq<Provider>) returns (equal: bool)
    ensures equal <==> EqualProviders(a, b)
  {
    if |a| != |b| {
      return false;
    }
    if |a| == 0 {
      return true;
    }
    var k := 0;
    while k < |a|
      invariant k <= |a| && forall i :: 0 <= i < k ==> HasProv(b, a[i].prov)
    {
      var same := FindProvider(b, a[k].prov);
      if !same {
        return false;
      }
      k := k + 1;
    }
    return true;
  }

  /** The merging branches of add_card_to_serverlist, lines 750-755 and 786-790 */
  method MergeCard(p: Policy, into: Card, card: Card) returns (listed: Card)
    requires p != PLAIN
    ensures listed == Merged(p, into, card)
  {
    hide AddProviders;
    var provs := AddCardProviders(into.providers, card.providers);
    var bad := if into.sidtab == None then [] else into.badsids;
    listed := into.(grp := into.grp | card.grp, providers := provs, badsids := bad);
    if p == MINIMIZE_CAID {
      listed := listed.(nodes := []);
    }
  }

  // ---------- One list ----------

  class ServerList {
    var cards: seq<Card>
    const minimize: Policy
    const forwardOrigin: bool

    constructor (minimize: Policy, forwardOrigin: bool)
      ensures cards == [] && this.minimize == minimize && this.forwardOrigin == forwardOrigin
    {
      cards := [];
      this.minimize := minimize;
      this.forwardOrigin := forwardOrigin;
    }

    /** The search loops, lines 719-731, 760-765 and 796-800. */
    method Search(p: Policy, card: Card) returns (k: nat)
      ensures k == FindMatch(p, cards, card, 0)
    {
      hide EqualProviders, NumSameProviders, SameCard, SameCard2;
      k := 0;
      while k < |cards|
        invariant k <= |cards| && FindMatch(p, cards, card, k) == FindMatch(p, cards, card, 0)
      {
        var same := false;
        match p {
          case MINIMIZE_CAID =>
            if SameCard2(card, cards[k], false) {
              var nsame := CountSameProviders(card.providers, cards[k].providers);
              var nnew := |card.providers| - nsame + |cards[k].providers|;
              same := nnew <= CS_MAXPROV;
            }
          case MINIMIZE_HOPS =>
            if SameCard2(card, cards[k], false) {
              same := CompareProviders(card.providers, cards[k].providers);
            }
          case PLAIN =>
            same := SameCard(card, cards[k]);
        }
        if same {
          return;
        }
        k := k + 1;
      }
    }

    /** What is put into the list: the card itself if it may be used, else a copy. */
    method Prepare(p: Policy, card: Card, free: bool) returns (r: Card)
      ensures r == Inserted(p, card, free)
    {
      hide Copied;
      if free {
        return card;
      }
      r := CopyCard(card);
      if p == MINIMIZE_CAID {
        r := r.(hop := 0);
      }
    }

    /** lines 718-756 */
    method AddMinimizeCaid(card: Card, free: bool)
      modifies this
      ensures cards == AddOne(MINIMIZE_CAID, old(cards), card, free)
    {
      hide Inserted, FindMatch, Merged;
      var k := Search(MINIMIZE_CAID, card);
      if k == |cards| {
        var fresh_ := Prepare(MINIMIZE_CAID, card, free);
        cards := cards + [fresh_];
      } else {
        var listed := MergeCard(MINIMIZE_CAID, cards[k], card);
        cards := cards[k := listed];
      }
    }

    /** lines 759-792 */
    method AddMinimizeHops(card: Card, free: bool)
      modifies this
      ensures cards == AddOne(MINIMIZE_HOPS, old(cards), card, free)
    {
      hide Inserted, FindMatch, Merged;
      var k := Search(MINIMIZE_HOPS, card);
      if k < |cards| && cards[k].hop > card.hop {
        var fresh_ := Prepare(MINIMIZE_HOPS, card, free);
        Exchange(k, fresh_);
      } else if k == |cards| {
        var fresh_ := Prepare(MINIMIZE_HOPS, card, free);
        cards := cards + [fresh_];
      } else {
        var listed := MergeCard(MINIMIZE_HOPS, cards[k], card);
        cards := cards[k := listed];
      }
    }

    /** lines 795-823 */
    method AddPlain(card: Card, free: bool)
      modifies this
      ensures cards == AddOne(PLAIN, old(cards), card, free)
    {
      hide Inserted, FindMatch;
      var k := Search(PLAIN, card);
      if k < |cards| && cards[k].hop > card.hop {
        var fresh_ := Prepare(PLAIN, card, free);
        Exchange(k, fresh_);
      } else if k == |cards| {
        var fresh_ := Prepare(PLAIN, card, free);
        cards := cards + [fresh_];
      }
    }

    /** ll_iter_remove, which leaves the cursor before the removed element, and ll_iter_insert, which
        inserts after the cursor but appends when there is none. */
    method Exchange(k: nat, card: Card)
      requires k < |cards|
      modifies this
      ensures cards == Replaced(old(cards), k, card)
    {
      cards := cards[..k] + cards[k + 1..];
      if k == 0 || k == |cards| {
        cards := cards + [card];
      } else {
        cards := cards[..k] + [card] + cards[k..];
      }
    }

    /** add_card_to_serverlist, lines 693-830; `card` is the card of the caller as the call leaves it. */
    method Add(given: Card, free: bool) returns (card: Card)
      modifies this
      ensures card == Marked(given)
      ensures cards == Added(PolicyOf(minimize, forwardOrigin), old(cards), given, free)
      decreases if given.aufilter == 0 then 1 else 0
    {
      hide AddOne, Copied, IsAuCard;
      card := given;
      if card.aufilter == 0 && IsAuCard(card) {
        card := card.(aufilter := 1);
        var other := CopyCard(card);
        other := other.(aufilter := 2, hexserial := seq(|card.hexserial|, _ => 0));
        CopiedFacts(card);
        var _ := Add(other, true);
      }
      if minimize == MINIMIZE_CAID && !forwardOrigin {
        AddMinimizeCaid(card, free);
      } else if minimize == MINIMIZE_HOPS && !forwardOrigin {
        AddMinimizeHops(card, free);
      } else {
        AddPlain(card, free);
      }
    }
  }

  // ---------- All lists ----------

  /** The collecting part of update_card_list, one bucket of server_cards at a time. */
  method Collect(minimize: Policy, forwardOrigin: bool, calls: seq<(Card, bool)>) returns (server: seq<seq<Card>>)
    ensures server == ServerBuckets(PolicyOf(minimize, forwardOrigin), calls)
  {
    hide Added, BucketOf;
    ghost var p := PolicyOf(minimize, forwardOrigin);
    server := NoBuckets(CAID_KEY);
    var list := new ServerList(minimize, forwardOrigin);
    var k := 0;
    while k < |calls|
      invariant k <= |calls| && |server| == CAID_KEY
      invariant AddCalls(p, server, calls[k..]) == ServerBuckets(p, calls)
      invariant list.minimize == minimize && list.forwardOrigin == forwardOrigin && fresh(list)
    {
      var b := BucketOf(calls[k].0.caid);
      list.cards := server[b];
      var _ := list.Add(calls[k].0, calls[k].1);
      assert calls[k..][0] == calls[k] && calls[k..][1..] == calls[k + 1..];
      server := server[b := list.cards];
      k := k + 1;
    }
  }

  lemma {:induction false} PairsAppend(b: nat, positions: seq<nat>, k: nat)
    ensures Pairs(b, positions + [k]) == Pairs(b, positions) + [(b, k)]
  {
    if positions != [] {
      assert (positions + [k])[1..] == positions[1..] + [k];
      PairsAppend(b, positions[1..], k);
    } else {
      assert (positions + [k])[1..] == [];
    }
  }

  class ShareTable {
    var reported: seq<seq<Card>>
    var shareId: nat
    var sent: seq<Event>
    ghost var next: nat

    ghost predicate Valid()
      reads this
    {
      |reported| == CAID_KEY && shareId == next % TWO_32
    }

    ghost function Content(): Table
      reads this
    {
      Table(reported, next, sent)
    }

    constructor ()
      ensures Valid() && Content() == Table(NoBuckets(CAID_KEY), FIRST_ID, [])
    {
      reported := NoBuckets(CAID_KEY);
      shareId := FIRST_ID;
      sent := [];
      next := FIRST_ID;
    }

    /** find_reported_card and report_card for the cards of one bucket, lines 851-894. */
    method ReportBucket(b: nat, cards: seq<Card>, now: int, listed: seq<(nat, nat)>)
      returns (newReported: seq<Card>, newCards: seq<(nat, nat)>)
      requires b < |reported| && Fresh(b, cards)
      modifies this`reported
      ensures var d := DiffOf(old(reported[b]), cards, now);
              newReported == d.list && newCards == listed + Pairs(b, d.todo) && reported == old(reported)[b := d.rest]
    {
      hide SameCard, TimedOut, BucketOf;
      newReported, newCards := [], listed;
      ghost var d := Diff([], reported[b], [], [], []);
      var k := 0;
      while k < |cards|
        invariant k <= |cards| && b < |reported|
        invariant ReportAll(d, cards[k..], now) == DiffOf(old(reported[b]), cards, now)
        invariant newReported == d.list && newCards == listed + Pairs(b, d.todo)
                  && reported == old(reported)[b := d.rest]
      {
        var card := cards[k];
        var c := BucketOf(card.caid);
        assert c == b && cards[k..][0] == card && cards[k..][1..] == cards[k + 1..];
        var i := Search(c, card, now);
        if i < |reported[c]| {
          card := card.(id := reported[c][i].id);
          card := card.(timeout := reported[c][i].timeout);
          reported := reported[c := Without(reported[c], i)];
        } else {
          newCards := newCards + [(b, |newReported|)];
          PairsAppend(b, d.todo, |newReported|);
        }
        newReported := newReported + [card];
        d := ReportOne(d, cards[k], now);
        k := k + 1;
      }
    }

    method Search(b: nat, card: Card, now: int) returns (i: nat)
      requires b < |reported|
      ensures i == FindReported(reported[b], card, now, 0)
    {
      hide SameCard, TimedOut;
      i := 0;
      while i < |reported[b]| && !(SameCard(card, reported[b][i]) && !TimedOut(reported[b][i], now))
        invariant i <= |reported[b]|
                  && FindReported(reported[b], card, now, i) == FindReported(reported[b], card, now, 0)
      {
        i := i + 1;
      }
    }

    /** send_remove_card_to_clients, lines 295-316. */
    method SendRemoveCard(card: Card, clients: seq<Client>)
      modifies this`sent
      ensures sent == old(sent) + Removal(clients, card)
    {
      hide ValidFor;
      if card.id == 0 {
        return;
      }
      var k := 0;
      while k < |clients|
        invariant k <= |clients|
        invariant sent + Removal(clients[k..], card) == old(sent) + Removal(clients, card)
      {
        assert clients[k..][0] == clients[k] && clients[k..][1..] == clients[k + 1..];
        if ValidFor(clients[k], card) {
          sent := sent + [CardRemoved(clients[k].num, card.id)];
        }
        k := k + 1;
      }
    }

    /** cc_clear_reported_carddata, lines 360-388. */
    method ClearReported(b: nat, clients: seq<Client>)
      requires b < |reported|
      modifies this`reported, this`sent
      ensures sent == old(sent) + Removals(clients, old(reported[b])) && reported == old(reported)[b := []]
    {
      hide Removal;
      while reported[b] != []
        invariant b < |reported| && reported == old(reported)[b := reported[b]]
        invariant sent + Removals(clients, reported[b]) == old(sent) + Removals(clients, old(reported[b]))
        decreases |reported[b]|
      {
        var card := reported[b][0];
        reported := reported[b := reported[b][1..]];
        SendRemoveCard(card, clients);
      }
    }

    /** send_card_to_clients, lines 242-293. */
    method SendCard(at: (nat, nat), clients: seq<Client>)
      requires Valid() && InTable(Content(), at)
      modifies this
      ensures Valid() && Content() == Send(old(Content()), at, clients)
    {
      hide Gets;
      var k := 0;
      while k < |clients|
        invariant k <= |clients| && Valid() && InTable(Content(), at)
        invariant Send(Content(), at, clients[k..]) == Send(old(Content()), at, clients)
      {
        assert clients[k..][0] == clients[k] && clients[k..][1..] == clients[k + 1..];
        SendToClient(at, clients[k]);
        k := k + 1;
      }
    }

    method SendToClient(at: (nat, nat), cl: Client)
      requires Valid() && InTable(Content(), at)
      modifies this
      ensures Valid() && Content() == SendOne(old(Content()), at, cl)
    {
      hide Gets;
      if Gets(cl, reported[at.0][at.1]) {
        if reported[at.0][at.1].id == 0 {
          reported := reported[at.0 := reported[at.0][at.1 := reported[at.0][at.1].(id := shareId)]];
          shareId := (shareId + 1) % TWO_32;
          next := next + 1;
        }
        sent := sent + [NewCard(cl.num, reported[at.0][at.1].id)];
      }
    }

    method SendCards(todo: seq<(nat, nat)>, clients: seq<Client>)
      requires Valid() && forall at :: at in todo ==> InTable(Content(), at)
      modifies this
      ensures Valid() && Content() == SendAll(old(Content()), todo, clients)
    {
      hide Send, InTable;
      var k := 0;
      while k < |todo|
        invariant k <= |todo| && Valid()
        invariant forall at :: at in todo[k..] ==> InTable(Content(), at)
        invariant SendAll(Content(), todo[k..], clients) == SendAll(old(Content()), todo, clients)
      {
        assert todo[k..][0] == todo[k] && todo[k..][1..] == todo[k + 1..];
        SendCard(todo[k], clients);
        k := k + 1;
      }
    }

    method ReplaceBucket(b: nat, cards: seq<Card>, now: int, listed: seq<(nat, nat)>, clients: seq<Client>)
      returns (newCards: seq<(nat, nat)>)
      requires Valid() && b < CAID_KEY && Fresh(b, cards)
      modifies this`reported, this`sent
      ensures Valid() && Content() == RefreshBucket(old(Content()), b, cards, now, clients)
      ensures newCards == listed + Pairs(b, DiffOf(old(reported[b]), cards, now).todo)
      ensures forall i :: 0 <= i < CAID_KEY && i != b ==> reported[i] == old(reported)[i]
    {
      hide DiffOf, Removals, Fresh, Pairs;
      var newReported;
      newReported, newCards := ReportBucket(b, cards, now, listed);
      ClearReported(b, clients);
      reported := reported[b := newReported];
    }

    /** update_card_list, lines 1162-1218. */
    method UpdateCardList(minimize: Policy, forwardOrigin: bool, calls: seq<(Card, bool)>, now: int,
        clients: seq<Client>)
      requires Valid() && Unnumbered(calls)
      modifies this
      ensures Valid()
      ensures Content() == Next(PolicyOf(minimize, forwardOrigin), old(Content()), Update(calls, now, clients))
    {
      hide DiffOf, Removals, Fresh, InTable, Unnumbered, ServerBuckets, SendAll, RefreshBucket, Pairs;
      var server := Collect(minimize, forwardOrigin, calls);
      EmptyFresh(PolicyOf(minimize, forwardOrigin), calls);
      ghost var t := Content();
      AddedInTable(t, 0, server, now, clients, t.buckets);
      var newCards: seq<(nat, nat)> := [];
      var i := 0;
      while i < CAID_KEY
        invariant i <= CAID_KEY && Valid() && next == t.next
        invariant forall b :: i <= b < CAID_KEY ==> reported[b] == t.buckets[b]
        invariant RefreshFrom(Content(), i, server, now, clients) == RefreshFrom(t, 0, server, now, clients)
        invariant newCards + AddedFrom(t.buckets, i, server, now) == AddedFrom(t.buckets, 0, server, now)
      {
        newCards := ReplaceBucket(i, server[i], now, newCards, clients);
        i := i + 1;
      }
      assert newCards + [] == newCards;
      SendCards(newCards, clients);
    }

    /** cc_srv_report_cards, lines 1221-1240. */
    method ReportCards(p: Policy, cl: Client)
      requires Valid()
      modifies this
      ensures Valid() && Content() == Next(p, old(Content()), Report(cl))
    {
      hide InTable, SendAll, Pairs;
      AllInTable(Content(), 0);
      var todo: seq<(nat, nat)> := [];
      var b := 0;
      while b < CAID_KEY
        invariant b <= CAID_KEY && Content() == old(Content())
        invariant todo + AllFrom(reported, b) == AllFrom(reported, 0)
      {
        todo := todo + Pairs(b, UpTo(|reported[b]|));
        b := b + 1;
      }
      assert todo + [] == todo;
      SendCards(todo, [cl]);
    }
  }
}
