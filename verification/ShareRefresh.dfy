/** Refreshing the reported share list: the final part of update_card_list, cc_clear_reported_carddata,
    card_valid_for_client, send_card_to_clients, send_remove_card_to_clients and cc_srv_report_cards
    (oscam/module-cccshare.c, lines 16, 27-33, 242-316, 360-485 and 1162-1240).

    A refresh compares the newly built cards, bucket by bucket, with those reported before.  New cards
    are announced to the clients that may have them and get an id from a counter the first time; what
    is left of the old list is announced as removed to the clients that may have it by then. */
module ShareRefresh {
  import opened Cards
  import opened ShareList
  import opened ShareMatching

  const CAID_KEY: nat := 32
  const FIRST_ID: nat := 0x64
  const TWO_32: nat := 0x1_0000_0000

  /** One message to one client. */
  datatype Event = NewCard(client: nat, id: nat) | CardRemoved(client: nat, id: nat)

  // ---------- What a client may have ----------

  /** A connected client.  `num` stands for its connection, `ignoreReshare` and `maxhops` are settings
      of its account; `admits` is the outcome of the checks of CAID, providers and service table
      against its settings, and `reshareFor` the reshare value a message would carry. */
  datatype Client = Client(num: nat, grp: bv64, hasAu: bool, ignoreReshare: bool, maxhops: int, peerNode: NodeId,
                           admits: (nat, seq<Provider>, Option<nat>) -> bool, reshareFor: Card -> int)

  predicate InGroup(cardGrp: bv64, clientGrp: bv64) {
    cardGrp == 0 || (cardGrp & clientGrp) != 0
  }

  /** card_valid_for_client */
  predicate ValidFor(cl: Client, c: Card) {
    && InGroup(c.grp, cl.grp)
    && (c.aufilter == 0 || (c.aufilter == 1 <==> cl.hasAu))
    && cl.admits(c.caid, c.providers, c.sidtab)
    && (c.cardType == REMOTECARD ==> cl.ignoreReshare || c.reshare != 0)
    && c.hop <= cl.maxhops
    && cl.peerNode !in c.nodes
  }

  /** Whether a new card is sent to the client; the reshare value depends on neither id nor timeout. */
  predicate Gets(cl: Client, c: Card) {
    ValidFor(cl, c) && cl.reshareFor(c.(id := 0, timeout := 0)) >= 0
  }

  lemma GetsIgnoresId(cl: Client, c: Card, id: nat, timeout: int)
    ensures Gets(cl, c.(id := id, timeout := timeout)) <==> Gets(cl, c)
  {
    hide InGroup;
    var d := c.(id := id, timeout := timeout);
    assert d.(id := 0, timeout := 0) == c.(id := 0, timeout := 0);
  }

  /** Cards of one identity agree for every client when these fields agree; same_card looks at none
      of them but the first node. */
  predicate SameView(a: Card, b: Card) {
    a.hop == b.hop && a.reshare == b.reshare && a.providers == b.providers && a.nodes == b.nodes
    && a.aufilter == b.aufilter
  }

  lemma ViewDecides(cl: Client, a: Card, b: Card)
    requires SameCard(a, b) && SameView(a, b)
    ensures ValidFor(cl, a) <==> ValidFor(cl, b)
  {
    hide InGroup;
  }

  // ---------- The table of all buckets ----------

  function BucketOf(caid: nat): (b: nat)
    ensures b < CAID_KEY
  {
    caid / 256 % CAID_KEY
  }

  /** `next` counts the ids handed out; the program's counter is `next` modulo 2^32.  `log` holds the
      messages to the clients. */
  datatype Table = Table(buckets: seq<seq<Card>>, next: nat, log: seq<Event>)

  /** send_remove_card_to_clients */
  function Removal(clients: seq<Client>, card: Card): seq<Event> {
    if clients == [] || card.id == 0 then []
    else
      var first := if ValidFor(clients[0], card) then [CardRemoved(clients[0].num, card.id)] else [];
      first + Removal(clients[1..], card)
  }

  /** The messages for the cards that are left over. */
  function Removals(clients: seq<Client>, rest: seq<Card>): seq<Event> {
    if rest == [] then [] else Removal(clients, rest[0]) + Removals(clients, rest[1..])
  }

  function RefreshBucket(t: Table, b: nat, cards: seq<Card>, now: int, clients: seq<Client>): Table
    requires b < |t.buckets|
  {
    var d := DiffOf(t.buckets[b], cards, now);
    Table(t.buckets[b := d.list], t.next, t.log + Removals(clients, d.rest))
  }

  function RefreshFrom(t: Table, b: nat, server: seq<seq<Card>>, now: int, clients: seq<Client>): (r: Table)
    requires |t.buckets| == |server| && b <= |server|
    ensures |r.buckets| == |server|
    decreases |server| - b
  {
    if b == |server| then t
    else RefreshFrom(RefreshBucket(t, b, server[b], now, clients), b + 1, server, now, clients)
  }

  /** The positions of the added cards, in the order of the list of new cards. */
  function AddedFrom(reported: seq<seq<Card>>, b: nat, server: seq<seq<Card>>, now: int): seq<(nat, nat)>
    requires |reported| == |server| && b <= |server|
    decreases |server| - b
  {
    if b == |server| then []
    else Pairs(b, DiffOf(reported[b], server[b], now).todo) + AddedFrom(reported, b + 1, server, now)
  }

  function Pairs(b: nat, positions: seq<nat>): (r: seq<(nat, nat)>)
    ensures forall at :: at in r <==> at.0 == b && at.1 in positions
  {
    if positions == [] then [] else [(b, positions[0])] + Pairs(b, positions[1..])
  }

  function UpTo(n: nat): (r: seq<nat>)
    ensures forall i :: i in r <==> 0 <= i < n
  {
    if n == 0 then [] else UpTo(n - 1) + [n - 1]
  }

  function AllFrom(buckets: seq<seq<Card>>, b: nat): seq<(nat, nat)>
    requires b <= |buckets|
    decreases |buckets| - b
  {
    if b == |buckets| then []
    else Pairs(b, UpTo(|buckets[b]|)) + AllFrom(buckets, b + 1)
  }

  predicate InTable(t: Table, at: (nat, nat)) {
    at.0 < |t.buckets| && at.1 < |t.buckets[at.0]|
  }

  /** send_card_to_clients for one card and one client. */
  function SendOne(t: Table, at: (nat, nat), cl: Client): (r: Table)
    requires InTable(t, at)
    ensures |r.buckets| == |t.buckets| && forall at :: InTable(t, at) ==> InTable(r, at)
  {
    var card := t.buckets[at.0][at.1];
    if !Gets(cl, card) then t
    else if card.id != 0 then t.(log := t.log + [NewCard(cl.num, card.id)])
    else
      var id := t.next % TWO_32;
      Table(t.buckets[at.0 := t.buckets[at.0][at.1 := card.(id := id)]], t.next + 1, t.log + [NewCard(cl.num, id)])
  }

  /** send_card_to_clients */
  function Send(t: Table, at: (nat, nat), clients: seq<Client>): (r: Table)
    requires InTable(t, at)
    ensures |r.buckets| == |t.buckets| && forall at :: InTable(t, at) ==> InTable(r, at)
    decreases |clients|
  {
    if clients == [] then t else Send(SendOne(t, at, clients[0]), at, clients[1..])
  }

  function SendAll(t: Table, todo: seq<(nat, nat)>, clients: seq<Client>): (r: Table)
    requires forall at :: at in todo ==> InTable(t, at)
    ensures |r.buckets| == |t.buckets|
    decreases |todo|
  {
    if todo == [] then t
    else SendAll(Send(t, todo[0], clients), todo[1..], clients)
  }

  lemma {:induction false} AddedInTable(t: Table, b: nat, server: seq<seq<Card>>, now: int, clients: seq<Client>,
      reported: seq<seq<Card>>)
    requires |t.buckets| == |reported| == |server| && b <= |server|
    requires forall i :: b <= i < |server| ==> t.buckets[i] == reported[i]
    requires forall i :: 0 <= i < b ==> |t.buckets[i]| == |server[i]|
    ensures var r, todo := RefreshFrom(t, b, server, now, clients), AddedFrom(reported, b, server, now);
            && (forall i :: 0 <= i < |server| ==> |r.buckets[i]| == |server[i]|)
            && (forall at :: at in todo ==> InTable(r, at) && b <= at.0)
    decreases |server| - b
  {
    hide DiffOf, Removals;
    if b < |server| {
      MatchingIsLargest(reported[b], server[b], now);
      var d := DiffOf(reported[b], server[b], now);
      assert Matching(reported[b], server[b], now, d);
      var t1, r := RefreshBucket(t, b, server[b], now, clients), RefreshFrom(t, b, server, now, clients);
      AddedInTable(t1, b + 1, server, now, clients, reported);
      assert |r.buckets[b]| == |d.list|;
    }
  }

  lemma {:induction false} AllInTable(t: Table, b: nat)
    requires b <= |t.buckets|
    ensures forall at :: at in AllFrom(t.buckets, b) ==> InTable(t, at)
    decreases |t.buckets| - b
  {
    if b < |t.buckets| {
      AllInTable(t, b + 1);
    }
  }

  /** The matching and sending part of update_card_list. */
  function Refresh(t: Table, server: seq<seq<Card>>, now: int, clients: seq<Client>): (r: Table)
    requires |t.buckets| == |server|
    ensures |r.buckets| == |server|
  {
    AddedInTable(t, 0, server, now, clients, t.buckets);
    SendAll(RefreshFrom(t, 0, server, now, clients), AddedFrom(t.buckets, 0, server, now), clients)
  }

  /** cc_srv_report_cards: every reported card goes to one client. */
  function ReportTo(t: Table, cl: Client): (r: Table)
    ensures |r.buckets| == |t.buckets|
  {
    AllInTable(t, 0);
    SendAll(t, AllFrom(t.buckets, 0), [cl])
  }

  // ---------- What all refreshes and reports keep ----------

  function TotalIf(buckets: seq<seq<Card>>, f: Card -> bool): nat {
    if buckets == [] then 0 else CountIf(buckets[0], f) + TotalIf(buckets[1..], f)
  }

  lemma {:induction false} TotalUpdate(buckets: seq<seq<Card>>, b: nat, cards: seq<Card>, f: Card -> bool)
    requires b < |buckets|
    ensures TotalIf(buckets[b := cards], f) == TotalIf(buckets, f) - CountIf(buckets[b], f) + CountIf(cards, f)
    ensures CountIf(buckets[b], f) <= TotalIf(buckets, f)
    decreases b
  {
    hide CountIf;
    if b > 0 {
      TotalUpdate(buckets[1..], b - 1, cards, f);
      assert buckets[b := cards][1..] == buckets[1..][b - 1 := cards];
    } else {
      assert buckets[b := cards][1..] == buckets[1..];
    }
  }

  /** The ids client `n` holds after the messages. */
  function Apply(ids: set<nat>, events: seq<Event>, n: nat): set<nat>
    decreases |events|
  {
    if events == [] then ids
    else if events[0].client != n then Apply(ids, events[1..], n)
    else Apply(match events[0] case NewCard(_, id) => ids + {id} case CardRemoved(_, id) => ids - {id}, events[1..], n)
  }

  lemma {:induction false} ApplyConcat(ids: set<nat>, a: seq<Event>, b: seq<Event>, n: nat)
    ensures Apply(ids, a + b, n) == Apply(Apply(ids, a, n), b, n)
    decreases |a|
  {
    if a == [] {
      assert a + b == b;
    } else {
      assert (a + b)[0] == a[0] && (a + b)[1..] == a[1..] + b;
      var ids1 := if a[0].client != n then ids else
                    match a[0] case NewCard(_, id) => ids + {id} case CardRemoved(_, id) => ids - {id};
      ApplyConcat(ids1, a[1..], b, n);
    }
  }

  /** The ids client `n` was told of and that were not withdrawn from it. */
  function Told(t: Table, n: nat): set<nat> {
    Apply({}, t.log, n)
  }

  /** The client hears that the card is removed. */
  ghost predicate Withdraws(clients: seq<Client>, n: nat, card: Card) {
    exists i :: 0 <= i < |clients| && clients[i].num == n && ValidFor(clients[i], card)
  }

  lemma {:induction false} RemovalApplied(ids: set<nat>, clients: seq<Client>, card: Card, n: nat)
    requires card.id != 0
    ensures Apply(ids, Removal(clients, card), n) == if Withdraws(clients, n, card) then ids - {card.id} else ids
    decreases |clients|
  {
    hide ValidFor;
    if clients != [] {
      var first := if ValidFor(clients[0], card) then [CardRemoved(clients[0].num, card.id)] else [];
      ApplyConcat(ids, first, Removal(clients[1..], card), n);
      RemovalApplied(Apply(ids, first, n), clients[1..], card, n);
      WithdrawsFirst(clients, n, card);
    }
  }

  lemma WithdrawsFirst(clients: seq<Client>, n: nat, card: Card)
    requires clients != []
    ensures Withdraws(clients, n, card)
            <==> (clients[0].num == n && ValidFor(clients[0], card)) || Withdraws(clients[1..], n, card)
  {
    hide ValidFor;
    if Withdraws(clients[1..], n, card) {
      var i :| 0 <= i < |clients[1..]| && clients[1..][i].num == n && ValidFor(clients[1..][i], card);
      assert clients[i + 1] == clients[1..][i];
    }
    if Withdraws(clients, n, card) {
      var i :| 0 <= i < |clients| && clients[i].num == n && ValidFor(clients[i], card);
      assert i > 0 ==> clients[1..][i - 1] == clients[i];
    }
  }

  /** Some card of the list has the id and is withdrawn from client `n`. */
  ghost predicate Taken(clients: seq<Client>, rest: seq<Card>, n: nat, id: nat) {
    exists k :: 0 <= k < |rest| && rest[k].id == id && Withdraws(clients, n, rest[k])
  }

  lemma TakenFirst(clients: seq<Client>, rest: seq<Card>, n: nat, id: nat)
    requires rest != []
    ensures Taken(clients, rest, n, id)
            <==> (rest[0].id == id && Withdraws(clients, n, rest[0])) || Taken(clients, rest[1..], n, id)
  {
    hide Withdraws;
    if Taken(clients, rest[1..], n, id) {
      var k :| 0 <= k < |rest[1..]| && rest[1..][k].id == id && Withdraws(clients, n, rest[1..][k]);
      assert rest[k + 1] == rest[1..][k];
    }
    if Taken(clients, rest, n, id) {
      var k :| 0 <= k < |rest| && rest[k].id == id && Withdraws(clients, n, rest[k]);
      assert k > 0 ==> rest[1..][k - 1] == rest[k];
    }
  }

  lemma {:induction false} RemovalsApplied(ids: set<nat>, clients: seq<Client>, rest: seq<Card>, n: nat, id: nat)
    requires id != 0
    ensures id in Apply(ids, Removals(clients, rest), n) <==> id in ids && !Taken(clients, rest, n, id)
    decreases |rest|
  {
    hide Withdraws, Taken, Apply, Removal;
    if rest == [] {
      NothingTaken(ids, clients, rest, n, id);
    } else {
      TakenFirst(clients, rest, n, id);
      ApplyConcat(ids, Removal(clients, rest[0]), Removals(clients, rest[1..]), n);
      RemovalsApplied(Apply(ids, Removal(clients, rest[0]), n), clients, rest[1..], n, id);
      if rest[0].id != 0 {
        RemovalApplied(ids, clients, rest[0], n);
      } else {
        NoRemoval(ids, clients, rest[0], n);
      }
    }
  }

  lemma NothingTaken(ids: set<nat>, clients: seq<Client>, rest: seq<Card>, n: nat, id: nat)
    requires rest == []
    ensures !Taken(clients, rest, n, id) && Apply(ids, Removals(clients, rest), n) == ids
  {
  }

  lemma NoRemoval(ids: set<nat>, clients: seq<Client>, card: Card, n: nat)
    requires card.id == 0
    ensures Apply(ids, Removal(clients, card), n) == ids
  {
  }

  /** Every card lies in the bucket of its CAID. */
  ghost predicate Bucketed(buckets: seq<seq<Card>>) {
    |buckets| == CAID_KEY
    && forall b, i :: 0 <= b < CAID_KEY && 0 <= i < |buckets[b]| ==> BucketOf(buckets[b][i].caid) == b
  }

  ghost predicate Reported(t: Table, id: nat) {
    TotalIf(t.buckets, OfId(id)) > 0
  }

  /** At most one reported card has the id, and the id was handed out. */
  ghost predicate IdTrue(t: Table, id: nat) {
    TotalIf(t.buckets, OfId(id)) <= 1 && (Reported(t, id) ==> FIRST_ID <= id < t.next)
  }

  /** Clients were told of no id that was not handed out. */
  ghost predicate ToldBelow(t: Table) {
    forall n, id :: id in Told(t, n) ==> FIRST_ID <= id < t.next
  }

  ghost predicate IdsTrue(t: Table) {
    ToldBelow(t) && forall id :: id > 0 ==> IdTrue(t, id)
  }

  /** The invariant: the ids are right as long as the 32-bit counter has not wrapped around. */
  ghost predicate Inv(t: Table) {
    && Bucketed(t.buckets) && FIRST_ID <= t.next
    && (t.next <= TWO_32 ==> IdsTrue(t))
  }

  /** No id that was handed out before and is not in use comes back. */
  ghost predicate NoneComesBack(t: Table, t1: Table) {
    forall id :: 0 < id < t.next && Reported(t1, id) ==> Reported(t, id)
  }

  ghost predicate Fresh(b: nat, cards: seq<Card>) {
    forall i :: 0 <= i < |cards| ==> BucketOf(cards[i].caid) == b && cards[i].id == 0
  }

  lemma RefreshedBucketed(t: Table, b: nat, cards: seq<Card>, now: int, clients: seq<Client>)
    requires Bucketed(t.buckets) && b < CAID_KEY && Fresh(b, cards)
    ensures Bucketed(RefreshBucket(t, b, cards, now, clients).buckets)
  {
    hide DiffOf, Removals, BucketOf;
    MatchingIsLargest(t.buckets[b], cards, now);
    assert Matching(t.buckets[b], cards, now, DiffOf(t.buckets[b], cards, now));
  }

  /** Cards of a bucket with a given id, before and after a refresh. */
  lemma RefreshedCount(reported: seq<Card>, b: nat, cards: seq<Card>, now: int, id: nat)
    requires Fresh(b, cards) && id != 0
    ensures var d := DiffOf(reported, cards, now);
            CountIf(d.list, OfId(id)) + CountIf(d.rest, OfId(id)) == CountIf(reported, OfId(id))
  {
    hide DiffOf, BucketOf;
    var d := DiffOf(reported, cards, now);
    MatchingIsLargest(reported, cards, now);
    TagsInherited(Identity(0, Class(0, LOCALCARD, None, []), 0, None), id, 0);
    assert Partitions(d, OfId(id)) && Conserves(reported, d, OfId(id));
    assert Matching(reported, cards, now, d);
    CountZero(d.added, OfId(id));
  }

  /** What refreshing a bucket does to the uses of an id. */
  lemma RefreshedId(t: Table, b: nat, cards: seq<Card>, now: int, clients: seq<Client>, id: nat)
    requires b < |t.buckets| && Fresh(b, cards) && id != 0
    ensures TotalIf(RefreshBucket(t, b, cards, now, clients).buckets, OfId(id))
            == TotalIf(t.buckets, OfId(id)) - CountIf(DiffOf(t.buckets[b], cards, now).rest, OfId(id))
  {
    hide DiffOf, Removals, CountIf, TotalIf, Fresh;
    TotalUpdate(t.buckets, b, DiffOf(t.buckets[b], cards, now).list, OfId(id));
    RefreshedCount(t.buckets[b], b, cards, now, id);
  }

  /** And to the clients that hold it. */
  lemma RefreshedTold(t: Table, b: nat, cards: seq<Card>, now: int, clients: seq<Client>, n: nat, id: nat)
    requires b < |t.buckets| && id != 0
    ensures id in Told(RefreshBucket(t, b, cards, now, clients), n)
            <==> id in Told(t, n) && !Taken(clients, DiffOf(t.buckets[b], cards, now).rest, n, id)
  {
    hide DiffOf, Removals, Apply, Taken;
    var rest := DiffOf(t.buckets[b], cards, now).rest;
    ApplyConcat({}, t.log, Removals(clients, rest), n);
    RemovalsApplied(Told(t, n), clients, rest, n, id);
  }

  lemma {:induction false} RemovalTellsNothing(ids: set<nat>, clients: seq<Client>, card: Card, n: nat)
    ensures Apply(ids, Removal(clients, card), n) <= ids
  {
    hide Apply, Removal;
    if card.id != 0 {
      RemovalApplied(ids, clients, card, n);
    } else {
      NoRemoval(ids, clients, card, n);
    }
  }

  lemma {:induction false} RemovalsTellNothing(ids: set<nat>, clients: seq<Client>, rest: seq<Card>, n: nat)
    ensures Apply(ids, Removals(clients, rest), n) <= ids
    decreases |rest|
  {
    hide Removal;
    if rest != [] {
      ApplyConcat(ids, Removal(clients, rest[0]), Removals(clients, rest[1..]), n);
      RemovalTellsNothing(ids, clients, rest[0], n);
      RemovalsTellNothing(Apply(ids, Removal(clients, rest[0]), n), clients, rest[1..], n);
    }
  }

  lemma RefreshBucketTells(t: Table, b: nat, cards: seq<Card>, now: int, clients: seq<Client>, n: nat)
    requires b < |t.buckets|
    ensures Told(RefreshBucket(t, b, cards, now, clients), n) <= Told(t, n)
  {
    hide DiffOf, Removals, Apply;
    var rest := DiffOf(t.buckets[b], cards, now).rest;
    ApplyConcat({}, t.log, Removals(clients, rest), n);
    RemovalsTellNothing(Told(t, n), clients, rest, n);
  }

  lemma RefreshBucketInv(t: Table, b: nat, cards: seq<Card>, now: int, clients: seq<Client>)
    requires Inv(t) && b < CAID_KEY && Fresh(b, cards)
    ensures var t1 := RefreshBucket(t, b, cards, now, clients);
            Inv(t1) && t1.next == t.next && NoneComesBack(t, t1)
  {
    hide DiffOf, Removals, Bucketed, Fresh, Told, TotalIf;
    BucketCount(t);
    var t1 := RefreshBucket(t, b, cards, now, clients);
    RefreshedBucketed(t, b, cards, now, clients);
    forall n ensures Told(t1, n) <= Told(t, n) {
      RefreshBucketTells(t, b, cards, now, clients, n);
    }
    forall id: nat | id > 0
      ensures (Reported(t1, id) ==> Reported(t, id)) && (t.next <= TWO_32 ==> IdTrue(t1, id))
    {
      RefreshedId(t, b, cards, now, clients, id);
      assert t.next <= TWO_32 ==> IdTrue(t, id);
    }
  }

  lemma BucketCount(t: Table)
    requires Bucketed(t.buckets)
    ensures |t.buckets| == CAID_KEY
  {
  }

  lemma SentBucketed(t: Table, at: (nat, nat), cl: Client)
    requires Bucketed(t.buckets) && InTable(t, at)
    ensures Bucketed(SendOne(t, at, cl).buckets)
  {
    hide BucketOf, Gets;
  }

  lemma CardReported(t: Table, at: (nat, nat))
    requires InTable(t, at)
    ensures CountIf(t.buckets[at.0], OfId(t.buckets[at.0][at.1].id)) >= 1
    ensures Reported(t, t.buckets[at.0][at.1].id)
  {
    var id := t.buckets[at.0][at.1].id;
    CountZero(t.buckets[at.0], OfId(id));
    TotalUpdate(t.buckets, at.0, t.buckets[at.0], OfId(id));
  }

  lemma SentCount(t: Table, at: (nat, nat), id: nat)
    requires InTable(t, at) && t.buckets[at.0][at.1].id == 0 && id != 0
    ensures var list := t.buckets[at.0][at.1 := t.buckets[at.0][at.1].(id := t.next)];
            TotalIf(t.buckets[at.0 := list], OfId(id)) == TotalIf(t.buckets, OfId(id)) + if id == t.next then 1 else 0
  {
    hide CountIf, TotalIf;
    var card := t.buckets[at.0][at.1];
    CountUpdate(t.buckets[at.0], at.1, card.(id := t.next), OfId(id));
    TotalUpdate(t.buckets, at.0, t.buckets[at.0][at.1 := card.(id := t.next)], OfId(id));
  }

  /** The id that one message carries. */
  function IdAt(t: Table, at: (nat, nat)): nat
    requires InTable(t, at)
  {
    if t.buckets[at.0][at.1].id != 0 then t.buckets[at.0][at.1].id else t.next % TWO_32
  }

  lemma SentTold(t: Table, at: (nat, nat), cl: Client, n: nat)
    requires InTable(t, at)
    ensures Told(SendOne(t, at, cl), n)
            == Told(t, n) + if Gets(cl, t.buckets[at.0][at.1]) && cl.num == n then {IdAt(t, at)} else {}
  {
    hide Gets;
    if Gets(cl, t.buckets[at.0][at.1]) {
      ApplyConcat({}, t.log, [NewCard(cl.num, IdAt(t, at))], n);
    }
  }

  /** Before the counter wraps around, sending gives `next` to a card without id and nothing else. */
  lemma SentId(t: Table, at: (nat, nat), cl: Client, id: nat)
    requires InTable(t, at) && id != 0 && SendOne(t, at, cl).next <= TWO_32
    ensures var t1 := SendOne(t, at, cl);
            && t.next <= t1.next <= t.next + 1
            && TotalIf(t1.buckets, OfId(id)) == TotalIf(t.buckets, OfId(id)) + if id == t.next < t1.next then 1 else 0
  {
    hide Gets, TotalIf, CountIf;
    if t.buckets[at.0][at.1].id == 0 {
      SentCount(t, at, id);
    }
  }

  lemma SendOneInv(t: Table, at: (nat, nat), cl: Client)
    requires Inv(t) && InTable(t, at)
    ensures var t1 := SendOne(t, at, cl);
            Inv(t1) && t.next <= t1.next && (t1.next <= TWO_32 ==> NoneComesBack(t, t1))
  {
    hide Bucketed, CountIf, TotalIf, Gets, Told;
    SentBucketed(t, at, cl);
    var t1 := SendOne(t, at, cl);
    if t1.next <= TWO_32 {
      forall id: nat | id > 0 ensures IdTrue(t1, id) && (id < t.next && Reported(t1, id) ==> Reported(t, id)) {
        SentId(t, at, cl, id);
        assert IdTrue(t, id) && IdTrue(t, t.next);
      }
      SentToldBelow(t, at, cl);
    }
  }

  lemma SentToldBelow(t: Table, at: (nat, nat), cl: Client)
    requires Inv(t) && InTable(t, at) && SendOne(t, at, cl).next <= TWO_32
    ensures ToldBelow(SendOne(t, at, cl))
  {
    hide Bucketed, CountIf, TotalIf, Gets, Told;
    var t1 := SendOne(t, at, cl);
    CardReported(t, at);
    var card := t.buckets[at.0][at.1];
    assert card.id != 0 ==> IdTrue(t, card.id);
    forall n, id | id in Told(t1, n) ensures FIRST_ID <= id < t1.next {
      SentTold(t, at, cl, n);
    }
  }

  lemma {:induction false} SendInv(t: Table, at: (nat, nat), clients: seq<Client>)
    requires Inv(t) && InTable(t, at)
    ensures var t1 := Send(t, at, clients);
            Inv(t1) && t.next <= t1.next && (t1.next <= TWO_32 ==> NoneComesBack(t, t1))
    decreases |clients|
  {
    hide Inv, Reported, SendOne;
    if clients != [] {
      SendOneInv(t, at, clients[0]);
      SendInv(SendOne(t, at, clients[0]), at, clients[1..]);
    }
  }

  // ---------- Building the buckets ----------

  /** The calls of add_card_to_serverlist, each on the bucket of its card. */
  function AddCalls(p: Policy, server: seq<seq<Card>>, calls: seq<(Card, bool)>): (r: seq<seq<Card>>)
    requires |server| == CAID_KEY
    ensures |r| == CAID_KEY
    decreases |calls|
  {
    if calls == [] then server
    else
      var b := BucketOf(calls[0].0.caid);
      AddCalls(p, server[b := Added(p, server[b], calls[0].0, calls[0].1)], calls[1..])
  }

  function NoBuckets(n: nat): (r: seq<seq<Card>>)
    ensures |r| == n && forall i :: 0 <= i < n ==> r[i] == []
  {
    if n == 0 then [] else NoBuckets(n - 1) + [[]]
  }

  function ServerBuckets(p: Policy, calls: seq<(Card, bool)>): (r: seq<seq<Card>>)
    ensures |r| == CAID_KEY
  {
    AddCalls(p, NoBuckets(CAID_KEY), calls)
  }

  function Select(calls: seq<(Card, bool)>, b: nat): seq<(Card, bool)> {
    if calls == [] then [] else (if BucketOf(calls[0].0.caid) == b then [calls[0]] else []) + Select(calls[1..], b)
  }

  /** A bucket is the share list of the calls for its CAIDs. */
  lemma {:induction false} BucketsAreShareLists(p: Policy, server: seq<seq<Card>>, calls: seq<(Card, bool)>, b: nat)
    requires |server| == CAID_KEY && b < CAID_KEY
    ensures AddCalls(p, server, calls)[b] == AddAll(p, server[b], Select(calls, b))
    decreases |calls|
  {
    hide Added, BucketOf;
    if calls != [] {
      var c := BucketOf(calls[0].0.caid);
      BucketsAreShareLists(p, server[c := Added(p, server[c], calls[0].0, calls[0].1)], calls[1..], b);
      if c == b {
        assert Select(calls, b)[0] == calls[0] && Select(calls, b)[1..] == Select(calls[1..], b);
      } else {
        assert Select(calls, b) == Select(calls[1..], b);
      }
    }
  }

  /** Cards handed over for good were made by create_card and have no id yet. */
  ghost predicate Unnumbered(calls: seq<(Card, bool)>) {
    forall i :: 0 <= i < |calls| ==> (calls[i].1 ==> calls[i].0.id == 0)
  }

  lemma AddOneFresh(p: Policy, b: nat, list: seq<Card>, c: Card, free: bool)
    requires Fresh(b, list) && BucketOf(c.caid) == b && (free ==> c.id == 0)
    ensures Fresh(b, AddOne(p, list, c, free))
  {
    hide BucketOf, AddProviders, AddNodes, AddSids, FindMatch, Matches;
  }

  lemma AddedFresh(p: Policy, b: nat, list: seq<Card>, c: Card, free: bool)
    requires Fresh(b, list) && BucketOf(c.caid) == b && (free ==> c.id == 0)
    ensures Fresh(b, Added(p, list, c, free))
  {
    hide BucketOf, AddOne, AddProviders, AddNodes, AddSids, IsAuCard, Fresh;
    if Splits(c) {
      var c1 := c.(aufilter := 1);
      AddOneFresh(p, b, list, NonAuCopy(c1), true);
      AddOneFresh(p, b, AddOne(p, list, NonAuCopy(c1), true), c1, free);
    } else {
      AddOneFresh(p, b, list, c, free);
    }
  }

  lemma {:induction false} ServerFresh(p: Policy, server: seq<seq<Card>>, calls: seq<(Card, bool)>)
    requires |server| == CAID_KEY && Unnumbered(calls)
    requires forall b :: 0 <= b < CAID_KEY ==> Fresh(b, server[b])
    ensures forall b :: 0 <= b < CAID_KEY ==> Fresh(b, AddCalls(p, server, calls)[b])
    decreases |calls|
  {
    hide Added, BucketOf, Fresh;
    if calls != [] {
      var b := BucketOf(calls[0].0.caid);
      AddedFresh(p, b, server[b], calls[0].0, calls[0].1);
      ServerFresh(p, server[b := Added(p, server[b], calls[0].0, calls[0].1)], calls[1..]);
    }
  }

  // ---------- Runs ----------

  datatype Step = Update(calls: seq<(Card, bool)>, now: int, clients: seq<Client>) | Report(client: Client)

  function Next(p: Policy, t: Table, step: Step): (r: Table)
    requires |t.buckets| == CAID_KEY
    ensures |r.buckets| == CAID_KEY
  {
    match step
    case Update(calls, now, clients) => Refresh(t, ServerBuckets(p, calls), now, clients)
    case Report(client) => ReportTo(t, client)
  }

  ghost predicate Proper(step: Step) {
    step.Update? ==> Unnumbered(step.calls)
  }

  lemma {:induction false} RefreshFromInv(t: Table, b: nat, server: seq<seq<Card>>, now: int, clients: seq<Client>)
    requires Inv(t) && b <= |server| == CAID_KEY == |t.buckets|
    requires forall i :: 0 <= i < CAID_KEY ==> Fresh(i, server[i])
    ensures var r := RefreshFrom(t, b, server, now, clients);
            Inv(r) && r.next == t.next && NoneComesBack(t, r)
    decreases |server| - b
  {
    hide RefreshBucket, Inv, Fresh, Told, Reported;
    if b < |server| {
      RefreshBucketInv(t, b, server[b], now, clients);
      RefreshBucketShape(t, b, server[b], now, clients);
      RefreshFromInv(RefreshBucket(t, b, server[b], now, clients), b + 1, server, now, clients);
    }
  }

  lemma RefreshBucketShape(t: Table, b: nat, cards: seq<Card>, now: int, clients: seq<Client>)
    requires b < |t.buckets|
    ensures var t1 := RefreshBucket(t, b, cards, now, clients);
            |t1.buckets| == |t.buckets| && t1.next == t.next
            && forall c :: 0 <= c < |t.buckets| && c != b ==> t1.buckets[c] == t.buckets[c]
  {
  }

  lemma {:induction false} SendAllInv(t: Table, todo: seq<(nat, nat)>, clients: seq<Client>)
    requires Inv(t) && forall at :: at in todo ==> InTable(t, at)
    ensures var r := SendAll(t, todo, clients);
            Inv(r) && t.next <= r.next && (r.next <= TWO_32 ==> NoneComesBack(t, r))
    decreases |todo|
  {
    hide Inv, Reported, InTable, Send;
    if todo != [] {
      SendInv(t, todo[0], clients);
      SendAllInv(Send(t, todo[0], clients), todo[1..], clients);
    }
  }

  lemma NextInv(p: Policy, t: Table, step: Step)
    requires Inv(t) && Proper(step) && |t.buckets| == CAID_KEY
    ensures var r := Next(p, t, step);
            Inv(r) && t.next <= r.next && (r.next <= TWO_32 ==> NoneComesBack(t, r))
  {
    hide IdsTrue, Reported, SendAll, RefreshFrom, AddedFrom, AllFrom, ServerBuckets, Bucketed;
    match step {
      case Update(calls, now, clients) =>
        var server := ServerBuckets(p, calls);
        EmptyFresh(p, calls);
        RefreshFromInv(t, 0, server, now, clients);
        AddedInTable(t, 0, server, now, clients, t.buckets);
        SendAllInv(RefreshFrom(t, 0, server, now, clients), AddedFrom(t.buckets, 0, server, now), clients);
      case Report(client) =>
        AllInTable(t, 0);
        SendAllInv(t, AllFrom(t.buckets, 0), [client]);
    }
  }

  lemma EmptyFresh(p: Policy, calls: seq<(Card, bool)>)
    requires Unnumbered(calls)
    ensures forall b :: 0 <= b < CAID_KEY ==> Fresh(b, ServerBuckets(p, calls)[b])
  {
    hide AddCalls;
    ServerFresh(p, NoBuckets(CAID_KEY), calls);
  }

  function Run(p: Policy, t: Table, steps: seq<Step>): (r: Table)
    requires |t.buckets| == CAID_KEY
    ensures |r.buckets| == CAID_KEY
    decreases |steps|
  {
    if steps == [] then t else Run(p, Next(p, t, steps[0]), steps[1..])
  }

  /** Over every run of refreshes and reports: every card is in the bucket of its CAID, and until the
      counter wraps around, the ids of the reported cards are distinct and below the counter, so are
      those told to clients, and an id out of use never comes back. */
  lemma {:induction false} RunKeepsIds(p: Policy, t: Table, steps: seq<Step>)
    requires Inv(t) && |t.buckets| == CAID_KEY
    requires forall i :: 0 <= i < |steps| ==> Proper(steps[i])
    ensures var r := Run(p, t, steps);
            Inv(r) && t.next <= r.next && (r.next <= TWO_32 ==> NoneComesBack(t, r))
    decreases |steps|
  {
    hide Inv, Reported, Next, Proper;
    if steps != [] {
      NextInv(p, t, steps[0]);
      RunKeepsIds(p, Next(p, t, steps[0]), steps[1..]);
    }
  }

  lemma {:induction false} NothingCounted(n: nat, f: Card -> bool)
    ensures TotalIf(NoBuckets(n), f) == 0
  {
    if n > 0 {
      assert NoBuckets(n)[1..] == NoBuckets(n - 1);
      NothingCounted(n - 1, f);
    }
  }

  lemma StartInv()
    ensures Inv(Table(NoBuckets(CAID_KEY), FIRST_ID, []))
  {
    var t := Table(NoBuckets(CAID_KEY), FIRST_ID, []);
    forall id: nat | id > 0 ensures IdTrue(t, id) {
      NothingCounted(CAID_KEY, OfId(id));
    }
  }
}
