/** No client is told of a card that it may not have (card_valid_for_client, send_card_to_clients,
    update_card_list and cc_srv_report_cards, oscam/module-cccshare.c, lines 320-485 and 1162-1240),
    in the fields of the client and of the card. */
module ShareAllowed {
  import opened Cards
  import opened ShareList
  import opened ShareMatching
  import opened ShareRefresh

  /** The card is near enough, did not pass the client's own node, may be passed on, is of the client's
      groups and kind of updates, and passes its filters. */
  ghost predicate MayHave(cl: Client, c: Card) {
    && c.hop <= cl.maxhops
    && (forall i :: 0 <= i < |c.nodes| ==> c.nodes[i] != cl.peerNode)
    && (c.cardType == REMOTECARD && !cl.ignoreReshare ==> c.reshare > 0)
    && OfGroup(c.grp, cl.grp)
    && (c.aufilter == 1 ==> cl.hasAu) && (cl.hasAu ==> c.aufilter == 0 || c.aufilter == 1)
    && cl.admits(c.caid, c.providers, c.sidtab)
  }

  /** A card of no group is for all. */
  ghost predicate OfGroup(cardGrp: bv64, clientGrp: bv64) {
    cardGrp & clientGrp == 0 ==> cardGrp == 0
  }

  /** card_valid_for_client decides exactly that. */
  lemma ValidIsMayHave(cl: Client, c: Card)
    ensures ValidFor(cl, c) <==> MayHave(cl, c)
  {
  }

  lemma IdDoesNotMatter(cl: Client, c: Card, id: nat)
    ensures MayHave(cl, c.(id := id)) <==> MayHave(cl, c)
  {
    hide OfGroup;
  }

  ghost predicate Behind(t: Table, e: Event, clients: seq<Client>, k: nat, at: (nat, nat)) {
    && k < |clients| && InTable(t, at)
    && clients[k].num == e.client && t.buckets[at.0][at.1].id == e.id != 0
    && MayHave(clients[k], t.buckets[at.0][at.1])
  }

  /** If the message announces a card, one of the clients has its number, a card of the table has its id,
      and that client may have that card. */
  ghost predicate Justified(t: Table, e: Event, clients: seq<Client>) {
    e.NewCard? ==> exists k: nat, at: (nat, nat) :: Behind(t, e, clients, k, at)
  }

  /** All messages but the first `n`. */
  ghost predicate AllJustified(t: Table, n: nat, clients: seq<Client>) {
    n <= |t.log| && forall k :: n <= k < |t.log| ==> Justified(t, t.log[k], clients)
  }

  lemma SendOneKeeps(t: Table, at: (nat, nat), cl: Client, e: Event, clients: seq<Client>)
    requires InTable(t, at) && Justified(t, e, clients)
    ensures Justified(SendOne(t, at, cl), e, clients)
  {
    hide MayHave, Gets;
    if e.NewCard? {
      var k: nat, pos: (nat, nat) :| Behind(t, e, clients, k, pos);
      assert Behind(SendOne(t, at, cl), e, clients, k, pos);
    }
  }

  lemma SendOneTells(t: Table, at: (nat, nat), clients: seq<Client>, j: nat)
    requires InTable(t, at) && j < |clients| && 0 < t.next && SendOne(t, at, clients[j]).next <= TWO_32
    ensures var r := SendOne(t, at, clients[j]);
            r.log == t.log || (|r.log| == |t.log| + 1 && r.log[..|t.log|] == t.log && Justified(r, r.log[|t.log|], clients))
  {
    var card, r := t.buckets[at.0][at.1], SendOne(t, at, clients[j]);
    if Gets(clients[j], card) {
      ValidIsMayHave(clients[j], card);
      IdDoesNotMatter(clients[j], card, r.buckets[at.0][at.1].id);
      hide ValidFor, MayHave;
      assert Behind(r, r.log[|t.log|], clients, j, at);
    }
  }

  lemma SendOneJustified(t: Table, at: (nat, nat), clients: seq<Client>, j: nat, n: nat)
    requires InTable(t, at) && j < |clients| && 0 < t.next && SendOne(t, at, clients[j]).next <= TWO_32
    requires AllJustified(t, n, clients)
    ensures AllJustified(SendOne(t, at, clients[j]), n, clients)
  {
    hide SendOne, Justified, InTable;
    var r := SendOne(t, at, clients[j]);
    SendOneTells(t, at, clients, j);
    forall k | n <= k < |r.log| ensures Justified(r, r.log[k], clients) {
      if k < |t.log| {
        assert r.log[k] == t.log[k];
        SendOneKeeps(t, at, clients[j], t.log[k], clients);
      }
    }
  }

  lemma SendOneNext(t: Table, at: (nat, nat), cl: Client)
    requires InTable(t, at)
    ensures t.next <= SendOne(t, at, cl).next
  {
    hide Gets;
  }

  lemma {:induction false} SendNext(t: Table, at: (nat, nat), clients: seq<Client>)
    requires InTable(t, at)
    ensures t.next <= Send(t, at, clients).next
    decreases |clients|
  {
    hide SendOne, InTable;
    if clients != [] {
      SendOneNext(t, at, clients[0]);
      SendNext(SendOne(t, at, clients[0]), at, clients[1..]);
    }
  }

  lemma {:induction false} SendJustified(t: Table, at: (nat, nat), clients: seq<Client>, j: nat, n: nat)
    requires InTable(t, at) && j <= |clients| && 0 < t.next && Send(t, at, clients[j..]).next <= TWO_32
    requires AllJustified(t, n, clients)
    ensures AllJustified(Send(t, at, clients[j..]), n, clients)
    decreases |clients| - j
  {
    hide SendOne, AllJustified, InTable;
    if j < |clients| {
      var t1 := SendOne(t, at, clients[j]);
      assert clients[j..][1..] == clients[j + 1..];
      SendOneNext(t, at, clients[j]);
      SendNext(t1, at, clients[j + 1..]);
      SendOneJustified(t, at, clients, j, n);
      SendJustified(t1, at, clients, j + 1, n);
    }
  }

  lemma {:induction false} SendAllNext(t: Table, todo: seq<(nat, nat)>, clients: seq<Client>)
    requires forall at :: at in todo ==> InTable(t, at)
    ensures t.next <= SendAll(t, todo, clients).next
    decreases |todo|
  {
    hide Send, InTable;
    if todo != [] {
      SendNext(t, todo[0], clients);
      SendAllNext(Send(t, todo[0], clients), todo[1..], clients);
    }
  }

  lemma {:induction false} SendAllJustified(t: Table, todo: seq<(nat, nat)>, clients: seq<Client>, n: nat)
    requires (forall at :: at in todo ==> InTable(t, at)) && 0 < t.next && SendAll(t, todo, clients).next <= TWO_32
    requires AllJustified(t, n, clients)
    ensures AllJustified(SendAll(t, todo, clients), n, clients)
    decreases |todo|
  {
    hide Send, AllJustified, InTable;
    if todo != [] {
      var t1 := Send(t, todo[0], clients);
      assert clients[0..] == clients;
      SendNext(t, todo[0], clients);
      SendAllNext(t1, todo[1..], clients);
      SendJustified(t, todo[0], clients, 0, n);
      SendAllJustified(t1, todo[1..], clients, n);
    }
  }

  // ---------- Removals announce nothing ----------

  ghost predicate Announces(events: seq<Event>) {
    exists k :: 0 <= k < |events| && events[k].NewCard?
  }

  lemma {:induction false} RemovalSilent(clients: seq<Client>, card: Card)
    ensures !Announces(Removal(clients, card))
  {
    hide ValidFor;
    if clients != [] {
      RemovalSilent(clients[1..], card);
    }
  }

  lemma {:induction false} RemovalsSilent(clients: seq<Client>, rest: seq<Card>)
    ensures !Announces(Removals(clients, rest))
    decreases |rest|
  {
    hide Removal;
    if rest != [] {
      RemovalSilent(clients, rest[0]);
      RemovalsSilent(clients, rest[1..]);
    }
  }

  lemma {:induction false} RefreshSilent(t: Table, b: nat, server: seq<seq<Card>>, now: int, clients: seq<Client>, n: nat)
    requires |t.buckets| == |server| && b <= |server| && n <= |t.log| && !Announces(t.log[n..])
    ensures var r := RefreshFrom(t, b, server, now, clients);
            r.next == t.next && n <= |r.log| && !Announces(r.log[n..])
    decreases |server| - b
  {
    hide DiffOf, Removals;
    if b < |server| {
      var t1 := RefreshBucket(t, b, server[b], now, clients);
      var more := Removals(clients, DiffOf(t.buckets[b], server[b], now).rest);
      RemovalsSilent(clients, DiffOf(t.buckets[b], server[b], now).rest);
      assert t1.log[n..] == t.log[n..] + more;
      RefreshSilent(t1, b + 1, server, now, clients, n);
    }
  }

  lemma SilentJustified(t: Table, n: nat, clients: seq<Client>)
    requires n <= |t.log| && !Announces(t.log[n..])
    ensures AllJustified(t, n, clients)
  {
    forall k | n <= k < |t.log| ensures !t.log[k].NewCard? {
      assert t.log[n..][k - n] == t.log[k];
    }
  }

  // ---------- Runs ----------

  function ClientsOf(step: Step): seq<Client> {
    if step.Update? then step.clients else [step.client]
  }

  /** Every announcement of one refresh or report goes to a client that may have the card. */
  lemma NextJustified(p: Policy, t: Table, step: Step)
    requires |t.buckets| == CAID_KEY && 0 < t.next && Next(p, t, step).next <= TWO_32
    ensures AllJustified(Next(p, t, step), |t.log|, ClientsOf(step))
  {
    hide SendAll, RefreshFrom, AddedFrom, AllFrom, ServerBuckets, AllJustified, InTable;
    assert t.log[|t.log|..] == [] && !Announces([]);
    match step {
      case Update(calls, now, clients) =>
        var server := ServerBuckets(p, calls);
        RefreshSilent(t, 0, server, now, clients, |t.log|);
        SilentJustified(RefreshFrom(t, 0, server, now, clients), |t.log|, clients);
        AddedInTable(t, 0, server, now, clients, t.buckets);
        SendAllJustified(RefreshFrom(t, 0, server, now, clients), AddedFrom(t.buckets, 0, server, now), clients, |t.log|);
      case Report(client) =>
        SilentJustified(t, |t.log|, [client]);
        AllInTable(t, 0);
        SendAllJustified(t, AllFrom(t.buckets, 0), [client], |t.log|);
    }
  }

  ghost predicate RunJustified(p: Policy, t: Table, steps: seq<Step>)
    requires |t.buckets| == CAID_KEY
    decreases |steps|
  {
    steps == []
    || (AllJustified(Next(p, t, steps[0]), |t.log|, ClientsOf(steps[0])) && RunJustified(p, Next(p, t, steps[0]), steps[1..]))
  }

  /** Over every run, until the counter wraps around: whenever a client is told of a card, it may have it,
      as its settings and the card are at that moment. */
  lemma {:induction false} OnlyAllowedCardsAreTold(p: Policy, t: Table, steps: seq<Step>)
    requires Inv(t) && |t.buckets| == CAID_KEY && Run(p, t, steps).next <= TWO_32
    requires forall i :: 0 <= i < |steps| ==> Proper(steps[i])
    ensures RunJustified(p, t, steps)
    decreases |steps|
  {
    hide Bucketed, IdsTrue, Next, Proper, AllJustified;
    if steps != [] {
      NextInv(p, t, steps[0]);
      RunKeepsIds(p, Next(p, t, steps[0]), steps[1..]);
      NextJustified(p, t, steps[0]);
      OnlyAllowedCardsAreTold(p, Next(p, t, steps[0]), steps[1..]);
    }
  }
}
