/** What a client has been told of the share list (oscam/module-cccshare.c, lines 242-316, 360-485 and
    1162-1240).

    A refresh that finds a card again says nothing, although the card may have come nearer or moved
    away; whether a client may have it is decided anew by each message.  So a client can lose the right
    to a card without hearing of it, and then does not hear either that the card is gone. */
module ShareTold {
  import opened Cards
  import opened ShareList
  import opened ShareMatching
  import opened ShareRefresh

  // ---------- Exactly when no client keeps an id that is gone ----------

  /** Client `n` holds only ids of reported cards. */
  ghost predicate Right(t: Table, n: nat) {
    forall id :: id in Told(t, n) ==> Reported(t, id)
  }

  /** Every card that is left over and that client `n` was told of is valid for it. */
  ghost predicate RestHeard(rest: seq<Card>, held: set<nat>, clients: seq<Client>, n: nat) {
    forall k :: 0 <= k < |rest| && rest[k].id in held ==> Withdraws(clients, n, rest[k])
  }

  /** The same for the left-over cards of all buckets from `b` on. */
  ghost predicate DropsHeard(t: Table, b: nat, server: seq<seq<Card>>, now: int, clients: seq<Client>, n: nat)
    requires |t.buckets| == |server|
  {
    forall c :: b <= c < |server| ==> RestHeard(DiffOf(t.buckets[c], server[c], now).rest, Told(t, n), clients, n)
  }

  lemma {:induction false} CountTwo(cards: seq<Card>, i: nat, j: nat, f: Card -> bool)
    requires i < j < |cards| && f(cards[i]) && f(cards[j])
    ensures CountIf(cards, f) >= 2
  {
    CountSplit(cards, j, f);
    CountZero(cards[..j], f);
    assert cards[..j][i] == cards[i];
  }

  lemma TotalTwo(buckets: seq<seq<Card>>, b: nat, c: nat, f: Card -> bool)
    requires b < |buckets| && c < |buckets| && b != c
    ensures CountIf(buckets[b], f) + CountIf(buckets[c], f) <= TotalIf(buckets, f)
  {
    hide TotalIf;
    TotalUpdate(buckets, b, [], f);
    TotalUpdate(buckets[b := []], c, [], f);
  }

  /** One id, one refreshed bucket: it is still told if and only if it was and no withdrawn card has it. */
  lemma BucketIdRight(t: Table, b: nat, cards: seq<Card>, now: int, clients: seq<Client>, n: nat, id: nat)
    requires b < |t.buckets| && Fresh(b, cards) && id != 0 && IdTrue(t, id) && id in Told(t, n)
    ensures var t1, rest := RefreshBucket(t, b, cards, now, clients), DiffOf(t.buckets[b], cards, now).rest;
            (id in Told(t1, n) ==> Reported(t1, id))
            <==> Reported(t, id) && forall k :: 0 <= k < |rest| && rest[k].id == id ==> Withdraws(clients, n, rest[k])
  {
    hide DiffOf, Told, RefreshBucket, Fresh, Withdraws, TotalIf, CountIf;
    var t1, rest := RefreshBucket(t, b, cards, now, clients), DiffOf(t.buckets[b], cards, now).rest;
    RefreshedId(t, b, cards, now, clients, id);
    RefreshedTold(t, b, cards, now, clients, n, id);
    CountZero(rest, OfId(id));
    if Taken(clients, rest, n, id) {
      var k :| 0 <= k < |rest| && rest[k].id == id && Withdraws(clients, n, rest[k]);
      forall j | 0 <= j < |rest| && rest[j].id == id ensures j == k {
        if j < k { CountTwo(rest, j, k, OfId(id)); }
        if k < j { CountTwo(rest, k, j, OfId(id)); }
      }
    }
  }

  lemma BucketRight(t: Table, b: nat, cards: seq<Card>, now: int, clients: seq<Client>, n: nat)
    requires b < |t.buckets| && Fresh(b, cards) && IdsTrue(t)
    ensures Right(RefreshBucket(t, b, cards, now, clients), n)
            <==> Right(t, n) && RestHeard(DiffOf(t.buckets[b], cards, now).rest, Told(t, n), clients, n)
  {
    hide DiffOf, Told, RefreshBucket, Fresh, Withdraws, Reported;
    var t1 := RefreshBucket(t, b, cards, now, clients);
    RefreshBucketTells(t, b, cards, now, clients, n);
    forall id | id in Told(t, n) ensures id != 0 && IdTrue(t, id) {}
    forall id | id in Told(t, n)
      ensures var rest := DiffOf(t.buckets[b], cards, now).rest;
              (id in Told(t1, n) ==> Reported(t1, id))
              <==> Reported(t, id)
                   && forall k :: 0 <= k < |rest| && rest[k].id == id ==> Withdraws(clients, n, rest[k])
    {
      BucketIdRight(t, b, cards, now, clients, n, id);
    }
  }

  /** An id in another bucket is told as before. */
  lemma ToldElsewhere(t: Table, b: nat, cards: seq<Card>, now: int, clients: seq<Client>, n: nat, id: nat)
    requires b < |t.buckets| && Fresh(b, cards) && id != 0 && IdTrue(t, id)
    requires Reported(RefreshBucket(t, b, cards, now, clients), id)
    ensures id in Told(RefreshBucket(t, b, cards, now, clients), n) <==> id in Told(t, n)
  {
    hide DiffOf, Told, RefreshBucket, Fresh, Withdraws, TotalIf, CountIf;
    RefreshedId(t, b, cards, now, clients, id);
    RefreshedTold(t, b, cards, now, clients, n, id);
    CountZero(DiffOf(t.buckets[b], cards, now).rest, OfId(id));
  }

  /** A left-over card was reported. */
  lemma RestReported(t: Table, c: nat, cards: seq<Card>, now: int, k: nat)
    requires c < |t.buckets| && Fresh(c, cards) && k < |DiffOf(t.buckets[c], cards, now).rest|
    requires DiffOf(t.buckets[c], cards, now).rest[k].id != 0
    ensures Reported(t, DiffOf(t.buckets[c], cards, now).rest[k].id)
  {
    hide DiffOf, Fresh, TotalIf, CountIf;
    var rest := DiffOf(t.buckets[c], cards, now).rest;
    RefreshedCount(t.buckets[c], c, cards, now, rest[k].id);
    CountZero(rest, OfId(rest[k].id));
    TotalUpdate(t.buckets, c, [], OfId(rest[k].id));
  }

  /** Refreshing one bucket leaves what has to be heard of the other buckets. */
  lemma RestElsewhere(t: Table, b: nat, cards: seq<Card>, now: int, clients: seq<Client>, n: nat, c: nat,
      others: seq<Card>)
    requires b < |t.buckets| && Fresh(b, cards) && IdsTrue(t) && c < |t.buckets| && c != b && Fresh(c, others)
    ensures var rest := DiffOf(t.buckets[c], others, now).rest;
            RestHeard(rest, Told(RefreshBucket(t, b, cards, now, clients), n), clients, n)
            <==> RestHeard(rest, Told(t, n), clients, n)
  {
    hide DiffOf, Told, RefreshBucket, Fresh, Withdraws, Reported, RestHeard;
    var t1, rest := RefreshBucket(t, b, cards, now, clients), DiffOf(t.buckets[c], others, now).rest;
    RefreshBucketShape(t, b, cards, now, clients);
    RefreshBucketTells(t, b, cards, now, clients, n);
    forall k: nat | k < |rest| ensures rest[k].id in Told(t1, n) <==> rest[k].id in Told(t, n) {
      if rest[k].id in Told(t, n) {
        RestReported(t1, c, others, now, k);
        ToldElsewhere(t, b, cards, now, clients, n, rest[k].id);
      }
    }
    SameHeard(rest, Told(t, n), Told(t1, n), clients, n);
  }

  lemma SameHeard(rest: seq<Card>, a: set<nat>, b: set<nat>, clients: seq<Client>, n: nat)
    requires forall k :: 0 <= k < |rest| ==> (rest[k].id in a <==> rest[k].id in b)
    ensures RestHeard(rest, a, clients, n) <==> RestHeard(rest, b, clients, n)
  {
    hide Withdraws;
  }

  lemma {:induction false} FromRight(t: Table, b: nat, server: seq<seq<Card>>, now: int, clients: seq<Client>, n: nat)
    requires Inv(t) && t.next <= TWO_32 && b <= |server| == CAID_KEY == |t.buckets|
    requires forall i :: 0 <= i < CAID_KEY ==> Fresh(i, server[i])
    ensures Right(RefreshFrom(t, b, server, now, clients), n)
            <==> Right(t, n) && DropsHeard(t, b, server, now, clients, n)
    decreases |server| - b
  {
    hide DiffOf, Told, RefreshBucket, Fresh, Bucketed, RestHeard, Right, IdsTrue;
    if b < |server| {
      var t1 := RefreshBucket(t, b, server[b], now, clients);
      RefreshBucketInv(t, b, server[b], now, clients);
      RefreshBucketShape(t, b, server[b], now, clients);
      BucketRight(t, b, server[b], now, clients, n);
      FromRight(t1, b + 1, server, now, clients, n);
      forall c | b < c < |server|
        ensures RestHeard(DiffOf(t1.buckets[c], server[c], now).rest, Told(t1, n), clients, n)
                <==> RestHeard(DiffOf(t.buckets[c], server[c], now).rest, Told(t, n), clients, n)
      {
        RestElsewhere(t, b, server[b], now, clients, n, c, server[c]);
      }
    }
  }

  /** Announcing cards neither makes nor cures a wrong id. */
  lemma SendOneRight(t: Table, at: (nat, nat), cl: Client, n: nat)
    requires Inv(t) && InTable(t, at) && SendOne(t, at, cl).next <= TWO_32
    ensures Right(SendOne(t, at, cl), n) <==> Right(t, n)
  {
    hide Bucketed, TotalIf, CountIf, Gets, Told;
    var t1 := SendOne(t, at, cl);
    SentTold(t, at, cl, n);
    CardReported(t, at);
    forall id | id in Told(t1, n)
      ensures id in Told(t, n) ==> (Reported(t1, id) <==> Reported(t, id))
      ensures id !in Told(t, n) ==> Reported(t1, id)
    {
      SendOneInv(t, at, cl);
      SentId(t, at, cl, id);
    }
  }

  lemma {:induction false} SendRight(t: Table, at: (nat, nat), clients: seq<Client>, n: nat)
    requires Inv(t) && InTable(t, at) && Send(t, at, clients).next <= TWO_32
    ensures Right(Send(t, at, clients), n) <==> Right(t, n)
    decreases |clients|
  {
    hide Inv, SendOne, Right, InTable;
    if clients != [] {
      var t1 := SendOne(t, at, clients[0]);
      SendOneInv(t, at, clients[0]);
      SendInv(t1, at, clients[1..]);
      SendOneRight(t, at, clients[0], n);
      SendRight(t1, at, clients[1..], n);
    }
  }

  lemma {:induction false} SendAllRight(t: Table, todo: seq<(nat, nat)>, clients: seq<Client>, n: nat)
    requires Inv(t) && (forall at :: at in todo ==> InTable(t, at)) && SendAll(t, todo, clients).next <= TWO_32
    ensures Right(SendAll(t, todo, clients), n) <==> Right(t, n)
    decreases |todo|
  {
    hide Inv, Send, Right, InTable;
    if todo != [] {
      var t1 := Send(t, todo[0], clients);
      SendInv(t, todo[0], clients);
      SendAllInv(t1, todo[1..], clients);
      SendRight(t, todo[0], clients, n);
      SendAllRight(t1, todo[1..], clients, n);
    }
  }

  /** What one step has to withdraw from client `n` is withdrawn. */
  ghost predicate StepHeard(p: Policy, t: Table, step: Step, n: nat)
    requires |t.buckets| == CAID_KEY
  {
    step.Update? ==> DropsHeard(t, 0, ServerBuckets(p, step.calls), step.now, step.clients, n)
  }

  lemma NextRight(p: Policy, t: Table, step: Step, n: nat)
    requires Inv(t) && Proper(step) && |t.buckets| == CAID_KEY && Next(p, t, step).next <= TWO_32
    ensures Right(Next(p, t, step), n) <==> Right(t, n) && StepHeard(p, t, step, n)
  {
    hide IdsTrue, SendAll, RefreshFrom, AddedFrom, AllFrom, ServerBuckets, Bucketed, Right, DropsHeard, InTable;
    match step {
      case Update(calls, now, clients) =>
        var server := ServerBuckets(p, calls);
        var t1, todo := RefreshFrom(t, 0, server, now, clients), AddedFrom(t.buckets, 0, server, now);
        EmptyFresh(p, calls);
        RefreshFromInv(t, 0, server, now, clients);
        AddedInTable(t, 0, server, now, clients, t.buckets);
        SendAllInv(t1, todo, clients);
        FromRight(t, 0, server, now, clients, n);
        SendAllRight(t1, todo, clients, n);
      case Report(client) =>
        AllInTable(t, 0);
        SendAllRight(t, AllFrom(t.buckets, 0), [client], n);
    }
  }

  ghost predicate RunHeard(p: Policy, t: Table, steps: seq<Step>, n: nat)
    requires |t.buckets| == CAID_KEY
    decreases |steps|
  {
    steps == [] || (StepHeard(p, t, steps[0], n) && RunHeard(p, Next(p, t, steps[0]), steps[1..], n))
  }

  /** Over every run, whatever the clients' settings do: client `n` holds only ids of reported cards if
      and only if every card that was dropped while it held the id was valid for it at that moment. */
  lemma {:induction false} RunRight(p: Policy, t: Table, steps: seq<Step>, n: nat)
    requires Inv(t) && |t.buckets| == CAID_KEY && Run(p, t, steps).next <= TWO_32
    requires forall i :: 0 <= i < |steps| ==> Proper(steps[i])
    ensures Right(Run(p, t, steps), n) <==> Right(t, n) && RunHeard(p, t, steps, n)
    decreases |steps|
  {
    hide Inv, Right, Next, Proper, StepHeard;
    if steps != [] {
      var t1 := Next(p, t, steps[0]);
      NextInv(p, t, steps[0]);
      RunKeepsIds(p, t1, steps[1..]);
      NextRight(p, t, steps[0], n);
      RunRight(p, t1, steps[1..], n);
    }
  }

  // ---------- A guard under which a client holds exactly the cards it may have ----------

  predicate May(t: Table, cl: Client, at: (nat, nat))
    requires InTable(t, at)
  {
    Gets(cl, t.buckets[at.0][at.1])
  }

  predicate Has(t: Table, cl: Client, at: (nat, nat))
    requires InTable(t, at)
  {
    t.buckets[at.0][at.1].id in Told(t, cl.num)
  }

  /** The client has no id but those of reported cards, and of these exactly the ones it may have; the
      cards in `open` are still to be sent. */
  ghost predicate Held(t: Table, cl: Client, open: set<(nat, nat)>) {
    && Right(t, cl.num)
    && (forall at: (nat, nat) :: InTable(t, at) && Has(t, cl, at) ==> May(t, cl, at))
    && (forall at: (nat, nat) :: InTable(t, at) && May(t, cl, at) && at !in open ==> Has(t, cl, at))
  }

  /** Positions with the same id are the same. */
  lemma OneCardPerId(t: Table, at: (nat, nat), at2: (nat, nat))
    requires InTable(t, at) && InTable(t, at2) && at != at2 && IdTrue(t, t.buckets[at.0][at.1].id)
    ensures t.buckets[at.0][at.1].id != t.buckets[at2.0][at2.1].id
  {
    hide TotalIf, CountIf;
    var id := t.buckets[at.0][at.1].id;
    if t.buckets[at2.0][at2.1].id == id {
      CardReported(t, at);
      CardReported(t, at2);
      if at.0 != at2.0 {
        TotalTwo(t.buckets, at.0, at2.0, OfId(id));
      } else {
        TotalUpdate(t.buckets, at.0, [], OfId(id));
        CountTwo(t.buckets[at.0], if at.1 < at2.1 then at.1 else at2.1, if at.1 < at2.1 then at2.1 else at.1, OfId(id));
      }
    }
  }

  /** A message leaves other cards as they are for every client. */
  lemma SendOneElsewhere(t: Table, at: (nat, nat), x: Client, at2: (nat, nat), cl: Client)
    requires Inv(t) && InTable(t, at) && InTable(t, at2) && at != at2 && SendOne(t, at, x).next <= TWO_32
    ensures var t1 := SendOne(t, at, x);
            && InTable(t1, at2)
            && (May(t1, cl, at2) <==> May(t, cl, at2)) && (Has(t1, cl, at2) <==> Has(t, cl, at2))
  {
    hide Bucketed, TotalIf, CountIf, Gets, Told;
    SentTold(t, at, x, cl.num);
    CardReported(t, at2);
    var id := t.buckets[at.0][at.1].id;
    var id2 := t.buckets[at2.0][at2.1].id;
    assert id != 0 ==> IdTrue(t, id);
    assert id2 != 0 ==> IdTrue(t, id2);
    if id != 0 {
      OneCardPerId(t, at, at2);
    }
  }

  /** And the card itself goes to the client of the message alone. */
  lemma SendOneHere(t: Table, at: (nat, nat), x: Client, cl: Client)
    requires Inv(t) && InTable(t, at) && SendOne(t, at, x).next <= TWO_32 && (x.num == cl.num ==> x == cl)
    ensures var t1 := SendOne(t, at, x);
            && (May(t1, cl, at) <==> May(t, cl, at))
            && (x == cl && May(t, cl, at) ==> Has(t1, cl, at))
            && (Has(t1, cl, at) ==> Has(t, cl, at) || (x == cl && May(t, cl, at)))
            && (Has(t, cl, at) ==> Has(t1, cl, at))
  {
    hide Bucketed, TotalIf, CountIf, Gets, Told;
    SentTold(t, at, x, cl.num);
    var c := t.buckets[at.0][at.1];
    GetsIgnoresId(cl, c, t.next % TWO_32, c.timeout);
    assert c.(id := t.next % TWO_32, timeout := c.timeout) == c.(id := t.next % TWO_32);
    assert 0 !in Told(t, cl.num);
  }

  lemma SendOneHeld(t: Table, at: (nat, nat), x: Client, cl: Client, open: set<(nat, nat)>)
    requires Inv(t) && InTable(t, at) && SendOne(t, at, x).next <= TWO_32 && (x.num == cl.num ==> x == cl)
    requires Held(t, cl, open)
    ensures Held(SendOne(t, at, x), cl, if x == cl then open - {at} else open)
  {
    var t1 := SendOne(t, at, x);
    SendOneRight(t, at, x, cl.num);
    SendOneHere(t, at, x, cl);
    forall at2: (nat, nat) | InTable(t1, at2)
      ensures InTable(t, at2)
      ensures at2 != at ==> (May(t1, cl, at2) <==> May(t, cl, at2)) && (Has(t1, cl, at2) <==> Has(t, cl, at2))
    {
      SentInTable(t, at, x, at2);
      if at2 != at {
        SendOneElsewhere(t, at, x, at2, cl);
      }
    }
    hide Inv, Right, SendOne, May, Has, InTable;
  }

  lemma SentInTable(t: Table, at: (nat, nat), x: Client, at2: (nat, nat))
    requires InTable(t, at) && InTable(SendOne(t, at, x), at2)
    ensures InTable(t, at2)
  {
    hide Gets;
  }

  /** The client takes part, under one connection. */
  ghost predicate Connected(clients: seq<Client>, cl: Client) {
    (exists i :: 0 <= i < |clients| && clients[i] == cl) && Alone(clients, cl)
  }

  ghost predicate Alone(clients: seq<Client>, cl: Client) {
    forall i :: 0 <= i < |clients| && clients[i].num == cl.num ==> clients[i] == cl
  }

  lemma {:induction false} SendHeld(t: Table, at: (nat, nat), clients: seq<Client>, cl: Client, open: set<(nat, nat)>)
    requires Inv(t) && InTable(t, at) && Send(t, at, clients).next <= TWO_32 && Alone(clients, cl)
    requires Held(t, cl, open)
    ensures Held(Send(t, at, clients), cl,
                 if exists i :: 0 <= i < |clients| && clients[i] == cl then open - {at} else open)
    decreases |clients|
  {
    hide Inv, SendOne, InTable, Held;
    if clients != [] {
      var t1 := SendOne(t, at, clients[0]);
      SendOneInv(t, at, clients[0]);
      SendInv(t1, at, clients[1..]);
      SendOneHeld(t, at, clients[0], cl, open);
      SendHeld(t1, at, clients[1..], cl, if clients[0] == cl then open - {at} else open);
      assert open - {at} - {at} == open - {at};
      assert forall i :: 1 <= i < |clients| ==> clients[i] == clients[1..][i - 1];
    }
  }

  lemma {:induction false} SendAllHeld(t: Table, todo: seq<(nat, nat)>, clients: seq<Client>, cl: Client,
      open: set<(nat, nat)>)
    requires Inv(t) && (forall at :: at in todo ==> InTable(t, at)) && SendAll(t, todo, clients).next <= TWO_32
    requires Connected(clients, cl) && Held(t, cl, open) && forall at :: at in open ==> at in todo
    ensures Held(SendAll(t, todo, clients), cl, {})
    decreases |todo|
  {
    hide Inv, Send, InTable, Held;
    if todo == [] {
      assert open == {};
    } else {
      var t1 := Send(t, todo[0], clients);
      SendInv(t, todo[0], clients);
      SendAllInv(t1, todo[1..], clients);
      SendHeld(t, todo[0], clients, cl, open);
      SendAllHeld(t1, todo[1..], clients, cl, open - {todo[0]});
    }
  }

  /** Messages to other clients change nothing for this one. */
  lemma {:induction false} OthersHeld(t: Table, todo: seq<(nat, nat)>, x: Client, cl: Client)
    requires Inv(t) && (forall at :: at in todo ==> InTable(t, at)) && SendAll(t, todo, [x]).next <= TWO_32
    requires (x.num == cl.num ==> x == cl) && Held(t, cl, {})
    ensures Held(SendAll(t, todo, [x]), cl, {})
    decreases |todo|
  {
    hide Inv, Send, InTable, Held;
    if todo != [] {
      var t1 := Send(t, todo[0], [x]);
      SendInv(t, todo[0], [x]);
      SendAllInv(t1, todo[1..], [x]);
      SendHeld(t, todo[0], [x], cl, {});
      assert {} - {todo[0]} == {};
      OthersHeld(t1, todo[1..], x, cl);
    }
  }

  // ---------- Refreshing under the guard ----------

  /** A card found again is a new card with the id and timeout of an unexpired reported one. */
  ghost predicate Heir(reported: seq<Card>, card: Card, kept: Card, now: int) {
    exists r :: r in reported && SameCard(card, r) && !TimedOut(r, now)
                && kept == card.(id := r.id, timeout := r.timeout)
  }

  ghost predicate Paired(reported: seq<Card>, cards: seq<Card>, now: int, d: Diff) {
    && |d.list| == |cards|
    && (forall r :: r in d.rest ==> r in reported)
    && (forall i: nat :: i < |cards| ==>
          if i in d.todo then d.list[i] == cards[i] else Heir(reported, cards[i], d.list[i], now))
    && (forall i :: i in d.todo ==> i < |cards|)
  }

  lemma ReportPairs(reported: seq<Card>, done: seq<Card>, now: int, d: Diff, c: Card)
    requires Paired(reported, done, now, d)
    ensures Paired(reported, done + [c], now, ReportOne(d, c, now))
  {
    hide SameCard, TimedOut, FindReported;
    var k := FindReported(d.rest, c, now, 0);
    var d1 := ReportOne(d, c, now);
    if k < |d.rest| {
      assert d.rest[k] in reported;
      assert Heir(reported, c, d1.list[|done|], now);
    }
    assert forall i: nat :: i < |done| ==> d1.list[i] == d.list[i] && (i in d1.todo <==> i in d.todo);
  }

  lemma {:induction false} ReportAllPairs(reported: seq<Card>, done: seq<Card>, cards: seq<Card>, now: int, d: Diff)
    requires Paired(reported, done, now, d)
    ensures Paired(reported, done + cards, now, ReportAll(d, cards, now))
    decreases |cards|
  {
    hide Paired, ReportOne;
    if cards == [] {
      assert done + cards == done;
    } else {
      ReportPairs(reported, done, now, d, cards[0]);
      ReportAllPairs(reported, done + [cards[0]], cards[1..], now, ReportOne(d, cards[0], now));
      assert done + [cards[0]] + cards[1..] == done + cards;
    }
  }

  lemma DiffPairs(reported: seq<Card>, cards: seq<Card>, now: int)
    ensures Paired(reported, cards, now, DiffOf(reported, cards, now))
  {
    hide ReportAll, SameCard, TimedOut;
    assert [] + cards == cards;
    ReportAllPairs(reported, [], cards, now, Diff([], reported, [], [], []));
  }

  /** What must not change when a card is found again: the fields the filter looks at, and whether the
      reshare value for the client is negative. */
  predicate SameFor(cl: Client, a: Card, b: Card) {
    SameView(a, b)
    && (cl.reshareFor(a.(id := 0, timeout := 0)) >= 0 <==> cl.reshareFor(b.(id := 0, timeout := 0)) >= 0)
  }

  /** The guard for one bucket: a caller can check it before the refresh. */
  ghost predicate Steady(reported: seq<Card>, cards: seq<Card>, now: int, cl: Client) {
    forall r, k :: r in reported && k in cards && SameCard(k, r) && !TimedOut(r, now) ==> SameFor(cl, k, r)
  }

  lemma HeirGets(reported: seq<Card>, cards: seq<Card>, now: int, cl: Client, card: Card, kept: Card)
      returns (r: Card)
    requires Steady(reported, cards, now, cl) && card in cards && Heir(reported, card, kept, now)
    ensures r in reported && kept.id == r.id && (Gets(cl, kept) <==> Gets(cl, r))
  {
    hide ValidFor;
    r :| r in reported && SameCard(card, r) && !TimedOut(r, now) && kept == card.(id := r.id, timeout := r.timeout);
    GetsIgnoresId(cl, card, r.id, r.timeout);
    ViewDecides(cl, card, r);
  }

  /** The cards that are left over and known to the client are withdrawn from it. */
  lemma HeldHeard(t: Table, b: nat, cards: seq<Card>, now: int, clients: seq<Client>, cl: Client, open: set<(nat, nat)>)
    requires b < |t.buckets| && Connected(clients, cl) && Held(t, cl, open)
    ensures RestHeard(DiffOf(t.buckets[b], cards, now).rest, Told(t, cl.num), clients, cl.num)
  {
    hide DiffOf, Right, Told, ValidFor;
    var rest := DiffOf(t.buckets[b], cards, now).rest;
    DiffPairs(t.buckets[b], cards, now);
    var n :| 0 <= n < |clients| && clients[n] == cl;
    forall k | 0 <= k < |rest| && rest[k].id in Told(t, cl.num) ensures Withdraws(clients, cl.num, rest[k]) {
      assert rest[k] in t.buckets[b];
      var i :| 0 <= i < |t.buckets[b]| && t.buckets[b][i] == rest[k];
      assert InTable(t, (b, i)) && Has(t, cl, (b, i));
      assert May(t, cl, (b, i)) && clients[n].num == cl.num;
    }
  }

  /** A card that is still reported stays known, or unknown. */
  lemma RefreshedHas(t: Table, b: nat, cards: seq<Card>, now: int, clients: seq<Client>, cl: Client, at: (nat, nat))
    requires b < |t.buckets| && Fresh(b, cards) && IdsTrue(t) && InTable(RefreshBucket(t, b, cards, now, clients), at)
    ensures var t1 := RefreshBucket(t, b, cards, now, clients);
            Has(t1, cl, at) <==> t1.buckets[at.0][at.1].id in Told(t, cl.num)
  {
    hide DiffOf, Fresh, RefreshBucket, Told, Reported;
    var t1 := RefreshBucket(t, b, cards, now, clients);
    var id := t1.buckets[at.0][at.1].id;
    RefreshBucketTells(t, b, cards, now, clients, cl.num);
    if id in Told(t, cl.num) {
      CardReported(t1, at);
      assert IdTrue(t, id);
      ToldElsewhere(t, b, cards, now, clients, cl.num, id);
    }
  }

  ghost function Positions(b: nat, todo: seq<nat>): set<(nat, nat)> {
    set at | at in Pairs(b, todo)
  }

  lemma RefreshBucketHeld(t: Table, b: nat, cards: seq<Card>, now: int, clients: seq<Client>, cl: Client,
      open: set<(nat, nat)>)
    requires b < |t.buckets| && Fresh(b, cards) && IdsTrue(t) && Connected(clients, cl) && Held(t, cl, open)
    requires Steady(t.buckets[b], cards, now, cl) && forall at :: at in open ==> at.0 < b
    ensures Held(RefreshBucket(t, b, cards, now, clients), cl,
                 open + Positions(b, DiffOf(t.buckets[b], cards, now).todo))
  {
    hide DiffOf, Fresh, Steady, Right, IdsTrue, Connected, RestHeard, Told, Gets;
    var t1, d := RefreshBucket(t, b, cards, now, clients), DiffOf(t.buckets[b], cards, now);
    HeldHeard(t, b, cards, now, clients, cl, open);
    BucketRight(t, b, cards, now, clients, cl.num);
    DiffPairs(t.buckets[b], cards, now);
    forall at: (nat, nat) | InTable(t1, at)
      ensures Has(t1, cl, at) ==> May(t1, cl, at)
      ensures May(t1, cl, at) && at !in open + Positions(b, d.todo) ==> Has(t1, cl, at)
    {
      RefreshedHas(t, b, cards, now, clients, cl, at);
      if at.0 != b {
        assert InTable(t, at) && t1.buckets[at.0][at.1] == t.buckets[at.0][at.1];
        assert (May(t, cl, at) <==> May(t1, cl, at)) && (Has(t, cl, at) <==> Has(t1, cl, at));
      } else if at.1 in d.todo {
        NewUntold(t, b, cards, cl.num, at.1);
      } else {
        var r := HeirGets(t.buckets[b], cards, now, cl, cards[at.1], d.list[at.1]);
        var j :| 0 <= j < |t.buckets[b]| && t.buckets[b][j] == r;
        assert InTable(t, (b, j)) && (Has(t, cl, (b, j)) <==> May(t, cl, (b, j)));
      }
    }
  }

  lemma NewUntold(t: Table, b: nat, cards: seq<Card>, n: nat, i: nat)
    requires Fresh(b, cards) && IdsTrue(t) && i < |cards|
    ensures cards[i].id !in Told(t, n)
  {
    hide Told;
  }

  ghost function Of(todo: seq<(nat, nat)>): set<(nat, nat)> {
    set at | at in todo
  }

  /** The guard for all buckets from `b` on. */
  ghost predicate SteadyFrom(reported: seq<seq<Card>>, b: nat, server: seq<seq<Card>>, now: int, cl: Client)
    requires |reported| == |server|
  {
    forall c :: b <= c < |server| ==> Steady(reported[c], server[c], now, cl)
  }

  lemma {:induction false} RefreshFromHeld(t: Table, b: nat, server: seq<seq<Card>>, now: int, clients: seq<Client>,
      reported: seq<seq<Card>>, cl: Client, open: set<(nat, nat)>)
    requires Inv(t) && t.next <= TWO_32 && b <= |server| == CAID_KEY == |t.buckets| == |reported|
    requires forall i :: 0 <= i < CAID_KEY ==> Fresh(i, server[i])
    requires forall i :: b <= i < |server| ==> t.buckets[i] == reported[i]
    requires SteadyFrom(reported, b, server, now, cl) && Connected(clients, cl)
    requires Held(t, cl, open) && forall at :: at in open ==> at.0 < b
    ensures Held(RefreshFrom(t, b, server, now, clients), cl, open + Of(AddedFrom(reported, b, server, now)))
    decreases |server| - b
  {
    hide DiffOf, Fresh, Steady, Held, RefreshBucket, Bucketed, IdsTrue, Connected;
    if b == |server| {
      assert open + Of([]) == open;
    } else {
      var t1, todo := RefreshBucket(t, b, server[b], now, clients), DiffOf(reported[b], server[b], now).todo;
      RefreshBucketInv(t, b, server[b], now, clients);
      RefreshBucketShape(t, b, server[b], now, clients);
      RefreshBucketHeld(t, b, server[b], now, clients, cl, open);
      var open1 := open + Positions(b, todo);
      RefreshFromHeld(t1, b + 1, server, now, clients, reported, cl, open1);
      assert open1 + Of(AddedFrom(reported, b + 1, server, now)) == open + Of(AddedFrom(reported, b, server, now));
    }
  }

  /** The guard for one step: the client is connected with the same settings, and no refresh finds a
      card again that has changed in what decides whether the client may have it. */
  ghost predicate StepSteady(p: Policy, t: Table, step: Step, cl: Client)
    requires |t.buckets| == CAID_KEY
  {
    match step
    case Update(calls, now, clients) =>
      Connected(clients, cl) && SteadyFrom(t.buckets, 0, ServerBuckets(p, calls), now, cl)
    case Report(client) => client.num == cl.num ==> client == cl
  }

  lemma NextHeld(p: Policy, t: Table, step: Step, cl: Client)
    requires Inv(t) && Proper(step) && |t.buckets| == CAID_KEY && Next(p, t, step).next <= TWO_32
    requires StepSteady(p, t, step, cl) && Held(t, cl, {})
    ensures Held(Next(p, t, step), cl, {})
  {
    hide IdsTrue, SendAll, RefreshFrom, AddedFrom, AllFrom, ServerBuckets, Bucketed, SteadyFrom, Connected, Held,
      InTable;
    match step {
      case Update(calls, now, clients) =>
        var server := ServerBuckets(p, calls);
        var t1, todo := RefreshFrom(t, 0, server, now, clients), AddedFrom(t.buckets, 0, server, now);
        EmptyFresh(p, calls);
        RefreshFromInv(t, 0, server, now, clients);
        AddedInTable(t, 0, server, now, clients, t.buckets);
        SendAllInv(t1, todo, clients);
        RefreshFromHeld(t, 0, server, now, clients, t.buckets, cl, {});
        assert {} + Of(todo) == Of(todo);
        SendAllHeld(t1, todo, clients, cl, Of(todo));
      case Report(client) =>
        AllInTable(t, 0);
        OthersHeld(t, AllFrom(t.buckets, 0), client, cl);
    }
  }

  ghost predicate RunSteady(p: Policy, t: Table, steps: seq<Step>, cl: Client)
    requires |t.buckets| == CAID_KEY
    decreases |steps|
  {
    steps == [] || (StepSteady(p, t, steps[0], cl) && RunSteady(p, Next(p, t, steps[0]), steps[1..], cl))
  }

  /** Over every run under the guard, a client that holds exactly the cards it may have goes on doing
      so: it is told of each, and each that goes is withdrawn. */
  lemma {:induction false} RunHeld(p: Policy, t: Table, steps: seq<Step>, cl: Client)
    requires Inv(t) && |t.buckets| == CAID_KEY && Run(p, t, steps).next <= TWO_32
    requires (forall i :: 0 <= i < |steps| ==> Proper(steps[i])) && RunSteady(p, t, steps, cl) && Held(t, cl, {})
    ensures Held(Run(p, t, steps), cl, {})
    decreases |steps|
  {
    hide Inv, Next, Proper, StepSteady, Held;
    if steps != [] {
      var t1 := Next(p, t, steps[0]);
      NextInv(p, t, steps[0]);
      RunKeepsIds(p, t1, steps[1..]);
      NextHeld(p, t, steps[0], cl);
      RunHeld(p, t1, steps[1..], cl);
    }
  }

  lemma {:induction false} AllFromHasAll(buckets: seq<seq<Card>>, b: nat, at: (nat, nat))
    requires b <= at.0 < |buckets| && at.1 < |buckets[at.0]|
    ensures at in AllFrom(buckets, b)
    decreases |buckets| - b
  {
    hide Pairs, UpTo;
    if b < at.0 {
      AllFromHasAll(buckets, b + 1, at);
    }
  }

  /** The report at its login makes a new client hold exactly the cards it may have. */
  lemma ReportStartsHeld(p: Policy, t: Table, cl: Client)
    requires Inv(t) && |t.buckets| == CAID_KEY && Told(t, cl.num) == {}
    requires Next(p, t, Report(cl)).next <= TWO_32
    ensures Held(Next(p, t, Report(cl)), cl, {})
  {
    hide IdsTrue, SendAll, AllFrom, Bucketed, May, Told;
    var all := AllFrom(t.buckets, 0);
    AllInTable(t, 0);
    forall at: (nat, nat) | InTable(t, at) ensures at in Of(all) {
      AllFromHasAll(t.buckets, 0, at);
    }
    assert Held(t, cl, Of(all));
    hide InTable;
    assert [cl][0] == cl;
    SendAllHeld(t, all, [cl], cl, Of(all));
  }

  // ---------- The run in which a client keeps an id ----------

  function OneBucket(b: nat, cards: seq<Card>): (r: seq<seq<Card>>)
    requires b < CAID_KEY
    ensures |r| == CAID_KEY
  {
    NoBuckets(CAID_KEY)[b := cards]
  }

  lemma {:induction false} EmptyBuckets(t: Table, b: nat, server: seq<seq<Card>>, now: int, clients: seq<Client>)
    requires |t.buckets| == |server| && b <= |server|
    requires forall c :: b <= c < |server| ==> t.buckets[c] == [] == server[c]
    ensures RefreshFrom(t, b, server, now, clients) == t && AddedFrom(t.buckets, b, server, now) == []
    decreases |server| - b
  {
    if b < |server| {
      assert DiffOf([], [], now) == Diff([], [], [], [], []);
      assert t.buckets[b := []] == t.buckets && t.log + [] == t.log;
      EmptyBuckets(t, b + 1, server, now, clients);
    }
  }

  lemma {:induction false} OnlyBucket(t: Table, k: nat, b: nat, server: seq<seq<Card>>, now: int, clients: seq<Client>)
    requires k <= b < |t.buckets| == |server|
    requires forall c :: k <= c < |server| && c != b ==> t.buckets[c] == [] == server[c]
    ensures RefreshFrom(t, k, server, now, clients) == RefreshBucket(t, b, server[b], now, clients)
    ensures AddedFrom(t.buckets, k, server, now) == Pairs(b, DiffOf(t.buckets[b], server[b], now).todo)
    decreases b - k
  {
    if k < b {
      assert DiffOf([], [], now) == Diff([], [], [], [], []);
      assert t.buckets[k := []] == t.buckets && t.log + [] == t.log;
      OnlyBucket(t, k + 1, b, server, now, clients);
    } else {
      hide DiffOf, Removals;
      var t1 := RefreshBucket(t, b, server[b], now, clients);
      EmptyBuckets(t1, b + 1, server, now, clients);
      AddedElsewhere(t1.buckets, t.buckets, b + 1, server, now);
      var pairs := Pairs(b, DiffOf(t.buckets[b], server[b], now).todo);
      assert pairs + [] == pairs;
    }
  }

  lemma {:induction false} AddedElsewhere(a: seq<seq<Card>>, o: seq<seq<Card>>, b: nat, server: seq<seq<Card>>,
      now: int)
    requires |a| == |o| == |server| && b <= |server| && forall c :: b <= c < |server| ==> a[c] == o[c]
    ensures AddedFrom(a, b, server, now) == AddedFrom(o, b, server, now)
    decreases |server| - b
  {
    hide DiffOf, Pairs;
    if b < |server| {
      AddedElsewhere(a, o, b + 1, server, now);
    }
  }

  /** A remote card, and a client whose account allows one hop. */
  function Remote(hop: nat): Card {
    Card(0, 7, 0x100, hop, 5, [0, 0, 0, 0, 0, 0, 0, 0], [], [], [], [], REMOTECARD, None, 0, false, 0, 0, false)
  }

  function Viewer(): Client {
    Client(1, 0, false, false, 1, [7, 0, 0, 0, 0, 0, 0, 1], (caid, providers, sidtab) => true, card => 0)
  }

  lemma OneCall(p: Policy, server: seq<seq<Card>>, c: Card, free: bool)
    requires |server| == CAID_KEY
    ensures AddCalls(p, server, [(c, free)])
            == server[BucketOf(c.caid) := Added(p, server[BucketOf(c.caid)], c, free)]
  {
    hide Added, BucketOf;
  }

  lemma OneMessage(t: Table, at: (nat, nat), cl: Client)
    requires InTable(t, at)
    ensures SendAll(t, [at], [cl]) == SendOne(t, at, cl)
  {
    hide SendOne, InTable;
    assert [at][1..] == [];
    MessageToOne(t, at, cl);
  }

  lemma MessageToOne(t: Table, at: (nat, nat), cl: Client)
    requires InTable(t, at)
    ensures Send(t, at, [cl]) == SendOne(t, at, cl)
  {
    hide SendOne, InTable;
    assert [cl][1..] == [];
  }

  lemma RemoteListed(hop: nat)
    ensures ServerBuckets(PLAIN, [(Remote(hop), false)]) == OneBucket(1, [Remote(hop)])
    ensures Unnumbered([(Remote(hop), false)])
  {
    var c := Remote(hop);
    assert BucketOf(c.caid) == 1;
    assert Added(PLAIN, [], c, false) == [c] by {
      assert Copied(c) == c;
    }
    hide Added, AddCalls, Remote, BucketOf, NoBuckets;
    OneCall(PLAIN, NoBuckets(CAID_KEY), c, false);
  }

  lemma NothingListed()
    ensures ServerBuckets(PLAIN, []) == OneBucket(1, [])
  {
    assert NoBuckets(CAID_KEY)[1 := []] == NoBuckets(CAID_KEY);
  }

  /** One refresh when bucket 1 is the only one in use. */
  lemma RefreshOnly(x: seq<Card>, next: nat, log: seq<Event>, calls: seq<(Card, bool)>, y: seq<Card>)
    requires ServerBuckets(PLAIN, calls) == OneBucket(1, y)
    ensures var t := Table(OneBucket(1, x), next, log);
            var t1, todo := RefreshBucket(t, 1, y, 0, [Viewer()]), Pairs(1, DiffOf(x, y, 0).todo);
            && (forall at :: at in todo ==> InTable(t1, at))
            && Next(PLAIN, t, Update(calls, 0, [Viewer()])) == SendAll(t1, todo, [Viewer()])
  {
    hide DiffOf, ServerBuckets, Viewer, Pairs, RefreshBucket, SendAll;
    var t := Table(OneBucket(1, x), next, log);
    OnlyBucket(t, 0, 1, OneBucket(1, y), 0, [Viewer()]);
    AddedInTable(t, 0, OneBucket(1, y), 0, [Viewer()], t.buckets);
  }

  lemma RemoteValid(hop: nat, id: nat)
    ensures ValidFor(Viewer(), Remote(hop).(id := id)) <==> hop <= 1
    ensures Gets(Viewer(), Remote(hop)) <==> hop <= 1
  {
  }

  /** The card is announced with id 100. */
  lemma RemoteAnnounced()
    ensures Next(PLAIN, Table(OneBucket(1, []), FIRST_ID, []), Update([(Remote(1), false)], 0, [Viewer()]))
            == Table(OneBucket(1, [Remote(1).(id := FIRST_ID)]), FIRST_ID + 1, [NewCard(1, FIRST_ID)])
  {
    hide DiffOf, Pairs, ServerBuckets, SendAll, Next, NoBuckets, Gets;
    RemoteListed(1);
    RefreshOnly([], FIRST_ID, [], [(Remote(1), false)], [Remote(1)]);
    RemoteValid(1, 0);
    NewDiff(Remote(1));
    AnnounceOnly(Remote(1), FIRST_ID, Viewer());
    hide Remote, Viewer;
    assert OneBucket(1, [])[1 := [Remote(1)]] == OneBucket(1, [Remote(1)]);
    assert [] + Removals([Viewer()], []) == [];
  }

  lemma OneDiff(reported: seq<Card>, c: Card)
    ensures DiffOf(reported, [c], 0) == ReportOne(Diff([], reported, [], [], []), c, 0)
  {
    hide ReportOne;
    var d := ReportOne(Diff([], reported, [], [], []), c, 0);
    assert [c][1..] == [];
    assert ReportAll(d, [], 0) == d;
  }

  lemma NewDiff(c: Card)
    ensures DiffOf([], [c], 0) == Diff([c], [], [], [c], [0])
    ensures Pairs(1, [0]) == [(1, 0)]
  {
    OneDiff([], c);
    hide DiffOf;
    var zero: seq<nat> := [0];
    assert zero[1..] == [];
    assert Pairs(1, zero) == [(1, 0)] + Pairs(1, []);
  }

  lemma KeptDiff(r: Card, c: Card)
    requires SameCard(c, r) && r.cardType == REMOTECARD
    ensures DiffOf([r], [c], 0)
            == Diff([c.(id := r.id, timeout := r.timeout)], [], [c.(id := r.id, timeout := r.timeout)], [], [])
  {
    hide SameCard;
    OneDiff([r], c);
    hide DiffOf;
    assert FindReported([r], c, 0, 0) == 0;
    assert Without([r], 0) == [];
  }

  lemma AnnounceOnly(c: Card, next: nat, cl: Client)
    requires Gets(cl, c) && c.id == 0 && next < TWO_32
    ensures InTable(Table(OneBucket(1, [c]), next, []), (1, 0))
    ensures SendAll(Table(OneBucket(1, [c]), next, []), [(1, 0)], [cl])
            == Table(OneBucket(1, [c.(id := next)]), next + 1, [NewCard(cl.num, next)])
  {
    hide Gets, NoBuckets;
    OneMessage(Table(OneBucket(1, [c]), next, []), (1, 0), cl);
    hide SendAll;
    assert [c][0 := c.(id := next)] == [c.(id := next)];
    assert OneBucket(1, [c])[1 := [c.(id := next)]] == OneBucket(1, [c.(id := next)]);
  }

  /** It is found again two hops further away, and nobody is told. */
  lemma RemoteMoves()
    ensures var log := [NewCard(1, FIRST_ID)];
            Next(PLAIN, Table(OneBucket(1, [Remote(1).(id := FIRST_ID)]), FIRST_ID + 1, log),
                 Update([(Remote(3), false)], 0, [Viewer()]))
            == Table(OneBucket(1, [Remote(3).(id := FIRST_ID)]), FIRST_ID + 1, log)
  {
    var x, y, log := Remote(1).(id := FIRST_ID), Remote(3).(id := FIRST_ID), [NewCard(1, FIRST_ID)];
    RemoteListed(3);
    KeptDiff(x, Remote(3));
    hide DiffOf, ServerBuckets, Next, NoBuckets, Viewer;
    RefreshOnly([x], FIRST_ID + 1, log, [(Remote(3), false)], [Remote(3)]);
    assert Remote(3).(id := x.id, timeout := x.timeout) == y;
    hide Remote;
    assert OneBucket(1, [x])[1 := [y]] == OneBucket(1, [y]) && log + [] == log;
  }

  /** It disappears, and the message is not for a client with one hop. */
  lemma RemoteGoes()
    ensures var log := [NewCard(1, FIRST_ID)];
            Next(PLAIN, Table(OneBucket(1, [Remote(3).(id := FIRST_ID)]), FIRST_ID + 1, log), Update([], 0, [Viewer()]))
            == Table(OneBucket(1, []), FIRST_ID + 1, log)
  {
    var y, log := Remote(3).(id := FIRST_ID), [NewCard(1, FIRST_ID)];
    NothingListed();
    RefreshOnly([y], FIRST_ID + 1, log, [], []);
    RemoteValid(3, FIRST_ID);
    assert DiffOf([y], [], 0) == Diff([], [y], [], [], []);
    hide DiffOf, ServerBuckets, Next, NoBuckets, Remote, Viewer, ValidFor;
    assert OneBucket(1, [y])[1 := []] == OneBucket(1, []);
    assert Removals([Viewer()], [y]) == [] && log + [] == log;
  }

  lemma RunThree(p: Policy, t: Table, a: Step, b: Step, c: Step)
    requires |t.buckets| == CAID_KEY
    ensures Run(p, t, [a, b, c]) == Next(p, Next(p, Next(p, t, a), b), c)
  {
    hide Next;
    assert [a, b, c][1..] == [b, c] && [b, c][1..] == [c] && [c][1..] == [];
    assert Run(p, t, [a, b, c]) == Run(p, Next(p, t, a), [b, c]);
    assert Run(p, Next(p, t, a), [b, c]) == Run(p, Next(p, Next(p, t, a), b), [c]);
  }

  lemma OnlyToldOf(buckets: seq<seq<Card>>, id: nat)
    requires buckets == OneBucket(1, [])
    ensures var t := Table(buckets, id + 1, [NewCard(1, id)]);
            Told(t, 1) == {id} && !Reported(t, id) && !Right(t, 1)
  {
    hide NoBuckets;
    var t := Table(buckets, id + 1, [NewCard(1, id)]);
    assert buckets == NoBuckets(CAID_KEY);
    NothingCounted(CAID_KEY, OfId(id));
    assert t.log[0] == NewCard(1, id) && t.log[1..] == [];
    assert Told(t, 1) == Apply({} + {id}, [], 1) == {id};
    hide Told, Reported;
    assert id in Told(t, 1);
  }

  /** A client with cccmaxhops 1 is told id 100 for a remote card of hop 1, the next refresh finds the
      card again with hop 3, and then the card goes: the client keeps id 100, which no card has. */
  lemma SilentRefreshStrands() returns (steps: seq<Step>)
    ensures steps == [Update([(Remote(1), false)], 0, [Viewer()]), Update([(Remote(3), false)], 0, [Viewer()]),
                      Update([], 0, [Viewer()])]
    ensures forall i :: 0 <= i < |steps| ==> Proper(steps[i])
    ensures var r := Run(PLAIN, Table(NoBuckets(CAID_KEY), FIRST_ID, []), steps);
            Told(r, 1) == {FIRST_ID} && !Reported(r, FIRST_ID) && !Right(r, 1)
  {
    hide Remote, Viewer, Next, NoBuckets, Told, Reported, Right, Run;
    var a, b, c := Update([(Remote(1), false)], 0, [Viewer()]), Update([(Remote(3), false)], 0, [Viewer()]),
        Update([], 0, [Viewer()]);
    steps := [a, b, c];
    RemoteListed(1);
    RemoteListed(3);
    RemoteAnnounced();
    RemoteMoves();
    RemoteGoes();
    assert NoBuckets(CAID_KEY) == OneBucket(1, []);
    RunThree(PLAIN, Table(NoBuckets(CAID_KEY), FIRST_ID, []), a, b, c);
    OnlyToldOf(OneBucket(1, []), FIRST_ID);
  }
}
