/** What each message does to the card table of a CCcam reader (oscam/module-cccam.c, lines 360-450,
    1343-1380, 1860-1913, 2154-2172, 2265-2346, 2437-2500 and 2636-2700): which cards, requests and
    update card there are afterwards, in which order. */
module ReaderSessionMessages {
  import opened Cards
  import opened ReaderSession

  // ---------- Cards and requests that stay ----------

  /** The cards without an id, in order. */
  function CardsExcept(cards: seq<CcCard>, id: nat): seq<CcCard> {
    if cards == [] then [] else (if cards[0].card.id != id then [cards[0]] else []) + CardsExcept(cards[1..], id)
  }

  predicate IsOf(e: Entry, id: nat) {
    e.card != null && e.card.card.id == id
  }

  /** The requests but those to a card with an id, in order. */
  function RequestsExcept(entries: seq<Entry>, id: nat): seq<Entry> {
    if entries == [] then [] else (if IsOf(entries[0], id) then [] else [entries[0]]) + RequestsExcept(entries[1..], id)
  }

  /** The requests but the one with a number, in order. */
  function Unanswered(entries: seq<Entry>, idx: nat): seq<Entry> {
    if entries == [] then []
    else (if entries[0].sendIdx == idx then [] else [entries[0]]) + Unanswered(entries[1..], idx)
  }

  /** The same requests; those to a card with an id no longer know it. */
  function Forgotten(entries: seq<Entry>, id: nat): seq<Entry> {
    if entries == [] then []
    else [if IsOf(entries[0], id) then entries[0].(card := null) else entries[0]] + Forgotten(entries[1..], id)
  }

  lemma {:induction false} CardsExceptIn(cards: seq<CcCard>, id: nat)
    ensures forall c :: c in CardsExcept(cards, id) <==> c in cards && c.card.id != id
  {
    if cards != [] {
      CardsExceptIn(cards[1..], id);
    }
  }

  lemma {:induction false} RequestsExceptIn(entries: seq<Entry>, id: nat)
    ensures forall e :: e in RequestsExcept(entries, id) <==> e in entries && !IsOf(e, id)
  {
    if entries != [] {
      RequestsExceptIn(entries[1..], id);
    }
  }

  lemma {:induction false} UnansweredIn(entries: seq<Entry>, idx: nat)
    ensures forall e :: e in Unanswered(entries, idx) <==> e in entries && e.sendIdx != idx
  {
    if entries != [] {
      UnansweredIn(entries[1..], idx);
    }
  }

  lemma {:induction false} ForgottenIn(entries: seq<Entry>, id: nat)
    ensures |Forgotten(entries, id)| == |entries|
    ensures forall i :: 0 <= i < |entries| ==>
              Forgotten(entries, id)[i] == if IsOf(entries[i], id) then entries[i].(card := null) else entries[i]
  {
    if entries != [] {
      ForgottenIn(entries[1..], id);
    }
  }

  // ---------- A card is removed ----------

  lemma {:induction false} NoneToRemove(cards: seq<CcCard>, id: nat)
    requires forall i :: 0 <= i < |cards| ==> cards[i].card.id != id
    ensures CardsExcept(cards, id) == cards
  {
    if cards != [] {
      NoneToRemove(cards[1..], id);
    }
  }

  lemma {:induction false} NoneToEnd(entries: seq<Entry>, id: nat)
    requires forall i :: 0 <= i < |entries| ==> !IsOf(entries[i], id)
    ensures RequestsExcept(entries, id) == entries
  {
    if entries != [] {
      NoneToEnd(entries[1..], id);
    }
  }

  lemma {:induction false} DropOne(cards: seq<CcCard>, k: nat, id: nat)
    requires k < |cards| && cards[k].card.id == id
    ensures CardsExcept(Drop(cards, k), id) == CardsExcept(cards, id)
  {
    if k == 0 {
      assert Drop(cards, 0) == cards[1..];
    } else {
      assert Drop(cards, k)[0] == cards[0] && Drop(cards, k)[1..] == Drop(cards[1..], k - 1);
      DropOne(cards[1..], k - 1, id);
    }
  }

  lemma {:induction false} EndOne(entries: seq<Entry>, c: CcCard, id: nat)
    requires c.card.id == id
    ensures RequestsExcept(EntriesWithout(entries, c), id) == RequestsExcept(entries, id)
  {
    if entries != [] {
      EndOne(entries[1..], c, id);
      if entries[0].card != c {
        assert EntriesWithout(entries, c)[1..] == EntriesWithout(entries[1..], c);
      } else {
        assert EntriesWithout(entries, c) == EntriesWithout(entries[1..], c);
      }
    }
  }

  /** From every state of a session, when the card with an id is removed: no card with the id is listed
      and no request or update card refers to one; all other cards, requests and the update card are
      left, in order. */
  ghost predicate RemovedFrom(s: State, r: State, id: nat) {
    && r.cards == CardsExcept(s.cards, id)
    && r.entries == RequestsExcept(s.entries, id)
    && r.emm == (if s.emm != null && s.emm.card.id == id then null else s.emm)
    && r.serverIdx == s.serverIdx
  }

  lemma NothingRemoved(cfg: Config, s: State, id: nat)
    requires Inv(cfg, s) && forall i :: 0 <= i < |s.cards| ==> s.cards[i].card.id != id
    ensures RemovedFrom(s, s, id)
  {
    hide Counted, Distinct, Foreign, CardsExcept, RequestsExcept;
    NoneToRemove(s.cards, id);
    forall i | 0 <= i < |s.entries| ensures !IsOf(s.entries[i], id) {
      assert EntryOk(s.cards, s.entries[i]);
    }
    NoneToEnd(s.entries, id);
  }

  lemma RemovedAt(s: State, k: nat, r: State, id: nat)
    requires k < |s.cards| && s.cards[k].card.id == id && RemovedFrom(RemoveAt(s, k), r, id)
    ensures RemovedFrom(s, r, id)
  {
    hide Drop, Shift, CardsExcept, RequestsExcept, EntriesWithout;
    DropOne(s.cards, k, id);
    EndOne(s.entries, s.cards[k], id);
  }

  lemma {:induction false} RemovalFrom(cfg: Config, s: State, id: nat, k: nat)
    requires Inv(cfg, s) && k <= |s.cards| && forall i :: 0 <= i < k ==> s.cards[i].card.id != id
    ensures RemovedFrom(s, RemoveFrom(s, id, k), id)
    decreases |s.cards| - k
  {
    hide Inv, RemovedFrom, EntriesWithout, Shift;
    if k == |s.cards| {
      NothingRemoved(cfg, s, id);
    } else if s.cards[k].card.id == id {
      RemoveAtInv(cfg, s, k);
      RemovalFrom(cfg, RemoveAt(s, k), id, k);
      RemovedAt(s, k, RemoveFrom(RemoveAt(s, k), id, k), id);
    } else {
      RemovalFrom(cfg, s, id, k + 1);
    }
  }

  /** MSG_CARD_REMOVED */
  lemma CardIsRemoved(cfg: Config, s: State, id: nat)
    requires Inv(cfg, s)
    ensures var r := Next(cfg, s, CardRemoved(id));
            && RemovedFrom(s, r, id) && Inv(cfg, r)
            && (forall c :: c in r.cards <==> c in s.cards && c.card.id != id)
            && (forall e :: e in r.entries <==> e in s.entries && !IsOf(e, id))
            && (r.emm != null ==> r.emm.card.id != id)
  {
    hide Inv, RemoveFrom;
    RemovalFrom(cfg, s, id, 0);
    RemoveFromInv(cfg, s, id, 0);
    CardsExceptIn(s.cards, id);
    RequestsExceptIn(s.entries, id);
  }

  // ---------- A new card ----------

  /** The table takes the card: it has a CAID, is near enough, may be passed on far enough, passes the
      filters, did not come from here, and no listed card has its id or its identity. */
  ghost predicate Taken(cfg: Config, s: State, raw: Card, allowed: bool, wanted: bool) {
    && raw.caid != 0 && raw.hop <= cfg.maxhops && raw.reshare >= cfg.mindown && allowed && wanted
    && (forall i :: 0 <= i < |raw.nodes| ==> raw.nodes[i] != cfg.ownNode)
    && (forall i :: 0 <= i < |s.cards| ==>
          s.cards[i].card.id != raw.id
          && IdentityOf(s.cards[i].card) != IdentityOf(raw.(cardType := REMOTECARD, grp := cfg.grp)))
  }

  /** MSG_NEW_CARD: a card that is taken comes last, one hop farther, and may become the update card;
      nothing else changes, and nothing at all if it is not taken. */
  lemma CardIsAdded(cfg: Config, s: State, raw: Card, c: CcCard, allowed: bool, wanted: bool)
    requires Inv(cfg, s) && Proper(cfg, s, NewCard(raw, c, allowed, wanted))
    ensures var r := Next(cfg, s, NewCard(raw, c, allowed, wanted));
            && Inv(cfg, r)
            && if Taken(cfg, s, raw, allowed, wanted) then
                 && r.cards == s.cards + [c] && r.entries == s.entries && r.serverIdx == s.serverIdx
                 && r.emm == (if !cfg.auDisabled && exists i :: 0 <= i < |raw.hexserial| && raw.hexserial[i] > 0
                              then c else s.emm)
               else r == s
    ensures c.card == raw.(cardType := REMOTECARD, grp := cfg.grp, hop := c.card.hop)
    ensures raw.hop < 0xFF ==> c.card.hop == raw.hop + 1
    ensures raw.hop == 0xFF ==> c.card.hop == 0
  {
    hide Inv, SameCard, Shift;
    NextInv(cfg, s, NewCard(raw, c, allowed, wanted));
    var card := c.card;
    forall i | 0 <= i < |s.cards|
      ensures SameCard(s.cards[i].card, card)
              <==> IdentityOf(s.cards[i].card) == IdentityOf(raw.(cardType := REMOTECARD, grp := cfg.grp))
    {
      ComparisonsAreEqualities(s.cards[i].card, card);
    }
    assert HasSerial(card) <==> exists i :: 0 <= i < |raw.hexserial| && raw.hexserial[i] > 0;
    hide HasSerial, IdentityOf;
  }

  // ---------- A request is sent ----------

  lemma SentEntry(entries: seq<Entry>, e: Entry)
    requires Unique(entries)
    ensures var at := FindEntry(entries, e.sendIdx, 0);
            var next := if at < |entries| then entries[at := e] else entries + [e];
            && (forall x :: x in next <==> x == e || (x in entries && x.sendIdx != e.sendIdx))
            && |next| == |entries| + (if at < |entries| then 0 else 1)
            && (forall i :: 0 <= i < |entries| && entries[i].sendIdx != e.sendIdx ==> next[i] == entries[i])
  {
    var at := FindEntry(entries, e.sendIdx, 0);
    var next := if at < |entries| then entries[at := e] else entries + [e];
    assert next[if at < |entries| then at else |entries|] == e;
    forall x | x in entries && x.sendIdx != e.sendIdx ensures x in next {
      var i :| 0 <= i < |entries| && entries[i] == x;
      assert next[i] == x;
    }
  }

  /** A request gets the next number from 1 to 255, or number 1 for a server without the extended mode;
      it knows its card, takes the place of an older one with its number and leaves all others. */
  lemma RequestIsSent(cfg: Config, s: State, extended: bool, k: nat, ecmIdx: nat)
    requires Inv(cfg, s) && k < |s.cards|
    ensures var r := Next(cfg, s, SendEcm(extended, k, ecmIdx));
            var idx := if extended && s.serverIdx < 255 then s.serverIdx + 1 else 1;
            && Inv(cfg, r) && r.cards == s.cards && r.counts == s.counts
            && r.serverIdx == (if extended then idx else s.serverIdx)
            && (forall x :: x in r.entries <==>
                  x == Entry(idx, ecmIdx, s.cards[k], s.cards[k].card.id) || (x in s.entries && x.sendIdx != idx))
            && |s.entries| <= |r.entries| && (forall i :: 0 <= i < |s.entries| && s.entries[i].sendIdx != idx ==>
                                                r.entries[i] == s.entries[i])
            && r.emm == (if !cfg.auDisabled && exists i :: 0 <= i < |s.cards[k].card.hexserial|
                                                           && s.cards[k].card.hexserial[i] > 0
                         then s.cards[k] else s.emm)
  {
    SendInv(cfg, s, extended, k, ecmIdx);
    assert HasSerial(s.cards[k].card) <==> exists i :: 0 <= i < |s.cards[k].card.hexserial|
                                                       && s.cards[k].card.hexserial[i] > 0;
    assert Unique(s.entries) && s.serverIdx <= 255;
    hide Inv, HasSerial, Unique;
    var idx := if extended then NextIdx(s.serverIdx) else 1;
    SentEntry(s.entries, Entry(idx, ecmIdx, s.cards[k], s.cards[k].card.id));
  }

  // ---------- An answer arrives ----------

  lemma {:induction false} EntryTaken(entries: seq<Entry>, idx: nat, at: nat)
    requires Unique(entries) && at < |entries| && entries[at].sendIdx == idx
    ensures entries[..at] + entries[at + 1..] == Unanswered(entries, idx)
    decreases |entries|
  {
    if at == 0 {
      NoneAnswered(entries[1..], idx);
      assert entries[..0] + entries[1..] == entries[1..];
    } else {
      EntryTaken(entries[1..], idx, at - 1);
      assert entries[..at] + entries[at + 1..] == [entries[0]] + (entries[1..][..at - 1] + entries[1..][at..]);
    }
  }

  lemma {:induction false} NoneAnswered(entries: seq<Entry>, idx: nat)
    requires forall i :: 0 <= i < |entries| ==> entries[i].sendIdx != idx
    ensures Unanswered(entries, idx) == entries
  {
    if entries != [] {
      NoneAnswered(entries[1..], idx);
    }
  }

  lemma {:induction false} NulledIsForgotten(cards: seq<CcCard>, entries: seq<Entry>, c: CcCard)
    requires c in cards && forall i :: 0 <= i < |entries| ==> EntryOk(cards, entries[i])
    requires forall x :: x in cards && x.card.id == c.card.id ==> x == c
    ensures EntriesNulled(entries, c) == Forgotten(entries, c.card.id)
  {
    if entries != [] {
      assert EntryOk(cards, entries[0]);
      NulledIsForgotten(cards, entries[1..], c);
    }
  }

  lemma IdsDiffer(cards: seq<CcCard>, i: nat, j: nat)
    requires Distinct(cards) && i < j < |cards|
    ensures cards[i].card.id != cards[j].card.id
  {
    assert Unlike(cards[i].card, cards[j].card);
  }

  lemma OneCardPerId(cards: seq<CcCard>, c: CcCard, x: CcCard)
    requires Distinct(cards) && c in cards && x in cards && x.card.id == c.card.id
    ensures x == c
  {
    forall i, j | 0 <= i < j < |cards| ensures cards[i].card.id != cards[j].card.id {
      IdsDiffer(cards, i, j);
    }
  }

  /** The card goes to the end; its requests lose it. */
  lemma CardIsMoved(cfg: Config, s: State, c: CcCard)
    requires Inv(cfg, s) && c in s.cards
    ensures MoveToEnd(s, c)
            == s.(cards := CardsExcept(s.cards, c.card.id) + [c], entries := Forgotten(s.entries, c.card.id))
  {
    var k := FindCard(s.cards, c, 0);
    forall x | x in s.cards && x.card.id == c.card.id ensures x == c {
      OneCardPerId(s.cards, c, x);
    }
    DistinctFewer(cfg, s.cards, k);
    NulledIsForgotten(s.cards, s.entries, c);
    DropOne(s.cards, k, c.card.id);
    var d := Drop(s.cards, k);
    forall i | 0 <= i < |d| ensures d[i].card.id != c.card.id {
      assert d[i] in d && d[i] == s.cards[if i < k then i else i + 1];
      assert d[i] in s.cards;
    }
    NoneToRemove(d, c.card.id);
    hide Inv, CardsExcept, Drop, EntriesNulled, Forgotten;
  }

  /** A control word of zeros, a slow one outside the extended mode, or a refusal other than that of a
      cache exchange server sends the card to the end. */
  ghost predicate SendsBack(cfg: Config, answer: Answer) {
    || (answer.Cw? && answer.zero)
    || (answer.Cw? && answer.slow && !answer.extended)
    || (answer.Nok2? && (answer.cmd05 || !cfg.cacheex1))
  }

  ghost predicate Forwarded(cfg: Config, s: State, r: State, idx: nat, answer: Answer, c: CcCard) {
    var rest := Unanswered(s.entries, idx);
    if answer.Nok1? then RemovedFrom(s.(entries := rest), r, c.card.id)
    else if SendsBack(cfg, answer) then
      r == s.(cards := CardsExcept(s.cards, c.card.id) + [c], entries := Forgotten(rest, c.card.id))
    else r == s.(entries := rest)
  }

  lemma ReceivedBy(cfg: Config, s: State, idx: nat, answer: Answer, at: nat)
    requires Unique(s.entries) && at < |s.entries| && s.entries[at].sendIdx == idx
    ensures var s1, c := s.(entries := Unanswered(s.entries, idx)), s.entries[at].card;
            Next(cfg, s, Reply(idx, answer))
            == if c == null then s1
               else if answer.Nok1? then RemoveFrom(s1, c.card.id, 0)
               else if SendsBack(cfg, answer) then MoveToEnd(s1, c)
               else s1
  {
    assert at == FindEntry(s.entries, idx, 0);
    EntryTaken(s.entries, idx, at);
    hide Unanswered, RemoveFrom, MoveToEnd, FindEntry;
  }

  lemma UnansweredInv(cfg: Config, s: State, idx: nat, at: nat)
    requires Inv(cfg, s) && at < |s.entries| && s.entries[at].sendIdx == idx
    ensures Inv(cfg, s.(entries := Unanswered(s.entries, idx)))
    ensures Unique(s.entries) && EntryOk(s.cards, s.entries[at])
  {
    assert Unique(s.entries);
    EntryTaken(s.entries, idx, at);
    EntryRemoved(cfg, s, at);
    hide Inv, Unanswered;
  }

  /** The state after the answer to request number `idx`, if `e` waits under it: the request is no longer
      waiting, and its card is gone, or last, or where it was, by the answer. */
  lemma AnswerIsHandled(cfg: Config, s: State, idx: nat, answer: Answer, e: Entry)
    requires Inv(cfg, s) && e in s.entries && e.sendIdx == idx
    ensures var r := Next(cfg, s, Reply(idx, answer));
            && Inv(cfg, r)
            && (if e.card == null then r == s.(entries := Unanswered(s.entries, idx))
                else Forwarded(cfg, s, r, idx, answer, e.card))
  {
    hide Inv, Unanswered, RemovedFrom, RemoveFrom, MoveToEnd, Forgotten, CardsExcept, Receive, Unique, FindEntry;
    ReceiveInv(cfg, s, idx, answer);
    var at :| 0 <= at < |s.entries| && s.entries[at] == e;
    UnansweredInv(cfg, s, idx, at);
    ReceivedBy(cfg, s, idx, answer, at);
    var s1 := s.(entries := Unanswered(s.entries, idx));
    if e.card != null {
      RemovalFrom(cfg, s1, e.card.card.id, 0);
      CardIsMoved(cfg, s1, e.card);
    }
  }

  lemma ForwardedLacks(cfg: Config, s: State, r: State, idx: nat, answer: Answer, c: CcCard)
    requires Forwarded(cfg, s, r, idx, answer, c)
    ensures forall e :: e in r.entries ==> e.sendIdx != idx
  {
    var rest := Unanswered(s.entries, idx);
    UnansweredIn(s.entries, idx);
    RequestsExceptIn(rest, c.card.id);
    ForgottenIn(rest, c.card.id);
    forall e | e in Forgotten(rest, c.card.id) ensures e.sendIdx != idx {
      var i :| 0 <= i < |rest| && Forgotten(rest, c.card.id)[i] == e;
      assert rest[i] in rest;
    }
    hide Unanswered, RequestsExcept, Forgotten, CardsExcept, IsOf;
  }

  /** Without such a request nothing happens; and afterwards there is none in any case. */
  lemma NoneWaitsAfterwards(cfg: Config, s: State, idx: nat, answer: Answer)
    requires Inv(cfg, s)
    ensures var r := Next(cfg, s, Reply(idx, answer));
            && (forall e :: e in r.entries ==> e.sendIdx != idx)
            && ((forall e :: e in s.entries ==> e.sendIdx != idx) ==> r == s)
  {
    var r := Next(cfg, s, Reply(idx, answer));
    var at := FindEntry(s.entries, idx, 0);
    if at == |s.entries| {
      assert r == s;
    }
    hide Inv, Next, Unanswered, Forwarded;
    if at < |s.entries| {
      var e := s.entries[at];
      assert e in s.entries;
      AnswerIsHandled(cfg, s, idx, answer, e);
      if e.card != null {
        ForwardedLacks(cfg, s, r, idx, answer, e.card);
      } else {
        UnansweredIn(s.entries, idx);
      }
    }
  }

  /** MSG_SRV_DATA: no card, no request and no update card is left. */
  lemma ServerDataEmpties(cfg: Config, s: State)
    ensures var r := Next(cfg, s, Step.ServerData);
            r.cards == [] && r.entries == [] && r.emm == null && r.serverIdx == s.serverIdx
    ensures Next(cfg, s, Step.ServerData).counts == Counts(0, 0, 0, 0, 0, 0, 0)
  {
  }
}
