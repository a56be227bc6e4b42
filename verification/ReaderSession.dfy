/** The card table of a CCcam reader: add_extended_ecm_idx, get_extended_ecm_idx and
    free_extended_ecm_idx_by_card, the sending of requests, cc_card_removed, move_card_to_end and the
    messages that change the table (oscam/module-cccam.c, lines 360-450, 1005-1012, 1343-1368,
    1860-1913, 2154-2172, 2265-2346, 2436-2500 and 2636-2700).

    The reader keeps the cards its server has announced, counters of their hops and reshare levels, the
    requests that wait for an answer, each with the card it was sent to, and the card for updates. */
module ReaderSession {
  import opened Cards

  /** A card in memory; two references are the same card only if they are the same object. */
  class CcCard {
    const card: Card

    constructor (card: Card)
      ensures this.card == card
    {
      this.card := card;
    }
  }

  /** cc_extended_ecm_idx */
  datatype Entry = Entry(sendIdx: nat, ecmIdx: nat, card: CcCard?, cccamId: nat)

  datatype Config = Config(maxhops: int, mindown: nat, ownNode: NodeId, grp: bv64, auDisabled: bool,
                           cacheex1: bool)

  datatype Counts = Counts(hop1: int, hop2: int, hopx: int, reshare0: int, reshare1: int, reshare2: int, resharex: int)

  const NO_COUNTS := Counts(0, 0, 0, 0, 0, 0, 0)

  datatype State = State(cards: seq<CcCard>, counts: Counts, entries: seq<Entry>, emm: CcCard?, serverIdx: nat)

  const NO_CARDS := State([], NO_COUNTS, [], null, 0)

  // ---------- Operations ----------

  function Shift(n: Counts, c: Card, step: int): Counts {
    var m := if c.hop == 1 then n.(hop1 := n.hop1 + step)
             else if c.hop == 2 then n.(hop2 := n.hop2 + step)
             else n.(hopx := n.hopx + step);
    if c.reshare == 0 then m.(reshare0 := m.reshare0 + step)
    else if c.reshare == 1 then m.(reshare1 := m.reshare1 + step)
    else if c.reshare == 2 then m.(reshare2 := m.reshare2 + step)
    else m.(resharex := m.resharex + step)
  }

  function Drop(cards: seq<CcCard>, k: nat): seq<CcCard>
    requires k < |cards|
  {
    cards[..k] + cards[k + 1..]
  }

  /** free_extended_ecm_idx_by_card: the entries of a card go. */
  function EntriesWithout(entries: seq<Entry>, c: CcCard): seq<Entry> {
    if entries == [] then []
    else (if entries[0].card == c then [] else [entries[0]]) + EntriesWithout(entries[1..], c)
  }

  /** free_extended_ecm_idx_by_card: the entries of a card stay, without the card. */
  function EntriesNulled(entries: seq<Entry>, c: CcCard): seq<Entry> {
    if entries == [] then []
    else [if entries[0].card == c then entries[0].(card := null) else entries[0]] + EntriesNulled(entries[1..], c)
  }

  /** The position of the entry with a number; the length of the list if there is none. */
  function FindEntry(entries: seq<Entry>, sendIdx: nat, k: nat): (r: nat)
    requires k <= |entries|
    ensures k <= r <= |entries|
    ensures r < |entries| ==> entries[r].sendIdx == sendIdx
    ensures forall i :: k <= i < r ==> entries[i].sendIdx != sendIdx
    decreases |entries| - k
  {
    if k == |entries| || entries[k].sendIdx == sendIdx then k else FindEntry(entries, sendIdx, k + 1)
  }

  function RemoveAt(s: State, k: nat): State
    requires k < |s.cards|
  {
    var c := s.cards[k];
    State(Drop(s.cards, k), Shift(s.counts, c.card, -1), EntriesWithout(s.entries, c),
          if s.emm == c then null else s.emm, s.serverIdx)
  }

  /** cc_card_removed: every card with the id goes. */
  function RemoveFrom(s: State, id: nat, k: nat): State
    requires k <= |s.cards|
    decreases |s.cards| - k
  {
    if k == |s.cards| then s
    else if s.cards[k].card.id == id then RemoveFrom(RemoveAt(s, k), id, k)
    else RemoveFrom(s, id, k + 1)
  }

  function FindCard(cards: seq<CcCard>, c: CcCard, k: nat): (r: nat)
    requires k <= |cards|
    ensures k <= r <= |cards|
    ensures r < |cards| ==> cards[r] == c
    ensures r == |cards| ==> c !in cards[k..]
    decreases |cards| - k
  {
    if k == |cards| || cards[k] == c then k else FindCard(cards, c, k + 1)
  }

  /** move_card_to_end */
  function MoveToEnd(s: State, c: CcCard): State {
    var k := FindCard(s.cards, c, 0);
    if k == |s.cards| then s
    else s.(cards := Drop(s.cards, k) + [c], entries := EntriesNulled(s.entries, c))
  }

  /** The message passes the filters of lines 2268-2279; `allowed` is the CAID filter. */
  predicate Accepted(cfg: Config, raw: Card, allowed: bool) {
    raw.caid != 0 && raw.hop < cfg.maxhops + 1 && raw.reshare >= cfg.mindown && allowed
  }

  /** The card as it is stored: one hop farther, in one byte. */
  function Stored(cfg: Config, raw: Card): Card {
    raw.(cardType := REMOTECARD, grp := cfg.grp, hop := (raw.hop + 1) % 0x100)
  }

  predicate Known(cards: seq<CcCard>, card: Card) {
    exists k :: 0 <= k < |cards| && (cards[k].card.id == card.id || SameCard(cards[k].card, card))
  }

  predicate HasSerial(card: Card) {
    exists i :: 0 <= i < |card.hexserial| && card.hexserial[i] != 0
  }

  /** set_au_data, as far as it concerns the card for updates */
  function AuCard(cfg: Config, c: CcCard, emm: CcCard?): CcCard? {
    if cfg.auDisabled || !HasSerial(c.card) then emm else c
  }

  /** MSG_NEW_CARD; `c` is the object for the card, `wanted` the ident filter. */
  function AddCard(cfg: Config, s: State, raw: Card, c: CcCard, allowed: bool, wanted: bool): State {
    if !Accepted(cfg, raw, allowed) || cfg.ownNode in raw.nodes || !wanted || Known(s.cards, Stored(cfg, raw)) then s
    else s.(cards := s.cards + [c], counts := Shift(s.counts, c.card, 1), emm := AuCard(cfg, c, s.emm))
  }

  function NextIdx(serverIdx: nat): nat {
    if serverIdx + 1 >= 256 then 1 else serverIdx + 1
  }

  /** The sending part of cc_send_ecm with the card at position `k`. */
  function Send(cfg: Config, s: State, extended: bool, k: nat, ecmIdx: nat): State
    requires k < |s.cards|
  {
    var c := s.cards[k];
    var idx := if extended then NextIdx(s.serverIdx) else 1;
    var at := FindEntry(s.entries, idx, 0);
    var e := Entry(idx, ecmIdx, c, c.card.id);
    s.(serverIdx := if extended then idx else s.serverIdx,
       entries := if at < |s.entries| then s.entries[at := e] else s.entries + [e],
       emm := AuCard(cfg, c, s.emm))
  }

  /** MSG_CW_NOK1: the card is gone; MSG_CW_NOK2: it cannot decode, or (`cmd05`) a key command was
      refused; MSG_CW_ECM: a control word, perhaps of zeros, perhaps too slow. */
  datatype Answer = Nok1 | Nok2(cmd05: bool) | Cw(zero: bool, slow: bool, extended: bool)

  datatype Fate = Kept | Moved | Gone

  /** What an answer means for the card that was asked. */
  function FateOf(cfg: Config, answer: Answer): Fate {
    match answer
    case Nok1 => Gone
    case Nok2(cmd05) => if cmd05 || !cfg.cacheex1 then Moved else Kept
    case Cw(zero, slow, extended) => if zero || (slow && !extended) then Moved else Kept
  }

  /** An answer to request `idx`: the entry goes, and the card is kept, moved to the end or removed. */
  function Receive(cfg: Config, s: State, idx: nat, answer: Answer): State {
    var at := FindEntry(s.entries, idx, 0);
    if at == |s.entries| then s
    else
      var c := s.entries[at].card;
      var s1 := s.(entries := s.entries[..at] + s.entries[at + 1..]);
      if c == null then s1
      else
        match FateOf(cfg, answer)
        case Gone => RemoveFrom(s1, c.card.id, 0)
        case Moved => MoveToEnd(s1, c)
        case Kept => s1
  }

  datatype Step =
    | ServerData
    | NewCard(raw: Card, c: CcCard, allowed: bool, wanted: bool)
    | CardRemoved(id: nat)
    | SendEcm(extended: bool, k: nat, ecmIdx: nat)
    | Reply(idx: nat, answer: Answer)

  function Next(cfg: Config, s: State, step: Step): State {
    match step
    case ServerData => State([], NO_COUNTS, [], null, s.serverIdx)
    case NewCard(raw, c, allowed, wanted) => AddCard(cfg, s, raw, c, allowed, wanted)
    case CardRemoved(id) => RemoveFrom(s, id, 0)
    case SendEcm(extended, k, ecmIdx) => if k < |s.cards| then Send(cfg, s, extended, k, ecmIdx) else s
    case Reply(idx, answer) => Receive(cfg, s, idx, answer)
  }

  /** The object of a new card holds that card and is not in use. */
  ghost predicate Proper(cfg: Config, s: State, step: Step) {
    step.NewCard? ==> step.c.card == Stored(cfg, step.raw) && step.c !in s.cards
  }

  function Run(cfg: Config, s: State, steps: seq<Step>): State
    decreases |steps|
  {
    if steps == [] then s else Run(cfg, Next(cfg, s, steps[0]), steps[1..])
  }

  ghost predicate ProperRun(cfg: Config, s: State, steps: seq<Step>)
    decreases |steps|
  {
    steps == [] || (Proper(cfg, s, steps[0]) && ProperRun(cfg, Next(cfg, s, steps[0]), steps[1..]))
  }

  // ---------- The invariant ----------

  predicate HopIs(c: Card, class_: nat) {
    if class_ == 1 || class_ == 2 then c.hop == class_ else c.hop != 1 && c.hop != 2
  }

  predicate ReshareIs(c: Card, class_: nat) {
    if class_ <= 2 then c.reshare == class_ else c.reshare > 2
  }

  function CountHop(cards: seq<CcCard>, class_: nat): nat {
    if cards == [] then 0 else CountHop(cards[..|cards| - 1], class_) + if HopIs(cards[|cards| - 1].card, class_) then 1 else 0
  }

  function CountReshare(cards: seq<CcCard>, class_: nat): nat {
    if cards == [] then 0
    else CountReshare(cards[..|cards| - 1], class_) + if ReshareIs(cards[|cards| - 1].card, class_) then 1 else 0
  }

  /** The counters say how many cards there are of each kind. */
  predicate Counted(cards: seq<CcCard>, n: Counts) {
    && n.hop1 == CountHop(cards, 1) && n.hop2 == CountHop(cards, 2) && n.hopx == CountHop(cards, 3)
    && n.reshare0 == CountReshare(cards, 0) && n.reshare1 == CountReshare(cards, 1)
    && n.reshare2 == CountReshare(cards, 2) && n.resharex == CountReshare(cards, 3)
  }

  /** Ids differ and no two cards are the same card. */
  ghost predicate Distinct(cards: seq<CcCard>) {
    forall i, j :: 0 <= i < j < |cards| ==> Unlike(cards[i].card, cards[j].card)
  }

  predicate Unlike(a: Card, b: Card) {
    a.id != b.id && !SameCard(a, b)
  }

  ghost predicate Foreign(cfg: Config, cards: seq<CcCard>) {
    forall i :: 0 <= i < |cards| ==> cfg.ownNode !in cards[i].card.nodes && cards[i].card.caid != 0
  }

  /** No two waiting requests share a number, and each knows a card of the list, or none. */
  ghost predicate EntriesOk(cards: seq<CcCard>, entries: seq<Entry>) {
    Unique(entries) && forall i :: 0 <= i < |entries| ==> EntryOk(cards, entries[i])
  }

  predicate EntryOk(cards: seq<CcCard>, e: Entry) {
    1 <= e.sendIdx <= 255 && (e.card == null || (e.card in cards && e.card.card.id == e.cccamId))
  }

  ghost predicate Inv(cfg: Config, s: State) {
    && Counted(s.cards, s.counts) && Distinct(s.cards) && Foreign(cfg, s.cards)
    && EntriesOk(s.cards, s.entries)
    && (s.emm == null || s.emm in s.cards)
    && s.serverIdx <= 255
  }

  lemma {:induction false} CountsPartition(cards: seq<CcCard>)
    ensures CountHop(cards, 1) + CountHop(cards, 2) + CountHop(cards, 3) == |cards|
    ensures CountReshare(cards, 0) + CountReshare(cards, 1) + CountReshare(cards, 2) + CountReshare(cards, 3) == |cards|
  {
    if cards != [] {
      CountsPartition(cards[..|cards| - 1]);
    }
  }

  lemma CountedMore(cards: seq<CcCard>, n: Counts, c: CcCard)
    requires Counted(cards, n)
    ensures Counted(cards + [c], Shift(n, c.card, 1))
  {
    assert (cards + [c])[..|cards|] == cards;
  }

  lemma {:induction false} CountDrop(cards: seq<CcCard>, k: nat, class_: nat)
    requires k < |cards|
    ensures CountHop(Drop(cards, k), class_) == CountHop(cards, class_) - if HopIs(cards[k].card, class_) then 1 else 0
    ensures CountReshare(Drop(cards, k), class_)
            == CountReshare(cards, class_) - if ReshareIs(cards[k].card, class_) then 1 else 0
    decreases |cards|
  {
    hide HopIs, ReshareIs;
    var n := |cards| - 1;
    if k == n {
      assert Drop(cards, k) == cards[..n];
    } else {
      CountDrop(cards[..n], k, class_);
      assert Drop(cards, k)[..n - 1] == Drop(cards[..n], k);
    }
  }

  lemma CountedFewer(cards: seq<CcCard>, n: Counts, k: nat)
    requires k < |cards| && Counted(cards, n)
    ensures Counted(Drop(cards, k), Shift(n, cards[k].card, -1))
  {
    hide CountHop, CountReshare, Drop;
    CountDrop(cards, k, 0);
    CountDrop(cards, k, 1);
    CountDrop(cards, k, 2);
    CountDrop(cards, k, 3);
  }

  lemma ShiftBack(n: Counts, c: Card)
    ensures Shift(Shift(n, c, -1), c, 1) == n
  {
  }

  lemma DistinctFewer(cfg: Config, cards: seq<CcCard>, k: nat)
    requires k < |cards| && Distinct(cards) && Foreign(cfg, cards)
    ensures Distinct(Drop(cards, k)) && Foreign(cfg, Drop(cards, k))
    ensures forall i :: 0 <= i < |cards| && i != k ==> cards[i] in Drop(cards, k)
    ensures cards[k] !in Drop(cards, k)
  {
    hide Unlike;
    var d := Drop(cards, k);
    assert forall i :: 0 <= i < |d| ==> d[i] == cards[if i < k then i else i + 1];
    forall i | 0 <= i < |cards| && i != k ensures cards[i] in d {
      assert d[if i < k then i else i - 1] == cards[i];
    }
    forall i | 0 <= i < |d| ensures d[i] != cards[k] {
      var j := if i < k then i else i + 1;
      assert Unlike(cards[if j < k then j else k].card, cards[if j < k then k else j].card);
      UnlikeLaws(cards[k].card, cards[k].card);
    }
  }

  /** The entries that stay do not know the card `c`. */
  lemma {:induction false} WithoutOk(cards: seq<CcCard>, entries: seq<Entry>, c: CcCard, left: seq<CcCard>)
    requires forall i :: 0 <= i < |entries| ==> EntryOk(cards, entries[i])
    requires forall i :: 0 <= i < |cards| && cards[i] != c ==> cards[i] in left
    ensures forall i :: 0 <= i < |EntriesWithout(entries, c)| ==> EntryOk(left, EntriesWithout(entries, c)[i])
  {
    if entries != [] {
      assert EntryOk(cards, entries[0]);
      WithoutOk(cards, entries[1..], c, left);
    }
  }

  lemma {:induction false} WithoutFresh(entries: seq<Entry>, c: CcCard, idx: nat)
    requires forall i :: 0 <= i < |entries| ==> entries[i].sendIdx != idx
    ensures forall i :: 0 <= i < |EntriesWithout(entries, c)| ==> EntriesWithout(entries, c)[i].sendIdx != idx
  {
    if entries != [] {
      WithoutFresh(entries[1..], c, idx);
    }
  }

  ghost predicate Unique(entries: seq<Entry>) {
    forall i, j :: 0 <= i < j < |entries| ==> entries[i].sendIdx != entries[j].sendIdx
  }

  lemma {:induction false} WithoutUnique(entries: seq<Entry>, c: CcCard)
    requires Unique(entries)
    ensures Unique(EntriesWithout(entries, c))
  {
    if entries != [] {
      WithoutUnique(entries[1..], c);
      WithoutFresh(entries[1..], c, entries[0].sendIdx);
    }
  }

  lemma {:induction false} NulledAt(entries: seq<Entry>, c: CcCard)
    ensures |EntriesNulled(entries, c)| == |entries|
    ensures forall i :: 0 <= i < |entries| ==>
              EntriesNulled(entries, c)[i] == if entries[i].card == c then entries[i].(card := null) else entries[i]
  {
    if entries != [] {
      NulledAt(entries[1..], c);
    }
  }

  lemma RemoveAtInv(cfg: Config, s: State, k: nat)
    requires Inv(cfg, s) && k < |s.cards|
    ensures Inv(cfg, RemoveAt(s, k))
  {
    hide Counted, Distinct, Foreign, Shift, Drop;
    var c := s.cards[k];
    CountedFewer(s.cards, s.counts, k);
    DistinctFewer(cfg, s.cards, k);
    WithoutOk(s.cards, s.entries, c, Drop(s.cards, k));
    WithoutUnique(s.entries, c);
  }

  lemma {:induction false} RemoveFromInv(cfg: Config, s: State, id: nat, k: nat)
    requires Inv(cfg, s) && k <= |s.cards|
    ensures Inv(cfg, RemoveFrom(s, id, k))
    decreases |s.cards| - k
  {
    hide Inv;
    if k < |s.cards| {
      if s.cards[k].card.id == id {
        RemoveAtInv(cfg, s, k);
        RemoveFromInv(cfg, RemoveAt(s, k), id, k);
      } else {
        RemoveFromInv(cfg, s, id, k + 1);
      }
    }
  }

  lemma MovedDistinct(cfg: Config, cards: seq<CcCard>, k: nat)
    requires k < |cards| && Distinct(cards) && Foreign(cfg, cards)
    ensures Distinct(Drop(cards, k) + [cards[k]]) && Foreign(cfg, Drop(cards, k) + [cards[k]])
    ensures forall i :: 0 <= i < |cards| ==> cards[i] in Drop(cards, k) + [cards[k]]
  {
    hide Unlike;
    var d, c := Drop(cards, k), cards[k];
    DistinctFewer(cfg, cards, k);
    forall i | 0 <= i < |d| ensures Unlike(d[i].card, c.card) {
      var j := if i < k then i else i + 1;
      assert d[i] == cards[j];
      assert Unlike(cards[if j < k then j else k].card, cards[if j < k then k else j].card);
      UnlikeLaws(c.card, d[i].card);
    }
  }

  lemma UnlikeLaws(a: Card, b: Card)
    ensures (Unlike(a, b) <==> Unlike(b, a)) && !Unlike(a, a)
  {
  }

  lemma MoveInv(cfg: Config, s: State, c: CcCard)
    requires Inv(cfg, s)
    ensures Inv(cfg, MoveToEnd(s, c))
  {
    hide Counted, Distinct, Foreign, Shift, Drop;
    var k := FindCard(s.cards, c, 0);
    if k < |s.cards| {
      CountedFewer(s.cards, s.counts, k);
      CountedMore(Drop(s.cards, k), Shift(s.counts, c.card, -1), c);
      ShiftBack(s.counts, c.card);
      MovedDistinct(cfg, s.cards, k);
      NulledAt(s.entries, c);
      var next := EntriesNulled(s.entries, c);
      forall i | 0 <= i < |next| ensures EntryOk(Drop(s.cards, k) + [c], next[i]) {
        assert EntryOk(s.cards, s.entries[i]);
      }
    }
  }

  lemma AddInv(cfg: Config, s: State, raw: Card, c: CcCard, allowed: bool, wanted: bool)
    requires Inv(cfg, s) && c.card == Stored(cfg, raw) && c !in s.cards
    ensures Inv(cfg, AddCard(cfg, s, raw, c, allowed, wanted))
  {
    hide Counted, Shift, HasSerial;
    var next := s.cards + [c];
    if Accepted(cfg, raw, allowed) && cfg.ownNode !in raw.nodes && !Known(s.cards, c.card) {
      CountedMore(s.cards, s.counts, c);
      forall i | 0 <= i < |s.cards| ensures Unlike(s.cards[i].card, c.card) {
        assert !Known(s.cards, c.card);
      }
      forall i | 0 <= i < |s.entries| ensures EntryOk(next, s.entries[i]) {
        assert EntryOk(s.cards, s.entries[i]);
      }
    }
  }

  lemma SendInv(cfg: Config, s: State, extended: bool, k: nat, ecmIdx: nat)
    requires Inv(cfg, s) && k < |s.cards|
    ensures Inv(cfg, Send(cfg, s, extended, k, ecmIdx))
  {
    hide Counted, Distinct, Foreign, HasSerial;
  }

  lemma ReceiveInv(cfg: Config, s: State, idx: nat, answer: Answer)
    requires Inv(cfg, s)
    ensures Inv(cfg, Receive(cfg, s, idx, answer))
  {
    hide Counted, Distinct, Foreign, RemoveFrom, MoveToEnd, EntryOk;
    var at := FindEntry(s.entries, idx, 0);
    if at < |s.entries| {
      var s1 := s.(entries := s.entries[..at] + s.entries[at + 1..]);
      assert Inv(cfg, s1);
      var c := s.entries[at].card;
      if c != null {
        RemoveFromInv(cfg, s1, c.card.id, 0);
        MoveInv(cfg, s1, c);
      }
    }
  }

  lemma NextInv(cfg: Config, s: State, step: Step)
    requires Inv(cfg, s) && Proper(cfg, s, step)
    ensures Inv(cfg, Next(cfg, s, step))
  {
    hide Inv, AddCard, RemoveFrom, Send, Receive;
    match step {
      case ServerData =>
        NoCardsInv(cfg, s);
      case NewCard(raw, c, allowed, wanted) => AddInv(cfg, s, raw, c, allowed, wanted);
      case CardRemoved(id) => RemoveFromInv(cfg, s, id, 0);
      case SendEcm(extended, k, ecmIdx) =>
        if k < |s.cards| {
          SendInv(cfg, s, extended, k, ecmIdx);
        }
      case Reply(idx, answer) => ReceiveInv(cfg, s, idx, answer);
    }
  }

  lemma NoCardsInv(cfg: Config, s: State)
    requires Inv(cfg, s)
    ensures Inv(cfg, State([], NO_COUNTS, [], null, s.serverIdx))
  {
  }

  /** While logged in, whatever messages and requests there are: the counters partition the cards, the
      cards are different and none comes from this server, and no request and no update refers to a
      card that is gone. */
  lemma {:induction false} RunKeepsInv(cfg: Config, s: State, steps: seq<Step>)
    requires Inv(cfg, s) && ProperRun(cfg, s, steps)
    ensures Inv(cfg, Run(cfg, s, steps))
    decreases |steps|
  {
    hide Inv, Next, Proper;
    if steps != [] {
      NextInv(cfg, s, steps[0]);
      RunKeepsInv(cfg, Next(cfg, s, steps[0]), steps[1..]);
    }
  }

  /** At most 255 requests wait for an answer. */
  lemma FewOutstanding(cfg: Config, s: State)
    requires Inv(cfg, s)
    ensures |s.entries| <= 255
  {
    hide Counted, Distinct, Foreign;
    forall i | 0 <= i < |s.entries| ensures 1 <= s.entries[i].sendIdx <= 255 {
      assert EntryOk(s.cards, s.entries[i]);
    }
    Pigeonhole(s.entries, 255);
  }

  lemma {:induction false} Pigeonhole(entries: seq<Entry>, n: nat)
    requires Unique(entries) && forall i :: 0 <= i < |entries| ==> 1 <= entries[i].sendIdx <= n
    ensures |entries| <= n
  {
    if n > 0 {
      var at := FindEntry(entries, n, 0);
      if at < |entries| {
        Pigeonhole(entries[..at] + entries[at + 1..], n - 1);
      } else {
        Pigeonhole(entries, n - 1);
      }
    }
  }

  // ---------- The code ----------

  class Session {
    var cards: seq<CcCard>
    var counts: Counts
    var entries: seq<Entry>
    var lastEmm: CcCard?
    var serverIdx: nat
    const cfg: Config

    ghost function Content(): State
      reads this
    {
      State(cards, counts, entries, lastEmm, serverIdx)
    }

    constructor (cfg: Config)
      ensures this.cfg == cfg && Content() == NO_CARDS && Inv(cfg, Content())
    {
      this.cfg := cfg;
      cards, counts, entries, lastEmm, serverIdx := [], NO_COUNTS, [], null, 0;
    }

    /** MSG_SRV_DATA with 72 bytes, lines 2159-2172 */
    method ServerData()
      modifies this
      ensures Content() == Next(cfg, old(Content()), Step.ServerData)
    {
      cards := [];
      entries := [];
      lastEmm := null;
      counts := NO_COUNTS;
    }

    /** MSG_NEW_CARD, lines 2265-2343 */
    method NewCard(raw: Card, allowed: bool, wanted: bool) returns (ghost c: CcCard)
      requires Inv(cfg, Content())
      modifies this
      ensures Proper(cfg, old(Content()), Step.NewCard(raw, c, allowed, wanted))
      ensures Content() == Next(cfg, old(Content()), Step.NewCard(raw, c, allowed, wanted))
      ensures Inv(cfg, Content())
    {
      hide Inv, SameCard, HasSerial, Shift;
      var stored := new CcCard(Stored(cfg, raw));
      c := stored;
      NextInv(cfg, Content(), Step.NewCard(raw, c, allowed, wanted));
      if raw.caid == 0 || raw.hop >= cfg.maxhops + 1 || raw.reshare < cfg.mindown || !allowed {
        return;
      }
      var k := 0;
      while k < |raw.nodes|
        invariant k <= |raw.nodes| && cfg.ownNode !in raw.nodes[..k]
      {
        if raw.nodes[k] == cfg.ownNode {
          return;
        }
        k := k + 1;
      }
      assert raw.nodes[..k] == raw.nodes;
      if !wanted {
        return;
      }
      var found := IsKnown(stored.card);
      if !found {
        cards := cards + [stored];
        lastEmm := AuCard(cfg, stored, lastEmm);
        counts := Shift(counts, stored.card, 1);
      }
    }

    /** lines 2305-2315 */
    method IsKnown(card: Card) returns (found: bool)
      ensures found <==> Known(cards, card)
    {
      hide SameCard;
      var k := 0;
      while k < |cards|
        invariant k <= |cards|
        invariant forall i :: 0 <= i < k ==> !(cards[i].card.id == card.id || SameCard(cards[i].card, card))
      {
        if cards[k].card.id == card.id || SameCard(cards[k].card, card) {
          return true;
        }
        k := k + 1;
      }
      return false;
    }

    /** free_extended_ecm_idx_by_card, lines 421-440 */
    method FreeEntries(c: CcCard, remove: bool)
      modifies this`entries
      ensures entries == if remove then EntriesWithout(old(entries), c) else EntriesNulled(old(entries), c)
    {
      var done: seq<Entry> := [];
      var todo := entries;
      while todo != []
        invariant remove ==> done + EntriesWithout(todo, c) == EntriesWithout(old(entries), c)
        invariant !remove ==> done + EntriesNulled(todo, c) == EntriesNulled(old(entries), c)
        decreases |todo|
      {
        var e := todo[0];
        todo := todo[1..];
        if e.card != c {
          done := done + [e];
        } else if !remove {
          done := done + [e.(card := null)];
        }
      }
      entries := done;
    }

    /** cc_card_removed, lines 1860-1893 */
    method RemoveCards(id: nat)
      requires Inv(cfg, Content())
      modifies this
      ensures Content() == RemoveFrom(old(Content()), id, 0)
      ensures Inv(cfg, Content())
    {
      hide Inv, Shift, EntriesWithout;
      RemoveFromInv(cfg, Content(), id, 0);
      var k := 0;
      while k < |cards|
        invariant k <= |cards| && RemoveFrom(Content(), id, k) == RemoveFrom(old(Content()), id, 0)
        decreases |cards| - k
      {
        var c := cards[k];
        if c.card.id == id {
          cards := Drop(cards, k);
          if lastEmm == c {
            lastEmm := null;
          }
          FreeEntries(c, true);
          counts := Shift(counts, c.card, -1);
        } else {
          k := k + 1;
        }
      }
    }

    /** move_card_to_end, lines 1895-1913 */
    method MoveCardToEnd(c: CcCard)
      modifies this
      ensures Content() == MoveToEnd(old(Content()), c)
    {
      hide EntriesNulled;
      var k := 0;
      while k < |cards| && cards[k] != c
        invariant k <= |cards| && FindCard(cards, c, k) == FindCard(cards, c, 0)
      {
        k := k + 1;
      }
      if k < |cards| {
        cards := Drop(cards, k);
        FreeEntries(c, false);
        cards := cards + [c];
      }
    }

    /** get_extended_ecm_idx, lines 379-398 */
    method Search(sendIdx: nat) returns (at: nat)
      ensures at == FindEntry(entries, sendIdx, 0)
    {
      at := 0;
      while at < |entries| && entries[at].sendIdx != sendIdx
        invariant at <= |entries| && FindEntry(entries, sendIdx, at) == FindEntry(entries, sendIdx, 0)
      {
        at := at + 1;
      }
    }

    /** The sending part of cc_send_ecm, lines 1343-1368 and 1380, with the card that was chosen */
    method SendEcm(extended: bool, k: nat, ecmIdx: nat)
      requires Inv(cfg, Content()) && k < |cards|
      modifies this
      ensures Content() == Next(cfg, old(Content()), Step.SendEcm(extended, k, ecmIdx)) && Inv(cfg, Content())
    {
      hide Inv, HasSerial;
      NextInv(cfg, Content(), Step.SendEcm(extended, k, ecmIdx));
      var card := cards[k];
      var sendIdx := 1;
      if extended {
        serverIdx := serverIdx + 1;
        if serverIdx >= 256 {
          serverIdx := 1;
        }
        sendIdx := serverIdx;
      }
      var at := Search(sendIdx);
      var e := Entry(sendIdx, ecmIdx, card, card.card.id);
      if at < |entries| {
        entries := entries[at := e];
      } else {
        entries := entries + [e];
      }
      lastEmm := AuCard(cfg, card, lastEmm);
    }

    /** MSG_CW_NOK1, MSG_CW_NOK2 and MSG_CW_ECM, lines 2437-2478 and 2639-2687 */
    method Reply(idx: nat, answer: Answer)
      requires Inv(cfg, Content())
      modifies this
      ensures Content() == Next(cfg, old(Content()), Step.Reply(idx, answer)) && Inv(cfg, Content())
    {
      hide Inv, RemoveFrom, MoveToEnd;
      ReceiveInv(cfg, Content(), idx, answer);
      var at := Search(idx);
      if at < |entries| {
        var c := entries[at].card;
        EntryRemoved(cfg, Content(), at);
        entries := entries[..at] + entries[at + 1..];
        if c != null {
          match answer {
            case Nok1 => RemoveCards(c.card.id);
            case Nok2(cmd05) =>
              if cmd05 {
                MoveCardToEnd(c);
              } else if !cfg.cacheex1 {
                MoveCardToEnd(c);
              }
            case Cw(zero, slow, extended) =>
              if zero {
                MoveCardToEnd(c);
              } else if slow && !extended {
                MoveCardToEnd(c);
              }
          }
        }
      }
    }
  }

  lemma EntryRemoved(cfg: Config, s: State, at: nat)
    requires Inv(cfg, s) && at < |s.entries|
    ensures Inv(cfg, s.(entries := s.entries[..at] + s.entries[at + 1..]))
  {
    hide Counted, Distinct, Foreign, EntryOk;
  }
}
