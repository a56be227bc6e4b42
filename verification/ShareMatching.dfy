/** Matching the new cards of one bucket with those reported before: report_card and
    find_reported_card (oscam/module-cccshare.c, lines 838-894).

    A card that was reported keeps its id and timeout; the others are new, and what is left of the old
    list is gone. */
module ShareMatching {
  import opened Cards

  // ---------- Counting cards ----------

  function CountIf(cards: seq<Card>, f: Card -> bool): nat {
    if cards == [] then 0 else (if f(cards[0]) then 1 else 0) + CountIf(cards[1..], f)
  }

  lemma {:induction false} CountConcat(a: seq<Card>, b: seq<Card>, f: Card -> bool)
    ensures CountIf(a + b, f) == CountIf(a, f) + CountIf(b, f)
    decreases |a|
  {
    if a == [] {
      assert a + b == b;
    } else {
      assert (a + b)[0] == a[0] && (a + b)[1..] == a[1..] + b;
      CountConcat(a[1..], b, f);
    }
  }

  function One(c: Card, f: Card -> bool): nat {
    if f(c) then 1 else 0
  }

  function Without(cards: seq<Card>, k: nat): seq<Card>
    requires k < |cards|
  {
    cards[..k] + cards[k + 1..]
  }

  lemma CountSplit(cards: seq<Card>, k: nat, f: Card -> bool)
    requires k < |cards|
    ensures CountIf(cards, f) == CountIf(cards[..k], f) + One(cards[k], f) + CountIf(cards[k + 1..], f)
  {
    assert cards == cards[..k] + cards[k..];
    CountConcat(cards[..k], cards[k..], f);
    assert cards[k..][1..] == cards[k + 1..];
  }

  lemma CountWithout(cards: seq<Card>, k: nat, f: Card -> bool)
    requires k < |cards|
    ensures CountIf(Without(cards, k), f) == CountIf(cards, f) - One(cards[k], f)
  {
    CountSplit(cards, k, f);
    CountConcat(cards[..k], cards[k + 1..], f);
  }

  lemma CountUpdate(cards: seq<Card>, k: nat, c: Card, f: Card -> bool)
    requires k < |cards|
    ensures CountIf(cards[k := c], f) == CountIf(cards, f) - One(cards[k], f) + One(c, f)
  {
    CountSplit(cards, k, f);
    var next := cards[k := c];
    CountSplit(next, k, f);
    assert next[..k] == cards[..k] && next[k + 1..] == cards[k + 1..];
  }

  lemma CountAppend(cards: seq<Card>, c: Card, f: Card -> bool)
    ensures CountIf(cards + [c], f) == CountIf(cards, f) + One(c, f)
  {
    CountConcat(cards, [c], f);
  }

  lemma {:induction false} CountZero(cards: seq<Card>, f: Card -> bool)
    ensures CountIf(cards, f) == 0 <==> forall i :: 0 <= i < |cards| ==> !f(cards[i])
  {
    if cards != [] {
      CountZero(cards[1..], f);
      if forall i :: 0 <= i < |cards| ==> !f(cards[i]) {
        assert forall i :: 0 <= i < |cards[1..]| ==> !f(cards[1..][i]);
      }
      if CountIf(cards, f) == 0 {
        assert forall i :: 1 <= i < |cards| ==> cards[i] == cards[1..][i - 1];
      }
    }
  }

  // ---------- Matching one bucket ----------

  /** card_timed_out: only cards of this server expire. */
  predicate TimedOut(c: Card, now: int) {
    c.cardType != REMOTECARD && c.timeout < now
  }

  function OfKey(key: Identity): Card -> bool {
    (c: Card) => IdentityOf(c) == key
  }

  function LiveOfKey(key: Identity, now: int): Card -> bool {
    (c: Card) => IdentityOf(c) == key && !TimedOut(c, now)
  }

  function OfTag(key: Identity, id: nat, timeout: int): Card -> bool {
    (c: Card) => IdentityOf(c) == key && c.id == id && c.timeout == timeout
  }

  function OfId(id: nat): Card -> bool {
    (c: Card) => c.id == id
  }

  /** find_reported_card: the first unexpired card that is the same. */
  function FindReported(reported: seq<Card>, card: Card, now: int, k: nat): (r: nat)
    requires k <= |reported|
    ensures k <= r <= |reported|
    ensures forall i :: k <= i < r ==> !(SameCard(card, reported[i]) && !TimedOut(reported[i], now))
    ensures r < |reported| ==> SameCard(card, reported[r]) && !TimedOut(reported[r], now)
    decreases |reported| - k
  {
    if k == |reported| || (SameCard(card, reported[k]) && !TimedOut(reported[k], now)) then k
    else FindReported(reported, card, now, k + 1)
  }

  /** `list` is the new bucket, `rest` what was not found again, `matched` and `added` the new cards
      with and without a predecessor, `todo` the positions of the latter. */
  datatype Diff = Diff(list: seq<Card>, rest: seq<Card>, matched: seq<Card>, added: seq<Card>, todo: seq<nat>)

  function ReportOne(d: Diff, card: Card, now: int): Diff {
    var k := FindReported(d.rest, card, now, 0);
    if k < |d.rest| then
      var kept := card.(id := d.rest[k].id, timeout := d.rest[k].timeout);
      Diff(d.list + [kept], Without(d.rest, k), d.matched + [kept], d.added, d.todo)
    else
      Diff(d.list + [card], d.rest, d.matched, d.added + [card], d.todo + [|d.list|])
  }

  function ReportAll(d: Diff, cards: seq<Card>, now: int): Diff
    decreases |cards|
  {
    if cards == [] then d else ReportAll(ReportOne(d, cards[0], now), cards[1..], now)
  }

  function DiffOf(reported: seq<Card>, cards: seq<Card>, now: int): Diff {
    ReportAll(Diff([], reported, [], [], []), cards, now)
  }

  // ---------- The matching is one-to-one and as large as possible ----------

  /** What holds of the difference while `cards` have been reported against `reported`. */
  ghost predicate Matching(reported: seq<Card>, cards: seq<Card>, now: int, d: Diff) {
    && |d.list| == |cards|
    && (forall i :: 0 <= i < |cards| ==> d.list[i] == cards[i].(id := d.list[i].id, timeout := d.list[i].timeout))
    && |d.todo| == |d.added|
    && |d.list| == |d.matched| + |d.added|
    && |reported| == |d.matched| + |d.rest|
    && (forall i :: 0 <= i < |d.todo| ==> d.todo[i] < |cards| && d.added[i] == d.list[d.todo[i]] == cards[d.todo[i]])
    && (forall i, j :: 0 <= i < j < |d.todo| ==> d.todo[i] < d.todo[j])
  }

  ghost predicate Conserves(reported: seq<Card>, d: Diff, f: Card -> bool) {
    CountIf(d.matched, f) + CountIf(d.rest, f) == CountIf(reported, f)
  }

  ghost predicate Partitions(d: Diff, f: Card -> bool) {
    CountIf(d.list, f) == CountIf(d.matched, f) + CountIf(d.added, f)
  }

  function Min(a: int, b: int): int {
    if a <= b then a else b
  }

  ghost predicate Largest(reported: seq<Card>, cards: seq<Card>, now: int, d: Diff, key: Identity) {
    && CountIf(d.matched, OfKey(key)) == Min(CountIf(cards, OfKey(key)), CountIf(reported, LiveOfKey(key, now)))
    && CountIf(d.rest, LiveOfKey(key, now)) == CountIf(reported, LiveOfKey(key, now)) - CountIf(d.matched, OfKey(key))
    && CountIf(d.list, OfKey(key)) == CountIf(cards, OfKey(key))
  }

  lemma ReportKeepsMatching(reported: seq<Card>, cards: seq<Card>, now: int, d: Diff, c: Card)
    requires Matching(reported, cards, now, d)
    ensures Matching(reported, cards + [c], now, ReportOne(d, c, now))
  {
    hide SameCard, TimedOut;
  }

  /** `f` looks at nothing but what a matched card takes over and what made it match. */
  ghost predicate Inherited(f: Card -> bool) {
    forall a: Card, b: Card :: SameCard(a, b) ==> f(a.(id := b.id, timeout := b.timeout)) == f(b)
  }

  lemma TagsInherited(key: Identity, id: nat, timeout: int)
    ensures Inherited(OfTag(key, id, timeout)) && Inherited(OfId(id))
  {
    forall a: Card, b: Card | SameCard(a, b)
      ensures OfTag(key, id, timeout)(a.(id := b.id, timeout := b.timeout)) == OfTag(key, id, timeout)(b)
    {
      ComparisonsAreEqualities(a, b);
    }
  }

  lemma ReportConserves(reported: seq<Card>, now: int, d: Diff, c: Card, f: Card -> bool)
    requires Inherited(f) && Conserves(reported, d, f)
    ensures Conserves(reported, ReportOne(d, c, now), f)
  {
    hide CountIf, SameCard, TimedOut;
    var k := FindReported(d.rest, c, now, 0);
    if k < |d.rest| {
      var kept := c.(id := d.rest[k].id, timeout := d.rest[k].timeout);
      CountWithout(d.rest, k, f);
      CountAppend(d.matched, kept, f);
    }
  }

  lemma ReportSplits(now: int, d: Diff, c: Card, f: Card -> bool)
    requires Partitions(d, f)
    ensures Partitions(ReportOne(d, c, now), f)
  {
    hide CountIf, SameCard, TimedOut;
    var k := FindReported(d.rest, c, now, 0);
    var kept := if k < |d.rest| then c.(id := d.rest[k].id, timeout := d.rest[k].timeout) else c;
    CountAppend(d.list, kept, f);
    CountAppend(d.matched, kept, f);
    CountAppend(d.added, kept, f);
  }

  lemma ReportStaysLargest(reported: seq<Card>, cards: seq<Card>, now: int, d: Diff, c: Card, key: Identity)
    requires Largest(reported, cards, now, d, key)
    ensures Largest(reported, cards + [c], now, ReportOne(d, c, now), key)
  {
    hide CountIf, SameCard, TimedOut;
    var f, live, k := OfKey(key), LiveOfKey(key, now), FindReported(d.rest, c, now, 0);
    CountAppend(cards, c, f);
    if k < |d.rest| {
      var kept := c.(id := d.rest[k].id, timeout := d.rest[k].timeout);
      ComparisonsAreEqualities(c, d.rest[k]);
      CountWithout(d.rest, k, live);
      CountAppend(d.matched, kept, f);
      CountAppend(d.list, kept, f);
    } else {
      CountAppend(d.list, c, f);
      if IdentityOf(c) == key {
        forall i | 0 <= i < |d.rest| ensures !live(d.rest[i]) {
          ComparisonsAreEqualities(c, d.rest[i]);
        }
        CountZero(d.rest, live);
      }
    }
  }

  /** All of it for a whole bucket. */
  ghost predicate Matched(reported: seq<Card>, cards: seq<Card>, now: int, d: Diff) {
    && Matching(reported, cards, now, d)
    && (forall key :: Largest(reported, cards, now, d, key))
    && (forall f: Card -> bool :: Inherited(f) ==> Conserves(reported, d, f))
    && (forall f: Card -> bool :: Partitions(d, f))
  }

  lemma {:induction false} ReportAllMatches(reported: seq<Card>, done: seq<Card>, cards: seq<Card>, now: int, d: Diff)
    requires Matched(reported, done, now, d)
    ensures Matched(reported, done + cards, now, ReportAll(d, cards, now))
    decreases |cards|
  {
    hide Matching, Largest, Conserves, Partitions, ReportOne, Inherited;
    if cards == [] {
      assert done + cards == done;
    } else {
      var d1, done1 := ReportOne(d, cards[0], now), done + [cards[0]];
      ReportKeepsMatching(reported, done, now, d, cards[0]);
      forall key ensures Largest(reported, done1, now, d1, key) {
        ReportStaysLargest(reported, done, now, d, cards[0], key);
      }
      forall f: Card -> bool | Inherited(f) ensures Conserves(reported, d1, f) {
        ReportConserves(reported, now, d, cards[0], f);
      }
      forall f: Card -> bool ensures Partitions(d1, f) {
        ReportSplits(now, d, cards[0], f);
      }
      ReportAllMatches(reported, done1, cards[1..], now, d1);
      assert done1 + cards[1..] == done + cards;
    }
  }

  /** A refresh matches new cards one-to-one with unexpired reported ones of the same identity, as
      many as possible of each identity; a matched card takes over id and timeout, and no other field
      of any new card changes. */
  lemma MatchingIsLargest(reported: seq<Card>, cards: seq<Card>, now: int)
    ensures Matched(reported, cards, now, DiffOf(reported, cards, now))
  {
    hide ReportAll;
    var d := Diff([], reported, [], [], []);
    assert [] + cards == cards;
    ReportAllMatches(reported, [], cards, now, d);
  }

  /** A list that holds, of every identity, as many cards as are reported and unexpired changes
      nothing: no card is announced and none is removed. */
  lemma UnchangedListIsSilent(reported: seq<Card>, cards: seq<Card>, now: int)
    requires |cards| == |reported|
    requires forall key :: CountIf(cards, OfKey(key)) == CountIf(reported, LiveOfKey(key, now))
    ensures DiffOf(reported, cards, now).todo == [] && DiffOf(reported, cards, now).rest == []
  {
    hide DiffOf, Conserves;
    var d := DiffOf(reported, cards, now);
    MatchingIsLargest(reported, cards, now);
    if d.added != [] {
      var key := IdentityOf(d.added[0]);
      assert Largest(reported, cards, now, d, key) && Partitions(d, OfKey(key));
      CountZero(d.added, OfKey(key));
    }
  }
}
