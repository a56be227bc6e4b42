/** The copies of AU cards for clients without AU (add_card_to_serverlist, oscam/module-cccshare.c, lines
    693-712, and update_card_list, lines 1121-1200).

    The first call with a card of a reader splits it and leaves the mark on it.  The reader keeps the card,
    so the next refresh hands over a marked card, which is not split again. */
module ShareCopies {
  import opened Cards
  import opened ShareList
  import opened ShareMatching
  import opened ShareRefresh

  /** The calls of the next refresh, when the readers still have the same cards; a card that is handed
      over for good is made anew. */
  function Again(calls: seq<(Card, bool)>): seq<(Card, bool)> {
    if calls == [] then []
    else [(if calls[0].1 then calls[0].0 else Marked(calls[0].0), calls[0].1)] + Again(calls[1..])
  }

  ghost predicate NoCopies(list: seq<Card>) {
    forall i :: 0 <= i < |list| ==> list[i].aufilter != 2
  }

  lemma AddOneNoCopies(p: Policy, list: seq<Card>, c: Card, free: bool)
    requires NoCopies(list) && c.aufilter != 2
    ensures NoCopies(AddOne(p, list, c, free))
  {
    hide AddProviders, AddNodes, AddSids, FindMatch, Matches;
  }

  lemma SplitOnce(c: Card)
    ensures !Splits(Marked(c))
  {
  }

  /** Whatever cards the readers hold: after one refresh has split them, no later list has a copy for
      clients without AU, as long as no card with AU is handed over for good. */
  lemma {:induction false} LaterListsHaveNoCopies(p: Policy, list: seq<Card>, calls: seq<(Card, bool)>)
    requires forall i :: 0 <= i < |calls| ==> calls[i].0.aufilter != 2 && (calls[i].1 ==> !Splits(calls[i].0))
    requires NoCopies(list)
    ensures NoCopies(AddAll(p, list, Again(calls)))
    decreases |calls|
  {
    hide AddOne, IsAuCard;
    if calls != [] {
      var c := Again(calls)[0];
      SplitOnce(calls[0].0);
      assert c.0.aufilter != 2 && Again(calls)[1..] == Again(calls[1..]);
      AddOneNoCopies(p, list, c.0, c.1);
      LaterListsHaveNoCopies(p, AddOne(p, list, c.0, c.1), calls[1..]);
    }
  }

  /** The lists of the first and of the second refresh for one card of a reader. */
  lemma FirstAndSecond(p: Policy, c: Card)
    requires Splits(c)
    ensures var own := c.(aufilter := 1);
            && AddAll(p, [], [(c, false)]) == [NonAuCopy(own), Inserted(p, own, false)]
            && AddAll(p, [], Again([(c, false)])) == [Inserted(p, own, false)]
  {
    var own := c.(aufilter := 1);
    HexserialsDiffer(p, c);
    hide NonAuCopy, Inserted, IsAuCard, Matches;
    assert [(c, false)][1..] == [] && [(own, false)][1..] == [];
    assert Again([(c, false)]) == [(own, false)] + Again([]) == [(own, false)];
    NotSplitAgain(own);
    assert Added(p, [], NonAuCopy(own), true) == [NonAuCopy(own)];
    assert FindMatch(p, [NonAuCopy(own)], own, 0) == 1;
  }

  lemma HexserialsDiffer(p: Policy, c: Card)
    requires Splits(c)
    ensures var own := c.(aufilter := 1);
            !Matches(p, own, NonAuCopy(own)) && !SameCard(Inserted(p, own, false), NonAuCopy(own))
  {
    hide AddProviders, AddNodes, AddSids, EqualProviders, NumSameProviders;
    var i :| 0 <= i < |c.hexserial| && c.hexserial[i] != 0;
    assert NonAuCopy(c.(aufilter := 1)).hexserial[i] == 0;
  }

  /** At the second refresh the copy of a remote card is left over, whatever ids the two cards have got,
      and a client without AU may have none of the cards that remain. */
  lemma CopyIsWithdrawn(p: Policy, c: Card, id: nat, id2: nat, now: int, cl: Client)
    requires Splits(c) && c.cardType == REMOTECARD && !cl.hasAu
    ensures var list := AddAll(p, [], [(c, false)]);
            && |list| == 2 && list[0].aufilter == 2
            && var d := DiffOf([list[0].(id := id), list[1].(id := id2)], AddAll(p, [], Again([(c, false)])), now);
               d.rest == [list[0].(id := id)] && d.list == [list[1].(id := id2)] && !ValidFor(cl, d.list[0])
  {
    var own := c.(aufilter := 1);
    FirstAndSecond(p, c);
    HexserialsDiffer(p, c);
    NotSplitAgain(own);
    var copy, mine := NonAuCopy(own), Inserted(p, own, false);
    MatchesSecond(copy.(id := id), mine.(id := id2), mine, now);
    assert mine.(id := id2, timeout := mine.timeout) == mine.(id := id2);
    InsertedFilter(p, own);
  }

  lemma InsertedFilter(p: Policy, c: Card)
    ensures Inserted(p, c, false).aufilter == c.aufilter && Inserted(p, c, false).cardType == c.cardType
  {
  }

  lemma MatchesSecond(a: Card, b: Card, c: Card, now: int)
    requires !SameCard(c, a) && SameCard(c, b) && !TimedOut(b, now)
    ensures DiffOf([a, b], [c], now) == var kept := c.(id := b.id, timeout := b.timeout);
                                        Diff([kept], [a], [kept], [], [])
  {
    hide SameCard, TimedOut;
    assert FindReported([a, b], c, now, 0) == 1;
    assert Without([a, b], 1) == [a];
    var d := ReportOne(Diff([], [a, b], [], [], []), c, now);
    assert [c][1..] == [] && ReportAll(d, [], now) == d;
  }
}
