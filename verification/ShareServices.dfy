/** What a listed card carries (create_card, add_card_providers, copy_sids and add_card_to_serverlist,
    oscam/module-cccshare.c, lines 505-606 and 693-830): every field of the card it was made from, its good
    and its bad services each in their place, its nodes and its providers. */
module ShareServices {
  import opened Cards
  import opened ShareList

  ghost predicate AllZero(s: seq<Byte>) {
    forall i :: 0 <= i < |s| ==> s[i] == 0
  }

  ghost predicate GroupsIn(few: bv64, many: bv64) {
    many & few == few
  }

  lemma GroupsInMore(few: bv64, many: bv64, other: bv64)
    ensures GroupsIn(few, few) && (GroupsIn(few, many) ==> GroupsIn(few, many | other))
  {
    GroupKept(few);
    GroupsGrow(many, other, few);
  }

  /** A card with AU and a serial number is listed for AU clients with the number, for the others without;
      any other card is listed as it is. */
  ghost predicate AuPart(x: Card, c: Card) {
    if c.aufilter == 0 && c.au && !AllZero(c.hexserial) then
      || (x.aufilter == 1 && x.hexserial == c.hexserial)
      || (x.aufilter == 2 && |x.hexserial| == |c.hexserial| && AllZero(x.hexserial))
    else x.aufilter == c.aufilter && x.hexserial == c.hexserial
  }

  /** The listed card `x` carries what `c` carries.  Under MINIMIZE_CAID the hop may be 0 and the nodes
      may be gone; unless the policy is the plain one, so may the bad services of a card that no service
      table made, and there may be more groups and providers. */
  ghost predicate Carries(p: Policy, x: Card, c: Card) {
    && x.remoteId == c.remoteId && x.caid == c.caid && x.cardType == c.cardType && x.sidtab == c.sidtab
    && x.reshare == c.reshare && x.au == c.au && x.isExt == c.isExt && x.timeout == c.timeout
    && (x.hop == c.hop || (p == MINIMIZE_CAID && x.hop == 0))
    && AuPart(x, c)
    && Covers(x.goodsids, c.goodsids)
    && (Covers(x.badsids, c.badsids) || (p != PLAIN && c.sidtab == None && x.badsids == []))
    && (SameNodes(x.nodes, c.nodes) || (p == MINIMIZE_CAID && x.nodes == []))
    && Provs(c.providers) <= Provs(x.providers) && (p == PLAIN ==> Provs(c.providers) == Provs(x.providers))
    && GroupsIn(c.grp, x.grp) && (p == PLAIN ==> x.grp == c.grp)
  }

  ghost predicate SomeCarried(p: Policy, x: Card, calls: seq<(Card, bool)>) {
    exists m :: 0 <= m < |calls| && Carries(p, x, calls[m].0)
  }

  ghost predicate AllCarry(p: Policy, list: seq<Card>, calls: seq<(Card, bool)>) {
    forall i :: 0 <= i < |list| ==> SomeCarried(p, list[i], calls)
  }

  lemma CarriesSelf(p: Policy, c: Card)
    requires !Splits(c)
    ensures Carries(p, c, c)
  {
    hide Covers, SameNodes, Provs;
    CoversSame(c.goodsids);
    CoversSame(c.badsids);
    NodesSame(c.nodes);
    GroupsInMore(c.grp, c.grp, c.grp);
    hide GroupsIn;
  }

  lemma CopyCarries(p: Policy, c: Card)
    requires !Splits(c)
    ensures Carries(p, Inserted(p, c, false), c)
  {
    CopiedFields(c);
    GroupsInMore(c.grp, c.grp, c.grp);
    hide Copied, Covers, SameNodes, Provs, GroupsIn;
  }

  lemma CopiedFields(c: Card)
    ensures var x := Copied(c);
            && x.remoteId == c.remoteId && x.caid == c.caid && x.cardType == c.cardType && x.sidtab == c.sidtab
            && x.reshare == c.reshare && x.au == c.au && x.isExt == c.isExt && x.timeout == c.timeout
            && x.hop == c.hop && x.aufilter == c.aufilter && x.hexserial == c.hexserial && x.grp == c.grp
            && Provs(x.providers) == Provs(c.providers)
            && Covers(x.goodsids, c.goodsids) && Covers(x.badsids, c.badsids) && SameNodes(x.nodes, c.nodes)
  {
    CopiedFacts(c);
    CopiedServices(c);
    hide Covers, SameNodes, Provs, NoDoubles, AddSids, AddNodes, AddProviders;
  }

  /** The two cards that a split inserts. */
  lemma SplitCarries(p: Policy, c: Card, free: bool)
    requires Splits(c)
    ensures Carries(p, NonAuCopy(c.(aufilter := 1)), c)
    ensures Carries(p, Inserted(p, c.(aufilter := 1), free), c)
  {
    var own := c.(aufilter := 1);
    CopiedFields(own);
    CoversSame(c.goodsids);
    CoversSame(c.badsids);
    NodesSame(c.nodes);
    GroupsInMore(c.grp, c.grp, c.grp);
    hide Copied, Covers, SameNodes, Provs, GroupsIn;
  }

  lemma MergedLists(p: Policy, x: Card, e: Card)
    ensures Merged(p, x, e).badsids == if p != PLAIN && x.sidtab == None then [] else x.badsids
    ensures Merged(p, x, e).nodes == if p == MINIMIZE_CAID then [] else x.nodes
    ensures p == PLAIN ==> Merged(p, x, e) == x
    ensures var y := Merged(p, x, e);
            y == x.(grp := y.grp, providers := y.providers, nodes := y.nodes, badsids := y.badsids)
  {
    hide AddProviders;
  }

  lemma ProvidersGrow(a: seq<Provider>, b: seq<Provider>)
    ensures Provs(a) <= Provs(AddProviders(a, b))
  {
    AddProvidersFacts(a, b);
    hide Provs, AddProviders, NoDoubles, NumSameProviders;
  }

  lemma MergedGroups(p: Policy, x: Card, e: Card, c: Card)
    requires GroupsIn(c.grp, x.grp)
    ensures GroupsIn(c.grp, Merged(p, x, e).grp)
  {
    match p
    case PLAIN =>
    case MINIMIZE_HOPS => GroupsInMore(c.grp, x.grp, e.grp);
    case MINIMIZE_CAID => GroupsInMore(c.grp, x.grp, e.grp);
    hide GroupsIn;
  }

  lemma MergedProviders(p: Policy, x: Card, e: Card)
    ensures Provs(x.providers) <= Provs(Merged(p, x, e).providers)
  {
    ProvidersGrow(x.providers, e.providers);
    hide Provs, AddProviders;
  }

  lemma AuPartKept(x: Card, y: Card, c: Card)
    requires AuPart(x, c) && y.aufilter == x.aufilter && y.hexserial == x.hexserial
    ensures AuPart(y, c)
  {
    hide AllZero;
  }

  lemma MergedCarries(p: Policy, x: Card, e: Card, c: Card)
    requires Carries(p, x, c)
    ensures Carries(p, Merged(p, x, e), c)
  {
    MergedLists(p, x, e);
    MergedGroups(p, x, e, c);
    MergedProviders(p, x, e);
    hide Merged;
    AuPartKept(x, Merged(p, x, e), c);
    hide Covers, SameNodes, Provs, GroupsIn, AuPart;
  }

  lemma AddOneCarries(p: Policy, list: seq<Card>, e: Card, free: bool, calls: seq<(Card, bool)>)
    requires AllCarry(p, list, calls) && SomeCarried(p, Inserted(p, e, free), calls)
    ensures AllCarry(p, AddOne(p, list, e, free), calls)
  {
    hide Carries, Inserted, Merged, Matches;
    var k := FindMatch(p, list, e, 0);
    if k < |list| {
      var m :| 0 <= m < |calls| && Carries(p, list[k], calls[m].0);
      MergedCarries(p, list[k], e, calls[m].0);
    }
  }

  lemma AddedCarries(p: Policy, list: seq<Card>, c: Card, free: bool, calls: seq<(Card, bool)>, m: nat)
    requires AllCarry(p, list, calls) && m < |calls| && calls[m].0 == c
    ensures AllCarry(p, Added(p, list, c, free), calls)
  {
    hide Carries, AddOne, AllCarry, NonAuCopy, IsAuCard;
    if Splits(c) {
      var other, own := NonAuCopy(c.(aufilter := 1)), c.(aufilter := 1);
      SplitCarries(p, c, free);
      NotSplitAgain(own);
      AddOneCarries(p, list, other, true, calls);
      AddOneCarries(p, AddOne(p, list, other, true), own, free, calls);
    } else {
      CarriesSelf(p, c);
      CopyCarries(p, c);
      AddOneCarries(p, list, c, free, calls);
    }
  }

  lemma {:induction false} AllAdded(p: Policy, list: seq<Card>, calls: seq<(Card, bool)>, k: nat)
    requires k <= |calls| && AllCarry(p, list, calls)
    ensures AllCarry(p, AddAll(p, list, calls[k..]), calls)
    decreases |calls| - k
  {
    hide AllCarry, Added;
    if k < |calls| {
      AddedCarries(p, list, calls[k].0, calls[k].1, calls, k);
      assert calls[k..][1..] == calls[k + 1..];
      AllAdded(p, Added(p, list, calls[k].0, calls[k].1), calls, k + 1);
    }
  }

  /** For every policy and every history of calls, each listed card carries what one of the cards that
      were added carries. */
  lemma ListedCardsCarry(p: Policy, calls: seq<(Card, bool)>)
    ensures AllCarry(p, AddAll(p, [], calls), calls)
  {
    AllAdded(p, [], calls, 0);
    assert calls[0..] == calls;
  }
}
