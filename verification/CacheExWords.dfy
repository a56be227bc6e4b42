/** Which pushed control words get into the cache, and which are refused from then on
    (cacheex_add_to_cache_int, oscam/module-cacheex.c, lines 285-474).

    The conditions are stated on the bytes of the word and the settings of the connection end. */
module CacheExWords {
  import opened CacheEx
  import opened CacheExFlood

  /** `d` is the sum of the others modulo 256. */
  predicate SumsUp(a: Byte, b: Byte, c: Byte, d: Byte) {
    d as int == (a as int + b as int + c as int) % 256
  }

  predicate FourSums(w: Cw) {
    && SumsUp(w[0], w[1], w[2], w[3]) && SumsUp(w[4], w[5], w[6], w[7])
    && SumsUp(w[8], w[9], w[10], w[11]) && SumsUp(w[12], w[13], w[14], w[15])
  }

  predicate SomeByte(w: Cw) {
    w[0] > 0 || w[1] > 0 || w[2] > 0 || w[4] > 0 || w[5] > 0 || w[6] > 0
    || w[8] > 0 || w[9] > 0 || w[10] > 0 || w[12] > 0 || w[13] > 0 || w[14] > 0
  }

  /** Each fourth byte is the sum of the three before it, and these are not all zero. */
  predicate GoodWord(w: Cw) {
    FourSums(w) && SomeByte(w)
  }

  /** The end takes pushes, and has set a limit or uses 10 by default: the reader's limit counts before
      the account's. */
  predicate OpenEnd(c: Client, hops: nat) {
    && (c.reader ==> c.mode == 2) && (!c.reader ==> c.mode == 3)
    && (c.reader && c.readerHop != 0 ==> hops <= c.readerHop)
    && ((!c.reader || c.readerHop == 0) && c.accountHop != 0 ==> hops <= c.accountHop)
    && ((!c.reader || c.readerHop == 0) && c.accountHop == 0 ==> hops <= 10)
  }

  /** The push brings a word that the node may take. */
  predicate BringsWord(p: Push, invalid: seq<Cw>) {
    p.rc == 0 && OpenEnd(p.via, |p.nodes|) && GoodWord(p.cw) && p.cw !in invalid
  }

  /** The end is one over which answers are pushed out, and not the one the push came from. */
  predicate PushedOver(c: Client, via: Client) {
    c != via && (c.reader ==> c.mode == 3) && (!c.reader ==> c.mode == 2)
  }

  lemma ChecksumsAre(w: Cw)
    ensures ChecksumOk(w) <==> FourSums(w)
  {
    assert w[3] == Sum3(w, 0) <==> SumsUp(w[0], w[1], w[2], w[3]);
    assert w[7] == Sum3(w, 1) <==> SumsUp(w[4], w[5], w[6], w[7]);
    assert w[11] == Sum3(w, 2) <==> SumsUp(w[8], w[9], w[10], w[11]);
    assert w[15] == Sum3(w, 3) <==> SumsUp(w[12], w[13], w[14], w[15]);
    assert w[4 * 0 + 3] == w[3] && w[4 * 1 + 3] == w[7] && w[4 * 2 + 3] == w[11] && w[4 * 3 + 3] == w[15];
    hide Sum3, SumsUp;
    if FourSums(w) {
      forall i | 0 <= i < 4 ensures w[4 * i + 3] == Sum3(w, i) {
        assert i == 0 || i == 1 || i == 2 || i == 3;
      }
    }
  }

  lemma NullIs(w: Cw)
    ensures NullCw(w) <==> !SomeByte(w)
  {
    if NullCw(w) {
      assert w[4 * 0] == 0 && w[4 * 1] == 0 && w[4 * 2] == 0 && w[4 * 3] == 0;
    }
    if !SomeByte(w) {
      forall i | 0 <= i < 4 ensures w[4 * i] == 0 && w[4 * i + 1] == 0 && w[4 * i + 2] == 0 {
        assert i == 0 || i == 1 || i == 2 || i == 3;
      }
    }
  }

  lemma WordIsAcceptable(w: Cw, invalid: seq<Cw>)
    ensures CwAcceptable(w, invalid) <==> GoodWord(w) && w !in invalid
  {
    hide ChecksumOk, NullCw, FourSums, SomeByte;
    ChecksumsAre(w);
    NullIs(w);
  }

  /** A push changes the entry exactly if the answer is not found yet and the push brings a good word
      that is not refused, over an end that takes pushes, within its hop limit. */
  lemma EntersExactly(entry: Option<Entry>, invalid: seq<Cw>, p: Push, peerId: Option<Node>, clients: seq<Client>)
    requires entry.Some? ==> 0 <= entry.value.rc <= 100
    ensures var a := Arrive(entry, invalid, p, peerId, clients);
            && (a.entry != entry <==> (entry.Some? ==> entry.value.rc >= 4) && BringsWord(p, invalid))
            && (a.entry != entry ==> a.entry.Some? && a.entry.value.cw == p.cw && a.entry.value.rc == 3
                                     && a.entry.value.src == Some(p.via) && a.entry.value.pushed)
            && (forall c :: c in a.jobs <==> a.entry != entry && c in clients && PushedOver(c, p.via))
  {
    WordIsAcceptable(p.cw, invalid);
    TargetsMembers(clients, Some(p.via));
    hide CwAcceptable, GoodWord, Targets;
  }

  /** The list of the entry: the one it had, else the one of the push, else the sender, with eight zeros
      for a CCcam sender of unknown id. */
  lemma ListIsKept(entry: Option<Entry>, invalid: seq<Cw>, p: Push, peerId: Option<Node>, clients: seq<Client>)
    requires Arrive(entry, invalid, p, peerId, clients).entry != entry
    ensures var nodes := Arrive(entry, invalid, p, peerId, clients).entry.value.nodes;
            && (entry.Some? && entry.value.nodes.Some? ==> nodes == entry.value.nodes)
            && (!(entry.Some? && entry.value.nodes.Some?) ==>
                  nodes == Some(if p.nodes != [] then p.nodes
                                else if peerId.Some? then [peerId.value]
                                else if p.via.cccam then [0] else []))
  {
    hide CwAcceptable, Targets, MayPush;
  }

  /** The end may send: its limit leaves room for one more node, and it knows its peer, which is not on
      the list; over CCcam it need not know it, and then takes it for eight zeros. */
  predicate MaySend(c: Client, nodes: seq<Node>, peerId: Option<Node>) {
    && (c.reader && c.readerHop != 0 ==> |nodes| < c.readerHop)
    && ((!c.reader || c.readerHop == 0) && c.accountHop != 0 ==> |nodes| < c.accountHop)
    && ((!c.reader || c.readerHop == 0) && c.accountHop == 0 ==> |nodes| < 10)
    && (peerId.Some? ==> peerId.value !in nodes)
    && (peerId.None? ==> c.cccam && 0 !in nodes)
  }

  lemma MaySendIs(c: Client, e: Entry, peerId: Option<Node>)
    ensures PushAllowed(c, e, peerId) <==> MaySend(c, if e.nodes.Some? then e.nodes.value else [], peerId)
  {
  }

  /** A job that runs sends exactly one push, or none: the word, the code for found or for unhandled, and
      the list with the own node in front. */
  lemma JobSendsExactly(cfg: Config, s: State, c: Client)
    requires Enabled(cfg, s, RunJob(c))
    ensures var e := s.entries[c.owner];
            var nodes := if e.nodes.Some? then e.nodes.value else [];
            var known := if c in s.ids then Some(s.ids[c]) else None;
            var sent := MaySend(c, nodes, known) && (e.rc < 4 || e.rc == 100);
            var push := Push(cfg.other[c], if e.rc < 4 then 0 else 100, e.cw, [c.owner] + nodes);
            Next(cfg, s, RunJob(c))
            == s.(jobs := s.jobs - multiset{c}, net := if sent then s.net + multiset{push} else s.net)
  {
    MaySendIs(c, s.entries[c.owner], IdOf(s, c));
    hide MaySend, PushAllowed;
  }

  /** Over every run, the word that a node finds without asking its own readers is a good one. */
  lemma {:induction false} FoundWordIsGood(cfg: Config, s: State, steps: seq<Step>, n: Node)
    requires CodesInRange(s) && Runs(cfg, s, steps)
    requires forall i :: 0 <= i < |steps| ==> !(steps[i].LocalAnswer? && steps[i].n == n)
    requires Found(EntryOf(s, n)) ==> GoodWord(s.entries[n].cw)
    ensures var r := Final(cfg, s, steps); Found(EntryOf(r, n)) ==> GoodWord(r.entries[n].cw)
    decreases |steps|
  {
    hide GoodWord, CodesInRange, Enabled, Next;
    if steps != [] {
      var s' := Next(cfg, s, steps[0]);
      StepWeight(cfg, s, steps[0]);
      StepWordIsGood(cfg, s, steps[0], n);
      FoundWordIsGood(cfg, s', steps[1..], n);
    }
  }

  lemma StepWordIsGood(cfg: Config, s: State, step: Step, n: Node)
    requires CodesInRange(s) && Enabled(cfg, s, step) && !(step.LocalAnswer? && step.n == n)
    requires Found(EntryOf(s, n)) ==> GoodWord(s.entries[n].cw)
    ensures var s' := Next(cfg, s, step); Found(EntryOf(s', n)) ==> GoodWord(s'.entries[n].cw)
  {
    hide GoodWord, Learned;
    if step.Deliver? && step.p.via.owner == n {
      var ids := Learned(s, step.p);
      var id := if step.p.via in ids then Some(ids[step.p.via]) else None;
      EntersExactly(EntryOf(s, n), InvalidOf(s, n), step.p, id, step.targets);
      hide Arrive;
    }
  }

  /** Two different good words that are not refused meet at a node that has found the first: the node
      keeps its entry and refuses both from now on.  Nothing else makes it refuse a word. */
  lemma RefusesExactly(entry: Option<Entry>, invalid: seq<Cw>, p: Push, peerId: Option<Node>, clients: seq<Client>)
    requires entry.Some? ==> 0 <= entry.value.rc <= 100
    requires |invalid| <= MAX_INVALID
    ensures var a := Arrive(entry, invalid, p, peerId, clients);
            if entry.Some? && entry.value.rc < 4 && BringsWord(p, invalid) && p.cw != entry.value.cw then
              && a.entry == entry && 2 <= |a.invalid| <= MAX_INVALID
              && a.invalid[|a.invalid| - 2..] == [entry.value.cw, p.cw]
            else a.invalid == invalid
  {
    WordIsAcceptable(p.cw, invalid);
    hide CwAcceptable, GoodWord, Targets;
  }

  /** While fewer than 31 further words are refused, neither of the two gets into an entry that is empty
      or open, from whatever peer. */
  lemma NeitherComesBack(entry: Entry, invalid: seq<Cw>, p: Push, peerId: Option<Node>, clients: seq<Client>,
      later: seq<Cw>, open: Option<Entry>, q: Push, peer2: Option<Node>, clients2: seq<Client>)
    requires 0 <= entry.rc < 4 && |invalid| <= MAX_INVALID && BringsWord(p, invalid) && p.cw != entry.cw
    requires |later| < 31 && (open.Some? ==> 0 <= open.value.rc <= 100) && (q.cw == entry.cw || q.cw == p.cw)
    ensures var refused := Blocked(Arrive(Some(entry), invalid, p, peerId, clients).invalid, later);
            Arrive(open, refused, q, peer2, clients2).entry == open
  {
    hide GoodWord, Arrive;
    var a := Arrive(Some(entry), invalid, p, peerId, clients).invalid;
    RefusesExactly(Some(entry), invalid, p, peerId, clients);
    StillRefused(a, later);
    EntersExactly(open, Blocked(a, later), q, peer2, clients2);
  }

  lemma StillRefused(a: seq<Cw>, later: seq<Cw>)
    requires 2 <= |a| <= MAX_INVALID && |later| < 31
    ensures a[|a| - 1] in Blocked(a, later) && a[|a| - 2] in Blocked(a, later)
  {
    BlockedTail(a, later);
    var all := a + later;
    var r := LastOf(all, MAX_INVALID);
    var cut := if |all| > MAX_INVALID then |all| - MAX_INVALID else 0;
    assert r[|a| - 1 - cut] == a[|a| - 1] && r[|a| - 2 - cut] == a[|a| - 2];
  }
}
