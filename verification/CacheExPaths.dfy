/** Where the node lists of the cache exchange can lead: path safety in all reachable states. */
module CacheExPaths {
  import opened CacheEx
  import opened CacheExFlood

  /** Each node on the list got the answer over a connection from the node behind it. */
  ghost predicate Linked(cfg: Config, path: seq<Node>) {
    forall i :: 1 <= i < |path| ==> Connected(cfg, path[i], path[i - 1])
  }

  ghost predicate Connected(cfg: Config, from: Node, to: Node) {
    exists c :: c in cfg.clients && c.owner == from && c.peer == to
  }

  /** A push under way: its list is a simple path that starts with the sender, no longer than the
      sender's hop limit for the connection.  Over camd35 it avoids the addressee. */
  ghost predicate SafePush(cfg: Config, p: Push) {
    && p.via in cfg.clients
    && p.nodes != [] && p.nodes[0] == p.via.peer
    && (p.via.owner in p.nodes ==> p.via.cccam) && Distinct(p.nodes) && Linked(cfg, p.nodes)
    && (exists c :: c in cfg.clients && c in cfg.other && cfg.other[c] == p.via && |p.nodes| <= c.maxhop)
  }

  /** A cached node list: a simple path that starts with the peer it came from, avoids the node itself
      and is no longer than the node's hop limit for that peer.  Only found answers have one. */
  ghost predicate SafeEntry(cfg: Config, n: Node, e: Entry) {
    && 0 <= e.rc <= E_UNHANDLED
    && (e.nodes.Some? ==>
          && e.rc < E_NOTFOUND
          && e.src.Some? && e.src.value in Ends(cfg, n)
          && e.Path() != [] && e.Path()[0] == e.src.value.peer
          && n !in e.Path() && Distinct(e.Path()) && Linked(cfg, e.Path())
          && |e.Path()| <= e.src.value.maxhop)
  }

  ghost predicate Has(s: State, n: Node) {
    n in s.entries && s.entries[n].rc < E_NOTFOUND
  }

  ghost predicate AllHave(s: State, path: seq<Node>) {
    forall m :: m in path ==> Has(s, m)
  }

  /** Every node on a list and every node with a job has found the answer. */
  ghost predicate Sourced(s: State) {
    && (forall n :: n in s.entries ==> AllHave(s, s.entries[n].Path()))
    && (forall p :: p in s.net ==> AllHave(s, p.nodes))
    && (forall c :: c in s.jobs ==> Has(s, c.owner))
  }

  ghost predicate Safe(cfg: Config, s: State) {
    && (forall n :: n in s.entries ==> SafeEntry(cfg, n, s.entries[n]))
    && (forall p :: p in s.net ==> SafePush(cfg, p))
    && (forall c :: c in s.ids ==> c in cfg.clients && s.ids[c] == c.peer)
    && (forall c :: c in s.jobs ==> c in cfg.clients)
    && Sourced(s)
  }

  // ---------- A job runs ----------

  /** What a job sends is a safe push, and avoids the addressee if its id was known. */
  lemma JobSafe(cfg: Config, c: Client, e: Entry, id: Option<Node>)
    requires ValidConfig(cfg) && c in cfg.clients && SafeEntry(cfg, c.owner, e)
    requires id == None || id == Some(c.peer)
    requires PushAllowed(c, e, id)
    ensures var p := OnTheWire(c, e, cfg.other[c]);
            SafePush(cfg, p) && (id.Some? ==> p.via.owner !in p.nodes)
  {
    var p := OnTheWire(c, e, cfg.other[c]);
    assert cfg.other[c].owner == c.peer;
    LongerPath(cfg, c.owner, e);
    hide Linked, Distinct, SafeEntry;
    assert |p.nodes| <= c.maxhop;
  }

  lemma LongerPath(cfg: Config, n: Node, e: Entry)
    requires ValidConfig(cfg) && SafeEntry(cfg, n, e)
    ensures Linked(cfg, [n] + e.Path()) && Distinct([n] + e.Path())
  {
    var path := [n] + e.Path();
    forall i | 1 <= i < |path| ensures Connected(cfg, path[i], path[i - 1]) {
      if i == 1 {
        var c := e.src.value;
        assert cfg.other[c] in cfg.clients && cfg.other[c].owner == c.peer;
      } else {
        assert Connected(cfg, e.Path()[i - 1], e.Path()[i - 2]);
      }
    }
  }

  // ---------- Steps ----------

  ghost predicate Grows(s: State, s': State) {
    forall n :: Has(s, n) ==> Has(s', n)
  }

  /** A step that changes one entry keeps the holders when that node stays one. */
  lemma Holders(s: State, s': State, n: Node)
    requires forall m :: m != n ==> EntryOf(s', m) == EntryOf(s, m)
    requires Has(s, n) ==> Has(s', n)
    ensures Grows(s, s')
    ensures forall m :: m != n && Has(s', m) ==> Has(s, m)
  {
    forall m | m != n ensures Has(s, m) == Has(s', m) {
      assert EntryOf(s', m) == EntryOf(s, m);
    }
  }

  /** A step that changes single entries, pushes, ids and jobs only needs the new ones checked. */
  lemma StillSafe(cfg: Config, s: State, s': State)
    requires Safe(cfg, s) && Grows(s, s')
    requires forall n :: n in s'.entries && EntryOf(s', n) != EntryOf(s, n) ==>
               SafeEntry(cfg, n, s'.entries[n]) && AllHave(s', s'.entries[n].Path())
    requires forall p :: p in s'.net && p !in s.net ==> SafePush(cfg, p) && AllHave(s', p.nodes)
    requires forall c :: c in s'.ids && IdOf(s', c) != IdOf(s, c) ==> c in cfg.clients && s'.ids[c] == c.peer
    requires forall c :: c in s'.jobs && c !in s.jobs ==> c in cfg.clients && Has(s', c.owner)
    ensures Safe(cfg, s')
  {
    hide SafeEntry, SafePush;
    forall n | n in s'.entries ensures SafeEntry(cfg, n, s'.entries[n]) && AllHave(s', s'.entries[n].Path()) {
      if EntryOf(s', n) == EntryOf(s, n) {
        assert s.entries[n] == s'.entries[n];
      }
    }
    forall c | c in s'.ids ensures c in cfg.clients && s'.ids[c] == c.peer {
      if IdOf(s', c) == IdOf(s, c) {
        assert s.ids[c] == s'.ids[c];
      }
    }
    hide IdOf, EntryOf;
    assert forall p :: p in s'.net ==> AllHave(s', p.nodes);
  }

  /** The entry and the jobs that a push leaves behind are safe: a node that is on the list itself has
      found the answer, and ignores the push. */
  lemma ArrivalParts(cfg: Config, s: State, p: Push, targets: seq<Client>)
    requires SafePush(cfg, p) && AllHave(s, p.nodes) && Selection(cfg, p.via.owner, targets)
    requires p.via.owner in s.entries ==> SafeEntry(cfg, p.via.owner, s.entries[p.via.owner])
    ensures var n, s' := p.via.owner, Delivered(s, p, targets);
            && (EntryOf(s', n) != EntryOf(s, n) ==>
                  Has(s', n) && SafeEntry(cfg, n, s'.entries[n]) && s'.entries[n].Path() == p.nodes)
            && (Has(s, n) ==> EntryOf(s', n) == EntryOf(s, n) && s'.jobs == s.jobs)
            && (forall c :: c in s'.jobs && c !in s.jobs ==> c in cfg.clients && c.owner == n && Has(s', n))
  {
    var n, s', ids := p.via.owner, Delivered(s, p, targets), Learned(s, p);
    var id := if p.via in ids then Some(ids[p.via]) else None;
    var entry := EntryOf(s, n);
    var a := Arrive(entry, InvalidOf(s, n), p, id, targets);
    ArriveJobs(entry, InvalidOf(s, n), p, id, targets);
    TargetsMembers(targets, Some(p.via));
    if Found(entry) {
      PushKeepsFoundCw(entry, InvalidOf(s, n), p, id, targets);
    }
    assert entry.Some? ==> entry.value.rc <= E_UNHANDLED && (entry.value.nodes.Some? ==> entry.value.rc < E_NOTFOUND);
    assert p.nodes != [];
    hide Arrive, Linked, Distinct, Targets, InvalidOf, SafePush, SafeEntry, AllHave;
    ArrivalEntry(entry, InvalidOf(s, n), p, id, targets);
    if a.entry != entry {
      NotOnOwnList(s, p);
      NewEntrySafe(cfg, p, a.entry.value);
    }
    assert forall c :: c in s'.jobs && c !in s.jobs ==> c in a.jobs;
  }

  lemma NotOnOwnList(s: State, p: Push)
    requires AllHave(s, p.nodes) && !Found(EntryOf(s, p.via.owner))
    ensures p.via.owner !in p.nodes
  {
  }

  lemma NewEntrySafe(cfg: Config, p: Push, e: Entry)
    requires SafePush(cfg, p) && p.via.owner !in p.nodes && |p.nodes| <= p.via.maxhop
    requires e.rc == E_CACHEEX && e.nodes == Some(p.nodes) && e.src == Some(p.via)
    ensures SafeEntry(cfg, p.via.owner, e)
  {
    hide Linked, Distinct;
  }

  /** What a delivery leaves alone. */
  lemma DeliveredFrame(s: State, p: Push, targets: seq<Client>)
    requires p in s.net
    ensures var n, s' := p.via.owner, Delivered(s, p, targets);
            && (forall m :: m != n ==> EntryOf(s', m) == EntryOf(s, m))
            && (forall m :: m in s.entries && m != n ==> m in s'.entries)
            && (forall m :: m in s'.entries && m != n ==> m in s.entries)
            && (forall q :: q in s'.net ==> q in s.net)
            && s'.ids == Learned(s, p)
  {
    hide Arrive, Learned;
  }

  lemma SafeParts(cfg: Config, s: State, p: Push)
    requires Safe(cfg, s) && p in s.net
    ensures SafePush(cfg, p) && AllHave(s, p.nodes)
    ensures p.via.owner in s.entries ==> SafeEntry(cfg, p.via.owner, s.entries[p.via.owner])
  {
    hide SafePush, SafeEntry;
  }

  lemma ArrivalSafe(cfg: Config, s: State, p: Push, targets: seq<Client>)
    requires ValidConfig(cfg) && Safe(cfg, s) && p in s.net && Selection(cfg, p.via.owner, targets)
    ensures Safe(cfg, Delivered(s, p, targets))
  {
    hide Delivered, Learned, SafeEntry, SafePush, Safe, Selection, ValidConfig;
    var s' := Delivered(s, p, targets);
    SafeParts(cfg, s, p);
    ArrivalParts(cfg, s, p, targets);
    DeliveredFrame(s, p, targets);
    LearnedSafe(cfg, s, p);
    assert Has(s, p.via.owner) ==> Has(s', p.via.owner);
    Holders(s, s', p.via.owner);
    StillSafe(cfg, s, s');
  }

  lemma LearnedSafe(cfg: Config, s: State, p: Push)
    requires SafePush(cfg, p)
    ensures forall c :: c in Learned(s, p) && (c !in s.ids || Learned(s, p)[c] != s.ids[c]) ==>
              c in cfg.clients && Learned(s, p)[c] == c.peer
  {
  }

  /** What a push can leave in the cache: the entry that was there, or the push itself. */
  lemma ArrivalEntry(entry: Option<Entry>, invalid: seq<Cw>, p: Push, id: Option<Node>, targets: seq<Client>)
    requires entry.Some? && entry.value.nodes.Some? ==> entry.value.rc < E_NOTFOUND
    requires p.nodes != [] && (entry.Some? ==> entry.value.rc <= E_UNHANDLED)
    ensures var a := Arrive(entry, invalid, p, id, targets);
            || (a.entry == entry && a.jobs == [])
            || (a.entry.Some? && a.entry.value.rc == E_CACHEEX && a.entry.value.nodes == Some(p.nodes)
                && a.entry.value.src == Some(p.via) && |p.nodes| <= p.via.maxhop)
  {
  }

  lemma AnswerParts(cfg: Config, n: Node, e: Entry, rc: int, w: Cw, targets: seq<Client>)
    requires SafeEntry(cfg, n, e) && 0 <= rc <= 5 && Selection(cfg, n, targets)
    ensures var (e2, jobs) := Answer(e, rc, w, targets);
            && SafeEntry(cfg, n, e2) && e2.Path() == e.Path() && (e.rc < E_NOTFOUND ==> e2.rc < E_NOTFOUND)
            && (forall c :: c in jobs ==> c in cfg.clients && c.owner == n && e2.rc < E_NOTFOUND)
  {
    TargetsMembers(targets, e.src);
    hide Linked, Distinct, Targets;
  }

  lemma AnswerSafe(cfg: Config, s: State, n: Node, rc: int, w: Cw, targets: seq<Client>)
    requires Safe(cfg, s) && n in s.entries && 0 <= rc <= 5 && Selection(cfg, n, targets)
    ensures Safe(cfg, Answered(s, n, rc, w, targets))
  {
    var s' := Answered(s, n, rc, w, targets);
    var (e, jobs) := Answer(s.entries[n], rc, w, targets);
    EntryParts(cfg, s, n);
    hide Safe, SafeEntry, Selection;
    AnswerParts(cfg, n, s.entries[n], rc, w, targets);
    hide Answer;
    Holders(s, s', n);
    HaveStill(s, s', e.Path());
    hide AllHave, Grows;
    assert forall c :: c in s'.jobs && c !in s.jobs ==> c in jobs;
    StillSafe(cfg, s, s');
  }

  lemma EntryParts(cfg: Config, s: State, n: Node)
    requires Safe(cfg, s) && n in s.entries
    ensures SafeEntry(cfg, n, s.entries[n]) && AllHave(s, s.entries[n].Path())
  {
    hide SafeEntry, SafePush, AllHave;
  }

  lemma HaveStill(s: State, s': State, path: seq<Node>)
    requires AllHave(s, path) && Grows(s, s')
    ensures AllHave(s', path)
  {
  }

  lemma {:induction false} StepSafe(cfg: Config, s: State, step: Step)
    requires ValidConfig(cfg) && Safe(cfg, s) && Enabled(cfg, s, step)
    ensures Safe(cfg, Next(cfg, s, step))
  {
    hide Delivered, Answered, JobRun, Safe, AllHave, ValidConfig, SafeEntry, SafePush;
    match step {
      case Deliver(p, targets) => ArrivalSafe(cfg, s, p, targets);
      case LocalAnswer(n, rc, w, targets) => AnswerSafe(cfg, s, n, rc, w, targets);
      case RunJob(c) => RunSafe(cfg, s, c);
      case Request(n) => RequestSafe(cfg, s, n);
      case LearnId(c) => StillSafe(cfg, s, Next(cfg, s, step));
      case Reconnect(c) => StillSafe(cfg, s, Next(cfg, s, step));
      case LoseJob(c) => StillSafe(cfg, s, Next(cfg, s, step));
      case LosePush(p) => StillSafe(cfg, s, Next(cfg, s, step));
    }
  }

  lemma RequestSafe(cfg: Config, s: State, n: Node)
    requires Safe(cfg, s) && n !in s.entries
    ensures Safe(cfg, s.(entries := s.entries[n := Requested()]))
  {
    hide Safe;
    var s' := s.(entries := s.entries[n := Requested()]);
    assert forall m :: m != n ==> EntryOf(s', m) == EntryOf(s, m);
    Holders(s, s', n);
    assert SafeEntry(cfg, n, Requested()) && AllHave(s', Requested().Path());
    StillSafe(cfg, s, s');
  }

  lemma RunSafe(cfg: Config, s: State, c: Client)
    requires ValidConfig(cfg) && Safe(cfg, s) && c in s.jobs && c.owner in s.entries && c in cfg.other
    ensures Safe(cfg, JobRun(cfg, s, c))
  {
    var s' := JobRun(cfg, s, c);
    JobParts(cfg, s, c);
    RunParts(cfg, s, c);
    hide Safe, SafePush, SafeEntry, JobRun, PushAllowed, ValidConfig;
    assert Grows(s, s');
    if PushAllowed(c, s.entries[c.owner], IdOf(s, c)) {
      JobSafe(cfg, c, s.entries[c.owner], IdOf(s, c));
      SentHave(s, s', c, cfg.other[c]);
    }
    hide OnTheWire, Grows;
    StillSafe(cfg, s, s');
  }

  lemma SentHave(s: State, s': State, c: Client, via: Client)
    requires c.owner in s.entries && Has(s, c.owner) && AllHave(s, s.entries[c.owner].Path()) && Grows(s, s')
    ensures AllHave(s', OnTheWire(c, s.entries[c.owner], via).nodes)
  {
  }

  lemma JobParts(cfg: Config, s: State, c: Client)
    requires Safe(cfg, s) && c in s.jobs
    ensures c in cfg.clients && Has(s, c.owner)
    ensures SafeEntry(cfg, c.owner, s.entries[c.owner]) && AllHave(s, s.entries[c.owner].Path())
    ensures IdOf(s, c) == None || IdOf(s, c) == Some(c.peer)
  {
    hide SafePush, SafeEntry;
  }

  lemma RunParts(cfg: Config, s: State, c: Client)
    requires c in s.jobs && c.owner in s.entries && c in cfg.other
    ensures var s' := JobRun(cfg, s, c);
            && s'.entries == s.entries && s'.ids == s.ids
            && (forall d :: d in s'.jobs ==> d in s.jobs)
            && (forall p :: p in s'.net && p !in s.net ==>
                  PushAllowed(c, s.entries[c.owner], IdOf(s, c))
                  && p == OnTheWire(c, s.entries[c.owner], cfg.other[c]))
  {
    hide PushAllowed, OnTheWire, Sendable;
  }

  // ---------- All reachable states ----------

  lemma {:induction false} AlwaysSafe(cfg: Config, s: State, steps: seq<Step>)
    requires ValidConfig(cfg) && Safe(cfg, s) && Runs(cfg, s, steps)
    ensures Safe(cfg, Final(cfg, s, steps))
    decreases |steps|
  {
    hide Safe;
    if steps != [] {
      StepSafe(cfg, s, steps[0]);
      AlwaysSafe(cfg, Next(cfg, s, steps[0]), steps[1..]);
    }
  }

  /** In every reachable state every push under way and every cached node list is a safe path of nodes
      that have found the answer, and every peer id that a node has learned is the peer's. */
  lemma {:induction false} ReachableSafe(cfg: Config, ids: map<Client, Node>, steps: seq<Step>)
    requires ValidConfig(cfg) && forall c :: c in ids ==> c in cfg.clients && ids[c] == c.peer
    requires Runs(cfg, Quiet(ids), steps)
    ensures Safe(cfg, Final(cfg, Quiet(ids), steps))
  {
    AlwaysSafe(cfg, Quiet(ids), steps);
  }

  // ---------- When a push goes back ----------

  /** Exactly when a job sends a push to a node on its list: the node is on the cached list, and the job
      belongs to a CCcam end that does not know the id of its peer. */
  lemma SentBack(cfg: Config, s: State, c: Client)
    requires ValidConfig(cfg) && Safe(cfg, s) && c in s.jobs && c in cfg.other
    ensures var e := s.entries[c.owner];
            var p := OnTheWire(c, e, cfg.other[c]);
            (PushAllowed(c, e, IdOf(s, c)) && p.via.owner in p.nodes)
            <==> c.peer in e.Path() && c.cccam && IdOf(s, c) == None
                 && NO_NODE !in e.Path() && |e.Path()| < c.maxhop
  {
    JobParts(cfg, s, c);
    assert cfg.other[c].owner == c.peer;
    hide Safe, SafeEntry;
  }

  /** A push that comes back does nothing: the node has found the answer. */
  lemma BackIsIgnored(cfg: Config, s: State, p: Push, targets: seq<Client>)
    requires Safe(cfg, s) && p in s.net && p.via.owner in p.nodes && Selection(cfg, p.via.owner, targets)
    ensures var s' := Delivered(s, p, targets);
            s'.jobs == s.jobs && forall n :: EntryOf(s', n) == EntryOf(s, n)
  {
    SafeParts(cfg, s, p);
    ArrivalParts(cfg, s, p, targets);
    DeliveredFrame(s, p, targets);
    hide Delivered, Safe;
  }
}
