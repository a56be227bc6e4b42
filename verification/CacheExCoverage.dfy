/** The flood reaches every node: when the hop limits cover the network and nothing is lost, then as soon
    as nothing is under way, every node to which a chain of pushing connections leads from a holder holds
    the answer. */
module CacheExCoverage {
  import opened CacheEx
  import opened CacheExFlood
  import opened CacheExPaths

  function NodesOf(cfg: Config): set<Node> {
    set c | c in cfg.clients :: c.owner
  }

  /** The other end of every pushing end lets pushes in, the hop limits of both cover the whole network,
      and no node has the id of zeros. */
  ghost predicate WideConfig(cfg: Config) {
    ValidConfig(cfg)
    && (forall c :: c in cfg.clients ==> c.owner != NO_NODE)
    && (forall c :: c in cfg.clients && c.pushesOut ==> cfg.other[c].letsIn)
    && (forall c :: c in cfg.clients && (c.pushesOut || c.letsIn) ==> c.maxhop >= |NodesOf(cfg)|)
  }

  /** A camd35 end that pushes out knows the id of its peer; its first push would be lost otherwise. */
  ghost predicate Ready(cfg: Config, ids: map<Client, Node>) {
    forall c :: c in cfg.clients && c.pushesOut && !c.cccam ==> c in ids
  }

  /** Steps without losses in which the filters let every pushing client through, and every local answer finds
      the word `w`. */
  ghost predicate CleanStep(cfg: Config, w: Cw, s: State, step: Step) {
    && Enabled(cfg, s, step)
    && !step.LoseJob? && !step.LosePush? && (step.Reconnect? ==> !step.c.pushesOut || step.c.cccam)
    && (step.LocalAnswer? ==> step.rc < E_NOTFOUND && step.w == w && ToAll(cfg, step.n, step.targets))
    && (step.Deliver? ==> ToAll(cfg, step.p.via.owner, step.targets))
  }

  ghost predicate ToAll(cfg: Config, n: Node, targets: seq<Client>) {
    forall c :: c in Ends(cfg, n) && c.pushesOut ==> c in targets
  }

  /** An entry is an open local request or the answer, pushed on; its list names holders only. */
  ghost predicate CleanEntry(w: Cw, s: State, e: Entry) {
    if e.rc < E_NOTFOUND then e.cw == w && e.pushed && AllHave(s, e.Path())
    else e.rc == E_UNHANDLED && !e.pushed && e.nodes.None? && e.src.None?
  }

  ghost predicate CleanPush(w: Cw, s: State, p: Push) {
    p.rc == E_FOUND && p.cw == w && p.via.letsIn && AllHave(s, p.nodes)
  }

  /** The answer is on its way over this end: as a job, as a push, or it has arrived. */
  ghost predicate Handled(cfg: Config, s: State, c: Client)
    requires c in cfg.other
  {
    c in s.jobs || Has(s, c.peer) || exists p :: p in s.net && p.via == cfg.other[c]
  }

  ghost predicate CleanEntries(w: Cw, s: State) {
    forall n :: n in s.entries ==> CleanEntry(w, s, s.entries[n])
  }

  ghost predicate CleanNet(w: Cw, s: State) {
    forall p :: p in s.net ==> CleanPush(w, s, p)
  }

  ghost predicate NothingRefused(s: State) {
    forall n :: n in s.invalid ==> s.invalid[n] == []
  }

  ghost predicate JobsHeld(s: State) {
    forall c :: c in s.jobs ==> Has(s, c.owner) && c.pushesOut
  }

  ghost predicate AllHandled(cfg: Config, s: State)
    requires ValidConfig(cfg)
  {
    forall c :: c in cfg.clients && c.pushesOut && Has(s, c.owner) ==> Handled(cfg, s, c)
  }

  ghost predicate Clean(cfg: Config, w: Cw, s: State)
    requires ValidConfig(cfg)
  {
    && Safe(cfg, s) && CleanEntries(w, s) && CleanNet(w, s) && NothingRefused(s) && JobsHeld(s)
    && Ready(cfg, s.ids)
    && AllHandled(cfg, s)
  }

  // ---------- Paths are short ----------

  lemma {:induction false} DistinctNodes(path: seq<Node>, nodes: set<Node>)
    requires Distinct(path) && forall m :: m in path ==> m in nodes
    ensures |path| <= |nodes|
  {
    if path != [] {
      var rest := path[1..];
      forall m | m in rest ensures m in nodes - {path[0]} {
        assert m in path;
      }
      DistinctNodes(rest, nodes - {path[0]});
    }
  }

  lemma PathNodes(cfg: Config, path: seq<Node>)
    requires Linked(cfg, path) && path != [] && path[0] in NodesOf(cfg)
    ensures forall m :: m in path ==> m in NodesOf(cfg)
  {
    forall i | 0 <= i < |path| ensures path[i] in NodesOf(cfg) {
      if i > 0 {
        assert Connected(cfg, path[i], path[i - 1]);
      }
    }
  }

  lemma PushFits(cfg: Config, p: Push)
    requires WideConfig(cfg) && SafePush(cfg, p) && p.via.letsIn
    ensures |p.nodes| <= p.via.maxhop
  {
    assert cfg.other[p.via].owner == p.nodes[0];
    PathNodes(cfg, p.nodes);
    DistinctNodes(p.nodes, NodesOf(cfg));
  }

  lemma EntryFits(cfg: Config, c: Client, e: Entry)
    requires WideConfig(cfg) && c in cfg.clients && c.pushesOut && SafeEntry(cfg, c.owner, e)
    ensures |e.Path()| < c.maxhop && NO_NODE !in e.Path()
  {
    var path := [c.owner] + e.Path();
    LongerPath(cfg, c.owner, e);
    PathNodes(cfg, path);
    DistinctNodes(path, NodesOf(cfg));
    assert forall m :: m in e.Path() ==> m in path;
  }

  // ---------- Each step keeps the answer on its way ----------

  lemma StillEntries(w: Cw, s: State, s': State)
    requires CleanEntries(w, s) && Grows(s, s')
    requires forall n :: n in s'.entries && EntryOf(s', n) != EntryOf(s, n) ==> CleanEntry(w, s', s'.entries[n])
    ensures CleanEntries(w, s')
  {
    forall n | n in s'.entries ensures CleanEntry(w, s', s'.entries[n]) {
      if EntryOf(s', n) == EntryOf(s, n) {
        assert s.entries[n] == s'.entries[n];
        assert CleanEntry(w, s, s.entries[n]);
      }
    }
  }

  lemma StillNet(w: Cw, s: State, s': State)
    requires CleanNet(w, s) && Grows(s, s')
    requires forall p :: p in s'.net && p !in s.net ==> CleanPush(w, s', p)
    ensures CleanNet(w, s')
  {
    forall p | p in s'.net ensures CleanPush(w, s', p) {
      if p in s.net {
        assert CleanPush(w, s, p);
      }
    }
  }

  lemma StillHeld(s: State, s': State)
    requires JobsHeld(s) && Grows(s, s')
    requires forall c :: c in s'.jobs && c !in s.jobs ==> Has(s', c.owner) && c.pushesOut
    ensures JobsHeld(s')
  {
  }

  lemma StillHandled(cfg: Config, s: State, s': State)
    requires ValidConfig(cfg) && AllHandled(cfg, s)
    requires forall c :: c in cfg.clients && Handled(cfg, s, c) ==> Handled(cfg, s', c)
    requires forall c :: c in cfg.clients && c.pushesOut && Has(s', c.owner) && !Has(s, c.owner) ==> Handled(cfg, s', c)
    ensures AllHandled(cfg, s')
  {
    hide Handled;
  }

  /** In a clean state a push is ignored by a holder and makes every other node a holder. */
  lemma CleanArrive(w: Cw, s: State, p: Push, targets: seq<Client>)
    requires CwAcceptable(w, []) && p.rc == E_FOUND && p.cw == w && p.nodes != []
    requires |p.nodes| <= p.via.maxhop && p.via.letsIn && p in s.net
    requires NothingRefused(s)
    requires p.via.owner in s.entries ==> CleanEntry(w, s, s.entries[p.via.owner])
    ensures var n, s' := p.via.owner, Delivered(s, p, targets);
            && n in s'.entries && s.ids.Keys <= s'.ids.Keys && NothingRefused(s')
            && (Has(s, n) ==> s'.entries[n] == s.entries[n] && s'.jobs == s.jobs)
            && (!Has(s, n) ==>
                  && s'.entries[n] == Entry(E_CACHEEX, w, Some(p.nodes), Some(p.via), true)
                  && s'.jobs == s.jobs + multiset(Targets(targets, Some(p.via))))
  {
    hide CwAcceptable, Targets;
  }

  lemma CleanDeliver(cfg: Config, w: Cw, s: State, p: Push, targets: seq<Client>)
    requires WideConfig(cfg) && CwAcceptable(w, []) && Clean(cfg, w, s) && p in s.net
    requires Selection(cfg, p.via.owner, targets) && ToAll(cfg, p.via.owner, targets)
    requires Safe(cfg, Delivered(s, p, targets))
    ensures Clean(cfg, w, Delivered(s, p, targets))
  {
    var n, s' := p.via.owner, Delivered(s, p, targets);
    DeliverFacts(cfg, w, s, p, targets);
    DeliveredFrame(s, p, targets);
    hide Delivered, SafePush, Targets, CwAcceptable, Safe, ValidConfig, Handled, CleanEntry, CleanPush;
    Holders(s, s', n);
    StillEntries(w, s, s');
    StillNet(w, s, s');
    DeliverHolds(cfg, s, s', p, targets);
    DeliverHandles(cfg, s, s', p);
    StillHandled(cfg, s, s');
  }

  /** A delivery in a clean state, seen from outside. */
  lemma DeliverFacts(cfg: Config, w: Cw, s: State, p: Push, targets: seq<Client>)
    requires WideConfig(cfg) && CwAcceptable(w, []) && Clean(cfg, w, s) && p in s.net
    ensures p.via in cfg.clients && Has(s, p.via.peer)
    ensures var n, s' := p.via.owner, Delivered(s, p, targets);
            && Has(s', n) && s.ids.Keys <= s'.ids.Keys && NothingRefused(s') && s'.net == s.net - multiset{p}
            && (EntryOf(s', n) != EntryOf(s, n) ==> CleanEntry(w, s', s'.entries[n]))
            && s'.jobs == if Has(s, n) then s.jobs else s.jobs + multiset(Targets(targets, Some(p.via)))
  {
    var n, s' := p.via.owner, Delivered(s, p, targets);
    hide Clean, WideConfig, CwAcceptable, NothingRefused, CleanEntry, Delivered, Targets, AllHave;
    DeliverBefore(cfg, w, s, p);
    CleanArrive(w, s, p, targets);
    DeliveredFrame(s, p, targets);
    DeliveredNet(s, p, targets);
    Holders(s, s', n);
    if !Has(s, n) {
      HolderEntry(w, s, s', p);
    }
  }

  lemma HolderEntry(w: Cw, s: State, s': State, p: Push)
    requires AllHave(s, p.nodes) && Grows(s, s')
    ensures CleanEntry(w, s', Entry(E_CACHEEX, w, Some(p.nodes), Some(p.via), true))
  {
  }

  lemma DeliveredNet(s: State, p: Push, targets: seq<Client>)
    ensures Delivered(s, p, targets).net == s.net - multiset{p}
  {
    hide Arrive, Learned;
  }

  lemma DeliverBefore(cfg: Config, w: Cw, s: State, p: Push)
    requires WideConfig(cfg) && Clean(cfg, w, s) && p in s.net
    ensures p.via in cfg.clients && p.via.letsIn && |p.nodes| <= p.via.maxhop
    ensures p.nodes != [] && p.nodes[0] == p.via.peer && AllHave(s, p.nodes) && p.rc == E_FOUND && p.cw == w
    ensures Has(s, p.via.peer) && NothingRefused(s)
    ensures p.via.owner in s.entries ==> CleanEntry(w, s, s.entries[p.via.owner])
  {
    SafeParts(cfg, s, p);
    PushFits(cfg, p);
    assert CleanPush(w, s, p);
    hide Safe, JobsHeld, AllHandled, SafeEntry;
  }

  lemma DeliverHolds(cfg: Config, s: State, s': State, p: Push, targets: seq<Client>)
    requires ValidConfig(cfg) && JobsHeld(s) && Has(s', p.via.owner) && Grows(s, s') && Has(s, p.via.peer)
    requires Selection(cfg, p.via.owner, targets) && ToAll(cfg, p.via.owner, targets)
    requires forall m :: m != p.via.owner && Has(s', m) ==> Has(s, m)
    requires s'.jobs == if Has(s, p.via.owner) then s.jobs else s.jobs + multiset(Targets(targets, Some(p.via)))
    ensures JobsHeld(s')
    ensures forall c :: c in cfg.clients && c.pushesOut && Has(s', c.owner) && !Has(s, c.owner) ==> Handled(cfg, s', c)
  {
    TargetsMembers(targets, Some(p.via));
    hide Targets;
    forall c | c in s'.jobs && c !in s.jobs ensures Has(s', c.owner) && c.pushesOut {
      assert c in Targets(targets, Some(p.via));
      assert c in targets;
    }
    forall c | c in cfg.clients && c.pushesOut && Has(s', c.owner) && !Has(s, c.owner) ensures Handled(cfg, s', c) {
      assert c in Ends(cfg, p.via.owner);
      if c != p.via {
        assert c in Targets(targets, Some(p.via));
      }
    }
  }

  /** The push that is taken from the line has served the end it was sent over. */
  lemma DeliverHandles(cfg: Config, s: State, s': State, p: Push)
    requires ValidConfig(cfg) && Has(s', p.via.owner) && p in s.net && s'.net == s.net - multiset{p}
    requires Grows(s, s') && forall c :: c in s.jobs ==> c in s'.jobs
    ensures forall c :: c in cfg.clients && Handled(cfg, s, c) ==> Handled(cfg, s', c)
  {
    forall c | c in cfg.clients && Handled(cfg, s, c) ensures Handled(cfg, s', c) {
      if c !in s.jobs && !Has(s, c.peer) {
        var q :| q in s.net && q.via == cfg.other[c];
        if q == p {
          assert c.peer == p.via.owner;
        } else {
          assert q in s'.net;
        }
      }
    }
  }

  lemma CleanRun(cfg: Config, w: Cw, s: State, c: Client)
    requires WideConfig(cfg) && Clean(cfg, w, s) && c in s.jobs && c.owner in s.entries && c in cfg.other
    requires Safe(cfg, JobRun(cfg, s, c))
    ensures Clean(cfg, w, JobRun(cfg, s, c))
  {
    var s' := JobRun(cfg, s, c);
    RunBefore(cfg, w, s, c);
    assert Grows(s, s');
    RunFacts(cfg, w, s, c);
    hide JobRun, Safe, SafeEntry, ValidConfig, Handled, CleanEntry, CleanPush;
    StillEntries(w, s, s');
    StillNet(w, s, s');
    StillHeld(s, s');
    StillHandled(cfg, s, s');
  }

  lemma RunBefore(cfg: Config, w: Cw, s: State, c: Client)
    requires WideConfig(cfg) && Clean(cfg, w, s) && c in s.jobs && c.owner in s.entries
    ensures c in cfg.clients && Has(s, c.owner) && c.pushesOut
    ensures (c in s.ids ==> s.ids[c] == c.peer) && (c.cccam || c in s.ids) && NO_NODE !in s.entries[c.owner].Path()
    ensures CleanEntry(w, s, s.entries[c.owner]) && |s.entries[c.owner].Path()| < c.maxhop
  {
    JobParts(cfg, s, c);
    CleanJob(cfg, w, s, c);
    hide Clean, Safe, SafeEntry, CleanEntry, ValidConfig;
    EntryFits(cfg, c, s.entries[c.owner]);
  }

  lemma CleanJob(cfg: Config, w: Cw, s: State, c: Client)
    requires ValidConfig(cfg) && Clean(cfg, w, s) && c in s.jobs && c in cfg.clients && c.owner in s.entries
    ensures c.pushesOut && (c.cccam || c in s.ids) && CleanEntry(w, s, s.entries[c.owner])
  {
    hide Safe, CleanEntry, AllHandled, CleanNet, ValidConfig;
  }

  lemma RunFacts(cfg: Config, w: Cw, s: State, c: Client)
    requires WideConfig(cfg) && c.pushesOut && c in cfg.clients && c in s.jobs && Has(s, c.owner)
    requires (c in s.ids ==> s.ids[c] == c.peer) && (c.cccam || c in s.ids) && NO_NODE !in s.entries[c.owner].Path()
    requires CleanEntry(w, s, s.entries[c.owner]) && |s.entries[c.owner].Path()| < c.maxhop
    ensures var s' := JobRun(cfg, s, c);
            && s'.entries == s.entries && s'.ids == s.ids && s'.invalid == s.invalid
            && (forall p :: p in s'.net && p !in s.net ==> CleanPush(w, s', p))
            && (forall d :: d in s'.jobs ==> d in s.jobs)
            && (forall d :: d in cfg.clients && Handled(cfg, s, d) ==> Handled(cfg, s', d))
  {
    var s', e := JobRun(cfg, s, c), s.entries[c.owner];
    var push := OnTheWire(c, e, cfg.other[c]);
    assert PushAllowed(c, e, IdOf(s, c)) || c.peer in e.Path();
    assert PushAllowed(c, e, IdOf(s, c)) ==> push in s'.net;
    assert c.peer in e.Path() ==> Has(s', c.peer);
    assert CleanPush(w, s', push);
    forall d | d in cfg.clients && Handled(cfg, s, d) ensures Handled(cfg, s', d) {
      if d == c {
      } else if d in s.jobs {
        assert d in s'.jobs;
      } else if !Has(s, d.peer) {
        var p :| p in s.net && p.via == cfg.other[d];
        assert p in s'.net;
      }
    }
  }

  lemma CleanAnswer(cfg: Config, w: Cw, s: State, n: Node, rc: int, targets: seq<Client>)
    requires ValidConfig(cfg) && Clean(cfg, w, s) && n in s.entries && 0 <= rc < E_NOTFOUND
    requires Selection(cfg, n, targets) && ToAll(cfg, n, targets)
    requires Safe(cfg, Answered(s, n, rc, w, targets))
    ensures Clean(cfg, w, Answered(s, n, rc, w, targets))
  {
    var s', e := Answered(s, n, rc, w, targets), s.entries[n];
    assert CleanEntry(w, s, e);
    AnswerFacts(cfg, w, s, n, rc, targets);
    hide Answered, Safe, ValidConfig, Handled, CleanEntry, CleanPush, Selection;
    StillEntries(w, s, s');
    StillNet(w, s, s');
    StillHeld(s, s');
    StillHandled(cfg, s, s');
  }

  lemma AnswerFacts(cfg: Config, w: Cw, s: State, n: Node, rc: int, targets: seq<Client>)
    requires ValidConfig(cfg) && n in s.entries && CleanEntry(w, s, s.entries[n]) && 0 <= rc < E_NOTFOUND
    requires Selection(cfg, n, targets) && ToAll(cfg, n, targets)
    ensures var s' := Answered(s, n, rc, w, targets);
            && Grows(s, s') && s'.net == s.net && s'.ids == s.ids && s'.invalid == s.invalid
            && (forall m :: m in s'.entries && EntryOf(s', m) != EntryOf(s, m) ==> CleanEntry(w, s', s'.entries[m]))
            && (forall c :: c in s'.jobs && c !in s.jobs ==> Has(s', c.owner) && c.pushesOut)
            && (forall c :: c in cfg.clients && Handled(cfg, s, c) ==> Handled(cfg, s', c))
            && (forall c :: c in cfg.clients && c.pushesOut && Has(s', c.owner) && !Has(s, c.owner) ==>
                  Handled(cfg, s', c))
  {
    var s', e := Answered(s, n, rc, w, targets), s.entries[n];
    AnswerEntry(w, s, n, rc, targets);
    TargetsMembers(targets, None);
    hide Targets, Answered, CleanEntry;
    assert forall m :: m != n ==> EntryOf(s', m) == EntryOf(s, m);
    Holders(s, s', n);
    forall c | c in s'.jobs && c !in s.jobs ensures Has(s', c.owner) && c.pushesOut {
      assert c in Targets(targets, None);
      SelectedOwner(cfg, n, targets, c);
    }
    hide Selection;
    AnswerHandles(cfg, s, s', n, targets);
  }

  lemma AnswerEntry(w: Cw, s: State, n: Node, rc: int, targets: seq<Client>)
    requires n in s.entries && CleanEntry(w, s, s.entries[n]) && 0 <= rc < E_NOTFOUND
    ensures var s' := Answered(s, n, rc, w, targets);
            && n in s'.entries && s'.entries == s.entries[n := s'.entries[n]] && Has(s', n)
            && s'.net == s.net && s'.ids == s.ids && s'.invalid == s.invalid
            && CleanEntry(w, s', s'.entries[n])
            && s'.jobs == if Has(s, n) then s.jobs else s.jobs + multiset(Targets(targets, None))
  {
    hide Targets;
    var s', e := Answered(s, n, rc, w, targets), s.entries[n];
    assert s'.entries[n].Path() == e.Path();
    assert forall m :: m != n ==> EntryOf(s', m) == EntryOf(s, m);
    Holders(s, s', n);
  }

  lemma AnswerHandles(cfg: Config, s: State, s': State, n: Node, targets: seq<Client>)
    requires ValidConfig(cfg) && Grows(s, s') && s'.net == s.net && ToAll(cfg, n, targets)
    requires forall m :: m != n && Has(s', m) ==> Has(s, m)
    requires s'.jobs == if Has(s, n) then s.jobs else s.jobs + multiset(Targets(targets, None))
    ensures forall c :: c in cfg.clients && Handled(cfg, s, c) ==> Handled(cfg, s', c)
    ensures forall c :: c in cfg.clients && c.pushesOut && Has(s', c.owner) && !Has(s, c.owner) ==> Handled(cfg, s', c)
  {
    TargetsMembers(targets, None);
    hide Targets;
    forall c | c in cfg.clients && c.pushesOut && Has(s', c.owner) && !Has(s, c.owner) ensures Handled(cfg, s', c) {
      assert c in Ends(cfg, n);
      assert c in Targets(targets, None);
    }
  }

  lemma SelectedOwner(cfg: Config, n: Node, targets: seq<Client>, c: Client)
    requires Selection(cfg, n, targets) && c in targets
    ensures c.owner == n
  {
  }

  lemma {:induction false} StepClean(cfg: Config, w: Cw, s: State, step: Step)
    requires WideConfig(cfg) && CwAcceptable(w, []) && Clean(cfg, w, s) && CleanStep(cfg, w, s, step)
    ensures Clean(cfg, w, Next(cfg, s, step))
  {
    var s' := Next(cfg, s, step);
    StepSafe(cfg, s, step);
    StillReady(cfg, w, s, step);
    hide Delivered, JobRun, Answered, CwAcceptable, Safe, Clean, ValidConfig, ToAll, Selection, Ready;
    match step {
      case Deliver(p, targets) => CleanDeliver(cfg, w, s, p, targets);
      case RunJob(c) => CleanRun(cfg, w, s, c);
      case LocalAnswer(n, rc, v, targets) => CleanAnswer(cfg, w, s, n, rc, targets);
      case Request(n) => CleanRequest(cfg, w, s, n);
      case LearnId(c) => CleanIds(cfg, w, s, s.ids[c := c.peer]);
      case Reconnect(c) => CleanIds(cfg, w, s, s.ids - {c});
    }
  }

  lemma StillReady(cfg: Config, w: Cw, s: State, step: Step)
    requires ValidConfig(cfg) && Clean(cfg, w, s) && CleanStep(cfg, w, s, step)
    ensures step.LearnId? ==> Ready(cfg, s.ids[step.c := step.c.peer])
    ensures step.Reconnect? ==> Ready(cfg, s.ids - {step.c})
  {
    hide Safe, CleanEntries, AllHandled, CleanNet, ValidConfig, Enabled, ToAll;
  }

  lemma SameHandled(cfg: Config, s: State, s': State)
    requires ValidConfig(cfg) && AllHandled(cfg, s) && s'.jobs == s.jobs && s'.net == s.net && Grows(s, s')
    requires forall m :: Has(s', m) ==> Has(s, m)
    ensures AllHandled(cfg, s')
  {
    forall c | c in cfg.clients && Handled(cfg, s, c) ensures Handled(cfg, s', c) {
    }
    StillHandled(cfg, s, s');
  }

  lemma CleanRequest(cfg: Config, w: Cw, s: State, n: Node)
    requires ValidConfig(cfg) && Clean(cfg, w, s) && n !in s.entries
    requires Safe(cfg, s.(entries := s.entries[n := Requested()]))
    ensures Clean(cfg, w, s.(entries := s.entries[n := Requested()]))
  {
    var s' := s.(entries := s.entries[n := Requested()]);
    assert forall m :: m != n ==> EntryOf(s', m) == EntryOf(s, m);
    Holders(s, s', n);
    hide Safe, ValidConfig;
    StillEntries(w, s, s');
    StillNet(w, s, s');
    SameHandled(cfg, s, s');
  }

  lemma CleanIds(cfg: Config, w: Cw, s: State, ids: map<Client, Node>)
    requires ValidConfig(cfg) && Clean(cfg, w, s) && Safe(cfg, s.(ids := ids)) && Ready(cfg, ids)
    ensures Clean(cfg, w, s.(ids := ids))
  {
    hide Safe, ValidConfig;
    var s' := s.(ids := ids);
    assert Grows(s, s');
    StillEntries(w, s, s');
    StillNet(w, s, s');
    SameHandled(cfg, s, s');
  }

  // ---------- Every reachable node is served ----------

  ghost predicate CleanSteps(cfg: Config, w: Cw, s: State, steps: seq<Step>)
    decreases |steps|
  {
    steps == [] || (CleanStep(cfg, w, s, steps[0]) && CleanSteps(cfg, w, Next(cfg, s, steps[0]), steps[1..]))
  }

  lemma {:induction false} CleanAtEnd(cfg: Config, w: Cw, s: State, steps: seq<Step>)
    requires WideConfig(cfg) && CwAcceptable(w, []) && Clean(cfg, w, s) && CleanSteps(cfg, w, s, steps)
    ensures Runs(cfg, s, steps) && Clean(cfg, w, Final(cfg, s, steps))
    decreases |steps|
  {
    hide Clean, CwAcceptable;
    if steps != [] {
      StepClean(cfg, w, s, steps[0]);
      CleanAtEnd(cfg, w, Next(cfg, s, steps[0]), steps[1..]);
    }
  }

  /** There is a chain of pushing ends from `n` to `m`. */
  ghost predicate Reaches(cfg: Config, n: Node, m: Node, chain: seq<Client>)
    decreases |chain|
  {
    if chain == [] then n == m
    else
      chain[0] in cfg.clients && chain[0].pushesOut && chain[0].owner == n
      && Reaches(cfg, chain[0].peer, m, chain[1..])
  }

  lemma {:induction false} ChainHas(cfg: Config, w: Cw, s: State, n: Node, m: Node, chain: seq<Client>)
    requires ValidConfig(cfg) && Clean(cfg, w, s) && s.jobs == multiset{} && s.net == multiset{}
    requires Has(s, n) && Reaches(cfg, n, m, chain)
    ensures Has(s, m)
    decreases |chain|
  {
    if chain != [] {
      assert Handled(cfg, s, chain[0]);
      ChainHas(cfg, w, s, chain[0].peer, m, chain[1..]);
    }
  }

  /** The flood serves every node: in a network whose limits are wide enough, where the camd35 ends that
      push know the ids of their peers and nothing is lost, once nothing is under way every node with a
      chain of pushing ends from a holder has the answer, with the same control word. */
  lemma {:induction false} FloodReachesAll(cfg: Config, w: Cw, ids: map<Client, Node>, steps: seq<Step>,
                                           n: Node, m: Node, chain: seq<Client>)
    requires WideConfig(cfg) && CwAcceptable(w, [])
    requires Ready(cfg, ids) && forall c :: c in ids ==> c in cfg.clients && ids[c] == c.peer
    requires CleanSteps(cfg, w, Quiet(ids), steps)
    ensures Runs(cfg, Quiet(ids), steps)
    ensures var s := Final(cfg, Quiet(ids), steps);
            s.jobs == multiset{} && s.net == multiset{} && Has(s, n) && Reaches(cfg, n, m, chain) ==>
              Has(s, m) && s.entries[m].cw == w
  {
    assert Clean(cfg, w, Quiet(ids));
    CleanAtEnd(cfg, w, Quiet(ids), steps);
    var s := Final(cfg, Quiet(ids), steps);
    if s.jobs == multiset{} && s.net == multiset{} && Has(s, n) && Reaches(cfg, n, m, chain) {
      ChainHas(cfg, w, s, n, m, chain);
      assert CleanEntry(w, s, s.entries[m]);
    }
  }

  // ---------- A smallest network ----------

  const SERVER := Client(1, 2, 0, false, false, 2, 0, 0)
  const READER := Client(2, 1, 0, false, true, 2, 0, 0)
  const PAIR := Config({SERVER, READER}, map[SERVER := READER, READER := SERVER])

  /** Node 1 answers its own request, and pushes the answer over an account in mode 2 to the reader in
      mode 2 of node 2. */
  function PairSteps(w: Cw): seq<Step> {
    [Request(1), LocalAnswer(1, E_FOUND, w, [SERVER]), RunJob(SERVER),
     Deliver(Push(READER, E_FOUND, w, [1]), [READER])]
  }

  lemma PairIsValid()
    ensures ValidConfig(PAIR)
  {
    forall c | c in PAIR.clients
      ensures c in PAIR.other && c.owner != c.peer && PAIR.other[c] in PAIR.clients
      ensures PAIR.other[c].owner == c.peer && PAIR.other[c].peer == c.owner && PAIR.other[c].cccam == c.cccam
    {
      assert c in {SERVER, READER};
    }
  }

  lemma PairIsWide()
    ensures WideConfig(PAIR) && |NodesOf(PAIR)| == 2
  {
    PairIsValid();
    hide ValidConfig;
    assert NodesOf(PAIR) == {1, 2} by {
      assert SERVER in PAIR.clients && READER in PAIR.clients;
    }
    hide NodesOf;
    forall c | c in PAIR.clients ensures c.owner != NO_NODE && c.maxhop == 10 && (c.pushesOut ==> PAIR.other[c].letsIn) {
      assert c in {SERVER, READER};
    }
  }

  const PAIR_IDS: map<Client, Node> := map[SERVER := 2]

  function PairPush(w: Cw): Push {
    Push(READER, E_FOUND, w, [1])
  }

  function PairEntry(w: Cw): Entry {
    Entry(E_FOUND, w, None, None, true)
  }

  /** The state after `k` of the steps, as far as the refused words do not matter. */
  function PairState(w: Cw, k: nat): State
    requires k <= 3
  {
    if k == 0 then Quiet(PAIR_IDS)
    else if k == 1 then State(map[1 := Requested()], map[], multiset{}, multiset{}, PAIR_IDS)
    else if k == 2 then State(map[1 := PairEntry(w)], map[], multiset{SERVER}, multiset{}, PAIR_IDS)
    else State(map[1 := PairEntry(w)], map[], multiset{}, multiset{PairPush(w)}, PAIR_IDS)
  }

  lemma PairTargets()
    ensures Targets([SERVER], None) == [SERVER] && Targets([READER], Some(READER)) == []
  {
    assert [SERVER][1..] == [] && [READER][1..] == [];
  }

  lemma PairRequest(w: Cw)
    ensures CleanStep(PAIR, w, PairState(w, 0), Request(1))
    ensures Enabled(PAIR, PairState(w, 0), Request(1))
    ensures Next(PAIR, PairState(w, 0), Request(1)) == PairState(w, 1)
  {
  }

  lemma PairAnswer(w: Cw)
    ensures CleanStep(PAIR, w, PairState(w, 1), LocalAnswer(1, E_FOUND, w, [SERVER]))
    ensures Enabled(PAIR, PairState(w, 1), LocalAnswer(1, E_FOUND, w, [SERVER]))
    ensures Next(PAIR, PairState(w, 1), LocalAnswer(1, E_FOUND, w, [SERVER])) == PairState(w, 2)
  {
    PairTargets();
  }

  lemma PairJob(w: Cw)
    ensures CleanStep(PAIR, w, PairState(w, 2), RunJob(SERVER))
    ensures Enabled(PAIR, PairState(w, 2), RunJob(SERVER))
    ensures Next(PAIR, PairState(w, 2), RunJob(SERVER)) == PairState(w, 3)
  {
    assert PushAllowed(SERVER, PairEntry(w), Some(2));
    assert [1] + PairEntry(w).Path() == [1];
  }

  lemma PairArrives(w: Cw)
    ensures CleanStep(PAIR, w, PairState(w, 3), Deliver(PairPush(w), [READER]))
    ensures Enabled(PAIR, PairState(w, 3), Deliver(PairPush(w), [READER]))
  {
  }

  lemma PairArrival(w: Cw)
    requires CwAcceptable(w, [])
    ensures Arrive(None, [], PairPush(w), Some(1), [READER])
            == Arrival(Some(Entry(E_CACHEEX, w, Some([1]), Some(READER), true)), [], [])
  {
    PairTargets();
    hide Targets, CwAcceptable;
  }

  lemma PairDelivery(w: Cw)
    requires CwAcceptable(w, [])
    ensures Enabled(PAIR, PairState(w, 3), Deliver(PairPush(w), [READER]))
    ensures var s := Next(PAIR, PairState(w, 3), Deliver(PairPush(w), [READER]));
            s.jobs == multiset{} && s.net == multiset{} && Has(s, 1) && Has(s, 2)
  {
    hide Arrive, CwAcceptable, Enabled;
    PairArrives(w);
    PairArrival(w);
    var p, s := PairPush(w), PairState(w, 3);
    var s' := Delivered(s, p, [READER]);
    assert s'.net == multiset{} && s'.jobs == multiset{};
    assert s'.entries[1] == PairEntry(w);
  }

  /** Networks as in FloodReachesAll exist: this one reaches node 2 and comes to rest. */
  lemma PairServed(w: Cw)
    requires CwAcceptable(w, [])
    ensures WideConfig(PAIR) && Reaches(PAIR, 1, 2, [SERVER])
    ensures CleanSteps(PAIR, w, Quiet(PAIR_IDS), PairSteps(w)) && Runs(PAIR, Quiet(PAIR_IDS), PairSteps(w))
    ensures var s := Final(PAIR, Quiet(PAIR_IDS), PairSteps(w));
            s.jobs == multiset{} && s.net == multiset{} && Has(s, 1) && Has(s, 2)
  {
    hide CwAcceptable, Next, CleanStep, Enabled, PairState, Has;
    PairIsWide();
    PairRequest(w);
    PairAnswer(w);
    PairJob(w);
    PairArrives(w);
    PairDelivery(w);
    PairChain();
    var steps, s4 := PairSteps(w), Next(PAIR, PairState(w, 3), Deliver(PairPush(w), [READER]));
    assert steps[1..][1..][1..] == [steps[3]];
    PairRun(w, PairState(w, 3), steps[1..][1..][1..], s4);
    PairRun(w, PairState(w, 2), steps[1..][1..], s4);
    PairRun(w, PairState(w, 1), steps[1..], s4);
    PairRun(w, PairState(w, 0), steps, s4);
  }

  lemma PairRun(w: Cw, s: State, steps: seq<Step>, end: State)
    requires steps != [] && Enabled(PAIR, s, steps[0]) && CleanStep(PAIR, w, s, steps[0])
    requires var s' := Next(PAIR, s, steps[0]);
             if |steps| == 1 then s' == end
             else CleanSteps(PAIR, w, s', steps[1..]) && Runs(PAIR, s', steps[1..]) && Final(PAIR, s', steps[1..]) == end
    ensures CleanSteps(PAIR, w, s, steps) && Runs(PAIR, s, steps) && Final(PAIR, s, steps) == end
  {
    hide Enabled, CleanStep, Next;
    assert |steps| == 1 ==> steps[1..] == [];
  }

  lemma PairChain()
    ensures Reaches(PAIR, 1, 2, [SERVER]) && forall w :: PairState(w, 0) == Quiet(PAIR_IDS)
  {
    assert [SERVER][1..] == [];
  }
}
