/** The flood of one answer through a network of cache-exchange nodes.

    The nodes run the code modelled in CacheEx.  Jobs and pushes are taken in any order; they may be
    lost, local requests and answers may come at any time, and the filters that decide which clients a
    push goes to may choose any of the node's clients each time. */
module CacheExFlood {
  import opened CacheEx

  /** All connection ends, and for each the end at the other side. */
  datatype Config = Config(clients: set<Client>, other: map<Client, Client>)

  /** No node is connected to itself, and the two ends of a connection have one transport. */
  ghost predicate ValidConfig(cfg: Config) {
    && (forall c :: c in cfg.clients ==> c in cfg.other && c.owner != c.peer)
    && (forall c {:trigger cfg.other[c]} :: c in cfg.clients ==>
          cfg.other[c] in cfg.clients && cfg.other[c].owner == c.peer && cfg.other[c].peer == c.owner
          && cfg.other[c].cccam == c.cccam)
  }

  function Ends(cfg: Config, n: Node): set<Client> {
    set c | c in cfg.clients && c.owner == n
  }

  /** `ids` holds the peer ids known so far: CCcam learns them from the client and server data, camd35
      from the peer's answer or from the first push; a new connection starts without. */
  datatype State = State(entries: map<Node, Entry>, invalid: map<Node, seq<Cw>>,
                         jobs: multiset<Client>, net: multiset<Push>, ids: map<Client, Node>)

  function EntryOf(s: State, n: Node): Option<Entry> {
    if n in s.entries then Some(s.entries[n]) else None
  }

  function InvalidOf(s: State, n: Node): seq<Cw> {
    if n in s.invalid then s.invalid[n] else []
  }

  function IdOf(s: State, c: Client): Option<Node> {
    if c in s.ids then Some(s.ids[c]) else None
  }

  datatype Step =
    | Request(n: Node)
    | LocalAnswer(n: Node, rc: int, w: Cw, targets: seq<Client>)
    | LearnId(c: Client)
    | Reconnect(c: Client)
    | RunJob(c: Client)
    | Deliver(p: Push, targets: seq<Client>)
    | LoseJob(c: Client)
    | LosePush(p: Push)

  /** Steps of the flood itself; the others come from outside. */
  predicate OfFlood(step: Step) {
    step.RunJob? || step.Deliver? || step.LoseJob? || step.LosePush?
  }

  ghost predicate Distinct<T>(s: seq<T>) {
    forall i, j :: 0 <= i < j < |s| ==> s[i] != s[j]
  }

  /** The clients that pass the filters other than the mode: some of the node's, each once. */
  ghost predicate Selection(cfg: Config, n: Node, targets: seq<Client>) {
    Distinct(targets) && forall c :: c in targets ==> c in Ends(cfg, n)
  }

  ghost predicate Enabled(cfg: Config, s: State, step: Step) {
    match step
    case Request(n) => n !in s.entries
    case LocalAnswer(n, rc, w, targets) => n in s.entries && 0 <= rc <= 5 && Selection(cfg, n, targets)
    case LearnId(c) => c in cfg.clients
    case Reconnect(c) => c in cfg.clients
    case RunJob(c) => c in s.jobs && c.owner in s.entries && c in cfg.other
    case Deliver(p, targets) => p in s.net && Selection(cfg, p.via.owner, targets)
    case LoseJob(c) => c in s.jobs
    case LosePush(p) => p in s.net
  }

  /** A new entry of a local request. */
  function Requested(): Entry {
    Entry(E_UNHANDLED, seq(16, _ => 0), None, None, false)
  }

  /** The peer id after a push came in: over camd35 the first id of its list if none was known. */
  function Learned(s: State, p: Push): map<Client, Node> {
    if !p.via.cccam && p.via !in s.ids && p.nodes != [] && (p.rc == E_FOUND || p.rc == E_UNHANDLED)
       && |p.nodes| <= p.via.maxhop
    then s.ids[p.via := p.nodes[0]] else s.ids
  }

  function Delivered(s: State, p: Push, targets: seq<Client>): State {
    var n, ids := p.via.owner, Learned(s, p);
    var id := if p.via in ids then Some(ids[p.via]) else None;
    var a := Arrive(EntryOf(s, n), InvalidOf(s, n), p, id, targets);
    State(if a.entry.Some? then s.entries[n := a.entry.value] else s.entries,
          s.invalid[n := a.invalid], s.jobs + multiset(a.jobs), s.net - multiset{p}, ids)
  }

  function JobRun(cfg: Config, s: State, c: Client): State
    requires c.owner in s.entries && c in cfg.other
  {
    var e := s.entries[c.owner];
    s.(jobs := s.jobs - multiset{c},
       net := if PushAllowed(c, e, IdOf(s, c)) && Sendable(e)
              then s.net + multiset{OnTheWire(c, e, cfg.other[c])} else s.net)
  }

  function Answered(s: State, n: Node, rc: int, w: Cw, targets: seq<Client>): State
    requires n in s.entries
  {
    var (e, jobs) := Answer(s.entries[n], rc, w, targets);
    s.(entries := s.entries[n := e], jobs := s.jobs + multiset(jobs))
  }

  ghost function Next(cfg: Config, s: State, step: Step): State
    requires Enabled(cfg, s, step)
  {
    match step
    case Request(n) => s.(entries := s.entries[n := Requested()])
    case LocalAnswer(n, rc, w, targets) => Answered(s, n, rc, w, targets)
    case LearnId(c) => s.(ids := s.ids[c := c.peer])
    case Reconnect(c) => s.(ids := s.ids - {c})
    case RunJob(c) => JobRun(cfg, s, c)
    case Deliver(p, targets) => Delivered(s, p, targets)
    case LoseJob(c) => s.(jobs := s.jobs - multiset{c})
    case LosePush(p) => s.(net := s.net - multiset{p})
  }

  ghost predicate Runs(cfg: Config, s: State, steps: seq<Step>)
    decreases |steps|
  {
    steps == [] || (Enabled(cfg, s, steps[0]) && Runs(cfg, Next(cfg, s, steps[0]), steps[1..]))
  }

  ghost function Final(cfg: Config, s: State, steps: seq<Step>): State
    requires Runs(cfg, s, steps)
    decreases |steps|
  {
    if steps == [] then s else Final(cfg, Next(cfg, s, steps[0]), steps[1..])
  }

  /** Nothing cached, nothing under way, some peer ids known. */
  function Quiet(ids: map<Client, Node>): State {
    State(map[], map[], multiset{}, multiset{}, ids)
  }

  // ---------- The flood terminates ----------

  /** The node can still accept a push. */
  predicate Open(s: State, n: Node) {
    !Found(EntryOf(s, n))
  }

  function OpenEnds(cfg: Config, s: State): set<Client> {
    set c | c in cfg.clients && Open(s, c.owner)
  }

  function Weight(cfg: Config, s: State): nat {
    2 * |OpenEnds(cfg, s)| + 2 * |s.jobs| + |s.net|
  }

  ghost predicate CodesInRange(s: State) {
    forall n :: n in s.entries ==> 0 <= s.entries[n].rc <= E_UNHANDLED
  }

  lemma {:induction false} DistinctSize(s: seq<Client>, t: set<Client>)
    requires Distinct(s) && forall c :: c in s ==> c in t
    ensures |s| <= |t|
  {
    if s != [] {
      var rest := s[1..];
      forall c | c in rest ensures c in t - {s[0]} {
        assert c in s;
      }
      DistinctSize(rest, t - {s[0]});
    }
  }

  /** A node that finds the answer uses up its ends; they pay for the jobs it queues. */
  lemma {:induction false} ClosingPays(cfg: Config, s: State, s': State, n: Node, targets: seq<Client>,
      jobs: seq<Client>)
    requires Open(s, n) && !Open(s', n) && Selection(cfg, n, targets) && |jobs| <= |targets|
    requires forall m :: m != n ==> EntryOf(s', m) == EntryOf(s, m)
    ensures |OpenEnds(cfg, s')| + |jobs| <= |OpenEnds(cfg, s)|
  {
    assert OpenEnds(cfg, s) == OpenEnds(cfg, s') + Ends(cfg, n);
    assert OpenEnds(cfg, s') !! Ends(cfg, n);
    DistinctSize(targets, Ends(cfg, n));
  }

  lemma {:induction false} DeliverWeight(cfg: Config, s: State, p: Push, targets: seq<Client>)
    requires CodesInRange(s) && p in s.net && Selection(cfg, p.via.owner, targets)
    ensures var s' := Delivered(s, p, targets); CodesInRange(s') && Weight(cfg, s') < Weight(cfg, s)
  {
    var n, s', ids := p.via.owner, Delivered(s, p, targets), Learned(s, p);
    var id := if p.via in ids then Some(ids[p.via]) else None;
    var a := Arrive(EntryOf(s, n), InvalidOf(s, n), p, id, targets);
    AcceptedPushLowersRc(EntryOf(s, n), InvalidOf(s, n), p, id, targets);
    ArriveJobs(EntryOf(s, n), InvalidOf(s, n), p, id, targets);
    hide Arrive, Learned, Selection, InvalidOf;
    DeliveredSizes(s, p, targets, a);
    hide Delivered;
    CodesKept(s, s', n);
    if a.entry == EntryOf(s, n) && a.jobs == [] {
      SameOpenEnds(cfg, s, s');
    } else {
      ClosingPays(cfg, s, s', n, targets, a.jobs);
    }
  }

  lemma CodesKept(s: State, s': State, n: Node)
    requires CodesInRange(s) && forall m :: m != n ==> EntryOf(s', m) == EntryOf(s, m)
    requires EntryOf(s', n) == EntryOf(s, n) || (n in s'.entries && 0 <= s'.entries[n].rc <= E_UNHANDLED)
    ensures CodesInRange(s')
  {
    forall m | m in s'.entries ensures 0 <= s'.entries[m].rc <= E_UNHANDLED {
      if EntryOf(s', m) == EntryOf(s, m) {
        assert s.entries[m] == s'.entries[m];
      }
    }
  }

  lemma DeliveredSizes(s: State, p: Push, targets: seq<Client>, a: Arrival)
    requires p in s.net && (p.via.owner in s.entries ==> a.entry.Some?)
    requires var n, ids := p.via.owner, Learned(s, p);
             a == Arrive(EntryOf(s, n), InvalidOf(s, n), p, if p.via in ids then Some(ids[p.via]) else None, targets)
    ensures var s' := Delivered(s, p, targets);
            && |s'.jobs| == |s.jobs| + |a.jobs| && |s'.net| == |s.net| - 1
            && (forall m :: m != p.via.owner ==> EntryOf(s', m) == EntryOf(s, m))
            && EntryOf(s', p.via.owner) == a.entry
  {
    hide Arrive, Learned, InvalidOf;
  }

  lemma SameOpenEnds(cfg: Config, s: State, s': State)
    requires forall m :: Open(s', m) == Open(s, m)
    ensures OpenEnds(cfg, s') == OpenEnds(cfg, s)
  {
  }

  lemma ArriveJobs(entry: Option<Entry>, invalid: seq<Cw>, p: Push, id: Option<Node>, targets: seq<Client>)
    ensures var a := Arrive(entry, invalid, p, id, targets);
            |a.jobs| <= |targets| && (a.jobs == [] || a.jobs == Targets(targets, Some(p.via)))
    ensures entry.Some? ==> Arrive(entry, invalid, p, id, targets).entry.Some?
  {
    TargetsMembers(targets, Some(p.via));
  }

  lemma {:induction false} AnswerWeight(cfg: Config, s: State, n: Node, rc: int, w: Cw, targets: seq<Client>)
    requires CodesInRange(s) && n in s.entries && 0 <= rc <= 5 && Selection(cfg, n, targets)
    ensures var s' := Answered(s, n, rc, w, targets); CodesInRange(s') && Weight(cfg, s') <= Weight(cfg, s)
  {
    var s' := Answered(s, n, rc, w, targets);
    var (e, jobs) := Answer(s.entries[n], rc, w, targets);
    TargetsMembers(targets, s.entries[n].src);
    if Open(s, n) && !Open(s', n) {
      ClosingPays(cfg, s, s', n, targets, jobs);
    } else {
      assert forall m :: Open(s', m) == Open(s, m);
      assert OpenEnds(cfg, s') == OpenEnds(cfg, s);
    }
  }

  lemma {:induction false} StepWeight(cfg: Config, s: State, step: Step)
    requires CodesInRange(s) && Enabled(cfg, s, step)
    ensures var s' := Next(cfg, s, step);
            CodesInRange(s') && Weight(cfg, s') + (if OfFlood(step) then 1 else 0) <= Weight(cfg, s)
  {
    hide Delivered, Answered, JobRun, OpenEnds, Selection;
    SameEntries(cfg, s);
    var s' := Next(cfg, s, step);
    match step {
      case Deliver(p, targets) => DeliverWeight(cfg, s, p, targets);
      case LocalAnswer(n, rc, w, targets) => AnswerWeight(cfg, s, n, rc, w, targets);
      case RunJob(c) => JobWeight(cfg, s, c);
      case Request(n) => RequestWeight(cfg, s, n);
      case LearnId(c) =>
      case Reconnect(c) =>
      case LoseJob(c) =>
      case LosePush(p) =>
    }
  }

  lemma RequestWeight(cfg: Config, s: State, n: Node)
    requires n !in s.entries
    ensures Weight(cfg, s.(entries := s.entries[n := Requested()])) == Weight(cfg, s)
  {
    SameOpenEnds(cfg, s, s.(entries := s.entries[n := Requested()]));
  }

  lemma SameEntries(cfg: Config, s: State)
    ensures forall s': State {:trigger OpenEnds(cfg, s')} :: s'.entries == s.entries ==>
              OpenEnds(cfg, s') == OpenEnds(cfg, s)
  {
    forall s': State | s'.entries == s.entries ensures OpenEnds(cfg, s') == OpenEnds(cfg, s) {
      SameOpenEnds(cfg, s, s');
    }
  }

  lemma JobWeight(cfg: Config, s: State, c: Client)
    requires c in s.jobs && c.owner in s.entries && c in cfg.other
    ensures Weight(cfg, JobRun(cfg, s, c)) < Weight(cfg, s)
    ensures JobRun(cfg, s, c).entries == s.entries
  {
    hide PushAllowed, Sendable, OnTheWire;
    SameOpenEnds(cfg, s, JobRun(cfg, s, c));
  }

  function FloodSteps(steps: seq<Step>): nat {
    if steps == [] then 0 else (if OfFlood(steps[0]) then 1 else 0) + FloodSteps(steps[1..])
  }

  lemma {:induction false} FloodBound(cfg: Config, s: State, steps: seq<Step>)
    requires CodesInRange(s) && Runs(cfg, s, steps)
    ensures FloodSteps(steps) + Weight(cfg, Final(cfg, s, steps)) <= Weight(cfg, s)
    decreases |steps|
  {
    if steps != [] {
      StepWeight(cfg, s, steps[0]);
      FloodBound(cfg, Next(cfg, s, steps[0]), steps[1..]);
    }
  }

  /** The flood for one key terminates, whatever the graph, the order of delivery, the losses and the
      local answers: in all, no run has more than two flood steps per connection end. */
  lemma {:induction false} FloodTerminates(cfg: Config, ids: map<Client, Node>, steps: seq<Step>)
    requires Runs(cfg, Quiet(ids), steps)
    ensures FloodSteps(steps) <= 2 * |cfg.clients|
  {
    FloodBound(cfg, Quiet(ids), steps);
    assert OpenEnds(cfg, Quiet(ids)) == cfg.clients;
  }

  // ---------- A found answer stays ----------

  /** Once a node has found the answer, no run changes its entry, control word included, unless one of the
      node's own readers brings a better code: no push, in whatever order and from whatever peer, does. */
  lemma {:induction false} FoundStays(cfg: Config, s: State, steps: seq<Step>, n: Node)
    requires Runs(cfg, s, steps) && Found(EntryOf(s, n))
    requires forall i :: 0 <= i < |steps| && steps[i].LocalAnswer? && steps[i].n == n ==> steps[i].rc >= s.entries[n].rc
    ensures EntryOf(Final(cfg, s, steps), n) == EntryOf(s, n)
    decreases |steps|
  {
    if steps != [] {
      var s' := Next(cfg, s, steps[0]);
      FoundStep(cfg, s, steps[0], n);
      FoundStays(cfg, s', steps[1..], n);
    }
  }

  lemma FoundStep(cfg: Config, s: State, step: Step, n: Node)
    requires Enabled(cfg, s, step) && Found(EntryOf(s, n))
    requires step.LocalAnswer? && step.n == n ==> step.rc >= s.entries[n].rc
    ensures EntryOf(Next(cfg, s, step), n) == EntryOf(s, n)
  {
    hide Learned;
    if step.Deliver? && step.p.via.owner == n {
      var ids := Learned(s, step.p);
      var id := if step.p.via in ids then Some(ids[step.p.via]) else None;
      PushKeepsFoundCw(EntryOf(s, n), InvalidOf(s, n), step.p, id, step.targets);
      hide Arrive;
    }
  }
}
