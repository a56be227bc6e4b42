/** One node of the cache exchange (oscam/module-cacheex.c, lines 89-97, 135-191 and 255-474, with the
    transport checks of oscam/module-camd35.c, lines 497-731, and oscam/module-cccam.c, lines 1952-2135).

    A node keeps one cached answer per request key.  An answer found by one of its own readers, or
    pushed by a peer and better than the cached one, is pushed on to the other peers.  A push carries
    the ids of the nodes it has been through, the latest first.  This module follows one key. */
module CacheEx {

  // ---------- Answers ----------

  const E_FOUND := 0
  const E_CACHEEX := 3
  const E_NOTFOUND := 4
  const E_99 := 99
  const E_UNHANDLED := 100

  type Byte = b: int | 0 <= b < 256
  type Cw = w: seq<Byte> | |w| == 16 witness seq(16, _ => 0)

  /** Each fourth byte is the sum of the three before it. */
  predicate ChecksumOk(w: Cw) {
    forall i :: 0 <= i < 4 ==> w[4 * i + 3] == Sum3(w, i)
  }

  function Sum3(w: Cw, i: nat): Byte
    requires i < 4
  {
    (w[4 * i] as int + w[4 * i + 1] as int + w[4 * i + 2] as int) % 256
  }

  predicate NullCw(w: Cw) {
    forall i :: 0 <= i < 4 ==> w[4 * i] == 0 && w[4 * i + 1] == 0 && w[4 * i + 2] == 0
  }

  const MAX_INVALID: nat := 32

  /** The bounded list of refused control words: the oldest make room. */
  function AddInvalid(invalid: seq<Cw>, w: Cw): (r: seq<Cw>) {
    LastOf(invalid + [w], MAX_INVALID)
  }

  function LastOf(s: seq<Cw>, n: nat): (r: seq<Cw>)
    ensures |r| <= n
  {
    if |s| > n then s[|s| - n..] else s
  }

  // ---------- Peers ----------

  /** The true id of a node. */
  type Node = nat

  /** Eight zero bytes, which a CCcam end compares with while it does not know the id of its peer. */
  const NO_NODE: Node := 0

  /** One end of a connection, a reader or an account: the node it belongs to, the node behind it, its
      transport, CCcam or camd35, its cache exchange mode, and the hop limits that are set. */
  datatype Client = Client(owner: Node, peer: Node, tag: nat, cccam: bool, reader: bool, mode: int,
                           readerHop: int, accountHop: int) {
    /** `cacheex_maxhop`: the limit of the reader or, failing that, of the account; 10 by default. */
    const maxhop: int := if reader && readerHop != 0 then readerHop else if accountHop != 0 then accountHop else 10

    /** The modes in which pushes are accepted. */
    const letsIn: bool := if reader then mode == 2 else mode == 3

    /** The modes in which answers are pushed out. */
    const pushesOut: bool := if reader then mode == 3 else mode == 2
  }

  datatype Option<T> = None | Some(value: T)

  /** The cached answer.  `nodes` is NULL for a request of a local client. */
  datatype Entry = Entry(rc: int, cw: Cw, nodes: Option<seq<Node>>, src: Option<Client>, pushed: bool) {
    function Path(): seq<Node> {
      if nodes.None? then [] else nodes.value
    }
  }

  /** A push as it travels, with the client it arrives on. */
  datatype Push = Push(via: Client, rc: int, cw: Cw, nodes: seq<Node>)

  // ---------- Pushing out ----------

  /** The clients a push goes to: those in a pushing mode, except the one the answer came from. */
  function Targets(clients: seq<Client>, src: Option<Client>): seq<Client> {
    if clients == [] then [] else
      (if PushesTo(clients[0], src) then [clients[0]] else []) + Targets(clients[1..], src)
  }

  predicate PushesTo(c: Client, src: Option<Client>) {
    Some(c) != src && c.pushesOut
  }

  lemma {:induction false} TargetsMembers(clients: seq<Client>, src: Option<Client>)
    ensures |Targets(clients, src)| <= |clients|
    ensures forall c :: c in Targets(clients, src) <==> c in clients && PushesTo(c, src)
  {
    if clients != [] { TargetsMembers(clients[1..], src); }
  }

  lemma TargetsOfNone(src: Option<Client>)
    ensures Targets([], src) == []
  {
  }

  lemma {:induction false} TargetsAppend(clients: seq<Client>, c: Client, src: Option<Client>)
    ensures Targets(clients + [c], src) == Targets(clients, src) + if PushesTo(c, src) then [c] else []
  {
    hide PushesTo;
    if clients == [] {
      assert clients + [c] == [c] && [c][1..] == [];
    } else {
      TargetsAppend(clients[1..], c, src);
      assert (clients + [c])[0] == clients[0] && (clients + [c])[1..] == clients[1..] + [c];
      TargetsRegroup(if PushesTo(clients[0], src) then [clients[0]] else [], Targets(clients[1..], src),
                     if PushesTo(c, src) then [c] else []);
    }
  }

  lemma TargetsRegroup(a: seq<Client>, b: seq<Client>, c: seq<Client>)
    ensures a + (b + c) == (a + b) + c
  {
  }

  /** Found answers and unhandled requests are pushed, once. */
  predicate MayPush(e: Entry) {
    (e.rc < E_NOTFOUND || e.rc == E_UNHANDLED) && !e.pushed
  }

  /** The entry after cacheex_cache_push, and the jobs it queued. */
  function Cascade(e: Entry, clients: seq<Client>): (Entry, seq<Client>) {
    if MayPush(e) then (e.(pushed := true), Targets(clients, e.src)) else (e, [])
  }

  function OrNone(peerId: Option<Node>): Node {
    if peerId.Some? then peerId.value else NO_NODE
  }

  /** The check when a queued job runs: room in the node list, and the peer is not on it.  Over camd35
      the id of the peer must be known; CCcam pushes without knowing it. */
  predicate PushAllowed(c: Client, e: Entry, peerId: Option<Node>) {
    |e.Path()| < c.maxhop && (c.cccam || peerId.Some?) && OrNone(peerId) !in e.Path()
  }

  /** The answer code on the line. */
  function WireRc(e: Entry): int {
    if e.rc < E_NOTFOUND then E_FOUND else e.rc
  }

  predicate Sendable(e: Entry) {
    WireRc(e) == E_FOUND || WireRc(e) == E_UNHANDLED
  }

  function OnTheWire(c: Client, e: Entry, via: Client): Push {
    Push(via, WireRc(e), e.cw, [c.owner] + e.Path())
  }

  // ---------- A push arrives ----------

  /** The node list as the receiver keeps it: an empty one gets the sender's id, over camd35 only when
      it is known. */
  function ReceivedNodes(p: Push, peerId: Option<Node>): seq<Node> {
    if p.nodes == [] && (p.via.cccam || peerId.Some?) then [OrNone(peerId)] else p.nodes
  }

  /** The code a pushed answer is cached under. */
  function CachedRc(p: Push): int {
    if p.rc < E_NOTFOUND then E_CACHEEX else p.rc
  }

  predicate CwAcceptable(w: Cw, invalid: seq<Cw>) {
    ChecksumOk(w) && !NullCw(w) && w !in invalid
  }

  /** What the checks before the cache lookup let through. */
  predicate LetIn(p: Push, invalid: seq<Cw>) {
    && (p.rc == E_FOUND || p.rc == E_UNHANDLED)
    && |p.nodes| <= p.via.maxhop
    && p.via.letsIn
    && (p.rc < E_NOTFOUND ==> CwAcceptable(p.cw, invalid))
  }

  datatype Arrival = Arrival(entry: Option<Entry>, invalid: seq<Cw>, jobs: seq<Client>)

  /** What a push does to the node: a better answer replaces the entry and is pushed on; a different
      control word for an answer already found makes both suspicious. */
  function Arrive(entry: Option<Entry>, invalid: seq<Cw>, p: Push, peerId: Option<Node>,
      clients: seq<Client>): Arrival {
    if !LetIn(p, invalid) then Arrival(entry, invalid, []) else
      var rc, nodes := CachedRc(p), ReceivedNodes(p, peerId);
      match entry {
        case None =>
          if rc >= E_NOTFOUND then Arrival(None, invalid, []) else
            var (e, jobs) := Cascade(Entry(rc, p.cw, Some(nodes), Some(p.via), false), clients);
            Arrival(Some(e), invalid, jobs)
        case Some(ecm) =>
          if rc < ecm.rc then
            var kept := if ecm.nodes.None? then Some(nodes) else ecm.nodes;
            var (e, jobs) := Cascade(Entry(rc, p.cw, kept, Some(p.via), false), clients);
            Arrival(Some(e), invalid, jobs)
          else if rc < E_NOTFOUND && p.cw != ecm.cw then
            Arrival(entry, AddInvalid(AddInvalid(invalid, ecm.cw), p.cw), [])
          else Arrival(entry, invalid, [])
      }
  }

  /** An answer of one of the node's own readers.  It counts while the request is open, and is pushed;
      later it only improves the entry. */
  function Answer(e: Entry, rc: int, w: Cw, clients: seq<Client>): (Entry, seq<Client>) {
    if e.rc >= E_99 then
      if rc < E_NOTFOUND then Cascade(e.(rc := rc, cw := w), clients) else (e.(rc := rc), [])
    else if rc < e.rc then (e.(rc := rc, cw := w), [])
    else (e, [])
  }

  // ---------- Properties of one node ----------

  predicate Found(entry: Option<Entry>) {
    entry.Some? && entry.value.rc < E_NOTFOUND
  }

  /** A push never touches the control word of an answer that was found already. */
  lemma PushKeepsFoundCw(entry: Option<Entry>, invalid: seq<Cw>, p: Push, peerId: Option<Node>, clients: seq<Client>)
    requires Found(entry)
    ensures Arrive(entry, invalid, p, peerId, clients).entry == entry
    ensures Arrive(entry, invalid, p, peerId, clients).jobs == []
  {
  }

  /** A push either changes nothing but the list of refused words, or turns an entry that was not
      found into a found one: the cached code falls strictly, to E_CACHEEX. */
  lemma AcceptedPushLowersRc(entry: Option<Entry>, invalid: seq<Cw>, p: Push, peerId: Option<Node>,
      clients: seq<Client>)
    requires entry.Some? ==> entry.value.rc <= E_UNHANDLED
    ensures var a := Arrive(entry, invalid, p, peerId, clients);
            || (a.entry == entry && a.jobs == [])
            || (!(entry.Some? && entry.value.rc <= E_CACHEEX) && a.entry.Some? && a.entry.value.rc == E_CACHEEX
                && a.entry.value.cw == p.cw && a.entry.value.pushed && p.rc == E_FOUND && a.invalid == invalid)
  {
  }

  /** A pushed E_UNHANDLED dies on arrival. */
  lemma UnhandledDies(entry: Option<Entry>, invalid: seq<Cw>, p: Push, peerId: Option<Node>, clients: seq<Client>)
    requires entry.Some? ==> entry.value.rc <= E_UNHANDLED
    requires p.rc == E_UNHANDLED
    ensures Arrive(entry, invalid, p, peerId, clients) == Arrival(entry, invalid, [])
  {
  }

  /** Once two words for the same key have met, neither is let in again until 31 more words have been
      refused after it. */
  lemma {:induction false} ConflictBlocks(invalid: seq<Cw>, w: Cw, later: seq<Cw>)
    requires |later| < MAX_INVALID
    ensures w in Blocked(AddInvalid(invalid, w), later)
  {
    BlockedTail(AddInvalid(invalid, w), later);
    var a := AddInvalid(invalid, w);
    assert a[|a| - 1] == w;
    var all := a + later;
    assert all[|a| - 1] == w;
    var r := LastOf(all, MAX_INVALID);
    assert w in r by {
      if |all| > MAX_INVALID {
        assert r[|a| - 1 - (|all| - MAX_INVALID)] == w;
      }
    }
  }

  function Blocked(invalid: seq<Cw>, later: seq<Cw>): seq<Cw>
    decreases |later|
  {
    if later == [] then invalid else Blocked(AddInvalid(invalid, later[0]), later[1..])
  }

  lemma {:induction false} BlockedTail(invalid: seq<Cw>, later: seq<Cw>)
    requires |invalid| <= MAX_INVALID
    ensures Blocked(invalid, later) == LastOf(invalid + later, MAX_INVALID)
    decreases |later|
  {
    if later == [] {
      assert invalid + later == invalid;
    } else {
      BlockedTail(AddInvalid(invalid, later[0]), later[1..]);
      var all := invalid + later;
      assert all == invalid + [later[0]] + later[1..];
      if |invalid| == MAX_INVALID {
        assert AddInvalid(invalid, later[0]) + later[1..] == all[1..];
      }
    }
  }

  // ---------- The code ----------

  /** The cache of one node for one key, and its list of refused words. */
  class CacheNode {
    var entry: Option<Entry>
    var invalid: seq<Cw>

    constructor ()
      ensures entry == None && invalid == []
    {
      entry, invalid := None, [];
    }

    method AddInvalidCw(w: Cw)
      requires |invalid| <= MAX_INVALID
      modifies this`invalid
      ensures invalid == AddInvalid(old(invalid), w)
    {
      invalid := invalid + [w];
      while |invalid| > MAX_INVALID
        invariant LastOf(invalid, MAX_INVALID) == AddInvalid(old(invalid), w)
      {
        invalid := invalid[1..];
      }
    }

    method IsInvalidCw(w: Cw) returns (found: bool)
      ensures found <==> w in invalid
    {
      found := false;
      for i := 0 to |invalid|
        invariant found <==> w in invalid[..i]
      {
        if !found {
          found := w == invalid[i];
        }
        assert invalid[..i + 1] == invalid[..i] + [invalid[i]];
      }
      assert invalid[..|invalid|] == invalid;
    }

    method CheckCw(w: Cw) returns (ok: bool)
      ensures ok <==> CwAcceptable(w, invalid)
    {
      var isNull := true;
      for i := 0 to 4
        invariant forall k :: 0 <= k < i ==> w[4 * k + 3] == Sum3(w, k)
        invariant isNull <==> forall k :: 0 <= k < i ==> w[4 * k] == 0 && w[4 * k + 1] == 0 && w[4 * k + 2] == 0
      {
        var c := Sum3(w, i);
        isNull := isNull && w[4 * i] == 0 && w[4 * i + 1] == 0 && w[4 * i + 2] == 0;
        if w[4 * i + 3] != c {
          return false;
        }
      }
      if isNull {
        return false;
      }
      var bad := IsInvalidCw(w);
      return !bad;
    }

    /** cacheex_cache_push.  The caller passes the clients that pass the group, service and CAID filters,
        the accounts before the readers. */
    method CachePush(clients: seq<Client>) returns (jobs: seq<Client>)
      requires entry.Some?
      modifies this`entry
      ensures entry.Some? && (entry.value, jobs) == Cascade(old(entry.value), clients)
    {
      hide Targets;
      jobs := [];
      TargetsOfNone(entry.value.src);
      var er := entry.value;
      if er.rc >= E_NOTFOUND && er.rc != E_UNHANDLED {
        return;
      }
      if er.pushed {
        return;
      }
      for i := 0 to |clients|
        invariant jobs == Targets(clients[..i], er.src)
      {
        TargetsAppend(clients[..i], clients[i], er.src);
        assert clients[..i + 1] == clients[..i] + [clients[i]];
        if er.src != Some(clients[i]) && clients[i].pushesOut {
          jobs := jobs + [clients[i]];
        }
      }
      assert clients[..|clients|] == clients;
      entry := Some(er.(pushed := true));
    }

    /** The receive routines up to cacheex_add_to_cache_int, which does the rest. */
    method PushIn(p: Push, peerId: Option<Node>, clients: seq<Client>) returns (jobs: seq<Client>)
      requires |invalid| <= MAX_INVALID
      modifies this
      ensures Arrival(entry, invalid, jobs) == Arrive(old(entry), old(invalid), p, peerId, clients)
    {
      hide ChecksumOk, NullCw, CwAcceptable, AddInvalid, Targets;
      jobs := [];
      if p.rc != E_FOUND && p.rc != E_UNHANDLED {
        return;
      }
      if |p.nodes| > p.via.maxhop {
        return;
      }
      var nodes := p.nodes;
      if |nodes| == 0 && (p.via.cccam || peerId.Some?) {
        nodes := nodes + [OrNone(peerId)];
      }
      assert nodes == ReceivedNodes(p, peerId);
      if !p.via.letsIn {
        return;
      }
      var rc := p.rc;
      if rc < E_NOTFOUND {
        var ok := CheckCw(p.cw);
        if !ok {
          return;
        }
        rc := E_CACHEEX;
      }
      match entry
      case None =>
        if rc < E_NOTFOUND {
          entry := Some(Entry(rc, p.cw, Some(nodes), Some(p.via), false));
          jobs := CachePush(clients);
        }
      case Some(ecm) =>
        if rc < ecm.rc {
          var kept := if ecm.nodes.None? then Some(nodes) else ecm.nodes;
          entry := Some(Entry(rc, p.cw, kept, Some(p.via), false));
          jobs := CachePush(clients);
        } else if rc < E_NOTFOUND && p.cw != ecm.cw {
          AddBoth(ecm.cw, p.cw);
        }
    }

    method AddBoth(w1: Cw, w2: Cw)
      requires |invalid| <= MAX_INVALID
      modifies this`invalid
      ensures invalid == AddInvalid(AddInvalid(old(invalid), w1), w2)
    {
      AddInvalidCw(w1);
      AddInvalidCw(w2);
    }

    /** The transport's check of a queued job: the search loop over the node list. */
    method PushCheck(c: Client, peerId: Option<Node>) returns (ok: bool)
      requires entry.Some?
      ensures ok <==> PushAllowed(c, entry.value, peerId)
    {
      var path := entry.value.Path();
      if |path| >= c.maxhop || (!c.cccam && peerId.None?) {
        return false;
      }
      var id := OrNone(peerId);
      var i := 0;
      while i < |path|
        invariant i <= |path| && id !in path[..i]
      {
        if path[i] == id {
          return false;
        }
        assert path[..i + 1] == path[..i] + [path[i]];
        i := i + 1;
      }
      assert path[..i] == path;
      return true;
    }
  }
}
