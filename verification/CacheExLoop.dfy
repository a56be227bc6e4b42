/** A run of the cache exchange in which a push goes back to the node that its answer came from
    (cc_cache_push_chk, oscam/module-cccam.c, lines 1952-1987). */
module CacheExLoop {
  import opened CacheEx
  import opened CacheExFlood

  /** Two nodes with two CCcam connections, one for either direction: node 2 pushes over an account in
      mode 2 to a reader in mode 2, node 3 over a reader in mode 3 to an account in mode 3. */
  const SEND_2 := Client(2, 3, 0, true, false, 2, 0, 0)
  const TAKE_3 := Client(3, 2, 0, true, true, 2, 0, 0)
  const SEND_3 := Client(3, 2, 1, true, true, 3, 0, 0)
  const TAKE_2 := Client(2, 3, 1, true, false, 3, 0, 0)
  const LOOP := Config({SEND_2, TAKE_3, SEND_3, TAKE_2},
                       map[SEND_2 := TAKE_3, TAKE_3 := SEND_2, SEND_3 := TAKE_2, TAKE_2 := SEND_3])

  /** The accounts know the ids of their peers, the readers have not had server data. */
  const LOOP_IDS: map<Client, Node> := map[SEND_2 := 3, TAKE_2 := 3]

  function LoopSteps(w: Cw): seq<Step> {
    [Request(2), LocalAnswer(2, E_FOUND, w, [SEND_2]), RunJob(SEND_2),
     Deliver(Push(TAKE_3, E_FOUND, w, [2]), [SEND_3]), RunJob(SEND_3)]
  }

  function LoopEntry(w: Cw, n: Node): Entry {
    if n == 2 then Entry(E_FOUND, w, None, None, true) else Entry(E_CACHEEX, w, Some([2]), Some(TAKE_3), true)
  }

  /** The state after `k` of the steps. */
  function LoopState(w: Cw, k: nat): State {
    if k == 0 then Quiet(LOOP_IDS)
    else if k == 1 then State(map[2 := Requested()], map[], multiset{}, multiset{}, LOOP_IDS)
    else
      var e := map[2 := LoopEntry(w, 2)];
      if k == 2 then State(e, map[], multiset{SEND_2}, multiset{}, LOOP_IDS)
      else if k == 3 then State(e, map[], multiset{}, multiset{Push(TAKE_3, E_FOUND, w, [2])}, LOOP_IDS)
      else
        var e2 := e[3 := LoopEntry(w, 3)];
        if k == 4 then State(e2, map[3 := []], multiset{SEND_3}, multiset{}, LOOP_IDS)
        else State(e2, map[3 := []], multiset{}, multiset{Push(TAKE_2, E_FOUND, w, [3, 2])}, LOOP_IDS)
  }

  lemma LoopTargets()
    ensures Targets([SEND_2], None) == [SEND_2] && Targets([SEND_3], Some(TAKE_3)) == [SEND_3]
  {
    assert [SEND_2][1..] == [] && [SEND_3][1..] == [];
  }

  lemma LoopRequest(w: Cw)
    ensures Enabled(LOOP, LoopState(w, 0), Request(2)) && Next(LOOP, LoopState(w, 0), Request(2)) == LoopState(w, 1)
  {
  }

  lemma LoopAnswer(w: Cw)
    ensures var step := LocalAnswer(2, E_FOUND, w, [SEND_2]);
            Enabled(LOOP, LoopState(w, 1), step) && Next(LOOP, LoopState(w, 1), step) == LoopState(w, 2)
  {
    LoopTargets();
    hide Targets;
  }

  lemma LoopOut(w: Cw)
    ensures Enabled(LOOP, LoopState(w, 2), RunJob(SEND_2))
            && Next(LOOP, LoopState(w, 2), RunJob(SEND_2)) == LoopState(w, 3)
  {
    assert [2] + LoopEntry(w, 2).Path() == [2];
  }

  lemma LoopArrives(w: Cw)
    requires CwAcceptable(w, [])
    ensures var step := Deliver(Push(TAKE_3, E_FOUND, w, [2]), [SEND_3]);
            Enabled(LOOP, LoopState(w, 3), step) && Next(LOOP, LoopState(w, 3), step) == LoopState(w, 4)
  {
    hide Arrive, CwAcceptable;
    var p, s := Push(TAKE_3, E_FOUND, w, [2]), LoopState(w, 3);
    LoopArrival(w, p);
    assert s.net - multiset{p} == multiset{} && s.jobs + multiset([SEND_3]) == multiset{SEND_3};
    assert s.invalid[3 := []] == map[3 := []];
  }

  lemma LoopArrival(w: Cw, p: Push)
    requires CwAcceptable(w, []) && p == Push(TAKE_3, E_FOUND, w, [2])
    ensures Arrive(None, [], p, None, [SEND_3]) == Arrival(Some(LoopEntry(w, 3)), [], [SEND_3])
  {
    LoopTargets();
    hide Targets, CwAcceptable;
  }

  lemma LoopBack(w: Cw)
    ensures Enabled(LOOP, LoopState(w, 4), RunJob(SEND_3))
            && Next(LOOP, LoopState(w, 4), RunJob(SEND_3)) == LoopState(w, 5)
  {
    assert [3] + LoopEntry(w, 3).Path() == [3, 2];
  }

  lemma LoopEnds(w: Cw)
    ensures LoopState(w, 0) == Quiet(LOOP_IDS) && Push(TAKE_2, E_FOUND, w, [3, 2]) in LoopState(w, 5).net
  {
  }

  lemma LoopIsValid()
    ensures ValidConfig(LOOP)
  {
    forall c | c in LOOP.clients
      ensures c in LOOP.other && c.owner != c.peer && LOOP.other[c] in LOOP.clients
      ensures LOOP.other[c].owner == c.peer && LOOP.other[c].peer == c.owner && LOOP.other[c].cccam == c.cccam
    {
      assert c in {SEND_2, TAKE_3, SEND_3, TAKE_2};
    }
  }

  lemma OneStep(cfg: Config, s: State, steps: seq<Step>, end: State)
    requires steps != [] && Enabled(cfg, s, steps[0])
    requires var s' := Next(cfg, s, steps[0]);
             if |steps| == 1 then s' == end else Runs(cfg, s', steps[1..]) && Final(cfg, s', steps[1..]) == end
    ensures Runs(cfg, s, steps) && Final(cfg, s, steps) == end
  {
    hide Enabled, Next;
    assert |steps| == 1 ==> steps[1..] == [];
  }

  /** A CCcam reader that has not had the server data of its peer sends an answer back to the node it came
      from: the push under way has its addressee on its list. */
  lemma AnswerSentBack(w: Cw)
    requires CwAcceptable(w, [])
    ensures ValidConfig(LOOP) && Runs(LOOP, Quiet(LOOP_IDS), LoopSteps(w))
    ensures var p := Push(TAKE_2, E_FOUND, w, [3, 2]);
            p in Final(LOOP, Quiet(LOOP_IDS), LoopSteps(w)).net && p.via.owner in p.nodes
  {
    hide CwAcceptable, Next, Enabled, LoopState;
    LoopRequest(w);
    LoopAnswer(w);
    LoopOut(w);
    LoopArrives(w);
    LoopBack(w);
    LoopEnds(w);
    LoopIsValid();
    hide ValidConfig;
    var steps, end := LoopSteps(w), LoopState(w, 5);
    assert steps[1..][1..][1..][1..] == [steps[4]];
    OneStep(LOOP, LoopState(w, 4), steps[1..][1..][1..][1..], end);
    OneStep(LOOP, LoopState(w, 3), steps[1..][1..][1..], end);
    OneStep(LOOP, LoopState(w, 2), steps[1..][1..], end);
    OneStep(LOOP, LoopState(w, 1), steps[1..], end);
    OneStep(LOOP, LoopState(w, 0), steps, end);
  }
}
