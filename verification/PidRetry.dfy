/** Trying the key streams of a channel one after the other: dvbapi_try_next_caid and
    dvbapi_get_descindex (oscam/module-dvbapi.c, lines 582-597 and 1272-1374).

    The next stream is the unchecked one with the greatest status from 1 to the maximum, then one with
    status 0.  When all are checked, the checks are cleared and another try begins, up to three times.
    In request mode 1 all streams are asked at once by recursion. */
module PidRetry {

  datatype Option<T> = None | Some(value: T)

  datatype Config = Config(forever: bool, atOnce: bool)

  datatype Pid = Pid(caid: nat, status: int, checked: int)

  /** A stream was asked, or no request slot was free for it; a new try; the end; a new sorting. */
  datatype Event = Asked(n: nat) | NoTask(n: nat) | Again | GaveUp | Resorted

  /** `tasks` counts the free request slots for BISS. */
  datatype Channel = Channel(pids: seq<Pid>, maxStatus: int, tries: nat, cur: int, tasks: nat, trail: seq<Event>)

  /** What dvbapi_resort_ecmpids and dvbapi_start_descrambling leave. */
  datatype Sorting = Sorting(pids: seq<Pid>, maxStatus: int)

  // ---------- The choice ----------

  predicate Open(p: Pid, max: int) {
    p.checked == 0 && (p.status == 0 || 1 <= p.status <= max)
  }

  /** The greater status first, the earlier stream among equals. */
  predicate Before(pids: seq<Pid>, i: nat, j: nat)
    requires i < |pids| && j < |pids|
  {
    pids[i].status > pids[j].status || (pids[i].status == pids[j].status && i < j)
  }

  /** The first unchecked stream with the status. */
  function FirstWith(pids: seq<Pid>, status: int, n: nat): (r: Option<nat>)
    requires n <= |pids|
    ensures r.Some? ==> n <= r.value < |pids| && pids[r.value].checked == 0 && pids[r.value].status == status
    ensures r.Some? ==> forall i :: n <= i < r.value ==> !(pids[i].checked == 0 && pids[i].status == status)
    ensures r.None? ==> forall i :: n <= i < |pids| ==> !(pids[i].checked == 0 && pids[i].status == status)
    decreases |pids| - n
  {
    if n == |pids| then None
    else if pids[n].checked == 0 && pids[n].status == status then Some(n)
    else FirstWith(pids, status, n + 1)
  }

  /** The loop over the statuses from `high` down to `low`. */
  function FirstDown(pids: seq<Pid>, high: int, low: int): (r: Option<nat>)
    ensures r.Some? ==> r.value < |pids| && low <= pids[r.value].status <= high && pids[r.value].checked == 0
    decreases high - low + 1
  {
    if high < low then None
    else
      var f := FirstWith(pids, high, 0);
      if f.Some? then f else FirstDown(pids, high - 1, low)
  }

  function Choose(pids: seq<Pid>, max: int): (r: Option<nat>)
    ensures r.Some? ==> r.value < |pids| && Open(pids[r.value], max)
  {
    var f := FirstDown(pids, max, 1);
    if f.Some? then f else FirstDown(pids, 0, 0)
  }

  lemma {:induction false} FirstDownIsBest(pids: seq<Pid>, high: int, low: int, i: nat)
    requires i < |pids| && pids[i].checked == 0 && low <= pids[i].status <= high
    ensures var r := FirstDown(pids, high, low); r.Some? && (i == r.value || Before(pids, r.value, i))
    decreases high - low + 1
  {
    if FirstWith(pids, high, 0).None? {
      FirstDownIsBest(pids, high - 1, low, i);
    }
  }

  /** The choice comes before every other open stream. */
  lemma ChooseIsBest(pids: seq<Pid>, max: int, i: nat)
    requires i < |pids| && Open(pids[i], max)
    ensures var r := Choose(pids, max); r.Some? && (i == r.value || Before(pids, r.value, i))
  {
    if pids[i].status >= 1 {
      FirstDownIsBest(pids, max, 1, i);
    } else {
      FirstDownIsBest(pids, 0, 0, i);
    }
  }

  // ---------- The recursion ----------

  function NumOpen(pids: seq<Pid>, max: int): nat {
    if pids == [] then 0 else (if Open(pids[0], max) then 1 else 0) + NumOpen(pids[1..], max)
  }

  function Check(pids: seq<Pid>, n: nat): seq<Pid>
    requires n < |pids|
  {
    pids[n := pids[n].(checked := 1)]
  }

  lemma {:induction false} CheckFewer(pids: seq<Pid>, max: int, n: nat)
    requires n < |pids| && Open(pids[n], max)
    ensures NumOpen(Check(pids, n), max) == NumOpen(pids, max) - 1
  {
    if n > 0 {
      assert Check(pids, n)[1..] == Check(pids[1..], n - 1);
      CheckFewer(pids[1..], max, n - 1);
    } else {
      assert Check(pids, n)[1..] == pids[1..];
    }
  }

  function Unchecked(pids: seq<Pid>): (r: seq<Pid>)
    ensures |r| == |pids| && forall i :: 0 <= i < |r| ==> r[i] == pids[i].(checked := 0)
  {
    if pids == [] then [] else [pids[0].(checked := 0)] + Unchecked(pids[1..])
  }

  predicate IsBiss(p: Pid) {
    p.caid / 0x100 == 0x26
  }

  function Ask(d: Channel, n: nat): Channel
    requires n < |d.pids|
  {
    var biss := IsBiss(d.pids[n]);
    Channel(Check(d.pids, n), d.maxStatus, d.tries, n,
            if biss && d.tasks > 0 then d.tasks - 1 else d.tasks,
            d.trail + [if biss && d.tasks == 0 then NoTask(n) else Asked(n)])
  }

  /** dvbapi_try_next_caid.  It always returns: a new try brings the limit of tries nearer, and asking a
      stream leaves fewer open ones. */
  function TryNext(c: Config, d: Channel, s: Sorting): Channel
    decreases if d.tries > 2 then 0 else 3 - d.tries, NumOpen(d.pids, d.maxStatus)
  {
    if d.tries > 2 then
      if c.forever then Channel(s.pids, s.maxStatus, 0, d.cur, d.tasks, d.trail + [Resorted])
      else d.(trail := d.trail + [GaveUp])
    else
      match Choose(d.pids, d.maxStatus)
      case None =>
        if c.atOnce then d
        else TryNext(c, d.(tries := d.tries + 1, pids := Unchecked(d.pids), trail := d.trail + [Again]), s)
      case Some(n) =>
        CheckFewer(d.pids, d.maxStatus, n);
        if !c.atOnce || (IsBiss(d.pids[n]) && d.tasks == 0) then Ask(d, n) else TryNext(c, Ask(d, n), s)
  }

  // ---------- Each open stream once, in order ----------

  predicate Precedes(pids: seq<Pid>, i: nat, j: nat) {
    i < |pids| && j < |pids| && Before(pids, i, j)
  }

  /** `s` lists the open streams in the order of trying. */
  ghost predicate Ranks(pids: seq<Pid>, max: int, s: seq<nat>) {
    && (forall i, j :: 0 <= i < j < |s| ==> Precedes(pids, s[i], s[j]))
    && (forall i :: 0 <= i < |s| ==> s[i] < |pids| && Open(pids[s[i]], max))
    && (forall k :: 0 <= k < |pids| && Open(pids[k], max) ==> k in s)
  }

  lemma ChooseFirst(pids: seq<Pid>, max: int, s: seq<nat>)
    requires Ranks(pids, max, s)
    ensures Choose(pids, max) == if s == [] then None else Some(s[0])
  {
    hide FirstDown, Choose;
    var r := Choose(pids, max);
    assert r.Some? ==> r.value in s;
    if s != [] {
      ChooseIsBest(pids, max, s[0]);
      assert forall j :: 0 < j < |s| ==> Precedes(pids, s[0], s[j]);
    }
  }

  lemma CheckedFirst(pids: seq<Pid>, max: int, s: seq<nat>)
    requires Ranks(pids, max, s) && s != []
    ensures s[0] < |pids| && Ranks(Check(pids, s[0]), max, s[1..])
  {
    var later := Check(pids, s[0]);
    assert forall j :: 0 < j < |s| ==> Precedes(pids, s[0], s[j]);
    forall i, j | 0 <= i < j < |s[1..]| ensures Precedes(later, s[1..][i], s[1..][j]) {
      assert Precedes(pids, s[i + 1], s[j + 1]);
    }
    forall k | 0 <= k < |later| && Open(later[k], max) ensures k in s[1..] {
      assert k in s;
    }
  }

  /** There is such an order, and by `ChooseFirst` no other. */
  function Order(pids: seq<Pid>, max: int): seq<nat>
    decreases NumOpen(pids, max)
  {
    match Choose(pids, max)
    case None => []
    case Some(n) =>
      CheckFewer(pids, max, n);
      [n] + Order(Check(pids, n), max)
  }

  lemma {:induction false} OrderRanks(pids: seq<Pid>, max: int)
    ensures Ranks(pids, max, Order(pids, max))
    decreases NumOpen(pids, max)
  {
    hide FirstDown, Choose, Before;
    match Choose(pids, max) {
      case None =>
        forall k | 0 <= k < |pids| ensures !Open(pids[k], max) {
          if Open(pids[k], max) {
            ChooseIsBest(pids, max, k);
          }
        }
      case Some(n) =>
        CheckFewer(pids, max, n);
        OrderRanks(Check(pids, n), max);
        OrderMore(pids, max, n, Order(Check(pids, n), max));
    }
  }

  lemma OrderMore(pids: seq<Pid>, max: int, n: nat, later: seq<nat>)
    requires Choose(pids, max) == Some(n) && n < |pids| && Ranks(Check(pids, n), max, later)
    ensures Ranks(pids, max, [n] + later)
  {
    hide FirstDown, Choose;
    var s := [n] + later;
    forall i | 0 <= i < |later| ensures later[i] < |pids| && Open(pids[later[i]], max) && Precedes(pids, n, later[i]) {
      assert Open(Check(pids, n)[later[i]], max) && later[i] != n;
      ChooseIsBest(pids, max, later[i]);
    }
    forall i, j | 0 <= i < j < |s| ensures Precedes(pids, s[i], s[j]) {
      if i > 0 {
        assert Precedes(Check(pids, n), later[i - 1], later[j - 1]);
        assert later[i - 1] != n && later[j - 1] != n;
      }
    }
    forall k | 0 <= k < |pids| && Open(pids[k], max) ensures k in s {
      if k != n {
        assert Open(Check(pids, n)[k], max);
      }
    }
  }

  /** The events of asking `s` in turn, as long as there are request slots for the BISS streams. */
  function Asking(pids: seq<Pid>, s: seq<nat>, tasks: nat): seq<Event>
    requires forall i :: 0 <= i < |s| ==> s[i] < |pids|
  {
    if s == [] then []
    else if !IsBiss(pids[s[0]]) then [Asked(s[0])] + Asking(pids, s[1..], tasks)
    else if tasks == 0 then [NoTask(s[0])]
    else [Asked(s[0])] + Asking(pids, s[1..], tasks - 1)
  }

  function BissIn(pids: seq<Pid>, s: seq<nat>): nat
    requires forall i :: 0 <= i < |s| ==> s[i] < |pids|
  {
    if s == [] then 0 else (if IsBiss(pids[s[0]]) then 1 else 0) + BissIn(pids, s[1..])
  }

  /** With enough slots, asking means asking all. */
  lemma {:induction false} AskingAll(pids: seq<Pid>, s: seq<nat>, tasks: nat)
    requires forall i :: 0 <= i < |s| ==> s[i] < |pids|
    requires BissIn(pids, s) <= tasks
    ensures |Asking(pids, s, tasks)| == |s|
    ensures forall i :: 0 <= i < |s| ==> Asking(pids, s, tasks)[i] == Asked(s[i])
    decreases |s|
  {
    if s != [] {
      AskingAll(pids, s[1..], if IsBiss(pids[s[0]]) then tasks - 1 else tasks);
    }
  }

  lemma {:induction false} AskingIgnoresChecks(a: seq<Pid>, b: seq<Pid>, s: seq<nat>, tasks: nat)
    requires |a| == |b| && forall i :: 0 <= i < |a| ==> a[i].caid == b[i].caid
    requires forall i :: 0 <= i < |s| ==> s[i] < |a|
    ensures Asking(a, s, tasks) == Asking(b, s, tasks) && BissIn(a, s) == BissIn(b, s)
    decreases |s|
  {
    if s != [] {
      AskingIgnoresChecks(a, b, s[1..], tasks);
      if tasks > 0 {
        AskingIgnoresChecks(a, b, s[1..], tasks - 1);
      }
    }
  }

  /** In request mode 1 one call asks every open stream exactly once, by falling status. */
  lemma {:induction false} AllAskedInOrder(c: Config, d: Channel, o: Sorting, s: seq<nat>)
    requires c.atOnce && d.tries <= 2 && Ranks(d.pids, d.maxStatus, s)
    ensures forall i :: 0 <= i < |s| ==> s[i] < |d.pids|
    ensures var r := TryNext(c, d, o);
            && r.trail == d.trail + Asking(d.pids, s, d.tasks)
            && r.tries == d.tries && r.maxStatus == d.maxStatus && |r.pids| == |d.pids|
            && (BissIn(d.pids, s) <= d.tasks ==> Choose(r.pids, d.maxStatus) == None)
    decreases |s|
  {
    hide Choose, Ranks, NumOpen;
    RanksIn(d.pids, d.maxStatus, s);
    ChooseFirst(d.pids, d.maxStatus, s);
    if s == [] {
      assert d.trail + Asking(d.pids, s, d.tasks) == d.trail;
    } else {
      var next := Ask(d, s[0]);
      CheckedFirst(d.pids, d.maxStatus, s);
      if !(IsBiss(d.pids[s[0]]) && d.tasks == 0) {
        AllAskedInOrder(c, next, o, s[1..]);
        AskingIgnoresChecks(next.pids, d.pids, s[1..], next.tasks);
        assert next.trail + Asking(next.pids, s[1..], next.tasks) == d.trail + Asking(d.pids, s, d.tasks);
      }
    }
  }

  lemma RanksIn(pids: seq<Pid>, max: int, s: seq<nat>)
    requires Ranks(pids, max, s)
    ensures forall i :: 0 <= i < |s| ==> s[i] < |pids|
  {
  }

  // ---------- Three rounds ----------

  /** The channel after `n` calls. */
  function Calls(c: Config, d: Channel, o: Sorting, n: nat): Channel {
    if n == 0 then d else TryNext(c, Calls(c, d, o, n - 1), o)
  }

  ghost predicate Fresh(pids: seq<Pid>) {
    forall i :: 0 <= i < |pids| ==> pids[i].checked == 0
  }

  /** After `k` calls in round `round` the first `k` streams of the order are checked. */
  ghost predicate InRound(d: Channel, pids: seq<Pid>, s: seq<nat>, round: nat, k: nat) {
    && k <= |s| && d.tries == round && |d.pids| == |pids|
    && (forall i :: 0 <= i < |pids| ==> d.pids[i].(checked := 0) == pids[i])
    && Ranks(d.pids, d.maxStatus, s[k..])
    && (forall i :: 0 <= i < |pids| && d.pids[i].checked != 0 ==> i in s[..k])
  }

  lemma RoundStep(c: Config, d: Channel, o: Sorting, pids: seq<Pid>, s: seq<nat>, round: nat, k: nat)
    requires !c.atOnce && round <= 2 && k < |s|
    requires InRound(d, pids, s, round, k)
    ensures s[k] < |d.pids|
    ensures var r := TryNext(c, d, o); r == Ask(d, s[k]) && InRound(r, pids, s, round, k + 1)
  {
    hide Choose, Ranks, NumOpen, Open;
    var left := s[k..];
    ChooseFirst(d.pids, d.maxStatus, left);
    CheckedFirst(d.pids, d.maxStatus, left);
    assert left[0] == s[k] && left[1..] == s[k + 1..];
    assert s[..k + 1] == s[..k] + [s[k]];
  }

  /** The call after the last stream clears the checks and asks the first stream again. */
  lemma RoundEnd(c: Config, d: Channel, o: Sorting, pids: seq<Pid>, max: int, s: seq<nat>, round: nat)
    requires !c.atOnce && round < 2 && s != [] && d.maxStatus == max
    requires Fresh(pids) && Ranks(pids, max, s) && InRound(d, pids, s, round, |s|)
    ensures s[0] < |pids|
    ensures var again := d.(tries := round + 1, pids := pids, trail := d.trail + [Again]);
            TryNext(c, d, o) == Ask(again, s[0]) && InRound(Ask(again, s[0]), pids, s, round + 1, 1)
  {
    hide Choose, Ranks, NumOpen, Open;
    assert s[|s|..] == [];
    ChooseFirst(d.pids, max, []);
    assert Unchecked(d.pids) == pids;
    var again := d.(tries := round + 1, pids := pids, trail := d.trail + [Again]);
    assert s[0..] == s;
    assert InRound(again, pids, s, round + 1, 0);
    RoundStep(c, again, o, pids, s, round + 1, 0);
  }

  lemma LastRoundEnds(c: Config, d: Channel, o: Sorting, pids: seq<Pid>, s: seq<nat>)
    requires !c.atOnce && InRound(d, pids, s, 2, |s|)
    ensures var r := TryNext(c, d, o);
            if c.forever then r.trail == d.trail + [Again, Resorted] && r.tries == 0 && r.pids == o.pids
            else r.trail == d.trail + [Again, GaveUp] && r.tries == 3
  {
    hide Choose, Ranks, NumOpen, Open;
    assert s[|s|..] == [];
    ChooseFirst(d.pids, d.maxStatus, []);
    assert d.trail + [Again] + [Resorted] == d.trail + [Again, Resorted];
    assert d.trail + [Again] + [GaveUp] == d.trail + [Again, GaveUp];
  }

  /** Outside request mode 1, call number `round * |s| + k` asks the `k`-th stream of the order: three
      times all open streams by falling status, and then no more. */
  lemma {:induction false} ThreeRounds(c: Config, d: Channel, o: Sorting, s: seq<nat>, round: nat, k: nat)
    requires !c.atOnce && d.tries == 0 && Fresh(d.pids) && s != [] && Ranks(d.pids, d.maxStatus, s)
    requires round <= 2 && 1 <= k <= |s|
    ensures var r := Calls(c, d, o, round * |s| + k);
            InRound(r, d.pids, s, round, k) && r.maxStatus == d.maxStatus && r.cur == s[k - 1]
    decreases round, k
  {
    hide Ranks, InRound, TryNext, Fresh;
    var before := Calls(c, d, o, round * |s| + k - 1);
    if k > 1 {
      ThreeRounds(c, d, o, s, round, k - 1);
      RoundBound(before, d.pids, s, round, k - 1);
      RoundStep(c, before, o, d.pids, s, round, k - 1);
    } else if round > 0 {
      ThreeRounds(c, d, o, s, round - 1, |s|);
      assert (round - 1) * |s| + |s| == round * |s|;
      RoundEnd(c, before, o, d.pids, d.maxStatus, s, round - 1);
    } else {
      FirstRound(d, s);
      RoundStep(c, d, o, d.pids, s, 0, 0);
    }
  }

  lemma RoundBound(d: Channel, pids: seq<Pid>, s: seq<nat>, round: nat, k: nat)
    requires InRound(d, pids, s, round, k)
    ensures |d.pids| == |pids|
  {
  }

  lemma FirstRound(d: Channel, s: seq<nat>)
    requires d.tries == 0 && Fresh(d.pids) && Ranks(d.pids, d.maxStatus, s)
    ensures InRound(d, d.pids, s, 0, 0)
  {
    hide Ranks;
    assert s[0..] == s;
  }

  // ---------- The code ----------

  class Demux {
    var pids: seq<Pid>
    var maxStatus: int
    var tries: nat
    var curindex: int
    var tasks: nat
    var trail: seq<Event>

    constructor (pids: seq<Pid>, maxStatus: int, tasks: nat)
      ensures Content() == Channel(pids, maxStatus, 0, -1, tasks, [])
    {
      this.pids, this.maxStatus, this.tasks := pids, maxStatus, tasks;
      tries, curindex, trail := 0, -1, [];
    }

    function Content(): Channel
      reads this
    {
      Channel(pids, maxStatus, tries, curindex, tasks, trail)
    }

    /** lines 1288-1307 */
    method Search() returns (num: Option<nat>)
      ensures num == Choose(pids, maxStatus)
    {
      num := None;
      var start, end := 1, maxStatus;
      ghost var rounds := 2;
      while num == None
        invariant rounds == 2 ==> num == None && start == 1 && end == maxStatus
        invariant rounds == 1 ==> num == None && start == 0 && end == 0 && FirstDown(pids, maxStatus, 1) == None
        invariant rounds == 1 || rounds == 2
        decreases rounds
      {
        var j := end;
        while j >= start && num == None
          invariant FirstDown(pids, end, start) == if num == None then FirstDown(pids, j, start) else num
          decreases j - start
        {
          var n := 0;
          while n < |pids|
            invariant n <= |pids| && num == None
            invariant FirstWith(pids, j, n) == FirstWith(pids, j, 0)
          {
            if pids[n].checked == 0 && pids[n].status == j {
              num := Some(n);
              break;
            }
            n := n + 1;
          }
          j := j - 1;
        }
        if start == 0 || num != None {
          break;
        }
        start, end, rounds := 0, 0, 1;
      }
    }

    /** lines 1314-1320 */
    method Uncheck()
      modifies this`pids
      ensures pids == Unchecked(old(pids))
    {
      var n := 0;
      while n < |pids|
        invariant n <= |pids| == |old(pids)|
        invariant forall i :: 0 <= i < |pids| ==> pids[i] == if i < n then old(pids)[i].(checked := 0) else old(pids)[i]
      {
        pids := pids[n := pids[n].(checked := 0)];
        n := n + 1;
      }
    }

    /** dvbapi_try_next_caid; `sorting` is what a new sorting will give. */
    method TryNextCaid(c: Config, sorting: Sorting)
      modifies this
      ensures Content() == TryNext(c, old(Content()), sorting)
      decreases if tries > 2 then 0 else 3 - tries, NumOpen(pids, maxStatus)
    {
      hide Choose, NumOpen, Open;
      if c.forever && tries > 2 {
        tries := 0;
        pids, maxStatus := sorting.pids, sorting.maxStatus;
        trail := trail + [Resorted];
        return;
      }
      if tries > 2 {
        trail := trail + [GaveUp];
        return;
      }
      var num := Search();
      if num == None {
        if c.atOnce {
          return;
        }
        tries := tries + 1;
        Uncheck();
        trail := trail + [Again];
        TryNextCaid(c, sorting);
        return;
      }
      var n := num.value;
      CheckFewer(pids, maxStatus, n);
      curindex := n;
      var biss := IsBiss(pids[n]);
      pids := pids[n := pids[n].(checked := 1)];
      if biss {
        if tasks == 0 {
          trail := trail + [NoTask(n)];
          return;
        }
        tasks := tasks - 1;
      }
      trail := trail + [Asked(n)];
      if c.atOnce {
        TryNextCaid(c, sorting);
      }
    }
  }

  // ---------- Descrambler numbers ----------

  ghost predicate Used(demux: seq<seq<int>>, idx: int) {
    exists i, j :: 0 <= i < |demux| && 0 <= j < |demux[i]| && demux[i][j] == idx
  }

  function MaxOf(s: seq<int>): (m: int)
    ensures m >= 0 && forall j :: 0 <= j < |s| ==> s[j] <= m
  {
    if s == [] then 0
    else
      var m := MaxOf(s[..|s| - 1]);
      if s[|s| - 1] > m then s[|s| - 1] else m
  }

  function MaxAll(demux: seq<seq<int>>): (m: int)
    ensures m >= 0 && forall i, j :: 0 <= i < |demux| && 0 <= j < |demux[i]| ==> demux[i][j] <= m
  {
    if demux == [] then 0
    else
      var m, n := MaxAll(demux[..|demux| - 1]), MaxOf(demux[|demux| - 1]);
      if n > m then n else m
  }

  /** dvbapi_get_descindex: the least positive number that no stream of any channel has. */
  method GetDescIndex(demux: seq<seq<int>>) returns (idx: int)
    ensures idx >= 1 && !Used(demux, idx)
    ensures forall k :: 1 <= k < idx ==> Used(demux, k)
  {
    idx := 1;
    var fail := true;
    while fail
      invariant 1 <= idx <= MaxAll(demux) + 1
      invariant forall k :: 1 <= k < idx ==> Used(demux, k)
      invariant !fail ==> !Used(demux, idx)
      decreases MaxAll(demux) + 1 - idx, fail
    {
      fail := false;
      ghost var was := idx;
      var i := 0;
      while i < |demux|
        invariant i <= |demux| && was <= idx <= MaxAll(demux) + 1
        invariant forall k :: 1 <= k < idx ==> Used(demux, k)
        invariant fail ==> was < idx
        invariant !fail ==> was == idx && forall a, b :: 0 <= a < i && 0 <= b < |demux[a]| ==> demux[a][b] != idx
      {
        var j := 0;
        while j < |demux[i]| && demux[i][j] != idx
          invariant j <= |demux[i]|
          invariant forall b :: 0 <= b < j ==> demux[i][b] != idx
        {
          j := j + 1;
        }
        if j < |demux[i]| {
          idx := idx + 1;
          fail := true;
        }
        i := i + 1;
      }
    }
  }
}
