/** Choosing readers for a request: stat_get_best_reader (oscam/module-stat.c, lines 614-631, 1099-1113,
    1148-1277 and 1279-1377).

    Readers without enough statistics are asked first, as far as a budget allows; the others get a
    value, smaller being better.  Then the best local readers, the best of the rest and some fallbacks
    are taken by finding the minimum again and again.  If too few were found, failed readers are given
    another chance. */
module LoadBalancer {

  datatype Option<T> = None | Some(value: T)

  datatype Mode = LB_NONE | LB_LOG_ONLY | LB_FASTEST_READER_FIRST | LB_OLDEST_READER_FIRST | LB_LOWEST_USAGELEVEL

  const E_FOUND: int := 0
  const E_NOTFOUND: int := 4

  datatype Config = Config(mode: Mode, nbest: nat, nfb: nat, maxReaders: int, minEcm: int, maxEcm: int,
                           fastReopen: bool, preferLocal: bool)

  /** `due` says that the waiting time after the last failure is over. */
  datatype Stat = Stat(rc: int, ecmCount: int, timeAvg: nat, failFactor: nat, due: bool)

  /** `cacheex`: the reader only receives cached answers; `serves`: its services or idents name the
      request; `last`: when it was used last, in milliseconds; `full`: it has no free slot. */
  datatype Reader = Reader(cacheex: bool, connected: bool, weight: int, serves: bool, last: Option<int>,
                           usage: nat, full: bool, pending: nat, fallback: bool)

  datatype Answer = Answer(rdr: Reader, stat: Option<Stat>, local: bool, active: bool, fallback: bool, value: int, time: nat)

  // ---------- Quotas ----------

  /** lines 1103-1107: -1 stands for no limit. */
  function Limit(c: Config): (n: int)
    ensures c.maxReaders == 0 ==> n == -1
    ensures c.maxReaders != 0 ==> n >= 1 && n > c.nbest && n >= c.maxReaders
  {
    if c.maxReaders == 0 then -1 else if c.maxReaders <= c.nbest then c.nbest + 1 else c.maxReaders
  }

  /** lines 1108-1113 */
  function ReopenBudget(c: Config, nbest: nat, avail: nat): int {
    var n := Limit(c) - nbest;
    if n < 1 then (if Limit(c) > 0 then 1 else avail) else n
  }

  // ---------- Evaluation ----------

  datatype Eval = Eval(answers: seq<Answer>, nreaders: int, nmaxreopen: int, newStats: bool, nlocal: nat, count: nat)

  function Cleared(a: Answer): Answer {
    a.(active := false, fallback := false, value := 0)
  }

  /** reset_stat for one reader */
  function Reset(a: Answer): Answer {
    if a.stat == None || !a.rdr.connected then a
    else
      var s := a.stat.value;
      a.(stat := Some(s.(ecmCount := if s.ecmCount > 0 then 1 else s.ecmCount, rc := E_FOUND, failFactor := 0)))
  }

  function MapReset(answers: seq<Answer>): (r: seq<Answer>)
    ensures |r| == |answers| && forall i :: 0 <= i < |r| ==> r[i] == Reset(answers[i])
  {
    if answers == [] then [] else [Reset(answers[0])] + MapReset(answers[1..])
  }

  predicate Balances(m: Mode) {
    m == LB_FASTEST_READER_FIRST || m == LB_OLDEST_READER_FIRST || m == LB_LOWEST_USAGELEVEL
  }

  /** lines 1231-1271: the value of a reader that can decode, never 0. */
  function ValueOf(m: Mode, rdr: Reader, s: Stat, now: int): (v: int)
    requires Balances(m)
    ensures v != 0 && (m != LB_OLDEST_READER_FIRST ==> v >= 1)
  {
    if m == LB_OLDEST_READER_FIRST then
      var age := match rdr.last case None => -10 case Some(t) => t - now - 10;
      if age == 0 then -1 else age
    else
      var weight := if rdr.weight <= 0 then 100 else rdr.weight;
      var raw := (if m == LB_FASTEST_READER_FIRST then s.timeAvg else rdr.usage) * 100 / weight;
      var v1 := if rdr.full then raw * 2 else raw;
      var v2 := if rdr.connected && rdr.pending != 0 then v1 * rdr.pending else v1;
      var v3 := if s.rc >= E_NOTFOUND then v2 * (s.failFactor + 2) else v2;
      if v3 < 1 then 1 else v3
  }

  function Activated(e: Eval, k: nat): seq<Answer>
    requires k < |e.answers|
  {
    e.answers[k := e.answers[k].(active := true)]
  }

  /** What the loop body does with a reader: a cache exchange reader is always active, one without
      statistics is started, one whose statistics are too old or too few is asked again, one that can
      decode is valued, and the others are left out. */
  datatype Verdict = Always | Start | Renew | Complete | Decode | Skip

  /** The conditions of lines 1156-1212. */
  function Judge(c: Config, retryLimit: int, a: Answer, nmaxreopen: int): Verdict {
    if a.rdr.cacheex then Always
    else if a.stat == None then if nmaxreopen > 0 then Start else Skip
    else
      var s := a.stat.value;
      if nmaxreopen > 0 && (s.ecmCount < 0 || (s.ecmCount > c.maxEcm && s.timeAvg > retryLimit)) then Renew
      else if nmaxreopen > 0 && s.rc == E_FOUND && s.ecmCount < c.minEcm then Complete
      else if s.rc == E_FOUND || (a.rdr.connected && a.rdr.serves) then Decode
      else Skip
  }

  function Valued(c: Config, a: Answer, now: int): Answer
    requires a.stat.Some?
  {
    if Balances(c.mode) then a.(value := ValueOf(c.mode, a.rdr, a.stat.value, now), time := a.stat.value.timeAvg)
    else a.(active := true, fallback := a.fallback || a.rdr.fallback)
  }

  /** The loop body, lines 1153-1274. */
  function EvalStep(c: Config, retryLimit: int, now: int, e: Eval, k: nat): (r: Eval)
    requires k < |e.answers|
    ensures |r.answers| == |e.answers|
  {
    var a := e.answers[k];
    match Judge(c, retryLimit, a, e.nmaxreopen)
    case Always => e.(answers := Activated(e, k))
    case Start =>
      e.(answers := Activated(e, k), newStats := true, count := e.count + 1,
         nmaxreopen := if c.fastReopen then e.nmaxreopen else e.nmaxreopen - 1)
    case Renew =>
      e.(answers := MapReset(Activated(e, k)), count := e.count + 1,
         nreaders := e.nreaders - 1, nmaxreopen := e.nmaxreopen - 1)
    case Complete =>
      e.(answers := Activated(e, k), newStats := true, count := e.count + 1,
         nreaders := e.nreaders - 1, nmaxreopen := e.nmaxreopen - 1)
    case Decode =>
      e.(answers := e.answers[k := Valued(c, a, now)], count := e.count + 1,
         nlocal := if c.preferLocal && a.local then e.nlocal + 1 else e.nlocal)
    case Skip => e.(count := e.count + 1)
  }

  function EvalFrom(c: Config, retryLimit: int, now: int, e: Eval, k: nat): (r: Eval)
    requires k <= |e.answers|
    ensures |r.answers| == |e.answers|
    decreases |e.answers| - k
  {
    if k == |e.answers| then e else EvalFrom(c, retryLimit, now, EvalStep(c, retryLimit, now, e, k), k + 1)
  }

  function MapCleared(answers: seq<Answer>): (r: seq<Answer>)
    ensures |r| == |answers| && forall i :: 0 <= i < |r| ==> r[i] == Cleared(answers[i])
  {
    if answers == [] then [] else [Cleared(answers[0])] + MapCleared(answers[1..])
  }

  function Evaluated(c: Config, nbest: nat, avail: nat, retryLimit: int, now: int, answers: seq<Answer>): Eval {
    EvalFrom(c, retryLimit, now, Eval(MapCleared(answers), Limit(c), ReopenBudget(c, nbest, avail), false, 0, 0), 0)
  }

  // ---------- Selection ----------

  datatype Kind = Primary | Fallback | Dropped

  datatype Pick = Pick(index: nat, kind: Kind)

  datatype Quotas = Quotas(local: nat, best: nat, fb: nat, readers: int)

  /** lines 1279-1284 */
  function QuotasOf(c: Config, nbest: nat, e: Eval): Quotas {
    if e.nlocal > nbest then Quotas(nbest, 0, c.nfb, e.nreaders)
    else Quotas(e.nlocal, nbest - e.nlocal, c.nfb, e.nreaders)
  }

  predicate Cand(a: Answer, localOnly: bool) {
    a.value != 0 && (localOnly ==> a.local)
  }

  /** The scan of lines 1294-1300 over the first `n` answers. */
  function BestUpTo(ans: seq<Answer>, localOnly: bool, n: nat): (r: Option<nat>)
    requires n <= |ans|
    ensures r.Some? ==> r.value < n && Cand(ans[r.value], localOnly)
    ensures forall i :: 0 <= i < n && Cand(ans[i], localOnly) ==> r.Some? && Below(ans, r.value, i)
  {
    if n == 0 then None
    else
      var b := BestUpTo(ans, localOnly, n - 1);
      if Cand(ans[n - 1], localOnly) && (b == None || ans[n - 1].value < ans[b.value].value) then Some(n - 1) else b
  }

  /** `i` comes before `j`, or is `j`: the smaller value first, the earlier answer among equals. */
  predicate Below(ans: seq<Answer>, i: nat, j: nat)
    requires i < |ans| && j < |ans|
  {
    ans[i].value < ans[j].value || (ans[i].value == ans[j].value && i <= j)
  }

  function NumCands(ans: seq<Answer>): nat {
    if ans == [] then 0 else (if ans[0].value != 0 then 1 else 0) + NumCands(ans[1..])
  }

  /** An answer is taken: its value is spent, and unless it is dropped it becomes active. */
  function Spent(ans: seq<Answer>, k: nat, kind: Kind): seq<Answer>
    requires k < |ans|
  {
    ans[k := ans[k].(value := 0, active := ans[k].active || kind != Dropped,
                     fallback := ans[k].fallback || kind == Fallback)]
  }

  lemma {:induction false} SpentFewer(ans: seq<Answer>, k: nat, kind: Kind)
    requires k < |ans| && ans[k].value != 0
    ensures NumCands(Spent(ans, k, kind)) == NumCands(ans) - 1
  {
    if k > 0 {
      assert Spent(ans, k, kind)[1..] == Spent(ans[1..], k - 1, kind);
      SpentFewer(ans[1..], k - 1, kind);
    } else {
      assert Spent(ans, k, kind)[1..] == ans[1..];
    }
  }

  /** The loop of lines 1291-1323: what it picks, in order. */
  function Picks(ans: seq<Answer>, q: Quotas): seq<Pick>
    decreases NumCands(ans)
  {
    if q.readers == 0 then []
    else
      var b := BestUpTo(ans, q.local > 0, |ans|);
      if b == None then []
      else
        var kind := NextKind(q);
        SpentFewer(ans, b.value, kind);
        [Pick(b.value, kind)] + if kind == Dropped then [] else Picks(Spent(ans, b.value, kind), Charge(q))
  }

  /** The quota that the next reader falls under. */
  function NextKind(q: Quotas): Kind {
    if q.local > 0 || q.best > 0 then Primary else if q.fb > 0 then Fallback else Dropped
  }

  /** Fallbacks do not count against the limit. */
  function Charge(q: Quotas): Quotas {
    if q.local > 0 then q.(local := q.local - 1, readers := q.readers - 1)
    else if q.best > 0 then q.(best := q.best - 1, readers := q.readers - 1)
    else if q.fb > 0 then q.(fb := q.fb - 1)
    else q
  }

  // ---------- Sort and take ----------

  predicate StrictlyBelow(ans: seq<Answer>, i: nat, j: nat) {
    i < |ans| && j < |ans| && i != j && Below(ans, i, j)
  }

  /** `s` lists the candidates from best to worst. */
  ghost predicate Ranks(ans: seq<Answer>, localOnly: bool, s: seq<nat>) {
    RanksUpTo(ans, localOnly, |ans|, s)
  }

  ghost predicate RanksUpTo(ans: seq<Answer>, localOnly: bool, n: nat, s: seq<nat>) {
    && n <= |ans|
    && Ranked(ans, s)
    && (forall i :: 0 <= i < |s| ==> s[i] < n && Cand(ans[s[i]], localOnly))
    && (forall k :: 0 <= k < n && Cand(ans[k], localOnly) ==> k in s)
  }

  function Minus(s: seq<nat>, t: seq<nat>): seq<nat> {
    if s == [] then [] else (if s[0] in t then [] else [s[0]]) + Minus(s[1..], t)
  }

  function Mark(s: seq<nat>, kind: Kind): (r: seq<Pick>)
    ensures |r| == |s| && forall i :: 0 <= i < |s| ==> r[i] == Pick(s[i], kind)
  {
    if s == [] then [] else [Pick(s[0], kind)] + Mark(s[1..], kind)
  }

  /** How many of `have` a quota and a limit allow; a negative limit allows any number. */
  function Cap(quota: nat, have: nat, limit: int): (n: nat)
    ensures n <= quota && n <= have && (limit >= 0 ==> n <= limit)
  {
    var n := if quota <= have then quota else have;
    if 0 <= limit < n then limit else n
  }

  /** Fallbacks and the reader that is looked at in vain, from the ranking of what is left. */
  function TakeFallbacks(rest: seq<nat>, fb: nat): seq<Pick> {
    var c := Cap(fb, |rest|, -1);
    Mark(rest[..c], Fallback) + if c < |rest| then [Pick(rest[c], Dropped)] else []
  }

  function TakeBest(rest: seq<nat>, q: Quotas): seq<Pick> {
    var b := Cap(q.best, |rest|, q.readers);
    Mark(rest[..b], Primary) + if b < q.best || q.readers == b then [] else TakeFallbacks(rest[b..], q.fb)
  }

  /** Take the best local readers, then the best of all others, then the fallbacks. */
  function SortAndTake(locals: seq<nat>, all: seq<nat>, q: Quotas): seq<Pick> {
    var a := Cap(q.local, |locals|, q.readers);
    Mark(locals[..a], Primary)
    + if a < q.local then [] else TakeBest(Minus(all, locals[..a]), q.(local := 0, readers := q.readers - a))
  }

  lemma {:induction false} MinusIn(s: seq<nat>, t: seq<nat>)
    ensures forall k :: k in Minus(s, t) <==> k in s && k !in t
  {
    if s != [] {
      MinusIn(s[1..], t);
    }
  }

  lemma {:induction false} MinusRanked(ans: seq<Answer>, s: seq<nat>, t: seq<nat>)
    requires Ranked(ans, s)
    ensures Ranked(ans, Minus(s, t))
  {
    hide StrictlyBelow;
    if s != [] {
      MinusRanked(ans, s[1..], t);
      MinusIn(s[1..], t);
      forall j | 0 <= j < |Minus(s[1..], t)| ensures StrictlyBelow(ans, s[0], Minus(s[1..], t)[j]) {
        assert Minus(s[1..], t)[j] in s[1..];
      }
    }
  }

  lemma {:induction false} MinusTwice(s: seq<nat>, x: nat, t: seq<nat>)
    ensures Minus(Minus(s, [x]), t) == Minus(s, [x] + t)
  {
    if s != [] {
      MinusTwice(s[1..], x, t);
      assert s[0] in [x] + t <==> s[0] == x || s[0] in t;
      if s[0] != x {
        var m := Minus(s, [x]);
        assert m[0] == s[0] && m[1..] == Minus(s[1..], [x]);
        if s[0] in t {
          assert Minus(m, t) == Minus(m[1..], t);
        }
      } else {
        assert Minus(s, [x]) == Minus(s[1..], [x]);
      }
    }
  }

  /** The scan finds the head of the ranking. */
  lemma BestIsFirst(ans: seq<Answer>, localOnly: bool, s: seq<nat>)
    requires Ranks(ans, localOnly, s)
    ensures BestUpTo(ans, localOnly, |ans|) == if s == [] then None else Some(s[0])
  {
    hide BestUpTo;
    var b := BestUpTo(ans, localOnly, |ans|);
    assert b.Some? ==> b.value in s;
    if s != [] {
      assert s[0] in s;
      assert Below(ans, b.value, s[0]);
      assert forall j :: 0 < j < |s| ==> StrictlyBelow(ans, s[0], s[j]);
    }
  }

  /** Taking a candidate removes it from every ranking. */
  lemma SpentRanks(ans: seq<Answer>, localOnly: bool, s: seq<nat>, k: nat, kind: Kind)
    requires Ranks(ans, localOnly, s) && k < |ans|
    ensures Ranks(Spent(ans, k, kind), localOnly, Minus(s, [k]))
  {
    hide Minus;
    var r := Minus(s, [k]);
    MinusIn(s, [k]);
    MinusRanked(ans, s, [k]);
    forall i, j | 0 <= i < j < |r| ensures StrictlyBelow(Spent(ans, k, kind), r[i], r[j]) {
      assert StrictlyBelow(ans, r[i], r[j]) && r[i] in r && r[j] in r;
    }
    forall i | 0 <= i < |r| ensures r[i] < |ans| && Cand(Spent(ans, k, kind)[r[i]], localOnly) {
      assert r[i] in r;
    }
    forall j | 0 <= j < |ans| && Cand(Spent(ans, k, kind)[j], localOnly) ensures j in r {
      assert Cand(ans[j], localOnly);
    }
  }

  lemma SpentFirst(ans: seq<Answer>, localOnly: bool, s: seq<nat>, kind: Kind)
    requires Ranks(ans, localOnly, s) && s != []
    ensures s[0] < |ans| && Ranks(Spent(ans, s[0], kind), localOnly, s[1..])
  {
    assert s[0] in s;
    SpentRanks(ans, localOnly, s, s[0], kind);
    forall i | 0 <= i < |s[1..]| ensures s[1..][i] !in [s[0]] {
      assert StrictlyBelow(ans, s[0], s[i + 1]);
    }
    MinusUnmet(s[1..], [s[0]]);
  }

  lemma {:induction false} MinusUnmet(s: seq<nat>, t: seq<nat>)
    requires forall i :: 0 <= i < |s| ==> s[i] !in t
    ensures Minus(s, t) == s
  {
    if s != [] {
      MinusUnmet(s[1..], t);
    }
  }

  lemma PicksOne(ans: seq<Answer>, q: Quotas, k: nat)
    requires q.readers != 0 && BestUpTo(ans, q.local > 0, |ans|) == Some(k)
    ensures k < |ans| && ans[k].value != 0
    ensures Picks(ans, q)
            == [Pick(k, NextKind(q))] + if NextKind(q) == Dropped then [] else Picks(Spent(ans, k, NextKind(q)), Charge(q))
  {
    hide NumCands;
  }

  lemma PicksNothing(ans: seq<Answer>, q: Quotas)
    requires q.readers == 0 || BestUpTo(ans, q.local > 0, |ans|) == None
    ensures Picks(ans, q) == []
  {
  }

  lemma TakeFallbacksStep(rest: seq<nat>, fb: nat)
    ensures TakeFallbacks(rest, fb)
            == if rest == [] then []
               else if fb == 0 then [Pick(rest[0], Dropped)]
               else [Pick(rest[0], Fallback)] + TakeFallbacks(rest[1..], fb - 1)
  {
    var c := Cap(fb, |rest|, -1);
    if c > 0 {
      assert rest[..c][0] == rest[0] && rest[..c][1..] == rest[1..][..c - 1];
    }
  }

  lemma {:induction false} PicksFallbacks(ans: seq<Answer>, q: Quotas, rest: seq<nat>)
    requires Ranks(ans, false, rest) && q.local == 0 && q.best == 0 && q.readers != 0
    ensures Picks(ans, q) == TakeFallbacks(rest, q.fb)
    decreases q.fb
  {
    hide Ranks, BestUpTo, TakeFallbacks, Picks;
    BestIsFirst(ans, false, rest);
    TakeFallbacksStep(rest, q.fb);
    if rest != [] {
      PicksOne(ans, q, rest[0]);
    }
    if rest == [] {
      PicksNothing(ans, q);
    } else if q.fb > 0 {
      SpentFirst(ans, false, rest, Fallback);
      PicksFallbacks(Spent(ans, rest[0], Fallback), q.(fb := q.fb - 1), rest[1..]);
    }
  }

  lemma TakeBestStep(rest: seq<nat>, q: Quotas)
    requires rest != [] && q.best > 0 && q.readers != 0
    ensures TakeBest(rest, q) == [Pick(rest[0], Primary)] + TakeBest(rest[1..], q.(best := q.best - 1, readers := q.readers - 1))
  {
    hide TakeFallbacks;
    var b := Cap(q.best, |rest|, q.readers);
    assert rest[..b][0] == rest[0] && rest[..b][1..] == rest[1..][..b - 1] && rest[b..] == rest[1..][b - 1..];
  }

  lemma {:induction false} PicksBest(ans: seq<Answer>, q: Quotas, rest: seq<nat>)
    requires Ranks(ans, false, rest) && q.local == 0
    ensures Picks(ans, q) == TakeBest(rest, q)
    decreases q.best
  {
    hide Ranks, BestUpTo, TakeFallbacks, Picks;
    BestIsFirst(ans, false, rest);
    if q.readers == 0 || (q.best > 0 && rest == []) {
      PicksNothing(ans, q);
    } else if q.best == 0 {
      PicksFallbacks(ans, q, rest);
      assert rest[0..] == rest;
    } else {
      PicksOne(ans, q, rest[0]);
      SpentFirst(ans, false, rest, Primary);
      PicksBest(Spent(ans, rest[0], Primary), q.(best := q.best - 1, readers := q.readers - 1), rest[1..]);
      TakeBestStep(rest, q);
    }
  }

  /** The loop that finds the minimum again and again sorts and takes: the `local` best local readers,
      the `best` best of all others, then `fb` fallbacks, within the limit. */
  lemma {:induction false} PicksSortAndTake(ans: seq<Answer>, q: Quotas, locals: seq<nat>, all: seq<nat>)
    requires Ranks(ans, true, locals) && Ranks(ans, false, all)
    ensures Picks(ans, q) == SortAndTake(locals, all, q)
    decreases q.local
  {
    hide Ranks, BestUpTo, TakeBest;
    if q.local == 0 {
      MinusUnmet(all, []);
      PicksBest(ans, q, all);
      assert q.(local := 0, readers := q.readers - 0) == q;
      assert Mark(locals[..0], Primary) == [];
    } else if q.readers != 0 {
      BestIsFirst(ans, true, locals);
      if locals != [] {
        PicksOneLocal(ans, q, locals, all);
      }
    }
  }

  lemma {:induction false} PicksOneLocal(ans: seq<Answer>, q: Quotas, locals: seq<nat>, all: seq<nat>)
    requires Ranks(ans, true, locals) && Ranks(ans, false, all)
    requires q.local > 0 && q.readers != 0 && locals != []
    ensures Picks(ans, q) == SortAndTake(locals, all, q)
    decreases q.local, 0
  {
    hide Ranks, BestUpTo, SortAndTake, Minus;
    BestIsFirst(ans, true, locals);
    SpentFirst(ans, true, locals, Primary);
    SpentRanks(ans, false, all, locals[0], Primary);
    var q1 := q.(local := q.local - 1, readers := q.readers - 1);
    PicksSortAndTake(Spent(ans, locals[0], Primary), q1, locals[1..], Minus(all, [locals[0]]));
    TakeLocalStep(locals, all, q);
  }

  lemma TakeLocalStep(locals: seq<nat>, all: seq<nat>, q: Quotas)
    requires q.local > 0 && q.readers != 0 && locals != []
    ensures SortAndTake(locals, all, q)
            == [Pick(locals[0], Primary)]
               + SortAndTake(locals[1..], Minus(all, [locals[0]]), q.(local := q.local - 1, readers := q.readers - 1))
  {
    hide TakeBest, Minus;
    var a := Cap(q.local, |locals|, q.readers);
    assert locals[..a][0] == locals[0] && locals[..a][1..] == locals[1..][..a - 1];
    MinusTwice(all, locals[0], locals[1..][..a - 1]);
    assert [locals[0]] + locals[1..][..a - 1] == locals[..a];
  }

  predicate Untouched(picks: seq<Pick>, i: nat, j: nat) {
    i <= |picks| && forall m :: 0 <= m < i ==> picks[m].index != j
  }

  /** No reader is picked twice, and each pick is the best of those that were not picked before, among
      the local ones while those are served. */
  lemma {:induction false} EachPickIsBest(ans: seq<Answer>, q: Quotas, i: nat)
    requires i < |Picks(ans, q)|
    ensures var picks := Picks(ans, q); var k := picks[i].index;
            && k < |ans| && Cand(ans[k], i < q.local) && Untouched(picks, i, k)
            && forall j :: 0 <= j < |ans| && Cand(ans[j], i < q.local) && Untouched(picks, i, j) ==> Below(ans, k, j)
    decreases i
  {
    var b := BestUpTo(ans, q.local > 0, |ans|);
    var picks, kind := Picks(ans, q), NextKind(q);
    if i > 0 {
      var later := Spent(ans, b.value, kind);
      SpentFewer(ans, b.value, kind);
      assert picks[1..] == Picks(later, Charge(q));
      EachPickIsBest(later, Charge(q), i - 1);
      var k := picks[i].index;
      assert k == picks[1..][i - 1].index;
      forall m | 0 <= m < i ensures picks[m].index != k {
        assert m > 0 ==> picks[m] == picks[1..][m - 1];
      }
      forall j | 0 <= j < |ans| && Cand(ans[j], i < q.local) && Untouched(picks, i, j) ensures Below(ans, k, j) {
        assert picks[0].index != j;
        assert forall m :: 0 <= m < i - 1 ==> picks[1..][m] == picks[m + 1];
        assert Untouched(picks[1..], i - 1, j);
      }
    }
  }

  // ---------- There always is a ranking ----------

  ghost predicate Ranked(ans: seq<Answer>, s: seq<nat>) {
    forall i, j :: 0 <= i < j < |s| ==> StrictlyBelow(ans, s[i], s[j])
  }

  function Insert(ans: seq<Answer>, s: seq<nat>, k: nat): (r: seq<nat>)
    requires k < |ans| && forall i :: 0 <= i < |s| ==> s[i] < |ans|
    ensures r != []
  {
    if s == [] then [k]
    else if ans[k].value < ans[s[0]].value then [k] + s
    else [s[0]] + Insert(ans, s[1..], k)
  }

  lemma {:induction false} InsertIn(ans: seq<Answer>, s: seq<nat>, k: nat)
    requires k < |ans| && forall i :: 0 <= i < |s| ==> s[i] < |ans|
    ensures forall x :: x in Insert(ans, s, k) <==> x == k || x in s
    ensures Insert(ans, s, k)[0] == k || (s != [] && Insert(ans, s, k)[0] == s[0])
  {
    if s != [] {
      InsertIn(ans, s[1..], k);
    }
  }

  lemma HeadFirst(ans: seq<Answer>, x: nat, s: seq<nat>)
    requires Ranked(ans, s)
    requires s != [] ==> StrictlyBelow(ans, x, s[0])
    ensures Ranked(ans, [x] + s)
  {
    assert forall i :: 0 < i < |s| ==> StrictlyBelow(ans, s[0], s[i]);
  }

  lemma {:induction false} InsertRanked(ans: seq<Answer>, s: seq<nat>, k: nat)
    requires k < |ans| && forall i :: 0 <= i < |s| ==> s[i] < k
    requires Ranked(ans, s)
    ensures Ranked(ans, Insert(ans, s, k))
  {
    hide Ranked;
    if s == [] {
      ShortRanked(ans, k);
    } else if ans[k].value < ans[s[0]].value {
      HeadFirst(ans, k, s);
    } else {
      TailRanked(ans, s);
      InsertRanked(ans, s[1..], k);
      InsertIn(ans, s[1..], k);
      HeadFirst(ans, s[0], Insert(ans, s[1..], k));
    }
  }

  lemma ShortRanked(ans: seq<Answer>, k: nat)
    ensures Ranked(ans, []) && Ranked(ans, [k])
  {
  }

  lemma TailRanked(ans: seq<Answer>, s: seq<nat>)
    requires s != [] && Ranked(ans, s)
    ensures Ranked(ans, s[1..])
    ensures forall i :: 0 < i < |s| ==> StrictlyBelow(ans, s[0], s[i]) && s[i] != s[0]
  {
    assert forall i :: 0 < i < |s| ==> StrictlyBelow(ans, s[0], s[i]);
  }

  /** The insertion sort of the candidates. */
  function Ranking(ans: seq<Answer>, localOnly: bool, n: nat): (s: seq<nat>)
    requires n <= |ans|
    ensures forall i :: 0 <= i < |s| ==> s[i] < n
  {
    if n == 0 then []
    else
      var s := Ranking(ans, localOnly, n - 1);
      if Cand(ans[n - 1], localOnly) then
        InsertIn(ans, s, n - 1);
        var r := Insert(ans, s, n - 1);
        assert forall i :: 0 <= i < |r| ==> r[i] in r;
        r
      else s
  }

  lemma {:induction false} RankingRanks(ans: seq<Answer>, localOnly: bool, n: nat)
    requires n <= |ans|
    ensures RanksUpTo(ans, localOnly, n, Ranking(ans, localOnly, n))
  {
    hide Below, Insert, Cand, Ranked;
    if n == 0 {
      ShortRanked(ans, 0);
    } else {
      RankingRanks(ans, localOnly, n - 1);
      if Cand(ans[n - 1], localOnly) {
        var s := Ranking(ans, localOnly, n - 1);
        InsertRanked(ans, s, n - 1);
        InsertIn(ans, s, n - 1);
        var r := Insert(ans, s, n - 1);
        assert Ranking(ans, localOnly, n) == r;
        forall i | 0 <= i < |r| ensures Cand(ans[r[i]], localOnly) {
          assert r[i] in r;
        }
      }
    }
  }

  /** So the loop is sort and take, for all answers and all quotas. */
  lemma LoopSortsAndTakes(ans: seq<Answer>, q: Quotas)
    ensures Picks(ans, q) == SortAndTake(Ranking(ans, true, |ans|), Ranking(ans, false, |ans|), q)
  {
    hide RanksUpTo, Ranking, Picks, SortAndTake;
    RankingRanks(ans, true, |ans|);
    RankingRanks(ans, false, |ans|);
    PicksSortAndTake(ans, q, Ranking(ans, true, |ans|), Ranking(ans, false, |ans|));
  }

  // ---------- What evaluation leaves for the selection ----------

  function CountUpTo(ans: seq<Answer>, localOnly: bool, n: nat): nat
    requires n <= |ans|
  {
    if n == 0 then 0 else CountUpTo(ans, localOnly, n - 1) + if Cand(ans[n - 1], localOnly) then 1 else 0
  }

  lemma {:induction false} RankingSize(ans: seq<Answer>, localOnly: bool, n: nat)
    requires n <= |ans|
    ensures |Ranking(ans, localOnly, n)| == CountUpTo(ans, localOnly, n)
  {
    if n > 0 {
      RankingSize(ans, localOnly, n - 1);
      InsertSize(ans, Ranking(ans, localOnly, n - 1), n - 1);
    }
  }

  lemma {:induction false} InsertSize(ans: seq<Answer>, s: seq<nat>, k: nat)
    requires k < |ans| && forall i :: 0 <= i < |s| ==> s[i] < |ans|
    ensures |Insert(ans, s, k)| == |s| + 1
  {
    if s != [] {
      InsertSize(ans, s[1..], k);
    }
  }

  lemma {:induction false} CountSame(a: seq<Answer>, b: seq<Answer>, localOnly: bool, n: nat)
    requires n <= |a| && n <= |b|
    requires forall i :: 0 <= i < n ==> Cand(a[i], localOnly) == Cand(b[i], localOnly)
    ensures CountUpTo(a, localOnly, n) == CountUpTo(b, localOnly, n)
  {
    if n > 0 {
      CountSame(a, b, localOnly, n - 1);
    }
  }

  /** An answer that was asked at the cost of the limit. */
  predicate Charged(a: Answer) {
    a.active && !a.fallback && !a.rdr.cacheex && a.stat.Some?
  }

  function ChargedCount(ans: seq<Answer>): nat {
    if ans == [] then 0 else (if Charged(ans[0]) then 1 else 0) + ChargedCount(ans[1..])
  }

  lemma {:induction false} ChargedUpdate(ans: seq<Answer>, k: nat, a: Answer)
    requires k < |ans|
    ensures ChargedCount(ans[k := a])
            == ChargedCount(ans) - (if Charged(ans[k]) then 1 else 0) + (if Charged(a) then 1 else 0)
  {
    hide Charged;
    if k > 0 {
      assert ans[k := a][1..] == ans[1..][k - 1 := a];
      ChargedUpdate(ans[1..], k - 1, a);
    } else {
      assert ans[k := a][1..] == ans[1..];
    }
  }

  lemma {:induction false} ChargedSame(a: seq<Answer>, b: seq<Answer>)
    requires |a| == |b| && forall i :: 0 <= i < |a| ==> Charged(a[i]) == Charged(b[i])
    ensures ChargedCount(a) == ChargedCount(b)
  {
    if a != [] {
      ChargedSame(a[1..], b[1..]);
    }
  }

  /** An answer whose evaluation is over (`seen`) or not. */
  predicate Consistent(a: Answer, seen: bool) {
    && (a.fallback ==> a.active)
    && (a.value != 0 ==> seen && !a.active && a.stat.Some? && !a.rdr.cacheex)
    && (!seen ==> !a.active)
    && (seen && a.rdr.cacheex ==> a.active)
  }

  /** What holds after the evaluation of `k` answers: the limit pays for exactly the answers asked for
      statistics, the budget for reopening is never overdrawn, and `nlocal` counts the local
      candidates. */
  ghost predicate EvalInv(c: Config, nbest: nat, avail: nat, e: Eval, k: nat) {
    && k <= |e.answers|
    && (forall i :: 0 <= i < |e.answers| ==> Consistent(e.answers[i], i < k))
    && ChargedCount(e.answers) + e.nreaders == Limit(c)
    && 0 <= e.nmaxreopen
    && e.nreaders - e.nmaxreopen >= Limit(c) - ReopenBudget(c, nbest, avail)
    && (c.preferLocal ==> e.nlocal == CountUpTo(e.answers, true, k))
    && (!c.preferLocal ==> e.nlocal == 0)
  }

  lemma ResetKeeps(a: Answer, seen: bool)
    ensures Consistent(Reset(a), seen) == Consistent(a, seen) && Charged(Reset(a)) == Charged(a)
    ensures Reset(a).local == a.local && Reset(a).value == a.value
  {
  }

  /** The answer at `k` after its step. */
  lemma JudgedAnswer(c: Config, retryLimit: int, now: int, e: Eval, k: nat)
    requires Balances(c.mode) && k < |e.answers| && Consistent(e.answers[k], false)
    ensures var r := EvalStep(c, retryLimit, now, e, k);
            && Consistent(r.answers[k], true) && r.answers[k].local == e.answers[k].local
            && r.nlocal == e.nlocal + if c.preferLocal && Cand(r.answers[k], true) then 1 else 0
  {
    hide ValueOf, Reset;
    ResetKeeps(Activated(e, k)[k], true);
  }

  lemma OtherAnswers(c: Config, retryLimit: int, now: int, e: Eval, k: nat, i: nat)
    requires k < |e.answers| && i < |e.answers| && i != k
    ensures var r := EvalStep(c, retryLimit, now, e, k);
            r.answers[i] == e.answers[i] || r.answers[i] == Reset(e.answers[i])
  {
    hide ValueOf, Reset, Judge;
  }

  lemma EvalStepCharges(c: Config, retryLimit: int, now: int, e: Eval, k: nat)
    requires Balances(c.mode) && k < |e.answers| && Consistent(e.answers[k], false) && 0 <= e.nmaxreopen
    ensures var r := EvalStep(c, retryLimit, now, e, k);
            && ChargedCount(r.answers) + r.nreaders == ChargedCount(e.answers) + e.nreaders
            && 0 <= r.nmaxreopen && r.nreaders - r.nmaxreopen >= e.nreaders - e.nmaxreopen
  {
    hide ValueOf, ChargedCount, Reset;
    var on := Activated(e, k);
    ChargedUpdate(e.answers, k, on[k]);
    if e.answers[k].stat.Some? {
      ChargedUpdate(e.answers, k, Valued(c, e.answers[k], now));
    }
    forall i | 0 <= i < |on| ensures Charged(on[i]) == Charged(MapReset(on)[i]) {
      ResetKeeps(on[i], true);
    }
    ChargedSame(on, MapReset(on));
  }

  lemma EvalStepInv(c: Config, nbest: nat, avail: nat, retryLimit: int, now: int, e: Eval, k: nat)
    requires Balances(c.mode) && k < |e.answers| && EvalInv(c, nbest, avail, e, k)
    ensures EvalInv(c, nbest, avail, EvalStep(c, retryLimit, now, e, k), k + 1)
  {
    hide EvalStep, Limit, ReopenBudget, Consistent, ChargedCount, Reset;
    var r := EvalStep(c, retryLimit, now, e, k);
    assert Consistent(e.answers[k], false);
    JudgedAnswer(c, retryLimit, now, e, k);
    EvalStepCharges(c, retryLimit, now, e, k);
    forall i | 0 <= i < |r.answers|
      ensures Consistent(r.answers[i], i < k + 1) && (i < k ==> Cand(r.answers[i], true) == Cand(e.answers[i], true))
    {
      if i != k {
        assert Consistent(e.answers[i], i < k);
        OtherAnswers(c, retryLimit, now, e, k, i);
        ResetKeeps(e.answers[i], i < k);
      }
    }
    CountSame(r.answers, e.answers, true, k);
  }

  lemma {:induction false} EvalFromInv(c: Config, nbest: nat, avail: nat, retryLimit: int, now: int, e: Eval, k: nat)
    requires Balances(c.mode) && k <= |e.answers| && EvalInv(c, nbest, avail, e, k)
    ensures EvalInv(c, nbest, avail, EvalFrom(c, retryLimit, now, e, k), |e.answers|)
    decreases |e.answers| - k
  {
    hide EvalInv, EvalStep;
    if k < |e.answers| {
      EvalStepInv(c, nbest, avail, retryLimit, now, e, k);
      EvalFromInv(c, nbest, avail, retryLimit, now, EvalStep(c, retryLimit, now, e, k), k + 1);
    }
  }

  lemma {:induction false} NothingCharged(ans: seq<Answer>)
    requires forall i :: 0 <= i < |ans| ==> !ans[i].active
    ensures ChargedCount(ans) == 0
  {
    if ans != [] {
      NothingCharged(ans[1..]);
    }
  }

  /** Asking readers for statistics never eats up the share of the best readers: of a limit at least
      `nbest`, or all but one, is left; and every local reader that was counted is a candidate. */
  lemma EvaluationLeavesRoom(c: Config, nbest: nat, avail: nat, retryLimit: int, now: int, answers: seq<Answer>)
    requires Balances(c.mode)
    ensures var e := Evaluated(c, nbest, avail, retryLimit, now, answers);
            && EvalInv(c, nbest, avail, e, |answers|) && |e.answers| == |answers|
            && (c.maxReaders != 0 ==> e.nreaders >= nbest || e.nreaders >= Limit(c) - 1)
            && (c.maxReaders == 0 ==> e.nreaders < 0)
            && e.nlocal <= |Ranking(e.answers, true, |e.answers|)|
  {
    hide EvalFrom, Ranking, Cand;
    var start := Eval(MapCleared(answers), Limit(c), ReopenBudget(c, nbest, avail), false, 0, 0);
    NothingCharged(start.answers);
    EvalFromInv(c, nbest, avail, retryLimit, now, start, 0);
    var e := Evaluated(c, nbest, avail, retryLimit, now, answers);
    RankingSize(e.answers, true, |e.answers|);
  }

  lemma {:induction false} MinusOne(ans: seq<Answer>, s: seq<nat>, x: nat)
    requires Ranked(ans, s) && x in s
    ensures |Minus(s, [x])| == |s| - 1
  {
    hide Below;
    if s[0] == x {
      assert forall i :: 0 < i < |s| ==> StrictlyBelow(ans, s[0], s[i]);
      MinusUnmet(s[1..], [x]);
      assert Minus(s, [x]) == Minus(s[1..], [x]);
    } else {
      MinusOne(ans, s[1..], x);
    }
  }

  lemma {:induction false} MinusSize(ans: seq<Answer>, s: seq<nat>, t: seq<nat>)
    requires Ranked(ans, s) && Ranked(ans, t) && forall i :: 0 <= i < |t| ==> t[i] in s
    ensures |Minus(s, t)| == |s| - |t|
    decreases |t|
  {
    hide Below, Minus, Ranked;
    if t == [] {
      MinusUnmet(s, []);
    } else {
      MinusOne(ans, s, t[0]);
      MinusRanked(ans, s, [t[0]]);
      MinusIn(s, [t[0]]);
      TailRanked(ans, t);
      MinusSize(ans, Minus(s, [t[0]]), t[1..]);
      MinusTwice(s, t[0], t[1..]);
      assert [t[0]] + t[1..] == t;
    }
  }

  lemma {:induction false} FewerLocals(ans: seq<Answer>, n: nat)
    requires n <= |ans|
    ensures CountUpTo(ans, true, n) <= CountUpTo(ans, false, n)
  {
    if n > 0 {
      FewerLocals(ans, n - 1);
    }
  }

  /** What is left for the others after `a` local readers are taken. */
  lemma RestSize(ans: seq<Answer>, a: nat)
    requires a <= |Ranking(ans, true, |ans|)|
    ensures var locals, all := Ranking(ans, true, |ans|), Ranking(ans, false, |ans|);
            |Minus(all, locals[..a])| == |all| - a
  {
    hide Below, Ranking, Ranked;
    var locals, all := Ranking(ans, true, |ans|), Ranking(ans, false, |ans|);
    RankingRanks(ans, true, |ans|);
    RankingRanks(ans, false, |ans|);
    PrefixRanked(ans, locals, a);
    MinusSize(ans, all, locals[..a]);
  }

  lemma PrefixRanked(ans: seq<Answer>, s: seq<nat>, a: nat)
    requires Ranked(ans, s) && a <= |s|
    ensures Ranked(ans, s[..a])
  {
  }

  /** Whatever was spent on statistics and whatever `nbest` is, the `nbest` best readers are asked, local
      ones first, as far as there are so many and the limit allows, and statistics cost at most one of
      them; fallbacks follow unless statistics have used up all that the limit leaves beyond `nbest`. */
  lemma NBestChosen(c: Config, nbest: nat, avail: nat, retryLimit: int, now: int, answers: seq<Answer>)
    requires Balances(c.mode)
    ensures var e := Evaluated(c, nbest, avail, retryLimit, now, answers);
            var locals, all := Ranking(e.answers, true, |e.answers|), Ranking(e.answers, false, |e.answers|);
            var a := Cap(Cap(e.nlocal, nbest, -1), |locals|, e.nreaders);
            var n := Cap(nbest, |all|, e.nreaders);
            && (c.maxReaders == 0 ==> n == Cap(nbest, |all|, -1))
            && (c.maxReaders != 0 ==> n >= Cap(nbest, |all|, Limit(c) - 1))
            && (nbest < Limit(c) ==> n == Cap(nbest, |all|, -1) && a == Cap(e.nlocal, nbest, -1))
            && a <= |locals| && a <= n && |Minus(all, locals[..a])| == |all| - a
            && Picks(e.answers, QuotasOf(c, nbest, e))
               == Mark(locals[..a], Primary) + Mark(Minus(all, locals[..a])[..n - a], Primary)
                  + if n < nbest || e.nreaders == nbest then []
                    else TakeFallbacks(Minus(all, locals[..a])[n - a..], c.nfb)
  {
    hide Evaluated, Ranking, EvalInv, Picks, QuotasOf, TakeFallbacks, Minus, Mark, Limit;
    EvaluationLeavesRoom(c, nbest, avail, retryLimit, now, answers);
    PicksWithin(c, nbest, Evaluated(c, nbest, avail, retryLimit, now, answers));
  }

  lemma PicksWithin(c: Config, nbest: nat, e: Eval)
    requires e.nlocal <= |Ranking(e.answers, true, |e.answers|)|
    ensures var locals, all := Ranking(e.answers, true, |e.answers|), Ranking(e.answers, false, |e.answers|);
            var a := Cap(Cap(e.nlocal, nbest, -1), |locals|, e.nreaders);
            var n := Cap(nbest, |all|, e.nreaders);
            && a <= n && e.nlocal <= |all| && |Minus(all, locals[..a])| == |all| - a
            && Picks(e.answers, QuotasOf(c, nbest, e))
               == Mark(locals[..a], Primary) + Mark(Minus(all, locals[..a])[..n - a], Primary)
                  + if n < nbest || e.nreaders == nbest then []
                    else TakeFallbacks(Minus(all, locals[..a])[n - a..], c.nfb)
  {
    hide Ranking, Picks, SortAndTake, TakeFallbacks, Minus, Mark, QuotasOf;
    var ans, q := e.answers, QuotasOf(c, nbest, e);
    QuotasShare(c, nbest, e);
    LoopSortsAndTakes(ans, q);
    RankingSize(ans, true, |ans|);
    RankingSize(ans, false, |ans|);
    FewerLocals(ans, |ans|);
    RestSize(ans, Cap(q.local, |Ranking(ans, true, |ans|)|, q.readers));
    TakeWithin(Ranking(ans, true, |ans|), Ranking(ans, false, |ans|), q);
  }

  /** Sort and take when there are local readers for their quota. */
  lemma TakeWithin(locals: seq<nat>, all: seq<nat>, q: Quotas)
    requires q.local <= |locals| <= |all|
    requires var a := Cap(q.local, |locals|, q.readers); |Minus(all, locals[..a])| == |all| - a
    ensures var a := Cap(q.local, |locals|, q.readers);
            var rest := Minus(all, locals[..a]);
            var n := Cap(q.local + q.best, |all|, q.readers);
            && a <= n
            && SortAndTake(locals, all, q)
               == Mark(locals[..a], Primary) + Mark(rest[..n - a], Primary)
                  + if n < q.local + q.best || q.readers == n then [] else TakeFallbacks(rest[n - a..], q.fb)
  {
    hide TakeFallbacks, Minus, Mark, TakeBest;
    var a := Cap(q.local, |locals|, q.readers);
    var rest := Minus(all, locals[..a]);
    if a < q.local {
      assert rest[..0] == [] && Mark([], Primary) == [];
    } else {
      var q1 := q.(local := 0, readers := q.readers - a);
      TakeBestWithin(rest, q1);
      assert Cap(q.best, |rest|, q1.readers) == Cap(q.local + q.best, |all|, q.readers) - a;
      Regroup(Mark(locals[..a], Primary), Mark(rest[..Cap(q.best, |rest|, q1.readers)], Primary),
              if Cap(q.best, |rest|, q1.readers) < q.best || q1.readers == Cap(q.best, |rest|, q1.readers) then []
              else TakeFallbacks(rest[Cap(q.best, |rest|, q1.readers)..], q.fb));
    }
  }

  lemma TakeBestWithin(rest: seq<nat>, q: Quotas)
    ensures var b := Cap(q.best, |rest|, q.readers);
            TakeBest(rest, q)
            == Mark(rest[..b], Primary) + if b < q.best || q.readers == b then [] else TakeFallbacks(rest[b..], q.fb)
  {
    hide TakeFallbacks, Mark;
  }

  lemma Regroup(a: seq<Pick>, b: seq<Pick>, c: seq<Pick>)
    ensures a + (b + c) == a + b + c
  {
  }

  lemma QuotasShare(c: Config, nbest: nat, e: Eval)
    ensures var q := QuotasOf(c, nbest, e);
            q.local == Cap(e.nlocal, nbest, -1) && q.local + q.best == nbest && q.readers == e.nreaders && q.fb == c.nfb
  {
  }

  // ---------- After the selection ----------

  function Apply(ans: seq<Answer>, picks: seq<Pick>): (r: seq<Answer>)
    ensures |r| == |ans|
    decreases |picks|
  {
    if picks == [] then ans
    else if picks[0].index >= |ans| then Apply(ans, picks[1..])
    else Apply(Spent(ans, picks[0].index, picks[0].kind), picks[1..])
  }

  function Number(picks: seq<Pick>, kind: Kind): nat {
    if picks == [] then 0 else (if picks[0].kind == kind then 1 else 0) + Number(picks[1..], kind)
  }

  /** A reader that failed may be asked again: after its waiting time, or at once if `again` and so
      configured. */
  predicate Reopens(c: Config, a: Answer, again: bool) {
    !a.active && a.stat.Some? && a.stat.value.rc != E_FOUND && ((again && c.fastReopen) || a.stat.value.due)
  }

  function Reopened(a: Answer, again: bool): Answer
    requires a.stat.Some?
  {
    a.(active := true, stat := if again then Some(a.stat.value.(due := false)) else a.stat)
  }

  datatype Choice = Choice(answers: seq<Answer>, nreaders: int)

  /** The loops of lines 1329-1342 and 1355-1374. */
  function ReopenFrom(c: Config, f: Choice, again: bool, k: nat): (r: Choice)
    requires k <= |f.answers|
    ensures |r.answers| == |f.answers|
    decreases |f.answers| - k
  {
    if k == |f.answers| then f
    else if f.nreaders != 0 && Reopens(c, f.answers[k], again) then
      ReopenFrom(c, Choice(f.answers[k := Reopened(f.answers[k], again)], f.nreaders - 1), again, k + 1)
    else ReopenFrom(c, f, again, k + 1)
  }

  function Selected(e: Eval, picks: seq<Pick>): Choice {
    Choice(Apply(e.answers, picks), e.nreaders - Number(picks, Primary))
  }

  /** lines 1325-1377: failed readers get a chance when no reader was found, or a slow one. */
  function Finished(c: Config, retryLimit: int, e: Eval, picks: seq<Pick>): Choice {
    var f := Selected(e, picks);
    if e.newStats || |picks| - Number(picks, Dropped) >= e.count then f
    else if picks == [] then ReopenFrom(c, ReopenFrom(c, f, false, 0), true, 0)
    else
      var slow := picks[0].index < |e.answers| && e.answers[picks[0].index].time != 0
                  && e.answers[picks[0].index].time > retryLimit;
      if slow then ReopenFrom(c, f, true, 0) else f
  }

  function Chosen(c: Config, nbest: nat, avail: nat, retryLimit: int, now: int, answers: seq<Answer>): Choice {
    var e := Evaluated(c, nbest, avail, retryLimit, now, answers);
    Finished(c, retryLimit, e, Picks(e.answers, QuotasOf(c, nbest, e)))
  }

  ghost predicate Settled(ans: seq<Answer>) {
    forall i :: 0 <= i < |ans| ==> Consistent(ans[i], true)
  }

  /** Selecting pays the limit for each primary reader and for no other. */
  lemma {:induction false} PicksCharge(ans: seq<Answer>, q: Quotas)
    requires Settled(ans)
    ensures var picks := Picks(ans, q);
            && Settled(Apply(ans, picks))
            && ChargedCount(Apply(ans, picks)) == ChargedCount(ans) + Number(picks, Primary)
            && (q.readers >= 0 ==> Number(picks, Primary) <= q.readers)
    decreases NumCands(ans)
  {
    hide ChargedCount;
    var b := BestUpTo(ans, q.local > 0, |ans|);
    if q.readers != 0 && b.Some? {
      var kind, picks := NextKind(q), Picks(ans, q);
      SpentFewer(ans, b.value, kind);
      SpentCharges(ans, b.value, kind);
      if kind == Dropped {
        assert picks[1..] == [];
      } else {
        PicksCharge(Spent(ans, b.value, kind), Charge(q));
        assert picks[1..] == Picks(Spent(ans, b.value, kind), Charge(q));
      }
    }
  }

  lemma SpentCharges(ans: seq<Answer>, k: nat, kind: Kind)
    requires Settled(ans) && k < |ans| && ans[k].value != 0
    ensures Settled(Spent(ans, k, kind))
    ensures ChargedCount(Spent(ans, k, kind)) == ChargedCount(ans) + if kind == Primary then 1 else 0
  {
    assert Consistent(ans[k], true);
    ChargedUpdate(ans, k, Spent(ans, k, kind)[k]);
  }

  predicate Sane(a: Answer) {
    (a.fallback || a.rdr.cacheex) ==> a.active
  }

  lemma {:induction false} ReopenCharges(c: Config, f: Choice, again: bool, k: nat)
    requires k <= |f.answers| && forall i :: 0 <= i < |f.answers| ==> Sane(f.answers[i])
    ensures var r := ReopenFrom(c, f, again, k);
            && (forall i :: 0 <= i < |r.answers| ==> Sane(r.answers[i]))
            && ChargedCount(r.answers) + r.nreaders == ChargedCount(f.answers) + f.nreaders
            && (f.nreaders >= 0 ==> r.nreaders >= 0)
    decreases |f.answers| - k
  {
    hide ChargedCount;
    if k < |f.answers| {
      if f.nreaders != 0 && Reopens(c, f.answers[k], again) {
        assert Sane(f.answers[k]);
        ChargedUpdate(f.answers, k, Reopened(f.answers[k], again));
        ReopenCharges(c, Choice(f.answers[k := Reopened(f.answers[k], again)], f.nreaders - 1), again, k + 1);
      } else {
        ReopenCharges(c, f, again, k + 1);
      }
    }
  }

  lemma SettledSane(ans: seq<Answer>)
    requires Settled(ans)
    ensures forall i :: 0 <= i < |ans| ==> Sane(ans[i])
  {
    forall i | 0 <= i < |ans| ensures Sane(ans[i]) {
      assert Consistent(ans[i], true);
    }
  }

  lemma FinishedCharges(c: Config, retryLimit: int, e: Eval, q: Quotas)
    requires Settled(e.answers) && q.readers == e.nreaders
    ensures var r := Finished(c, retryLimit, e, Picks(e.answers, q));
            && ChargedCount(r.answers) + r.nreaders == ChargedCount(e.answers) + e.nreaders
            && (e.nreaders >= 0 ==> r.nreaders >= 0)
  {
    hide Picks, ReopenFrom, ChargedCount, Number, Apply, Settled, Sane;
    PicksCharge(e.answers, q);
    var f := Selected(e, Picks(e.answers, q));
    SettledSane(f.answers);
    ReopenCharges(c, f, true, 0);
    ReopenCharges(c, f, false, 0);
    ReopenCharges(c, ReopenFrom(c, f, false, 0), true, 0);
  }

  /** Every reader that is asked, other than cache exchange readers, readers without any statistics and
      fallbacks, is paid for from the limit, and the limit is never overdrawn. */
  lemma AskedWithinLimit(c: Config, nbest: nat, avail: nat, retryLimit: int, now: int, answers: seq<Answer>)
    requires Balances(c.mode)
    ensures var r := Chosen(c, nbest, avail, retryLimit, now, answers);
            && ChargedCount(r.answers) + r.nreaders == Limit(c)
            && (c.maxReaders != 0 ==> 0 <= r.nreaders && ChargedCount(r.answers) <= Limit(c))
  {
    hide Evaluated, Picks, Finished, Ranking, ChargedCount;
    EvaluationLeavesRoom(c, nbest, avail, retryLimit, now, answers);
    var e := Evaluated(c, nbest, avail, retryLimit, now, answers);
    forall i | 0 <= i < |e.answers| ensures Consistent(e.answers[i], true) {
      assert Consistent(e.answers[i], i < |answers|);
    }
    FinishedCharges(c, retryLimit, e, QuotasOf(c, nbest, e));
  }

  // ---------- The code ----------

  class Request {
    var answers: seq<Answer>

    constructor (answers: seq<Answer>)
      ensures this.answers == answers
    {
      this.answers := answers;
    }

    /** reset_stat, lines 614-631, for the readers of the request. */
    method ResetStat()
      modifies this
      ensures answers == MapReset(old(answers))
    {
      hide Reset;
      var k := 0;
      while k < |answers|
        invariant k <= |answers| == |old(answers)|
        invariant forall i :: 0 <= i < |answers| ==>
                    answers[i] == if i < k then Reset(old(answers)[i]) else old(answers)[i]
      {
        answers := answers[k := Reset(answers[k])];
        k := k + 1;
      }
    }

    /** lines 1099-1113 and 1148-1277 */
    method Evaluate(c: Config, nbest: nat, avail: nat, retryLimit: int, now: int) returns (ghost e: Eval,
        nreaders: int, newStats: bool, nlocal: nat, count: nat)
      modifies this
      ensures e == Evaluated(c, nbest, avail, retryLimit, now, old(answers))
      ensures answers == e.answers && nreaders == e.nreaders && newStats == e.newStats
      ensures nlocal == e.nlocal && count == e.count
    {
      hide ValueOf, Reset, Judge;
      newStats, nlocal, count := false, 0, 0;
      nreaders := c.maxReaders;
      if nreaders == 0 {
        nreaders := -1;
      } else if nreaders <= c.nbest {
        nreaders := c.nbest + 1;
      }
      var nmaxreopen := nreaders - nbest;
      if nmaxreopen < 1 {
        nmaxreopen := if nreaders > 0 then 1 else avail;
      }
      Clear();
      e := Eval(answers, nreaders, nmaxreopen, false, 0, 0);
      var k := 0;
      while k < |answers|
        invariant k <= |answers|
        invariant e == Eval(answers, nreaders, nmaxreopen, newStats, nlocal, count)
        invariant EvalFrom(c, retryLimit, now, e, k) == Evaluated(c, nbest, avail, retryLimit, now, old(answers))
      {
        nreaders, nmaxreopen, newStats, nlocal, count :=
          EvaluateOne(c, retryLimit, now, k, nreaders, nmaxreopen, newStats, nlocal, count);
        e := EvalStep(c, retryLimit, now, e, k);
        k := k + 1;
      }
    }

    /** One round of the loop, lines 1153-1274. */
    method EvaluateOne(c: Config, retryLimit: int, now: int, k: nat, left: int, budget: int, started: bool, locals: nat,
        seen: nat) returns (nreaders: int, nmaxreopen: int, newStats: bool, nlocal: nat, count: nat)
      requires k < |answers|
      modifies this
      ensures Eval(answers, nreaders, nmaxreopen, newStats, nlocal, count)
              == EvalStep(c, retryLimit, now, Eval(old(answers), left, budget, started, locals, seen), k)
    {
      hide ValueOf, Reset, Balances;
      nreaders, nmaxreopen, newStats, nlocal, count := left, budget, started, locals, seen;
      var a := answers[k];
      if a.rdr.cacheex {
        answers := answers[k := a.(active := true)];
        return;
      }
      count := count + 1;
      if a.stat == None {
        if nmaxreopen > 0 {
          answers := answers[k := a.(active := true)];
          newStats := true;
          if !c.fastReopen {
            nmaxreopen := nmaxreopen - 1;
          }
        }
        return;
      }
      var s := a.stat.value;
      if nmaxreopen > 0 && (s.ecmCount < 0 || (s.ecmCount > c.maxEcm && s.timeAvg > retryLimit)) {
        answers := answers[k := a.(active := true)];
        ResetStat();
        nreaders, nmaxreopen := nreaders - 1, nmaxreopen - 1;
        return;
      }
      if nmaxreopen > 0 && s.rc == E_FOUND && s.ecmCount < c.minEcm {
        answers := answers[k := a.(active := true)];
        newStats, nreaders, nmaxreopen := true, nreaders - 1, nmaxreopen - 1;
        return;
      }
      if s.rc == E_FOUND || (a.rdr.connected && a.rdr.serves) {
        if c.preferLocal && a.local {
          nlocal := nlocal + 1;
        }
        answers := answers[k := Valued(c, a, now)];
      }
    }

    /** lines 1148-1151 */
    method Clear()
      modifies this
      ensures answers == MapCleared(old(answers))
    {
      var k := 0;
      while k < |answers|
        invariant k <= |answers| == |old(answers)|
        invariant forall i :: 0 <= i < |answers| ==>
                    answers[i] == if i < k then Cleared(old(answers)[i]) else old(answers)[i]
      {
        answers := answers[k := answers[k].(active := false, fallback := false)];
        answers := answers[k := answers[k].(value := 0)];
        k := k + 1;
      }
    }

    /** lines 1294-1300 */
    method FindBest(localOnly: bool) returns (best: Option<nat>)
      ensures best == BestUpTo(answers, localOnly, |answers|)
    {
      best := None;
      var k := 0;
      while k < |answers|
        invariant k <= |answers| && best == BestUpTo(answers, localOnly, k)
      {
        if !(localOnly && !answers[k].local) {
          if answers[k].value != 0 && (best == None || answers[k].value < answers[best.value].value) {
            best := Some(k);
          }
        }
        k := k + 1;
      }
    }

    /** lines 1279-1323 */
    method Select(c: Config, nbest: nat, nlocal: nat, limit: int)
      returns (ghost picks: seq<Pick>, nreaders: int, first: Option<nat>, n: nat, found: nat)
      modifies this
      ensures var q := if nlocal > nbest then Quotas(nbest, 0, c.nfb, limit)
                       else Quotas(nlocal, nbest - nlocal, c.nfb, limit);
              picks == Picks(old(answers), q)
      ensures answers == Apply(old(answers), picks) && nreaders == limit - Number(picks, Primary)
      ensures n == |picks| && found == |picks| - Number(picks, Dropped)
      ensures first == if picks == [] then None else Some(picks[0].index)
    {
      hide BestUpTo;
      var local, best, fb := nlocal, nbest, c.nfb;
      if local > best {
        local, best := best, 0;
      } else {
        best := best - local;
      }
      nreaders, first, n, found := limit, None, 0, 0;
      picks := Picks(answers, Quotas(local, best, fb, nreaders));
      ghost var todo := picks;
      while nreaders != 0
        invariant todo == Picks(answers, Quotas(local, best, fb, nreaders))
        invariant Apply(answers, todo) == Apply(old(answers), picks)
        invariant nreaders - Number(todo, Primary) == limit - Number(picks, Primary)
        invariant n + |todo| == |picks|
        invariant found + |todo| - Number(todo, Dropped) == |picks| - Number(picks, Dropped)
        invariant if n == 0 then first == None && todo == picks
                  else picks != [] && first == Some(picks[0].index)
        decreases NumCands(answers)
      {
        var b := FindBest(local != 0);
        if b == None {
          break;
        }
        ghost var q := Quotas(local, best, fb, nreaders);
        SpentFewer(answers, b.value, NextKind(q));
        n := n + 1;
        if first == None {
          first := b;
        }
        var stop;
        local, best, fb, nreaders, stop := Take(b.value, local, best, fb, nreaders);
        if stop {
          assert todo[1..] == [];
          todo := [];
          break;
        }
        found := found + 1;
        todo := todo[1..];
      }
    }

    /** lines 1304-1321 */
    method Take(b: nat, nlocal: nat, nbest: nat, nfb: nat, limit: int)
      returns (local: nat, best: nat, fb: nat, nreaders: int, stop: bool)
      requires b < |answers|
      modifies this
      ensures var q := Quotas(nlocal, nbest, nfb, limit);
              && answers == Spent(old(answers), b, NextKind(q))
              && Quotas(local, best, fb, nreaders) == Charge(q) && stop == (NextKind(q) == Dropped)
    {
      local, best, fb, nreaders, stop := nlocal, nbest, nfb, limit, false;
      answers := answers[b := answers[b].(value := 0)];
      if local != 0 {
        local, nreaders := local - 1, nreaders - 1;
        answers := answers[b := answers[b].(active := true)];
      } else if best != 0 {
        best, nreaders := best - 1, nreaders - 1;
        answers := answers[b := answers[b].(active := true)];
      } else if fb != 0 {
        fb := fb - 1;
        answers := answers[b := answers[b].(active := true, fallback := true)];
      } else {
        stop := true;
      }
    }

    /** lines 1329-1342 and 1355-1374 */
    method Reopen(c: Config, limit: int, again: bool) returns (nreaders: int)
      modifies this
      ensures Choice(answers, nreaders) == ReopenFrom(c, Choice(old(answers), limit), again, 0)
    {
      nreaders := limit;
      var k := 0;
      while k < |answers|
        invariant k <= |answers|
        invariant ReopenFrom(c, Choice(answers, nreaders), again, k) == ReopenFrom(c, Choice(old(answers), limit), again, 0)
      {
        if Reopens(c, answers[k], again) && nreaders != 0 {
          var a := answers[k];
          if again {
            a := a.(stat := Some(a.stat.value.(due := false)));
          }
          answers := answers[k := a.(active := true)];
          nreaders := nreaders - 1;
        }
        k := k + 1;
      }
    }

    /** stat_get_best_reader from line 1093 on */
    method GetBestReader(c: Config, nbest: nat, avail: nat, retryLimit: int, now: int) returns (left: int)
      modifies this
      ensures Choice(answers, left) == Chosen(c, nbest, avail, retryLimit, now, old(answers))
    {
      hide Evaluated, Picks, Apply, ReopenFrom, Number;
      var nreaders, newStats, nlocal, count;
      ghost var e;
      e, nreaders, newStats, nlocal, count := Evaluate(c, nbest, avail, retryLimit, now);
      var first, n, found;
      ghost var picks;
      var valued := answers;
      picks, left, first, n, found := Select(c, nbest, nlocal, nreaders);
      if !newStats && found < count {
        if n == 0 {
          left := Reopen(c, left, false);
        }
        var slow := match first
          case None => true
          case Some(k) => k < |valued| && valued[k].time != 0 && valued[k].time > retryLimit;
        if slow {
          left := Reopen(c, left, true);
        }
      }
    }
  }
}