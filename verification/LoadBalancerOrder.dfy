/** Which of two readers is asked first: stat_get_best_reader (oscam/module-stat.c, lines 1148-1377),
    in the readers' own fields: response time, usage, last use, weight, free slots, requests under way
    and failures. */
module LoadBalancerOrder {
  import opened LoadBalancer

  // ---------- Two readers compared ----------

  function Weight(rdr: Reader): (w: int)
    ensures w > 0
  {
    if rdr.weight > 0 then rdr.weight else 100
  }

  /** What the mode goes by. */
  function Measure(m: Mode, rdr: Reader, s: Stat): nat {
    if m == LB_FASTEST_READER_FIRST then s.timeAvg else rdr.usage
  }

  function Waiting(rdr: Reader): (n: nat)
    ensures n >= 1
  {
    if rdr.connected && rdr.pending >= 1 then rdr.pending else 1
  }

  function Failures(s: Stat): (n: nat)
    ensures n >= 1
  {
    if s.rc >= E_NOTFOUND then s.failFactor + 2 else 1
  }

  /** How heavy a reader is for the two modes that go by a measure. */
  function Burden(m: Mode, rdr: Reader, s: Stat): nat {
    (Measure(m, rdr, s) * 100 / Weight(rdr)) * ((if rdr.full then 2 else 1) * (Waiting(rdr) * Failures(s)))
  }

  /** A reader that never was used counts as used now. */
  function LastUse(rdr: Reader, now: int): int {
    if rdr.last.Some? then rdr.last.value else now
  }

  /** Field by field, the first reader has nothing against it that the second has not. */
  ghost predicate NoHeavier(m: Mode, ra: Reader, sa: Stat, rb: Reader, sb: Stat, now: int) {
    if m == LB_OLDEST_READER_FIRST then LastUse(ra, now) <= LastUse(rb, now)
    else
      && Measure(m, ra, sa) <= Measure(m, rb, sb) && Weight(ra) >= Weight(rb)
      && (ra.full ==> rb.full) && Waiting(ra) <= Waiting(rb) && Failures(sa) <= Failures(sb)
  }

  /** The first reader is preferred wherever the two stand: burdens of 0 and 1 count as one, and so do two
      last uses 9 and 10 milliseconds ahead. */
  ghost predicate Lighter(m: Mode, ra: Reader, sa: Stat, rb: Reader, sb: Stat, now: int) {
    if m == LB_OLDEST_READER_FIRST then
      LastUse(ra, now) < LastUse(rb, now) && (LastUse(ra, now) == now + 9 ==> LastUse(rb, now) > now + 10)
    else Burden(m, ra, sa) < Burden(m, rb, sb) && Burden(m, rb, sb) > 1
  }

  lemma MulMonotone(a: nat, b: nat, c: nat, d: nat)
    requires a <= c && b <= d
    ensures a * b <= c * d
  {
    assert a * b <= c * b <= c * d;
  }

  lemma DivMonotone(a: nat, b: nat, v: int, w: int)
    requires a <= b && v >= w > 0
    ensures a / v <= b / w
  {
    var x, y := a / v, b / w;
    if x > y {
      assert x * v <= a;
      assert b < (y + 1) * w;
      MulMonotone(y + 1, w, x, v);
    }
  }

  /** Heavier in no field, not heavier. */
  lemma FieldsOrderBurdens(m: Mode, ra: Reader, sa: Stat, rb: Reader, sb: Stat, now: int)
    requires m != LB_OLDEST_READER_FIRST && NoHeavier(m, ra, sa, rb, sb, now)
    ensures Burden(m, ra, sa) <= Burden(m, rb, sb)
  {
    DivMonotone(Measure(m, ra, sa) * 100, Measure(m, rb, sb) * 100, Weight(ra), Weight(rb));
    MulMonotone(Waiting(ra), Failures(sa), Waiting(rb), Failures(sb));
    var la, lb := if ra.full then 2 else 1, if rb.full then 2 else 1;
    MulMonotone(la, Waiting(ra) * Failures(sa), lb, Waiting(rb) * Failures(sb));
    MulMonotone(Measure(m, ra, sa) * 100 / Weight(ra), la * (Waiting(ra) * Failures(sa)),
                Measure(m, rb, sb) * 100 / Weight(rb), lb * (Waiting(rb) * Failures(sb)));
  }

  lemma Assoc(q: nat, l: nat, w: nat, f: nat)
    ensures q * l * w * f == q * (l * (w * f))
  {
  }

  lemma ValueIsBurden(m: Mode, rdr: Reader, s: Stat, now: int)
    requires Balances(m) && m != LB_OLDEST_READER_FIRST
    ensures ValueOf(m, rdr, s, now) == if Burden(m, rdr, s) > 1 then Burden(m, rdr, s) else 1
  {
    var q := Measure(m, rdr, s) * 100 / Weight(rdr);
    var l := if rdr.full then 2 else 1;
    Assoc(q, l, Waiting(rdr), Failures(s));
    assert q * 1 == q && q * l * 1 == q * l && q * l * Waiting(rdr) * 1 == q * l * Waiting(rdr);
  }

  lemma ValueOrder(m: Mode, ra: Reader, sa: Stat, rb: Reader, sb: Stat, now: int)
    requires Balances(m)
    ensures NoHeavier(m, ra, sa, rb, sb, now) ==> ValueOf(m, ra, sa, now) <= ValueOf(m, rb, sb, now)
    ensures Lighter(m, ra, sa, rb, sb, now) ==> ValueOf(m, ra, sa, now) < ValueOf(m, rb, sb, now)
  {
    if m != LB_OLDEST_READER_FIRST {
      ValueIsBurden(m, ra, sa, now);
      ValueIsBurden(m, rb, sb, now);
      hide ValueOf, Burden;
      if NoHeavier(m, ra, sa, rb, sb, now) {
        FieldsOrderBurdens(m, ra, sa, rb, sb, now);
      }
    }
  }

  // ---------- The turn of a reader ----------

  /** The state of the evaluation when the turn of reader `k` comes. */
  function Turn(c: Config, nbest: nat, avail: nat, retryLimit: int, now: int, answers: seq<Answer>, k: nat): (e: Eval)
    requires k <= |answers|
    ensures |e.answers| == |answers|
  {
    if k == 0 then Eval(MapCleared(answers), Limit(c), ReopenBudget(c, nbest, avail), false, 0, 0)
    else EvalStep(c, retryLimit, now, Turn(c, nbest, avail, retryLimit, now, answers, k - 1), k - 1)
  }

  /** Has enough statistics, or no budget is left to ask it for more, and can decode. */
  predicate Rankable(c: Config, retryLimit: int, a: Answer, budget: int) {
    && !a.rdr.cacheex && a.stat.Some?
    && (a.stat.value.rc == E_FOUND || (a.rdr.connected && a.rdr.serves))
    && (budget <= 0 || Sufficient(c, retryLimit, a.stat.value))
  }

  predicate Sufficient(c: Config, retryLimit: int, s: Stat) {
    && 0 <= s.ecmCount && (s.ecmCount <= c.maxEcm || s.timeAvg <= retryLimit)
    && (s.rc == E_FOUND ==> s.ecmCount >= c.minEcm)
  }

  /** The statistics of the readers that are renewed go back to one request without failure; the time
      stays. */
  ghost predicate SameOrReset(a: Answer, x: Answer) {
    && x.rdr == a.rdr && x.local == a.local && (x.stat.Some? <==> a.stat.Some?)
    && (a.stat.Some? ==> StatKept(a.stat.value, x.stat.value))
  }

  ghost predicate StatKept(s: Stat, t: Stat) {
    t.timeAvg == s.timeAvg && ((t.rc == s.rc && t.failFactor == s.failFactor) || (t.rc == E_FOUND && t.failFactor == 0))
  }

  lemma ResetSame(a: Answer)
    ensures SameOrReset(a, a) && SameOrReset(a, Reset(a))
    ensures Reset(a).value == a.value && Reset(a).active == a.active && Reset(a).fallback == a.fallback
  {
  }

  lemma OtherKept(c: Config, retryLimit: int, now: int, e: Eval, k: nat, i: nat)
    requires k < |e.answers| && i < |e.answers| && i != k
    ensures var a, x := e.answers[i], EvalStep(c, retryLimit, now, e, k).answers[i];
            SameOrReset(a, x) && x.value == a.value && x.active == a.active && x.fallback == a.fallback
  {
    hide EvalStep, Reset, SameOrReset;
    OtherAnswers(c, retryLimit, now, e, k, i);
    ResetSame(e.answers[i]);
  }

  lemma OwnKept(c: Config, retryLimit: int, now: int, e: Eval, k: nat)
    requires k < |e.answers|
    ensures SameOrReset(e.answers[k], EvalStep(c, retryLimit, now, e, k).answers[k])
  {
    hide ValueOf, Reset, Judge, Balances;
    ResetSame(Activated(e, k)[k]);
  }

  lemma ResetTwice(a: Answer, x: Answer, y: Answer)
    requires SameOrReset(a, x) && SameOrReset(x, y)
    ensures SameOrReset(a, y)
  {
  }

  /** At its turn a reader is as it was given, except for the statistics of readers renewed before. */
  lemma {:induction false} TurnKeeps(c: Config, nbest: nat, avail: nat, retryLimit: int, now: int, answers: seq<Answer>,
      k: nat, i: nat)
    requires k <= |answers| && i < |answers|
    ensures var x := Turn(c, nbest, avail, retryLimit, now, answers, k).answers[i];
            && SameOrReset(answers[i], x)
            && (k <= i ==> x.value == 0 && !x.active && !x.fallback)
  {
    hide EvalStep;
    if k > 0 {
      TurnKeeps(c, nbest, avail, retryLimit, now, answers, k - 1, i);
      var e := Turn(c, nbest, avail, retryLimit, now, answers, k - 1);
      if i == k - 1 {
        OwnKept(c, retryLimit, now, e, i);
      } else {
        OtherKept(c, retryLimit, now, e, k - 1, i);
      }
      ResetTwice(answers[i], e.answers[i], EvalStep(c, retryLimit, now, e, k - 1).answers[i]);
    }
  }

  lemma {:induction false} TurnsLeadToEnd(c: Config, nbest: nat, avail: nat, retryLimit: int, now: int,
      answers: seq<Answer>, k: nat)
    requires k <= |answers|
    ensures EvalFrom(c, retryLimit, now, Turn(c, nbest, avail, retryLimit, now, answers, k), k)
            == Evaluated(c, nbest, avail, retryLimit, now, answers)
  {
    hide EvalStep;
    if k > 0 {
      TurnsLeadToEnd(c, nbest, avail, retryLimit, now, answers, k - 1);
    }
  }

  lemma OwnStep(c: Config, retryLimit: int, now: int, e: Eval, k: nat)
    requires Balances(c.mode) && k < |e.answers| && e.answers[k].value == 0
    ensures var a, x := e.answers[k], EvalStep(c, retryLimit, now, e, k).answers[k];
            if Rankable(c, retryLimit, a, e.nmaxreopen)
            then x.value == ValueOf(c.mode, a.rdr, a.stat.value, now) && x.active == a.active && x.fallback == a.fallback
            else x.value == 0
  {
    hide ValueOf;
  }

  lemma {:induction false} LaterTurnsKeep(c: Config, nbest: nat, avail: nat, retryLimit: int, now: int,
      answers: seq<Answer>, i: nat, k: nat)
    requires i < k <= |answers|
    ensures var x, y := Turn(c, nbest, avail, retryLimit, now, answers, i + 1).answers[i],
                        Turn(c, nbest, avail, retryLimit, now, answers, k).answers[i];
            y.value == x.value && y.active == x.active && y.fallback == x.fallback
  {
    hide EvalStep;
    if k > i + 1 {
      LaterTurnsKeep(c, nbest, avail, retryLimit, now, answers, i, k - 1);
      OtherKept(c, retryLimit, now, Turn(c, nbest, avail, retryLimit, now, answers, k - 1), k - 1, i);
    }
  }

  ghost predicate IsRanked(c: Config, nbest: nat, avail: nat, retryLimit: int, now: int, answers: seq<Answer>, k: nat)
    requires k < |answers|
  {
    var e := Turn(c, nbest, avail, retryLimit, now, answers, k);
    Rankable(c, retryLimit, e.answers[k], e.nmaxreopen)
  }

  function StatAt(c: Config, nbest: nat, avail: nat, retryLimit: int, now: int, answers: seq<Answer>, k: nat): Stat
    requires k < |answers| && answers[k].stat.Some?
  {
    TurnKeeps(c, nbest, avail, retryLimit, now, answers, k, k);
    Turn(c, nbest, avail, retryLimit, now, answers, k).answers[k].stat.value
  }

  /** Exactly the rankable readers are candidates of the selection. */
  lemma RankedAre(c: Config, nbest: nat, avail: nat, retryLimit: int, now: int, answers: seq<Answer>, k: nat)
    requires Balances(c.mode) && k < |answers|
    ensures var x := Evaluated(c, nbest, avail, retryLimit, now, answers).answers;
            && |x| == |answers| && SameOrReset(answers[k], x[k])
            && (x[k].value != 0 <==> IsRanked(c, nbest, avail, retryLimit, now, answers, k))
            && (x[k].value != 0 ==>
                  && answers[k].stat.Some? && !x[k].active && !x[k].fallback
                  && x[k].value == ValueOf(c.mode, answers[k].rdr, StatAt(c, nbest, avail, retryLimit, now, answers, k), now))
  {
    hide EvalStep, ValueOf, Rankable;
    var e := Turn(c, nbest, avail, retryLimit, now, answers, k);
    TurnKeeps(c, nbest, avail, retryLimit, now, answers, k, k);
    OwnStep(c, retryLimit, now, e, k);
    LaterTurnsKeep(c, nbest, avail, retryLimit, now, answers, k, |answers|);
    TurnKeeps(c, nbest, avail, retryLimit, now, answers, |answers|, k);
    TurnsLeadToEnd(c, nbest, avail, retryLimit, now, answers, |answers|);
    RankableHasStat(c, retryLimit, e.answers[k], e.nmaxreopen);
  }

  lemma RankableHasStat(c: Config, retryLimit: int, a: Answer, budget: int)
    ensures Rankable(c, retryLimit, a, budget) ==> a.stat.Some?
  {
  }

  // ---------- The picks ----------

  ghost predicate PickedBefore(picks: seq<Pick>, i: nat, p: nat) {
    exists m :: 0 <= m < p && m < |picks| && picks[m].index == i
  }

  lemma StrictlyBelowPicked(ans: seq<Answer>, q: Quotas, i: nat, p: nat)
    requires p < |Picks(ans, q)| && i < |ans|
    requires Cand(ans[i], p < q.local)
    requires Picks(ans, q)[p].index < |ans| && !Below(ans, Picks(ans, q)[p].index, i)
    ensures PickedBefore(Picks(ans, q), i, p)
  {
    hide Picks, Below;
    EachPickIsBest(ans, q, p);
    assert !Untouched(Picks(ans, q), p, i);
  }

  /** Reader `i` is preferred to reader `j`, at the turns of both: lighter, or no heavier and earlier on
      the list; where local readers are preferred, `j` may only be local if `i` is. */
  ghost predicate Preferred(c: Config, nbest: nat, avail: nat, retryLimit: int, now: int, answers: seq<Answer>,
      i: nat, j: nat)
    requires i < |answers| && j < |answers| && answers[i].stat.Some? && answers[j].stat.Some?
  {
    var si, sj := StatAt(c, nbest, avail, retryLimit, now, answers, i), StatAt(c, nbest, avail, retryLimit, now, answers, j);
    && (c.preferLocal && answers[j].local ==> answers[i].local)
    && (Lighter(c.mode, answers[i].rdr, si, answers[j].rdr, sj, now)
        || (i < j && NoHeavier(c.mode, answers[i].rdr, si, answers[j].rdr, sj, now)))
  }

  lemma NoLocalQuota(c: Config, nbest: nat, avail: nat, retryLimit: int, now: int, answers: seq<Answer>)
    requires Balances(c.mode) && !c.preferLocal
    ensures QuotasOf(c, nbest, Evaluated(c, nbest, avail, retryLimit, now, answers)).local == 0
  {
    hide Evaluated;
    EvaluationLeavesRoom(c, nbest, avail, retryLimit, now, answers);
  }

  /** A ranked reader is picked before every reader that it is preferred to. */
  lemma PreferredIsPickedFirst(c: Config, nbest: nat, avail: nat, retryLimit: int, now: int, answers: seq<Answer>,
      i: nat, j: nat, p: nat)
    requires Balances(c.mode) && i < |answers| && j < |answers|
    requires answers[i].stat.Some? && answers[j].stat.Some?
    requires IsRanked(c, nbest, avail, retryLimit, now, answers, i)
    requires Preferred(c, nbest, avail, retryLimit, now, answers, i, j)
    requires var e := Evaluated(c, nbest, avail, retryLimit, now, answers);
             var picks := Picks(e.answers, QuotasOf(c, nbest, e)); p < |picks| && picks[p].index == j
    ensures var e := Evaluated(c, nbest, avail, retryLimit, now, answers);
            PickedBefore(Picks(e.answers, QuotasOf(c, nbest, e)), i, p)
  {
    hide IsRanked, StatAt, Evaluated, Picks, ValueOf, Lighter, NoHeavier, SameOrReset, QuotasOf;
    var e := Evaluated(c, nbest, avail, retryLimit, now, answers);
    var q := QuotasOf(c, nbest, e);
    RankedAre(c, nbest, avail, retryLimit, now, answers, i);
    RankedAre(c, nbest, avail, retryLimit, now, answers, j);
    EachPickIsBest(e.answers, q, p);
    ValueOrder(c.mode, answers[i].rdr, StatAt(c, nbest, avail, retryLimit, now, answers, i),
               answers[j].rdr, StatAt(c, nbest, avail, retryLimit, now, answers, j), now);
    SameLocal(answers[i], e.answers[i]);
    SameLocal(answers[j], e.answers[j]);
    if !c.preferLocal {
      NoLocalQuota(c, nbest, avail, retryLimit, now, answers);
    }
    StrictlyBelowPicked(e.answers, q, i, p);
  }

  lemma SameLocal(a: Answer, x: Answer)
    requires SameOrReset(a, x)
    ensures x.local == a.local && x.rdr == a.rdr && (x.stat.Some? <==> a.stat.Some?)
  {
  }

  // ---------- What the picks become ----------

  function Rank(k: Kind): nat {
    match k case Primary => 0 case Fallback => 1 case Dropped => 2
  }

  lemma {:induction false} KindsInOrder(ans: seq<Answer>, q: Quotas, m: nat, p: nat)
    requires m < p < |Picks(ans, q)|
    ensures Rank(Picks(ans, q)[m].kind) <= Rank(Picks(ans, q)[p].kind) && Picks(ans, q)[m].kind != Dropped
    decreases p
  {
    var b := BestUpTo(ans, q.local > 0, |ans|);
    SpentFewer(ans, b.value, NextKind(q));
    var later := Spent(ans, b.value, NextKind(q));
    assert Picks(ans, q)[1..] == Picks(later, Charge(q));
    if m > 0 {
      KindsInOrder(later, Charge(q), m - 1, p - 1);
    } else if p > 1 {
      KindsInOrder(later, Charge(q), 0, p - 1);
      FirstKind(later, Charge(q));
    } else {
      FirstKind(later, Charge(q));
    }
  }

  lemma FirstKind(ans: seq<Answer>, q: Quotas)
    requires Picks(ans, q) != []
    ensures Picks(ans, q)[0].kind == NextKind(q)
  {
  }

  /** What is asked is what was picked. */
  lemma {:induction false} ApplyMarks(ans: seq<Answer>, picks: seq<Pick>, i: nat)
    requires i < |ans|
    ensures var x := Apply(ans, picks)[i];
            && (x.active <==> ans[i].active || Taken(picks, i, Primary) || Taken(picks, i, Fallback))
            && (x.fallback <==> ans[i].fallback || Taken(picks, i, Fallback))
            && x.stat == ans[i].stat && x.rdr == ans[i].rdr
    decreases |picks|
  {
    if picks != [] {
      TakenFirst(picks, i, Primary);
      TakenFirst(picks, i, Fallback);
      var next := if picks[0].index >= |ans| then ans else Spent(ans, picks[0].index, picks[0].kind);
      ApplyMarks(next, picks[1..], i);
    }
  }

  ghost predicate Taken(picks: seq<Pick>, i: nat, kind: Kind) {
    exists m :: 0 <= m < |picks| && picks[m] == Pick(i, kind)
  }

  lemma TakenFirst(picks: seq<Pick>, i: nat, kind: Kind)
    requires picks != []
    ensures Taken(picks, i, kind) <==> picks[0] == Pick(i, kind) || Taken(picks[1..], i, kind)
  {
    if Taken(picks, i, kind) && picks[0] != Pick(i, kind) {
      var m :| 0 <= m < |picks| && picks[m] == Pick(i, kind);
      assert picks[1..][m - 1] == Pick(i, kind);
    }
    if Taken(picks[1..], i, kind) {
      var m :| 0 <= m < |picks[1..]| && picks[1..][m] == Pick(i, kind);
      assert picks[m + 1] == Pick(i, kind);
    }
  }

  /** Reopening asks only more readers, and none whose last answer was good. */
  lemma {:induction false} ReopenKeeps(c: Config, f: Choice, again: bool, k: nat, i: nat)
    requires k <= |f.answers| && i < |f.answers|
    ensures var a, x := f.answers[i], ReopenFrom(c, f, again, k).answers[i];
            && x.fallback == a.fallback && (a.active ==> x.active) && (x.stat.Some? <==> a.stat.Some?)
            && (x.stat.Some? ==> x.stat.value.rc == a.stat.value.rc)
            && (x.active && !a.active ==> x.stat.Some? && x.stat.value.rc != E_FOUND)
    decreases |f.answers| - k
  {
    if k < |f.answers| {
      if f.nreaders != 0 && Reopens(c, f.answers[k], again) {
        ReopenKeeps(c, Choice(f.answers[k := Reopened(f.answers[k], again)], f.nreaders - 1), again, k + 1, i);
      } else {
        ReopenKeeps(c, f, again, k + 1, i);
      }
    }
  }

  lemma FinishedKeeps(c: Config, retryLimit: int, e: Eval, picks: seq<Pick>, i: nat)
    requires i < |e.answers|
    ensures |Finished(c, retryLimit, e, picks).answers| == |e.answers|
    ensures var a, x := Apply(e.answers, picks)[i], Finished(c, retryLimit, e, picks).answers[i];
            && x.fallback == a.fallback && (a.active ==> x.active) && (x.stat.Some? <==> a.stat.Some?)
            && (x.stat.Some? ==> x.stat.value.rc == a.stat.value.rc)
            && (x.active && !a.active ==> x.stat.Some? && x.stat.value.rc != E_FOUND)
  {
    hide ReopenFrom, Apply, Number, Reopens;
    var f := Selected(e, picks);
    ReopenKeeps(c, f, true, 0, i);
    ReopenKeeps(c, f, false, 0, i);
    ReopenKeeps(c, ReopenFrom(c, f, false, 0), true, 0, i);
  }

  lemma TakenBefore(ans: seq<Answer>, q: Quotas, i: nat, j: nat, p: nat)
    requires p < |Picks(ans, q)| && PickedBefore(Picks(ans, q), i, p)
    requires Picks(ans, q)[p].index == j && Picks(ans, q)[p].kind != Dropped
    ensures Taken(Picks(ans, q), i, Primary) || (Taken(Picks(ans, q), i, Fallback) && Taken(Picks(ans, q), j, Fallback))
  {
    hide Picks;
    var picks := Picks(ans, q);
    var m :| 0 <= m < p && m < |picks| && picks[m].index == i;
    KindsInOrder(ans, q, m, p);
    assert picks[m] == Pick(i, picks[m].kind) && picks[p] == Pick(j, picks[p].kind);
  }

  lemma TakenOnce(ans: seq<Answer>, q: Quotas, i: nat)
    ensures !(Taken(Picks(ans, q), i, Primary) && Taken(Picks(ans, q), i, Fallback))
  {
    hide Picks;
    var picks := Picks(ans, q);
    if Taken(picks, i, Primary) && Taken(picks, i, Fallback) {
      var m :| 0 <= m < |picks| && picks[m] == Pick(i, Primary);
      var n :| 0 <= n < |picks| && picks[n] == Pick(i, Fallback);
      EachPickIsBest(ans, q, if m < n then n else m);
    }
  }

  /** The picks of a reader that is asked. */
  lemma AskedWasTaken(ans: seq<Answer>, q: Quotas, i: nat, j: nat)
    requires i < |ans| && j < |ans| && !ans[i].active && !ans[i].fallback && !ans[j].active && !ans[j].fallback
    requires forall p :: 0 <= p < |Picks(ans, q)| && Picks(ans, q)[p].index == j ==> PickedBefore(Picks(ans, q), i, p)
    ensures var x := Apply(ans, Picks(ans, q)); x[j].active ==> x[i].active && (x[i].fallback ==> x[j].fallback)
  {
    hide Picks, Apply, PickedBefore;
    var picks := Picks(ans, q);
    ApplyMarks(ans, picks, i);
    ApplyMarks(ans, picks, j);
    TakenOnce(ans, q, i);
    if Apply(ans, picks)[j].active {
      var p :| 0 <= p < |picks| && picks[p].index == j && picks[p].kind != Dropped;
      TakenBefore(ans, q, i, j, p);
    }
  }

  /** For all requests: of two ranked readers, the preferred one is asked if the other is, and not merely
      as a fallback if the other is asked at once.  Readers whose last answer failed may be asked again
      besides. */
  lemma PreferredIsAsked(c: Config, nbest: nat, avail: nat, retryLimit: int, now: int, answers: seq<Answer>,
      i: nat, j: nat)
    requires Balances(c.mode) && i < |answers| && j < |answers|
    requires answers[i].stat.Some? && answers[j].stat.Some?
    requires IsRanked(c, nbest, avail, retryLimit, now, answers, i)
    requires IsRanked(c, nbest, avail, retryLimit, now, answers, j)
    requires Preferred(c, nbest, avail, retryLimit, now, answers, i, j)
    ensures var r := Chosen(c, nbest, avail, retryLimit, now, answers).answers;
            && |r| == |answers| && r[j].stat.Some?
            && (r[j].active && r[j].stat.value.rc == E_FOUND ==> r[i].active && (r[i].fallback ==> r[j].fallback))
  {
    hide Evaluated, Picks, Apply, Finished, IsRanked, Preferred, PickedBefore, QuotasOf, StatAt, ValueOf, SameOrReset;
    var e := Evaluated(c, nbest, avail, retryLimit, now, answers);
    var q := QuotasOf(c, nbest, e);
    RankedAre(c, nbest, avail, retryLimit, now, answers, i);
    RankedAre(c, nbest, avail, retryLimit, now, answers, j);
    SameLocal(answers[j], e.answers[j]);
    forall p | 0 <= p < |Picks(e.answers, q)| && Picks(e.answers, q)[p].index == j
      ensures PickedBefore(Picks(e.answers, q), i, p)
    {
      PreferredIsPickedFirst(c, nbest, avail, retryLimit, now, answers, i, j, p);
    }
    AskedWasTaken(e.answers, q, i, j);
    FinishedKeeps(c, retryLimit, e, Picks(e.answers, q), i);
    FinishedKeeps(c, retryLimit, e, Picks(e.answers, q), j);
    ApplyMarks(e.answers, Picks(e.answers, q), j);
  }

  // ---------- Requests without a reader to renew ----------

  /** No statistics call for a renewal, and a reader that answered well has enough of them. */
  ghost predicate AllSufficient(c: Config, retryLimit: int, answers: seq<Answer>) {
    forall i :: 0 <= i < |answers| && answers[i].stat.Some? ==> Sufficient(c, retryLimit, answers[i].stat.value)
  }

  lemma {:induction false} TurnUnchanged(c: Config, nbest: nat, avail: nat, retryLimit: int, now: int,
      answers: seq<Answer>, k: nat, i: nat)
    requires k <= |answers| && i < |answers| && AllSufficient(c, retryLimit, answers)
    ensures Turn(c, nbest, avail, retryLimit, now, answers, k).answers[i].stat == answers[i].stat
  {
    hide EvalStep;
    if k > 0 {
      TurnUnchanged(c, nbest, avail, retryLimit, now, answers, k - 1, i);
      TurnUnchanged(c, nbest, avail, retryLimit, now, answers, k - 1, k - 1);
      SufficientStep(c, retryLimit, now, Turn(c, nbest, avail, retryLimit, now, answers, k - 1), k - 1, i);
    }
  }

  lemma SufficientStep(c: Config, retryLimit: int, now: int, e: Eval, k: nat, i: nat)
    requires k < |e.answers| && i < |e.answers|
    requires e.answers[k].stat.Some? ==> Sufficient(c, retryLimit, e.answers[k].stat.value)
    ensures EvalStep(c, retryLimit, now, e, k).answers[i].stat == e.answers[i].stat
  {
    hide ValueOf, MapReset;
  }

  /** A reader as it was given can be ranked: it has statistics and can decode. */
  predicate CanDecode(a: Answer) {
    !a.rdr.cacheex && a.stat.Some? && (a.stat.value.rc == E_FOUND || (a.rdr.connected && a.rdr.serves))
  }

  /** The same in the fields of the readers as they were given, when no reader has to be renewed. */
  lemma BetterReaderIsAsked(c: Config, nbest: nat, avail: nat, retryLimit: int, now: int, answers: seq<Answer>,
      i: nat, j: nat)
    requires Balances(c.mode) && AllSufficient(c, retryLimit, answers)
    requires i < |answers| && j < |answers| && CanDecode(answers[i]) && CanDecode(answers[j])
    requires c.preferLocal && answers[j].local ==> answers[i].local
    requires var a, b := answers[i], answers[j];
             || Lighter(c.mode, a.rdr, a.stat.value, b.rdr, b.stat.value, now)
             || (i < j && NoHeavier(c.mode, a.rdr, a.stat.value, b.rdr, b.stat.value, now))
    ensures var r := Chosen(c, nbest, avail, retryLimit, now, answers).answers;
            && |r| == |answers| && r[j].stat.Some?
            && (r[j].active && r[j].stat.value.rc == E_FOUND ==> r[i].active && (r[i].fallback ==> r[j].fallback))
  {
    hide Turn, Chosen, Lighter, NoHeavier;
    TurnUnchanged(c, nbest, avail, retryLimit, now, answers, i, i);
    TurnUnchanged(c, nbest, avail, retryLimit, now, answers, j, j);
    TurnKeeps(c, nbest, avail, retryLimit, now, answers, i, i);
    TurnKeeps(c, nbest, avail, retryLimit, now, answers, j, j);
    PreferredIsAsked(c, nbest, avail, retryLimit, now, answers, i, j);
  }

  // ---------- Readers asked besides ----------

  /** Statistics are missing, too old or too few. */
  predicate Lacks(c: Config, retryLimit: int, a: Answer) {
    a.stat == None || !Sufficient(c, retryLimit, a.stat.value)
  }

  lemma OwnStart(c: Config, retryLimit: int, now: int, e: Eval, k: nat)
    requires Balances(c.mode) && k < |e.answers| && !e.answers[k].active
    ensures EvalStep(c, retryLimit, now, e, k).answers[k].active
            <==> e.answers[k].rdr.cacheex || (e.nmaxreopen > 0 && Lacks(c, retryLimit, e.answers[k]))
  {
    hide ValueOf;
  }

  /** Evaluation itself asks exactly the cache exchange readers and, while there is a budget, the readers
      that lack statistics. */
  lemma AskedForStatistics(c: Config, nbest: nat, avail: nat, retryLimit: int, now: int, answers: seq<Answer>, k: nat)
    requires Balances(c.mode) && k < |answers|
    ensures var e := Turn(c, nbest, avail, retryLimit, now, answers, k);
            Evaluated(c, nbest, avail, retryLimit, now, answers).answers[k].active
            <==> answers[k].rdr.cacheex || (e.nmaxreopen > 0 && Lacks(c, retryLimit, e.answers[k]))
  {
    hide EvalStep, Lacks;
    TurnKeeps(c, nbest, avail, retryLimit, now, answers, k, k);
    OwnStart(c, retryLimit, now, Turn(c, nbest, avail, retryLimit, now, answers, k), k);
    LaterTurnsKeep(c, nbest, avail, retryLimit, now, answers, k, |answers|);
    TurnsLeadToEnd(c, nbest, avail, retryLimit, now, answers, |answers|);
  }

  /** A reader that is not asked yet, whose last answer was a failure, and whose waiting time is over or
      need not be. */
  predicate MayRetry(a: Answer, atOnce: bool) {
    !a.active && a.stat.Some? && a.stat.value.rc != E_FOUND && (atOnce || a.stat.value.due)
  }

  function Retries(ans: seq<Answer>, atOnce: bool, k: nat, i: nat): nat
    requires k <= i <= |ans|
    decreases i - k
  {
    if k == i then 0 else (if MayRetry(ans[k], atOnce) then 1 else 0) + Retries(ans, atOnce, k + 1, i)
  }

  lemma {:induction false} RetriesSame(a: seq<Answer>, b: seq<Answer>, atOnce: bool, k: nat, i: nat)
    requires k <= i <= |a| && i <= |b| && forall m :: k <= m < i ==> a[m] == b[m]
    ensures Retries(a, atOnce, k, i) == Retries(b, atOnce, k, i)
    decreases i - k
  {
    if k < i {
      RetriesSame(a, b, atOnce, k + 1, i);
    }
  }

  /** Reopening asks exactly those from the `k`-th reader on that may be retried, in order, as far as the
      limit reaches; a negative limit always does. */
  lemma {:induction false} ReopensExactly(c: Config, f: Choice, again: bool, k: nat, i: nat)
    requires k <= |f.answers| && i < |f.answers|
    ensures var atOnce := again && c.fastReopen;
            ReopenFrom(c, f, again, k).answers[i].active
            <==> f.answers[i].active
                 || (i >= k && MayRetry(f.answers[i], atOnce)
                     && (f.nreaders < 0 || Retries(f.answers, atOnce, k, i) < f.nreaders))
    decreases |f.answers| - k
  {
    hide Reopened;
    if k < |f.answers| {
      if f.nreaders != 0 && Reopens(c, f.answers[k], again) {
        var g := Choice(f.answers[k := Reopened(f.answers[k], again)], f.nreaders - 1);
        ReopenedIsActive(f.answers[k], again);
        ReopensExactly(c, g, again, k + 1, i);
        if i > k {
          RetriesSame(f.answers, g.answers, again && c.fastReopen, k + 1, i);
        }
      } else {
        ReopensExactly(c, f, again, k + 1, i);
      }
    }
  }

  lemma ReopenedIsActive(a: Answer, again: bool)
    requires a.stat.Some?
    ensures Reopened(a, again).active
  {
  }

  /** Without a limit: when no reader was asked for statistics, not all were asked, and none was found or
      the best one is slow, exactly the failed readers that may be retried are asked besides. */
  lemma FailedReadersAreRetried(c: Config, retryLimit: int, e: Eval, picks: seq<Pick>, i: nat)
    requires e.nreaders < 0 && i < |e.answers|
    requires picks != [] ==> picks[0].index < |e.answers|
    ensures var x := Apply(e.answers, picks)[i];
            var best := if picks == [] then 0 else e.answers[picks[0].index].time;
            var retried := !e.newStats && |picks| - Number(picks, Dropped) < e.count
                           && (picks == [] || (best > 0 && best > retryLimit));
            Finished(c, retryLimit, e, picks).answers[i].active
            <==> x.active || (retried && MayRetry(x, c.fastReopen))
  {
    hide ReopenFrom, Apply, Number, Retries;
    var f := Selected(e, picks);
    ReopensExactly(c, f, true, 0, i);
    ReopensExactly(c, f, false, 0, i);
    ReopensExactly(c, ReopenFrom(c, f, false, 0), true, 0, i);
    ReopenedStat(c, f, 0, i);
    ReopenedLimit(c, f, false, 0);
  }

  lemma {:induction false} ReopenedLimit(c: Config, f: Choice, again: bool, k: nat)
    requires k <= |f.answers| && f.nreaders < 0
    ensures ReopenFrom(c, f, again, k).nreaders < 0
    decreases |f.answers| - k
  {
    if k < |f.answers| {
      if Reopens(c, f.answers[k], again) {
        ReopenedLimit(c, Choice(f.answers[k := Reopened(f.answers[k], again)], f.nreaders - 1), again, k + 1);
      } else {
        ReopenedLimit(c, f, again, k + 1);
      }
    }
  }

  lemma {:induction false} ReopenedStat(c: Config, f: Choice, k: nat, i: nat)
    requires k <= |f.answers| && i < |f.answers|
    ensures ReopenFrom(c, f, false, k).answers[i].stat == f.answers[i].stat
    decreases |f.answers| - k
  {
    if k < |f.answers| {
      if f.nreaders != 0 && Reopens(c, f.answers[k], false) {
        ReopenedStat(c, Choice(f.answers[k := Reopened(f.answers[k], false)], f.nreaders - 1), k + 1, i);
      } else {
        ReopenedStat(c, f, k + 1, i);
      }
    }
  }
}
