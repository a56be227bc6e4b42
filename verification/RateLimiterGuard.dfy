/** The guard under which the rate limiter keeps its bound is exact (oscam/oscam-chk.c, lines 14-156).

    After a call that does harm, requests of the reader alone, made at once or within the window, take the
    reader over the bound; without such a call no requests of the reader ever do. */
module RateLimiterGuard {
  import opened RateLimiter

  // ---------- Entries stand for accepted requests ----------

  /** What any run from free slots keeps. */
  ghost predicate Backed(r: Run, max: nat, now: int) {
    && Tidy(r.st.slots) && FreeFrom(r.st.slots, max) && UpToDate(r)
    && (forall a :: a in r.accepts ==> a.time <= now)
    && (forall i :: 0 <= i < |r.st.slots| && r.st.slots[i] != FREE ==>
          r.st.slots[i].last <= now && Accept(r.st.slots[i].srvid, r.st.slots[i].last) in r.accepts)
  }

  lemma {:induction false} StepBacked(c: Config, r: Run, call: Call, max: nat, before: int)
    requires max <= MAXECMRATELIMIT && 0 <= call.now && before <= call.now && Backed(r, max, before)
    ensures Backed(Step(c, r, call, max), max, call.now)
    ensures forall a :: a in r.accepts ==> a in Step(c, r, call, max).accepts
  {
    LimitedKeepsTidy(c, r.st, call.req, call.reader, call.now, max);
    StepUpToDate(c, r, call, max, before);
    var r' := Step(c, r, call, max);
    forall i: nat | i < |r'.st.slots| && r'.st.slots[i] != FREE
      ensures r'.st.slots[i].last <= call.now && Accept(r'.st.slots[i].srvid, r'.st.slots[i].last) in r'.accepts
    {
      SlotsAfter(c, r.st, call.req, call.reader, call.now, max, i);
    }
    hide Limited, UpToDate, Tidy, FreeFrom;
  }

  lemma {:induction false} RunBacked(c: Config, calls: seq<Call>, max: nat, now: int)
    requires max <= MAXECMRATELIMIT && Ordered(calls) && (calls != [] ==> calls[|calls| - 1].now <= now)
    ensures Backed(After(c, Fresh(), calls, max), max, now)
  {
    if calls != [] {
      var n := |calls| - 1;
      RunBacked(c, calls[..n], max, calls[n].now);
      StepBacked(c, After(c, Fresh(), calls[..n], max), calls[n], max, calls[n].now);
    }
  }

  lemma AfterOneMore(c: Config, st: State, calls: seq<Call>, call: Call, max: nat)
    requires max <= MAXECMRATELIMIT
    ensures After(c, st, calls + [call], max) == Step(c, After(c, st, calls, max), call, max)
  {
    assert (calls + [call])[..|calls|] == calls;
  }

  // ---------- Filling the slots ----------

  /** There is a service that has no slot, other than `x`. */
  lemma NewService(slots: Slots, x: Srvid) returns (y: Srvid)
    ensures y != NO_SRVID && y != x && forall i :: 0 <= i < |slots| ==> slots[i].srvid != y
  {
    var ids := Ids(slots, MAXECMRATELIMIT);
    IdsSize(slots, MAXECMRATELIMIT);
    if forall y: Srvid :: y <= MAXECMRATELIMIT + 1 ==> y in ids + {x} {
      Numbers(ids + {x}, MAXECMRATELIMIT + 2);
      assert false;
    }
    y :| y <= MAXECMRATELIMIT + 1 && y !in ids + {x};
  }

  lemma {:induction false} Numbers(ids: set<Srvid>, n: nat)
    requires n <= NO_SRVID && forall y: Srvid :: y < n ==> y in ids
    ensures |ids| >= n
  {
    if n > 0 {
      Numbers(ids - {n - 1}, n - 1);
    }
  }

  ghost predicate Vacant(c: Config, s: Slot, now: int) {
    s == FREE || Overtime(c, s, now)
  }

  ghost function Vacancies(c: Config, slots: Slots, max: nat, now: int): set<nat>
    requires max <= |slots|
  {
    set i: nat | i < max && Vacant(c, slots[i], now)
  }

  /** From `r` to `r2` only vacant slots changed, by being freed or taken at `now`. */
  ghost predicate Filled(c: Config, r: Run, r2: Run, max: nat, now: int)
    requires max <= MAXECMRATELIMIT
  {
    && r2.st.lastOverride == r.st.lastOverride
    && (forall i :: 0 <= i < max ==>
          r2.st.slots[i] == r.st.slots[i]
          || (Vacant(c, r.st.slots[i], now) && (r2.st.slots[i] == FREE || r2.st.slots[i].last == now)))
    && (forall a :: a in r.accepts ==> a in r2.accepts)
  }

  lemma FilledTwice(c: Config, r: Run, r1: Run, r2: Run, max: nat, now: int)
    requires max <= MAXECMRATELIMIT && Filled(c, r, r1, max, now) && Filled(c, r1, r2, max, now)
    ensures Filled(c, r, r2, max, now)
  {
  }

  /** Neither service 0xFFFF nor `x` has an entry. */
  ghost predicate Unlisted(slots: Slots, x: Srvid) {
    forall i :: 0 <= i < |slots| ==> slots[i] == FREE || (slots[i].srvid != NO_SRVID && slots[i].srvid != x)
  }

  /** A new service takes a vacant slot; entries that are over time may be freed. */
  lemma NewServiceTakes(c: Config, r: Run, y: Srvid, max: nat, now: int) returns (h: nat)
    requires max <= MAXECMRATELIMIT && Tidy(r.st.slots) && 0 <= now && Vacancies(c, r.st.slots, max, now) != {}
    requires y != NO_SRVID && forall i :: 0 <= i < |r.st.slots| ==> r.st.slots[i].srvid != y
    ensures h < max && Vacant(c, r.st.slots[h], now)
    ensures var st := Step(c, r, Call(Request(y, false), true, now), max).st;
            && st.lastOverride == r.st.lastOverride && st.slots[h] == Slot(y, now)
            && forall i :: 0 <= i < |r.st.slots| && i != h ==>
                 st.slots[i] == r.st.slots[i] || (st.slots[i] == FREE && Vacant(c, r.st.slots[i], now))
  {
    var s := r.st.slots;
    h := FirstUsable(c, s, y, now, max, 0);
    var v :| v in Vacancies(c, s, max, now);
    assert Usable(c, s[v], y, now);
    TidiedSlots(c, s, y, now, h, max);
    hide Tidied, FirstUsable;
  }

  /** A new service takes a vacant slot and leaves the entries that count. */
  lemma NewServiceEnters(c: Config, r: Run, x: Srvid, y: Srvid, max: nat, now: int)
    requires max <= MAXECMRATELIMIT && Backed(r, max, now) && 0 <= now && 0 <= c.seconds
    requires Vacancies(c, r.st.slots, max, now) != {} && Unlisted(r.st.slots, x)
    requires y != NO_SRVID && y != x && forall i :: 0 <= i < |r.st.slots| ==> r.st.slots[i].srvid != y
    ensures var r2 := Step(c, r, Call(Request(y, false), true, now), max);
            && Vacancies(c, r2.st.slots, max, now) < Vacancies(c, r.st.slots, max, now)
            && Filled(c, r, r2, max, now) && Backed(r2, max, now) && Unlisted(r2.st.slots, x)
  {
    var call := Call(Request(y, false), true, now);
    StepBacked(c, r, call, max, now);
    var h := NewServiceTakes(c, r, y, max, now);
    hide Step, Backed;
    var s, s2 := r.st.slots, Step(c, r, call, max).st.slots;
    assert h in Vacancies(c, s, max, now) && h !in Vacancies(c, s2, max, now);
  }

  /** The run `longer` goes on after `calls` with requests of the reader at time `now`. */
  ghost predicate GoesOn(calls: seq<Call>, longer: seq<Call>, now: int) {
    calls <= longer && forall i :: |calls| <= i < |longer| ==> longer[i].now == now && longer[i].reader
  }

  lemma GoesOnFrom(calls: seq<Call>, call: Call, longer: seq<Call>, now: int)
    requires GoesOn(calls + [call], longer, now) && call.now == now && call.reader
    ensures GoesOn(calls, longer, now)
  {
  }

  /** New services, one after the other, fill the vacant slots. */
  lemma {:induction false} Fill(c: Config, st: State, calls: seq<Call>, x: Srvid, max: nat, now: int)
      returns (longer: seq<Call>)
    requires max <= MAXECMRATELIMIT && 0 <= now && 0 <= c.seconds
    requires Backed(After(c, st, calls, max), max, now) && Unlisted(After(c, st, calls, max).st.slots, x)
    ensures GoesOn(calls, longer, now)
    ensures var r, r2 := After(c, st, calls, max), After(c, st, longer, max);
            && Backed(r2, max, now) && Unlisted(r2.st.slots, x) && Filled(c, r, r2, max, now)
            && Vacancies(c, r2.st.slots, max, now) == {}
    decreases Vacancies(c, After(c, st, calls, max).st.slots, max, now)
  {
    var r := After(c, st, calls, max);
    hide After, Step, Backed, Unlisted, Vacancies;
    if Vacancies(c, r.st.slots, max, now) == {} {
      longer := calls;
    } else {
      hide Filled, GoesOn;
      var y := NewService(r.st.slots, x);
      var call := Call(Request(y, false), true, now);
      NewServiceEnters(c, r, x, y, max, now);
      AfterOneMore(c, st, calls, call, max);
      longer := Fill(c, st, calls + [call], x, max, now);
      GoesOnFrom(calls, call, longer, now);
      FilledTwice(c, r, After(c, st, calls + [call], max), After(c, st, longer, max), max, now);
    }
  }

  lemma OrderedMore(calls: seq<Call>, longer: seq<Call>, now: int)
    requires Ordered(calls) && GoesOn(calls, longer, now) && 0 <= now
    requires calls != [] ==> calls[|calls| - 1].now <= now
    ensures Ordered(longer)
    ensures longer != [] ==> longer[|longer| - 1].now <= now
  {
  }

  // ---------- What the window sees ----------

  lemma {:induction false} IdsDistinct(slots: Slots, n: nat)
    requires n <= |slots| && Tidy(slots) && forall i :: 0 <= i < n ==> slots[i] != FREE
    ensures |Ids(slots, n)| == n
  {
    if n > 0 {
      IdsDistinct(slots, n - 1);
      assert slots[n - 1].srvid !in Ids(slots, n - 1);
      hide Tidy;
      assert Ids(slots, n) == Ids(slots, n - 1) + {slots[n - 1].srvid};
    }
  }

  lemma Occupied(c: Config, slots: Slots, max: nat, now: int, i: nat)
    requires max <= MAXECMRATELIMIT && Vacancies(c, slots, max, now) == {} && i < max
    ensures slots[i] != FREE && !Overtime(c, slots[i], now)
  {
    assert i !in Vacancies(c, slots, max, now);
  }

  /** All slots are taken by services that count, none of them 0xFFFF or `x`, and a request for 0xFFFF
      at time `t` counts as well. */
  ghost predicate Full(c: Config, r: Run, x: Srvid, max: nat, now: int, t: int)
    requires max <= MAXECMRATELIMIT
  {
    && Backed(r, max, now) && Unlisted(r.st.slots, x) && Vacancies(c, r.st.slots, max, now) == {}
    && Accept(NO_SRVID, t) in r.accepts && now - c.seconds <= t <= now
  }

  /** Then the window sees one service more than there are slots. */
  lemma FullWindow(c: Config, r: Run, x: Srvid, max: nat, now: int, t: int)
    requires max <= MAXECMRATELIMIT && Full(c, r, x, max, now, t)
    ensures var seen := Ids(r.st.slots, max) + {NO_SRVID};
            && seen <= Window(r.accepts, now - c.seconds, now) && |seen| == max + 1
            && (x != NO_SRVID ==> x !in seen)
  {
    hide UpToDate;
    var s := r.st.slots;
    var w := Window(r.accepts, now - c.seconds, now);
    forall i: nat | i < max ensures s[i] != FREE && s[i].srvid != NO_SRVID && s[i].srvid != x && s[i].srvid in w {
      Occupied(c, s, max, now, i);
      assert Accept(s[i].srvid, s[i].last) in r.accepts;
    }
    assert NO_SRVID in w;
    IdsDistinct(s, max);
  }

  /** With no slot to be had, a user of the override still gets in. */
  lemma OverrideEnters(c: Config, r: Run, y: Srvid, max: nat, now: int)
    requires max <= MAXECMRATELIMIT && c.dvbapi && r.st.lastOverride < now - c.seconds
    requires Vacancies(c, r.st.slots, max, now) == {} && Tidy(r.st.slots)
    requires forall i :: 0 <= i < |r.st.slots| ==> r.st.slots[i].srvid != y
    requires exists i :: 0 <= i < max && r.st.slots[i].last < now
    ensures Step(c, r, Call(Request(y, true), true, now), max).accepts == r.accepts + [Accept(y, now)]
  {
    var h := FirstUsable(c, r.st.slots, y, now, max, 0);
    if h < max {
      Occupied(c, r.st.slots, max, now, h);
    }
  }

  lemma WindowMore(accepts: seq<Accept>, a: Accept, lo: int, hi: int)
    requires lo <= a.time <= hi
    ensures Window(accepts, lo, hi) + {a.srvid} <= Window(accepts + [a], lo, hi)
  {
    assert (accepts + [a])[|accepts|] == a;
    forall b | b in accepts ensures b in accepts + [a] {
      var i :| 0 <= i < |accepts| && accepts[i] == b;
      assert (accepts + [a])[i] == b;
    }
  }

  ghost predicate Exceeds(c: Config, calls: seq<Call>, max: nat, lo: int)
    requires max <= MAXECMRATELIMIT
  {
    |Window(After(c, Fresh(), calls, max).accepts, lo, lo + c.seconds)| > max + if c.dvbapi then 1 else 0
  }

  /** The run `longer` goes on after `calls` with requests of the reader only. */
  ghost predicate ReaderGoesOn(calls: seq<Call>, longer: seq<Call>) {
    calls <= longer && forall i :: |calls| <= i < |longer| ==> longer[i].reader
  }

  // ---------- After a call that does harm ----------

  /** After the harmful probe the slots are filled at once; slot `h` was taken just now. */
  lemma LossFills(c: Config, calls: seq<Call>, probe: Call, x: Srvid, p: nat, max: nat)
      returns (longer: seq<Call>, h: nat)
    requires max <= MAXECMRATELIMIT && Ordered(calls + [probe]) && !probe.reader && p < max
    requires var s := After(c, Fresh(), calls, max).st.slots;
             && LosesReserved(c, s, probe.req.srvid, probe.now, max) && s[p] != FREE && s[p].srvid == NO_SRVID
             && (forall i :: 0 <= i < |s| ==> s[i].srvid != x || x == NO_SRVID)
    ensures GoesOn(calls + [probe], longer, probe.now) && Ordered(longer) && longer[|longer| - 1].now == probe.now
    ensures var r0, r := After(c, Fresh(), calls, max), After(c, Fresh(), longer, max);
            && Full(c, r, x, max, probe.now, r0.st.slots[p].last)
            && r.st.lastOverride == r0.st.lastOverride
            && (forall a :: a in r0.accepts ==> a in r.accepts)
            && h < max && r.st.slots[h].last == probe.now
            && (forall i :: 0 <= i < max && OtherCounts(c, r0.st.slots[i], probe.now) ==>
                  r.st.slots[i] == r0.st.slots[i])
  {
    var run := calls + [probe];
    var r0 := After(c, Fresh(), calls, max);
    assert run[|calls|] == probe && forall i :: 0 <= i < |calls| ==> run[i] == calls[i];
    RunBacked(c, calls, max, probe.now);
    AfterOneMore(c, Fresh(), calls, probe, max);
    StepBacked(c, r0, probe, max, probe.now);
    h := LossFacts(c, r0, probe, x, p, max);
    hide After, Step, Backed, Unlisted, LosesReserved;
    longer := Fill(c, Fresh(), run, x, max, probe.now);
    OrderedMore(run, longer, probe.now);
    Occupied(c, After(c, Fresh(), longer, max).st.slots, max, probe.now, h);
  }

  lemma LossFacts(c: Config, r: Run, probe: Call, x: Srvid, p: nat, max: nat) returns (h: nat)
    requires max <= MAXECMRATELIMIT && 0 <= probe.now && Backed(r, max, probe.now) && !probe.reader && p < max
    requires LosesReserved(c, r.st.slots, probe.req.srvid, probe.now, max)
    requires r.st.slots[p] != FREE && r.st.slots[p].srvid == NO_SRVID
    requires forall i :: 0 <= i < |r.st.slots| ==> r.st.slots[i].srvid != x || x == NO_SRVID
    ensures var r2 := Step(c, r, probe, max);
            && Unlisted(r2.st.slots, x) && r2.st.lastOverride == r.st.lastOverride && r2.accepts == r.accepts
            && h < max && r2.st.slots[h] == FREE
            && (forall i :: 0 <= i < max && OtherCounts(c, r.st.slots[i], probe.now) ==>
                  r2.st.slots[i] == r.st.slots[i])
    ensures var t := r.st.slots[p].last;
            Accept(NO_SRVID, t) in r.accepts && probe.now - c.seconds <= t <= probe.now && 0 <= c.seconds
  {
    hide UpToDate, Limited;
    LossLeaves(c, r.st, probe.req, probe.now, max);
    h := p;
    var i, q :| 0 <= i < q < max && r.st.slots[q] == FREE && r.st.slots[i].srvid == NO_SRVID && r.st.slots[i] != FREE
                && !Overtime(c, r.st.slots[i], probe.now);
    assert i == p;
  }

  /** Later the slots are filled again, and slot `h` is not the youngest. */
  lemma FillAgain(c: Config, calls: seq<Call>, max: nat, now: int, when: int, t: int, h: nat)
      returns (longer: seq<Call>)
    requires max <= MAXECMRATELIMIT && Ordered(calls) && calls != [] && calls[|calls| - 1].now == now < when
    requires when - c.seconds <= t <= now && h < max && After(c, Fresh(), calls, max).st.slots[h].last == now
    requires Full(c, After(c, Fresh(), calls, max), NO_SRVID, max, now, t)
    ensures GoesOn(calls, longer, when) && Ordered(longer)
    ensures var r, r2 := After(c, Fresh(), calls, max), After(c, Fresh(), longer, max);
            && Full(c, r2, NO_SRVID, max, when, t) && r2.st.lastOverride == r.st.lastOverride
            && r2.st.slots[h].last == now
  {
    hide After, Step, Unlisted, Vacancies, UpToDate;
    longer := Fill(c, Fresh(), calls, NO_SRVID, max, when);
    OrderedMore(calls, longer, when);
  }

  /** Then the override lets one more service in. */
  lemma OneMoreThanFull(c: Config, r: Run, y: Srvid, max: nat, now: int, t: int)
    requires max <= MAXECMRATELIMIT && Full(c, r, NO_SRVID, max, now, t) && 0 <= c.seconds
    requires y != NO_SRVID && forall i :: 0 <= i < |r.st.slots| ==> r.st.slots[i].srvid != y
    ensures |Window(r.accepts + [Accept(y, now)], now - c.seconds, now)| > max + 1
  {
    FullWindow(c, r, NO_SRVID, max, now, t);
    hide Full, Window;
    WindowMore(r.accepts, Accept(y, now), now - c.seconds, now);
    var seen := Ids(r.st.slots, max) + {NO_SRVID};
    assert y !in seen;
    SubsetSize(seen + {y}, Window(r.accepts + [Accept(y, now)], now - c.seconds, now));
  }

  lemma OverrideToo(c: Config, calls: seq<Call>, max: nat, now: int, t: int, h: nat) returns (call: Call)
    requires max <= MAXECMRATELIMIT && c.dvbapi && h < max
    requires var r := After(c, Fresh(), calls, max);
             Full(c, r, NO_SRVID, max, now, t) && r.st.lastOverride < now - c.seconds && r.st.slots[h].last < now
    ensures call.now == now && call.reader
    ensures Exceeds(c, calls + [call], max, now - c.seconds)
  {
    var r := After(c, Fresh(), calls, max);
    var y := NewService(r.st.slots, NO_SRVID);
    call := Call(Request(y, true), true, now);
    AfterOneMore(c, Fresh(), calls, call, max);
    OverrideEnters(c, r, y, max, now);
    OneMoreThanFull(c, r, y, max, now, t);
    hide Step, After, Full, Window, Fresh;
  }

  /** With a service that went missing already the full slots suffice. */
  lemma MissingToo(c: Config, r: Run, max: nat, now: int, t: int, a: Accept)
    requires max <= MAXECMRATELIMIT && Full(c, r, a.srvid, max, now, t)
    requires c.dvbapi ==> a.srvid != NO_SRVID && a in r.accepts && now - c.seconds <= a.time <= now
    ensures |Window(r.accepts, now - c.seconds, now)| > max + if c.dvbapi then 1 else 0
  {
    FullWindow(c, r, a.srvid, max, now, t);
    var seen, w := Ids(r.st.slots, max) + {NO_SRVID}, Window(r.accepts, now - c.seconds, now);
    hide Full, Ids;
    if c.dvbapi {
      assert a.srvid in w;
      hide Window;
      SubsetSize(seen + {a.srvid}, w);
    } else {
      hide Window;
      SubsetSize(seen, w);
    }
  }

  /** After a call that does harm, requests of the reader alone exceed the bound. */
  lemma {:induction false} HarmBreaksBound(c: Config, calls: seq<Call>, probe: Call, max: nat)
      returns (longer: seq<Call>, lo: int)
    requires max <= MAXECMRATELIMIT && Ordered(calls + [probe]) && Harms(c, After(c, Fresh(), calls, max), probe, max)
    ensures ReaderGoesOn(calls + [probe], longer) && Ordered(longer) && Exceeds(c, longer, max, lo)
    ensures !c.dvbapi ==> lo == probe.now - c.seconds
  {
    hide After, LosesReserved, Ordered, Exceeds, OverrideLeft, ReaderGoesOn, Backed;
    var r := After(c, Fresh(), calls, max);
    var p := LostEntry(c, r, probe, max);
    RunOfPrefix(calls, probe);
    RunBacked(c, calls, max, probe.now);
    hide Missing;
    if !c.dvbapi {
      lo := probe.now - c.seconds;
      longer := HarmWithout(c, calls, probe, p, max, Accept(NO_SRVID, 0));
    } else if a: Accept :| a.srvid != NO_SRVID && Missing(c, r, max, probe.now, a) {
      lo := probe.now - c.seconds;
      MissingUnlisted(c, r, max, probe.now, a);
      longer := HarmWithout(c, calls, probe, p, max, a);
    } else {
      longer, lo := HarmWithOverride(c, calls, probe, p, max);
    }
  }

  lemma LostEntry(c: Config, r: Run, probe: Call, max: nat) returns (p: nat)
    requires max <= MAXECMRATELIMIT && LosesReserved(c, r.st.slots, probe.req.srvid, probe.now, max)
    ensures p < max && r.st.slots[p] != FREE && r.st.slots[p].srvid == NO_SRVID
  {
    var i, q :| 0 <= i < q < max && r.st.slots[q] == FREE && r.st.slots[i].srvid == NO_SRVID && r.st.slots[i] != FREE;
    p := i;
  }

  lemma HarmWithout(c: Config, calls: seq<Call>, probe: Call, p: nat, max: nat, a: Accept) returns (longer: seq<Call>)
    requires max <= MAXECMRATELIMIT && Ordered(calls + [probe]) && !probe.reader && p < max
    requires var r := After(c, Fresh(), calls, max);
             && LosesReserved(c, r.st.slots, probe.req.srvid, probe.now, max)
             && r.st.slots[p] != FREE && r.st.slots[p].srvid == NO_SRVID
             && (forall i :: 0 <= i < |r.st.slots| ==> r.st.slots[i].srvid != a.srvid || a.srvid == NO_SRVID)
             && (c.dvbapi ==> a.srvid != NO_SRVID && a in r.accepts && probe.now - c.seconds <= a.time <= probe.now)
    ensures ReaderGoesOn(calls + [probe], longer) && Ordered(longer) && Exceeds(c, longer, max, probe.now - c.seconds)
  {
    hide After, LosesReserved, Full, Ordered, Window;
    var h;
    longer, h := LossFills(c, calls, probe, a.srvid, p, max);
    MissingToo(c, After(c, Fresh(), longer, max), max, probe.now, After(c, Fresh(), calls, max).st.slots[p].last, a);
    assert probe.now - c.seconds + c.seconds == probe.now;
  }

  lemma RunOfPrefix(calls: seq<Call>, probe: Call)
    requires Ordered(calls + [probe])
    ensures Ordered(calls) && 0 <= probe.now && (calls != [] ==> calls[|calls| - 1].now <= probe.now)
  {
    var run := calls + [probe];
    assert run[|calls|] == probe && forall i :: 0 <= i < |calls| ==> run[i] == calls[i];
  }

  /** A service that went missing has no entry at all. */
  lemma MissingUnlisted(c: Config, r: Run, max: nat, now: int, a: Accept)
    requires max <= MAXECMRATELIMIT && Backed(r, max, now) && Missing(c, r, max, now, a) && a.srvid != NO_SRVID
    ensures forall i :: 0 <= i < |r.st.slots| ==> r.st.slots[i].srvid != a.srvid
    ensures now - c.seconds <= a.time <= now && a in r.accepts
  {
  }

  lemma HarmWithOverride(c: Config, calls: seq<Call>, probe: Call, p: nat, max: nat)
      returns (longer: seq<Call>, lo: int)
    requires max <= MAXECMRATELIMIT && Ordered(calls + [probe]) && !probe.reader && p < max && c.dvbapi
    requires var r := After(c, Fresh(), calls, max);
             && LosesReserved(c, r.st.slots, probe.req.srvid, probe.now, max)
             && r.st.slots[p] != FREE && r.st.slots[p].srvid == NO_SRVID && OverrideLeft(c, r.st, probe.now, max)
    ensures ReaderGoesOn(calls + [probe], longer) && Ordered(longer) && Exceeds(c, longer, max, lo)
  {
    var r, now := After(c, Fresh(), calls, max), probe.now;
    RunOfPrefix(calls, probe);
    RunBacked(c, calls, max, now);
    OverrideEntry(c, r, now, p, max);
    hide After, LosesReserved, Exceeds, Ordered, OverrideLeft, Backed, OlderEntry;
    if now < r.st.slots[p].last + c.seconds {
      longer, lo := OverrideLater(c, calls, probe, p, max);
    } else {
      longer, lo := OverrideNow(c, calls, probe, p, max);
    }
  }

  lemma OverrideEntry(c: Config, r: Run, now: int, p: nat, max: nat)
    requires max <= MAXECMRATELIMIT && Tidy(r.st.slots) && OverrideLeft(c, r.st, now, max)
    requires p < max && r.st.slots[p] != FREE && r.st.slots[p].srvid == NO_SRVID
    ensures r.st.lastOverride < r.st.slots[p].last
    ensures now < r.st.slots[p].last + c.seconds || OlderEntry(c, r.st.slots, now)
  {
    var i :| 0 <= i < max && r.st.slots[i].srvid == NO_SRVID && r.st.slots[i] != FREE
             && r.st.lastOverride < r.st.slots[i].last
             && (now < r.st.slots[i].last + c.seconds || OlderEntry(c, r.st.slots, now));
    hide OlderEntry;
    assert i == p;
  }

  /** The override waits until the last second of the lost entry. */
  lemma OverrideLater(c: Config, calls: seq<Call>, probe: Call, p: nat, max: nat)
      returns (longer: seq<Call>, lo: int)
    requires max <= MAXECMRATELIMIT && Ordered(calls + [probe]) && !probe.reader && p < max && c.dvbapi
    requires var st := After(c, Fresh(), calls, max).st;
             && LosesReserved(c, st.slots, probe.req.srvid, probe.now, max)
             && st.slots[p] != FREE && st.slots[p].srvid == NO_SRVID
             && st.lastOverride < st.slots[p].last && probe.now < st.slots[p].last + c.seconds
    ensures ReaderGoesOn(calls + [probe], longer) && Ordered(longer) && Exceeds(c, longer, max, lo)
  {
    hide After, LosesReserved, Exceeds, Ordered, Backed, Vacancies, Unlisted;
    lo := After(c, Fresh(), calls, max).st.slots[p].last;
    var end := lo + c.seconds;
    var filled, h := LossFills(c, calls, probe, NO_SRVID, p, max);
    var again := FillAgain(c, filled, max, probe.now, end, lo, h);
    var call := OverrideToo(c, again, max, end, lo, h);
    longer := again + [call];
    CallAppended(calls + [probe], filled, again, call, probe.now, end);
    assert end - c.seconds == lo;
  }

  lemma CallAppended(run: seq<Call>, filled: seq<Call>, again: seq<Call>, call: Call, now: int, when: int)
    requires GoesOn(run, filled, now) && GoesOn(filled, again, when) && Ordered(again) && run != []
    requires call.reader && call.now == when >= now && Ordered(filled) && filled[|filled| - 1].now == now
    ensures ReaderGoesOn(run, again + [call]) && Ordered(again + [call])
  {
  }

  /** The override is used at once. */
  lemma OverrideNow(c: Config, calls: seq<Call>, probe: Call, p: nat, max: nat)
      returns (longer: seq<Call>, lo: int)
    requires max <= MAXECMRATELIMIT && Ordered(calls + [probe]) && !probe.reader && p < max && c.dvbapi
    requires var st := After(c, Fresh(), calls, max).st;
             && LosesReserved(c, st.slots, probe.req.srvid, probe.now, max)
             && st.slots[p] != FREE && st.slots[p].srvid == NO_SRVID && FreeFrom(st.slots, max)
             && st.lastOverride < st.slots[p].last <= probe.now - c.seconds && OlderEntry(c, st.slots, probe.now)
    ensures ReaderGoesOn(calls + [probe], longer) && Ordered(longer) && Exceeds(c, longer, max, lo)
  {
    hide After, LosesReserved, Exceeds, Ordered, Backed, Vacancies, Unlisted;
    var slots := After(c, Fresh(), calls, max).st.slots;
    var i :| 0 <= i < |slots| && OtherCounts(c, slots[i], probe.now) && slots[i].last < probe.now;
    assert i < max;
    var filled, h := LossFills(c, calls, probe, NO_SRVID, p, max);
    var call := OverrideToo(c, filled, max, probe.now, slots[p].last, i);
    longer, lo := filled + [call], probe.now - c.seconds;
    CallAppended(calls + [probe], filled, filled, call, probe.now, probe.now);
  }

  // ---------- The guard is exact ----------

  /** Neither the run nor anything the reader may ask for after any part of it exceeds the bound. */
  ghost predicate NeverExceeds(c: Config, calls: seq<Call>, max: nat)
    requires max <= MAXECMRATELIMIT
  {
    forall k, longer, lo :: 0 <= k <= |calls| && ReaderGoesOn(calls[..k], longer) && Ordered(longer) ==>
      !Exceeds(c, longer, max, lo)
  }

  lemma {:induction false} SparedPart(c: Config, st: State, calls: seq<Call>, max: nat, k: nat)
    requires max <= MAXECMRATELIMIT && Spared(c, st, calls, max) && k <= |calls|
    ensures Spared(c, st, calls[..k], max)
  {
    if k < |calls| {
      SparedPart(c, st, calls[..|calls| - 1], max, k);
      assert calls[..|calls| - 1][..k] == calls[..k];
    } else {
      assert calls[..k] == calls;
    }
  }

  lemma {:induction false} ReaderSpares(c: Config, st: State, calls: seq<Call>, longer: seq<Call>, max: nat)
    requires max <= MAXECMRATELIMIT && Spared(c, st, calls, max) && ReaderGoesOn(calls, longer)
    ensures Spared(c, st, longer, max)
    decreases |longer|
  {
    hide After;
    if |longer| == |calls| {
      assert longer == calls;
    } else {
      ReaderSpares(c, st, calls, longer[..|longer| - 1], max);
    }
  }

  lemma {:induction false} SomeHarm(c: Config, st: State, calls: seq<Call>, max: nat) returns (k: nat)
    requires max <= MAXECMRATELIMIT && !Spared(c, st, calls, max)
    ensures k < |calls| && Harms(c, After(c, st, calls[..k], max), calls[k], max)
  {
    hide After, Harms;
    var n := |calls| - 1;
    if Spared(c, st, calls[..n], max) {
      k := n;
    } else {
      k := SomeHarm(c, st, calls[..n], max);
      assert calls[..n][..k] == calls[..k];
    }
  }

  lemma SparedNeverExceeds(c: Config, calls: seq<Call>, max: nat, k: nat, longer: seq<Call>, lo: int)
    requires max <= MAXECMRATELIMIT && Spared(c, Fresh(), calls, max) && k <= |calls|
    requires ReaderGoesOn(calls[..k], longer) && Ordered(longer)
    ensures !Exceeds(c, longer, max, lo)
  {
    hide After, Spared, Ordered, Window;
    SparedPart(c, Fresh(), calls, max, k);
    ReaderSpares(c, Fresh(), calls[..k], longer, max);
    SlidingWindow(c, Fresh(), longer, max, lo);
  }

  lemma HarmExceeds(c: Config, calls: seq<Call>, max: nat)
    requires max <= MAXECMRATELIMIT && Ordered(calls) && !Spared(c, Fresh(), calls, max)
    ensures !NeverExceeds(c, calls, max)
  {
    hide Exceeds, Harms, After, Spared, ReaderGoesOn;
    var k := SomeHarm(c, Fresh(), calls, max);
    assert calls[..k] + [calls[k]] == calls[..k + 1];
    var longer, lo := HarmBreaksBound(c, calls[..k], calls[k], max);
  }

  /** The bound holds for a run and for whatever the reader asks for after any part of it, if and only if
      no call of the run does harm. */
  lemma {:induction false} BoundExactlyIfSpared(c: Config, calls: seq<Call>, max: nat)
    requires max <= MAXECMRATELIMIT && Ordered(calls)
    ensures Spared(c, Fresh(), calls, max) <==> NeverExceeds(c, calls, max)
  {
    hide Exceeds, After, Spared, ReaderGoesOn, Ordered;
    if Spared(c, Fresh(), calls, max) {
      forall k: nat, longer, lo | k <= |calls| && ReaderGoesOn(calls[..k], longer) && Ordered(longer)
        ensures !Exceeds(c, longer, max, lo)
      {
        SparedNeverExceeds(c, calls, max, k, longer, lo);
      }
    } else {
      HarmExceeds(c, calls, max);
    }
  }

  // ---------- What every run keeps ----------

  /** The same for a service other than 0xFFFF. */
  ghost predicate Gone(c: Config, r: Run, max: nat, now: int, a: Accept)
    requires max <= MAXECMRATELIMIT
  {
    a.srvid != NO_SRVID && Missing(c, r, max, now, a)
  }

  /** Of services other than 0xFFFF only one can go missing, in any run. */
  ghost predicate OneGone(c: Config, r: Run, max: nat, now: int)
    requires max <= MAXECMRATELIMIT
  {
    && Tidy(r.st.slots) && FreeFrom(r.st.slots, max)
    && (forall a :: a in r.accepts ==> 0 <= a.time <= now)
    && (forall a :: Gone(c, r, max, now, a) ==> c.dvbapi && Settled(c, r, now, a))
    && (forall a, b :: Gone(c, r, max, now, a) && Gone(c, r, max, now, b) ==> a.srvid == b.srvid)
  }

  lemma GoneBefore(c: Config, r: Run, call: Call, max: nat, before: int, a: Accept)
    requires max <= MAXECMRATELIMIT && 0 <= call.now && before <= call.now && OneGone(c, r, max, before)
    requires Gone(c, Step(c, r, call, max), max, call.now, a)
    ensures c.dvbapi && Settled(c, Step(c, r, call, max), call.now, a)
    ensures if Evicts(c, r.st, call.req, call.reader, call.now, max)
            then a.srvid == r.st.slots[Oldest(r.st.slots, call.now, max)].srvid
            else Gone(c, r, max, before, a)
  {
    hide Tidy, FreeFrom;
    MissingBefore(c, r, call, max, before, a);
    if Missing(c, r, max, before, a) {
      assert Gone(c, r, max, before, a);
      if Evicts(c, r.st, call.req, call.reader, call.now, max) {
        EvictionUnsettles(c, r, call, max, before, a);
      } else {
        StillSettled(c, r, call, max, before, a);
      }
    }
  }

  lemma {:induction false} StepOneGone(c: Config, r: Run, call: Call, max: nat, before: int)
    requires max <= MAXECMRATELIMIT && 0 <= call.now && before <= call.now && OneGone(c, r, max, before)
    ensures OneGone(c, Step(c, r, call, max), max, call.now)
  {
    var now, r' := call.now, Step(c, r, call, max);
    LimitedKeepsTidy(c, r.st, call.req, call.reader, now, max);
    forall a | Gone(c, r', max, now, a)
      ensures c.dvbapi && Settled(c, r', now, a)
      ensures if Evicts(c, r.st, call.req, call.reader, now, max)
              then a.srvid == r.st.slots[Oldest(r.st.slots, now, max)].srvid
              else Gone(c, r, max, before, a)
    {
      GoneBefore(c, r, call, max, before, a);
    }
    hide Tidy, FreeFrom, Limited, Evicts, Gone, Settled;
  }

  lemma {:induction false} RunOneGone(c: Config, st: State, calls: seq<Call>, max: nat)
    requires max <= MAXECMRATELIMIT && Ordered(calls) && Tidy(st.slots) && FreeFrom(st.slots, max)
    ensures calls != [] ==> OneGone(c, After(c, st, calls, max), max, calls[|calls| - 1].now)
    ensures calls == [] ==> forall now :: OneGone(c, After(c, st, calls, max), max, now)
  {
    if calls != [] {
      var n := |calls| - 1;
      RunOneGone(c, st, calls[..n], max);
      var before := if n == 0 then calls[n].now else calls[..n][n - 1].now;
      StepOneGone(c, After(c, st, calls[..n], max), calls[n], max, before);
    }
  }

  /** Whatever is asked for, by reader or probe, the bound is never exceeded by more than one service. */
  lemma {:induction false} ExceededByOne(c: Config, st: State, calls: seq<Call>, max: nat, lo: int)
    requires max <= MAXECMRATELIMIT && Ordered(calls) && Tidy(st.slots) && FreeFrom(st.slots, max)
    ensures |Window(After(c, st, calls, max).accepts, lo, lo + c.seconds)| <= max + 1 + if c.dvbapi then 1 else 0
  {
    var r := After(c, st, calls, max);
    var w := Window(r.accepts, lo, lo + c.seconds);
    if calls == [] {
      assert w == {};
    } else {
      var n := |calls| - 1;
      if calls[n].now > lo + c.seconds {
        ExceededByOne(c, st, calls[..n], max, lo);
        assert w == Window(After(c, st, calls[..n], max).accepts, lo, lo + c.seconds);
      } else {
        RunOneGone(c, st, calls, max);
        WindowOneGone(c, r, max, calls[n].now, lo);
      }
    }
  }

  lemma WindowOneGone(c: Config, r: Run, max: nat, now: int, lo: int)
    requires max <= MAXECMRATELIMIT && OneGone(c, r, max, now) && now <= lo + c.seconds
    ensures |Window(r.accepts, lo, lo + c.seconds)| <= max + 1 + if c.dvbapi then 1 else 0
  {
    var w := Window(r.accepts, lo, lo + c.seconds);
    var cover := Ids(r.st.slots, max) + {NO_SRVID};
    if m :| Gone(c, r, max, now, m) {
      cover := cover + {m.srvid};
    }
    forall s | s in w ensures s in cover {
      var a :| a in r.accepts && lo <= a.time <= lo + c.seconds && a.srvid == s;
      assert a.srvid == NO_SRVID || Gone(c, r, max, now, a) || HasEntry(r.st.slots, max, a);
    }
    IdsSize(r.st.slots, max);
    SubsetSize(w, cover);
  }

  // ---------- A run that exceeds the bound ----------

  const EXAMPLE := Config(3, 10, 0, 0, false)

  /** A request for 0xFFFF takes slot 0 when all slots are free, and leaves slot 1 free. */
  lemma ReservedEnters(c: Config, max: nat, now: int, end: int)
    requires 2 <= max <= MAXECMRATELIMIT && 0 <= now <= end <= now + c.seconds
    ensures var r := Step(c, Run(Fresh(), []), Call(Request(NO_SRVID, false), true, now), max);
            LosesReserved(c, r.st.slots, NO_SRVID, end, max)
  {
    TidiedSlots(c, NONE, NO_SRVID, now, 0, max);
    hide Tidied;
    var slots := Step(c, Run(Fresh(), []), Call(Request(NO_SRVID, false), true, now), max).st.slots;
    assert slots[0] == Slot(NO_SRVID, now) && slots[1] == FREE;
  }

  /** The bound of 3 services in 10 seconds does not hold of all runs: service 0xFFFF is accepted at
      time 0, a probe for it at time 1 overwrites its slot 0 with the free slot 1, and the reader gets
      three more services in. */
  lemma {:induction false} ReservedSrvidBreaksBound() returns (calls: seq<Call>)
    ensures LimitInForce(EXAMPLE, Fresh(), calls) && Ordered(calls)
    ensures |calls| >= 2 && calls[0] == Call(Request(NO_SRVID, false), true, 0)
            && calls[1] == Call(Request(NO_SRVID, false), false, 1)
            && forall i :: 2 <= i < |calls| ==> calls[i].reader
    ensures |Window(CheckAll(EXAMPLE, Fresh(), calls).1, -9, 1)| > EXAMPLE.ecm
  {
    var first, probe := Call(Request(NO_SRVID, false), true, 0), Call(Request(NO_SRVID, false), false, 1);
    hide Window, LosesReserved, Limited, Step, Tidied;
    ReservedEnters(EXAMPLE, 3, 0, 1);
    AfterOneMore(EXAMPLE, Fresh(), [], first, 3);
    assert [] + [first] == [first];
    var lo;
    calls, lo := HarmBreaksBound(EXAMPLE, [first], probe, 3);
    CheckAllIsLimited(EXAMPLE, Fresh(), calls);
  }
}
