/** The ECM rate limiter of a reader (oscam/oscam-chk.c, lines 14-242).

    A reader has twenty slots, each holding a service id and the time it was last requested.  A slot
    may be taken when it is free, when it belongs to the requested service, or when its service has
    not been requested for more than `seconds`.  Looking for a slot also tidies the slots behind the
    one found.  With a cooldown configured, the limit is only enforced in state 1 of a three-state
    machine.  Every call reads the clock once. */
module RateLimiter {

  const MAXECMRATELIMIT: nat := 20

  /** `(uint16_t) -1`, the service id of a free slot. */
  const NO_SRVID: nat := 0xFFFF

  type Srvid = s: nat | s < 0x10000

  datatype Slot = Slot(srvid: Srvid, last: int)

  const FREE: Slot := Slot(NO_SRVID, -1)

  type Slots = s: seq<Slot> | |s| == MAXECMRATELIMIT witness seq(MAXECMRATELIMIT, _ => FREE)

  /** `ecm` is the number of services allowed at a time, `seconds` how long a service counts,
      `delay` and `period` the two cooldown values; `dvbapi` says whether the override exists. */
  datatype Config = Config(ecm: nat, seconds: int, delay: int, period: int, dvbapi: bool)

  datatype Request = Request(srvid: Srvid, dvbapiUser: bool)

  /** Twenty free slots, as the configuration reader leaves them. */
  const NONE: Slots := [FREE, FREE, FREE, FREE, FREE, FREE, FREE, FREE, FREE, FREE,
                        FREE, FREE, FREE, FREE, FREE, FREE, FREE, FREE, FREE, FREE]

  datatype State = State(slots: Slots, lastOverride: int, cooldown: int, since: int)

  function Fresh(): State {
    State(NONE, 0, 0, 0)
  }

  // ---------- Finding a slot ----------

  predicate Overtime(c: Config, s: Slot, now: int) {
    now - s.last > c.seconds
  }

  predicate Usable(c: Config, s: Slot, srvid: Srvid, now: int) {
    Overtime(c, s, now) || s.last == -1 || s.srvid == srvid
  }

  /** The first usable slot from `h` on; `max` when there is none. */
  function FirstUsable(c: Config, slots: Slots, srvid: Srvid, now: int, max: nat, h: nat): (r: nat)
    requires h <= max <= MAXECMRATELIMIT
    ensures h <= r <= max
    ensures forall i :: h <= i < r ==> !Usable(c, slots[i], srvid, now)
    ensures r < max ==> Usable(c, slots[r], srvid, now)
    decreases max - h
  {
    if h == max || Usable(c, slots[h], srvid, now) then h
    else FirstUsable(c, slots, srvid, now, max, h + 1)
  }

  /** One step of the housekeeping behind the slot `h`: the service's own entry moves to `h`, an
      entry that is over time is released. */
  function SweepSlot(c: Config, slots: Slots, srvid: Srvid, now: int, h: nat, f: nat): Slots
    requires h < f < MAXECMRATELIMIT
  {
    var moved := if slots[f].srvid == srvid then slots[h := slots[f]][f := FREE] else slots;
    if Overtime(c, moved[f], now) && moved[f].last != -1 then moved[f := FREE] else moved
  }

  /** Slots h + 1 .. f - 1 swept. */
  function Swept(c: Config, slots: Slots, srvid: Srvid, now: int, h: nat, f: nat): Slots
    requires h < f <= MAXECMRATELIMIT
  {
    if f == h + 1 then slots else SweepSlot(c, Swept(c, slots, srvid, now, h, f - 1), srvid, now, h, f - 1)
  }

  /** The slots after slot `h` was found usable: the rest swept, a foreign entry in `h` released. */
  function Tidied(c: Config, slots: Slots, srvid: Srvid, now: int, h: nat, max: nat): Slots
    requires h < max <= MAXECMRATELIMIT
  {
    var swept := Swept(c, slots, srvid, now, h, max);
    if swept[h].srvid != srvid && swept[h].last != -1 then swept[h := FREE] else swept
  }

  /** The slot whose entry is the oldest and older than `now`; -1 when all were set just now. */
  function Oldest(slots: Slots, now: int, n: nat): (r: int)
    requires n <= MAXECMRATELIMIT
    ensures -1 <= r < n
    ensures r == -1 ==> forall i :: 0 <= i < n ==> slots[i].last >= now
    ensures r >= 0 ==> slots[r].last < now && forall i :: 0 <= i < n ==> slots[r].last <= slots[i].last
  {
    if n == 0 then -1 else
      var r := Oldest(slots, now, n - 1);
      if slots[n - 1].last < (if r < 0 then now else slots[r].last) then n - 1 else r
  }

  predicate Overrides(c: Config, st: State, req: Request, now: int) {
    c.dvbapi && req.dvbapiUser && st.lastOverride < now - c.seconds
  }

  /** The slot found among the first `max`, or -1, and what the search changed. */
  function Found(c: Config, st: State, req: Request, now: int, max: nat): (State, int)
    requires max <= MAXECMRATELIMIT
  {
    var h := FirstUsable(c, st.slots, req.srvid, now, max, 0);
    if h < max then (st.(slots := Tidied(c, st.slots, req.srvid, now, h, max)), h)
    else if Overrides(c, st, req, now) then (st.(lastOverride := now), Oldest(st.slots, now, max))
    else (st, -1)
  }

  /** A search among the first `max` slots; a call from the reader also takes the slot. */
  function Limited(c: Config, st: State, req: Request, reader: bool, now: int, max: nat): (State, bool)
    requires max <= MAXECMRATELIMIT
  {
    var (found, space) := Found(c, st, req, now, max);
    if space < 0 then (found, false)
    else if reader then (found.(slots := found.slots[space := Slot(req.srvid, now)]), true)
    else (found, true)
  }

  // ---------- What tidying does ----------

  /** A slot is free or holds an entry, and no service has two entries. */
  ghost predicate Tidy(slots: Slots) {
    && (forall i :: 0 <= i < |slots| ==> slots[i] == FREE || slots[i].last >= 0)
    && (forall i, j :: 0 <= i < j < |slots| && slots[i] != FREE && slots[j] != FREE ==>
          slots[i].srvid != slots[j].srvid)
  }

  /** The last slot from `h` on and below `f` with this id, `h` itself if there is none behind it. */
  function LastMatch(slots: Slots, srvid: Srvid, h: nat, f: nat): (m: nat)
    requires h < f <= MAXECMRATELIMIT
    ensures h <= m < f
    ensures m == h || slots[m].srvid == srvid
    ensures forall i :: m < i < f ==> slots[i].srvid != srvid
  {
    if f == h + 1 then h
    else if slots[f - 1].srvid == srvid then f - 1
    else LastMatch(slots, srvid, h, f - 1)
  }

  /** The slots after sweeping up to `f`, slot by slot: the last match has moved to `h`, matches and
      entries over time are gone from the rest. */
  lemma {:induction false} SweptSlots(c: Config, slots: Slots, srvid: Srvid, now: int, h: nat, f: nat)
    requires Tidy(slots) && h < f <= MAXECMRATELIMIT
    ensures var s := Swept(c, slots, srvid, now, h, f);
            && (forall i :: 0 <= i < h || f <= i < |s| ==> s[i] == slots[i])
            && (forall i :: h < i < f ==>
                  s[i] == if slots[i].srvid == srvid || Overtime(c, slots[i], now) then FREE else slots[i])
            && s[h] == slots[LastMatch(slots, srvid, h, f)]
  {
    if f > h + 1 {
      SweptSlots(c, slots, srvid, now, h, f - 1);
    }
  }

  /** After tidying, slot `h` holds an entry of the service or is free; a later slot keeps its entry
      unless it is over time; earlier slots and slots from `max` on do not change.  Except for the
      reserved id, an entry of the service is always found. */
  lemma {:induction false} TidiedSlots(c: Config, slots: Slots, srvid: Srvid, now: int, h: nat, max: nat)
    requires Tidy(slots) && h < max <= MAXECMRATELIMIT
    requires h == FirstUsable(c, slots, srvid, now, max, 0)
    ensures var s := Tidied(c, slots, srvid, now, h, max);
            && (forall i :: 0 <= i < h || max <= i < |s| ==> s[i] == slots[i])
            && (forall i :: h < i < max ==>
                  s[i] == if slots[i].srvid == srvid || Overtime(c, slots[i], now) then FREE else slots[i])
            && (s[h] == FREE || (s[h].srvid == srvid && exists i :: h <= i < max && s[h] == slots[i]))
            && (srvid != NO_SRVID ==> forall i :: h <= i < max && slots[i].srvid == srvid ==> s[h] == slots[i])
  {
    SweptSlots(c, slots, srvid, now, h, max);
  }

  lemma {:induction false} TidiedIsTidy(c: Config, slots: Slots, srvid: Srvid, now: int, h: nat, max: nat)
    requires Tidy(slots) && h < max <= MAXECMRATELIMIT && now >= 0
    requires h == FirstUsable(c, slots, srvid, now, max, 0)
    requires FreeFrom(slots, max)
    ensures Tidy(Tidied(c, slots, srvid, now, h, max))
    ensures Tidy(Tidied(c, slots, srvid, now, h, max)[h := Slot(srvid, now)])
  {
    TidiedSlots(c, slots, srvid, now, h, max);
    hide Tidied, FirstUsable;
  }

  /** The slots in use lie below `max`. */
  ghost predicate FreeFrom(slots: Slots, max: nat) {
    forall i :: max <= i < |slots| ==> slots[i] == FREE
  }

  lemma {:induction false} LimitedKeepsTidy(c: Config, st: State, req: Request, reader: bool, now: int, max: nat)
    requires Tidy(st.slots) && now >= 0 && max <= MAXECMRATELIMIT && FreeFrom(st.slots, max)
    ensures var st' := Limited(c, st, req, reader, now, max).0;
            Tidy(st'.slots) && FreeFrom(st'.slots, max) && st'.cooldown == st.cooldown && st'.since == st.since
  {
    var h := FirstUsable(c, st.slots, req.srvid, now, max, 0);
    if h < max {
      TidiedSlots(c, st.slots, req.srvid, now, h, max);
      TidiedIsTidy(c, st.slots, req.srvid, now, h, max);
    }
  }

  /** The entries that still count at time `now`. */
  ghost function Live(c: Config, slots: Slots, now: int): set<Slot> {
    set i | 0 <= i < |slots| && slots[i] != FREE && !Overtime(c, slots[i], now) :: slots[i]
  }

  /** The one case in which tidying loses an entry that counts.  The id 0xFFFF is also the mark of a
      free slot, so a free slot behind the entry of service 0xFFFF is taken for its entry. */
  ghost predicate LosesReserved(c: Config, slots: Slots, srvid: Srvid, now: int, max: nat)
    requires max <= |slots|
  {
    && srvid == NO_SRVID
    && (exists p, q :: 0 <= p < q < max && slots[q] == FREE
          && slots[p].srvid == NO_SRVID && slots[p] != FREE && !Overtime(c, slots[p], now))
  }

  /** A probe may tidy, but it never changes which services count, nor their times: this holds
      exactly when the reserved id is not asked for in the one bad position. */
  lemma {:induction false} ProbeKeepsLive(c: Config, st: State, req: Request, now: int, max: nat)
    requires Tidy(st.slots) && max <= MAXECMRATELIMIT && FreeFrom(st.slots, max)
    ensures Live(c, Limited(c, st, req, false, now, max).0.slots, now) == Live(c, st.slots, now)
            <==> !LosesReserved(c, st.slots, req.srvid, now, max)
  {
    var s := st.slots;
    var h := FirstUsable(c, s, req.srvid, now, max, 0);
    if h < max {
      SweptSlots(c, s, req.srvid, now, h, max);
      var t := Tidied(c, s, req.srvid, now, h, max);
      var m := LastMatch(s, req.srvid, h, max);
      assert t[h] == s[m] || t[h] == FREE;
      hide Swept, FirstUsable, LastMatch;
      if LosesReserved(c, s, req.srvid, now, max) {
        ReservedIsLost(c, st, now, h, max);
      } else {
        forall e | e in Live(c, s, now) ensures e in Live(c, t, now) {
          var i :| 0 <= i < |s| && s[i] == e && e != FREE && !Overtime(c, e, now);
          if i >= h && e.srvid == req.srvid {
            assert i == m by {
              assert s[m].srvid != e.srvid || s[m] == FREE || m == i;
            }
            assert t[h] == e;
          } else {
            assert i != h;
            assert t[i] == e;
          }
        }
        forall e | e in Live(c, t, now) ensures e in Live(c, s, now) {
          var i :| 0 <= i < |t| && t[i] == e && e != FREE && !Overtime(c, e, now);
          assert e == s[if i == h then m else i];
        }
      }
    }
  }

  lemma {:induction false} ReservedIsLost(c: Config, st: State, now: int, h: nat, max: nat)
    requires Tidy(st.slots) && max <= MAXECMRATELIMIT && FreeFrom(st.slots, max)
    requires h == FirstUsable(c, st.slots, NO_SRVID, now, max, 0) < max
    requires LosesReserved(c, st.slots, NO_SRVID, now, max)
    ensures Live(c, Tidied(c, st.slots, NO_SRVID, now, h, max), now) != Live(c, st.slots, now)
  {
    var s, t := st.slots, Tidied(c, st.slots, NO_SRVID, now, h, max);
    SweptSlots(c, s, NO_SRVID, now, h, max);
    var p, q :| 0 <= p < q < max && s[q] == FREE && s[p].srvid == NO_SRVID && s[p] != FREE
                && !Overtime(c, s[p], now);
    var m := LastMatch(s, NO_SRVID, h, max);
    assert p >= h && m >= q;
    hide Swept, FirstUsable, LastMatch;
    assert s[p] in Live(c, s, now);
    assert s[p] !in Live(c, t, now);
  }

  // ---------- The sliding window ----------

  datatype Call = Call(req: Request, reader: bool, now: int)

  datatype Accept = Accept(srvid: Srvid, time: int)

  /** A run of calls under a limit of `max` slots: the state and the accepted requests of the reader. */
  datatype Run = Run(st: State, accepts: seq<Accept>)

  function Step(c: Config, r: Run, call: Call, max: nat): Run
    requires max <= MAXECMRATELIMIT
  {
    var (st, ok) := Limited(c, r.st, call.req, call.reader, call.now, max);
    Run(st, if ok && call.reader then r.accepts + [Accept(call.req.srvid, call.now)] else r.accepts)
  }

  function After(c: Config, st: State, calls: seq<Call>, max: nat): Run
    requires max <= MAXECMRATELIMIT
  {
    if calls == [] then Run(st, [])
    else Step(c, After(c, st, calls[..|calls| - 1], max), calls[|calls| - 1], max)
  }

  /** The clock never runs backwards. */
  ghost predicate Ordered(calls: seq<Call>) {
    && (forall i :: 0 <= i < |calls| ==> calls[i].now >= 0)
    && (forall i, j :: 0 <= i < j < |calls| ==> calls[i].now <= calls[j].now)
  }

  ghost predicate HasEntry(slots: Slots, max: nat, a: Accept)
    requires max <= |slots|
  {
    exists i :: 0 <= i < max && slots[i].srvid == a.srvid && slots[i].last >= a.time
  }

  /** A request accepted within the last `seconds` that has no slot any more. */
  ghost predicate Missing(c: Config, r: Run, max: nat, now: int, a: Accept)
    requires max <= MAXECMRATELIMIT
  {
    a in r.accepts && now - a.time <= c.seconds && !HasEntry(r.st.slots, max, a)
  }

  /** An entry that counts, not of service 0xFFFF. */
  ghost predicate OtherCounts(c: Config, s: Slot, now: int) {
    s != FREE && s.srvid != NO_SRVID && !Overtime(c, s, now)
  }

  /** Some other entry that counts is older than `now`, so that an override finds one to evict. */
  ghost predicate OlderEntry(c: Config, slots: Slots, now: int) {
    exists i :: 0 <= i < |slots| && OtherCounts(c, slots[i], now) && slots[i].last < now
  }

  /** The override can still be used while the entry of service 0xFFFF counts. */
  ghost predicate OverrideLeft(c: Config, st: State, now: int, max: nat)
    requires max <= MAXECMRATELIMIT
  {
    exists p :: 0 <= p < max && st.slots[p].srvid == NO_SRVID && st.slots[p] != FREE
                && st.lastOverride < st.slots[p].last
                && (now < st.slots[p].last + c.seconds || OlderEntry(c, st.slots, now))
  }

  /** The call lets the bound be exceeded: it is a probe that loses an entry, and where the override is
      built in, the one service that the bound allows for it has been evicted already, or still can be. */
  ghost predicate Harms(c: Config, r: Run, call: Call, max: nat)
    requires max <= MAXECMRATELIMIT
  {
    && !call.reader
    && LosesReserved(c, r.st.slots, call.req.srvid, call.now, max)
    && (c.dvbapi ==> (exists a: Accept :: a.srvid != NO_SRVID && Missing(c, r, max, call.now, a))
                     || OverrideLeft(c, r.st, call.now, max))
  }

  /** No call of the run does harm. */
  ghost predicate Spared(c: Config, st: State, calls: seq<Call>, max: nat)
    requires max <= MAXECMRATELIMIT
  {
    calls == [] || (
      var n := |calls| - 1;
      Spared(c, st, calls[..n], max) && !Harms(c, After(c, st, calls[..n], max), calls[n], max))
  }

  /** An entry is as young as any accepted request for its service. */
  ghost predicate UpToDate(r: Run) {
    forall i, a :: 0 <= i < |r.st.slots| && a in r.accepts && r.st.slots[i] != FREE && r.st.slots[i].srvid == a.srvid ==>
      r.st.slots[i].last >= a.time
  }

  /** No other service can go missing while `a` counts: the override was used since, or `a` is in its
      last second and no entry is old enough to be evicted. */
  ghost predicate Settled(c: Config, r: Run, now: int, a: Accept) {
    || a.time <= r.st.lastOverride
    || (now == a.time + c.seconds
        && forall i :: 0 <= i < |r.st.slots| && r.st.slots[i] != FREE ==> r.st.slots[i].last >= now)
  }

  /** Without the override every request accepted within the last `seconds` still has its slot; with it
      all but those for one service have. */
  ghost predicate Covered(c: Config, r: Run, max: nat, now: int)
    requires max <= MAXECMRATELIMIT
  {
    && (forall a :: Missing(c, r, max, now, a) ==> c.dvbapi && Settled(c, r, now, a))
    && (forall a, b :: Missing(c, r, max, now, a) && Missing(c, r, max, now, b) ==> a.srvid == b.srvid)
  }

  ghost predicate RunInv(c: Config, r: Run, max: nat, now: int)
    requires max <= MAXECMRATELIMIT
  {
    && Tidy(r.st.slots) && FreeFrom(r.st.slots, max)
    && (forall a :: a in r.accepts ==> 0 <= a.time <= now)
    && UpToDate(r)
    && Covered(c, r, max, now)
  }

  /** An entry that counts survives every call, unless it is the one an override evicts, or that of
      service 0xFFFF and lost to a probe. */
  lemma {:induction false} EntrySurvives(c: Config, st: State, req: Request, reader: bool, now: int, max: nat,
      a: Accept)
    requires Tidy(st.slots) && now >= 0 && max <= MAXECMRATELIMIT && FreeFrom(st.slots, max)
    requires HasEntry(st.slots, max, a) && 0 <= a.time <= now && now - a.time <= c.seconds
    requires reader || a.srvid != NO_SRVID || !LosesReserved(c, st.slots, req.srvid, now, max)
    ensures var st' := Limited(c, st, req, reader, now, max).0;
            var k := Found(c, st, req, now, max).1;
            || HasEntry(st'.slots, max, a)
            || (Evicts(c, st, req, reader, now, max) && st.slots[k].srvid == a.srvid)
  {
    var i :| 0 <= i < max && st.slots[i].srvid == a.srvid && st.slots[i].last >= a.time;
    var h := FirstUsable(c, st.slots, req.srvid, now, max, 0);
    var st' := Limited(c, st, req, reader, now, max).0;
    var k := Found(c, st, req, now, max).1;
    if h < max && a.srvid != req.srvid {
      TidiedSlots(c, st.slots, req.srvid, now, h, max);
      hide Tidied, FirstUsable;
      assert st'.slots[i] == st.slots[i];
    } else if h < max && !reader {
      ProbeKeepsLive(c, st, req, now, max);
      LimitedKeepsTidy(c, st, req, reader, now, max);
      hide Limited, Found;
      assert st.slots[i] in Live(c, st'.slots, now);
    } else if h < max {
      hide Tidied, FirstUsable;
      assert st'.slots[h] == Slot(a.srvid, now);
    } else if k != i || !reader {
      assert st'.slots[i] == st.slots[i];
    }
  }

  /** The call takes the slot of an older entry by the override. */
  ghost predicate Evicts(c: Config, st: State, req: Request, reader: bool, now: int, max: nat)
    requires max <= MAXECMRATELIMIT
  {
    && FirstUsable(c, st.slots, req.srvid, now, max, 0) == max && Overrides(c, st, req, now) && reader
    && Oldest(st.slots, now, max) >= 0
  }

  /** What a call leaves in a slot: the new entry, nothing, or an entry that was there. */
  lemma {:induction false} SlotsAfter(c: Config, st: State, req: Request, reader: bool, now: int, max: nat, i: nat)
    requires Tidy(st.slots) && now >= 0 && max <= MAXECMRATELIMIT && i < MAXECMRATELIMIT
    ensures var (st', ok) := Limited(c, st, req, reader, now, max);
            || st'.slots[i] == FREE
            || (ok && reader && st'.slots[i] == Slot(req.srvid, now))
            || exists j :: 0 <= j < |st.slots| && st'.slots[i] == st.slots[j]
  {
    var h := FirstUsable(c, st.slots, req.srvid, now, max, 0);
    if h < max {
      TidiedSlots(c, st.slots, req.srvid, now, h, max);
      hide Tidied, FirstUsable;
    }
  }

  /** The request just accepted has its slot. */
  lemma NewEntry(c: Config, r: Run, call: Call, max: nat)
    requires max <= MAXECMRATELIMIT && Limited(c, r.st, call.req, call.reader, call.now, max).1 && call.reader
    ensures var k := Found(c, r.st, call.req, call.now, max).1;
            0 <= k < max && Step(c, r, call, max).st.slots[k] == Slot(call.req.srvid, call.now)
  {
    hide Tidied;
  }

  lemma StepUpToDate(c: Config, r: Run, call: Call, max: nat, before: int)
    requires max <= MAXECMRATELIMIT && 0 <= call.now && before <= call.now && Tidy(r.st.slots) && UpToDate(r)
    requires FreeFrom(r.st.slots, max) && forall a :: a in r.accepts ==> a.time <= before
    ensures UpToDate(Step(c, r, call, max))
  {
    var r' := Step(c, r, call, max);
    forall i: nat, a | i < |r'.st.slots| && a in r'.accepts && r'.st.slots[i] != FREE && r'.st.slots[i].srvid == a.srvid
      ensures r'.st.slots[i].last >= a.time
    {
      SlotsAfter(c, r.st, call.req, call.reader, call.now, max, i);
      if a !in r.accepts {
        NewEntry(c, r, call, max);
        LimitedKeepsTidy(c, r.st, call.req, call.reader, call.now, max);
      }
    }
  }

  /** A call that neither evicts nor loses an entry leaves missing what was missing. */
  lemma MissingBefore(c: Config, r: Run, call: Call, max: nat, before: int, a: Accept)
    requires max <= MAXECMRATELIMIT && 0 <= call.now && before <= call.now && Tidy(r.st.slots)
    requires FreeFrom(r.st.slots, max) && forall b :: b in r.accepts ==> 0 <= b.time <= before
    requires call.reader || a.srvid != NO_SRVID || !LosesReserved(c, r.st.slots, call.req.srvid, call.now, max)
    requires Missing(c, Step(c, r, call, max), max, call.now, a)
    ensures Missing(c, r, max, before, a)
            || (Evicts(c, r.st, call.req, call.reader, call.now, max)
                && r.st.slots[Oldest(r.st.slots, call.now, max)].srvid == a.srvid)
  {
    if a !in r.accepts {
      NewEntry(c, r, call, max);
    } else if HasEntry(r.st.slots, max, a) {
      EntrySurvives(c, r.st, call.req, call.reader, call.now, max, a);
    }
  }

  lemma StillSettled(c: Config, r: Run, call: Call, max: nat, before: int, a: Accept)
    requires max <= MAXECMRATELIMIT && 0 <= call.now && before <= call.now && Tidy(r.st.slots)
    requires a.time <= before && call.now - a.time <= c.seconds && Settled(c, r, before, a)
    ensures Settled(c, Step(c, r, call, max), call.now, a)
  {
    var r' := Step(c, r, call, max);
    forall i: nat | i < MAXECMRATELIMIT
      ensures r'.st.slots[i] == FREE || r'.st.slots[i].last >= call.now
              || exists j :: 0 <= j < |r.st.slots| && r'.st.slots[i] == r.st.slots[j]
    {
      SlotsAfter(c, r.st, call.req, call.reader, call.now, max, i);
    }
    assert r'.st.lastOverride in {r.st.lastOverride, call.now};
  }

  /** What counts when the override evicts an entry was not settled. */
  lemma EvictionUnsettles(c: Config, r: Run, call: Call, max: nat, before: int, a: Accept)
    requires max <= MAXECMRATELIMIT && before <= call.now && call.now - a.time <= c.seconds
    requires Evicts(c, r.st, call.req, call.reader, call.now, max)
    ensures !Settled(c, r, before, a)
  {
    var k := Oldest(r.st.slots, call.now, max);
    assert !Usable(c, r.st.slots[k], call.req.srvid, call.now);
  }

  lemma ProbeLeavesMissing(c: Config, r: Run, call: Call, max: nat, before: int, a: Accept)
    requires max <= MAXECMRATELIMIT && 0 <= call.now && before <= call.now && RunInv(c, r, max, before)
    requires !call.reader && a.srvid != NO_SRVID && Missing(c, Step(c, r, call, max), max, call.now, a)
    ensures Missing(c, r, max, call.now, a)
  {
    MissingBefore(c, r, call, max, before, a);
  }

  /** A probe that loses an entry without harm leaves nothing missing but service 0xFFFF. */
  lemma HarmlessLoss(c: Config, r: Run, call: Call, max: nat, before: int, a: Accept)
    requires max <= MAXECMRATELIMIT && 0 <= call.now && before <= call.now && RunInv(c, r, max, before)
    requires !call.reader && LosesReserved(c, r.st.slots, call.req.srvid, call.now, max) && !Harms(c, r, call, max)
    requires Missing(c, Step(c, r, call, max), max, call.now, a)
    ensures c.dvbapi && a.srvid == NO_SRVID && Settled(c, Step(c, r, call, max), call.now, a)
  {
    var now, s := call.now, r.st.slots;
    if a.srvid != NO_SRVID {
      ProbeLeavesMissing(c, r, call, max, before, a);
    } else {
      var p, q :| 0 <= p < q < max && s[q] == FREE && s[p].srvid == NO_SRVID && s[p] != FREE
                  && !Overtime(c, s[p], now);
      assert s[p].last >= a.time;
      LossLeaves(c, r.st, call.req, now, max);
    }
  }

  /** What a probe that loses the entry of service 0xFFFF leaves: other entries that count. */
  lemma LossLeaves(c: Config, st: State, req: Request, now: int, max: nat)
    requires Tidy(st.slots) && max <= MAXECMRATELIMIT && FreeFrom(st.slots, max)
    requires LosesReserved(c, st.slots, req.srvid, now, max)
    ensures var st' := Limited(c, st, req, false, now, max).0;
            && st'.lastOverride == st.lastOverride
            && forall i :: 0 <= i < |st.slots| ==>
                 st'.slots[i] == if OtherCounts(c, st.slots[i], now) then st.slots[i] else FREE
  {
    var s := st.slots;
    var h := FirstUsable(c, s, req.srvid, now, max, 0);
    var p, q :| 0 <= p < q < max && s[q] == FREE && s[p].srvid == NO_SRVID && s[p] != FREE;
    SweptSlots(c, s, NO_SRVID, now, h, max);
    assert h <= p && s[LastMatch(s, NO_SRVID, h, max)] == FREE;
    hide Swept, LastMatch, FirstUsable;
  }

  lemma {:induction false} StepKeepsInv(c: Config, r: Run, call: Call, max: nat, before: int)
    requires max <= MAXECMRATELIMIT && 0 <= call.now && before <= call.now
    requires RunInv(c, r, max, before) && !Harms(c, r, call, max)
    ensures RunInv(c, Step(c, r, call, max), max, call.now)
  {
    var now := call.now;
    var r' := Step(c, r, call, max);
    LimitedKeepsTidy(c, r.st, call.req, call.reader, now, max);
    StepUpToDate(c, r, call, max, before);
    forall a | Missing(c, r', max, now, a)
      ensures c.dvbapi && Settled(c, r', now, a)
      ensures if !call.reader && LosesReserved(c, r.st.slots, call.req.srvid, now, max) then a.srvid == NO_SRVID
              else if Evicts(c, r.st, call.req, call.reader, now, max)
              then a.srvid == r.st.slots[Oldest(r.st.slots, now, max)].srvid
              else Missing(c, r, max, before, a)
    {
      StepCovers(c, r, call, max, before, a);
    }
    hide Harms, Tidy, Limited, LosesReserved, Evicts, Missing, UpToDate, Settled;
  }

  lemma StepCovers(c: Config, r: Run, call: Call, max: nat, before: int, a: Accept)
    requires max <= MAXECMRATELIMIT && 0 <= call.now && before <= call.now
    requires RunInv(c, r, max, before) && !Harms(c, r, call, max)
    requires Missing(c, Step(c, r, call, max), max, call.now, a)
    ensures c.dvbapi && Settled(c, Step(c, r, call, max), call.now, a)
    ensures if !call.reader && LosesReserved(c, r.st.slots, call.req.srvid, call.now, max) then a.srvid == NO_SRVID
            else if Evicts(c, r.st, call.req, call.reader, call.now, max)
            then a.srvid == r.st.slots[Oldest(r.st.slots, call.now, max)].srvid
            else Missing(c, r, max, before, a)
  {
    hide LosesReserved, Tidy, FreeFrom, UpToDate;
    if !call.reader && LosesReserved(c, r.st.slots, call.req.srvid, call.now, max) {
      HarmlessLoss(c, r, call, max, before, a);
    } else {
      MissingBefore(c, r, call, max, before, a);
      hide Harms;
      if Missing(c, r, max, before, a) {
        if Evicts(c, r.st, call.req, call.reader, call.now, max) {
          EvictionUnsettles(c, r, call, max, before, a);
        } else {
          StillSettled(c, r, call, max, before, a);
        }
      }
    }
  }

  lemma {:induction false} RunKeepsInv(c: Config, st: State, calls: seq<Call>, max: nat)
    requires max <= MAXECMRATELIMIT && Ordered(calls) && Tidy(st.slots) && FreeFrom(st.slots, max)
    requires Spared(c, st, calls, max)
    ensures calls != [] ==> RunInv(c, After(c, st, calls, max), max, calls[|calls| - 1].now)
    ensures calls == [] ==> forall now :: RunInv(c, After(c, st, calls, max), max, now)
  {
    if calls != [] {
      var n := |calls| - 1;
      RunKeepsInv(c, st, calls[..n], max);
      var before := if n == 0 then calls[n].now else calls[..n][n - 1].now;
      StepKeepsInv(c, After(c, st, calls[..n], max), calls[n], max, before);
    }
  }

  /** The services accepted from time `lo` to time `hi`. */
  ghost function Window(accepts: seq<Accept>, lo: int, hi: int): set<Srvid> {
    set a | a in accepts && lo <= a.time <= hi :: a.srvid
  }

  ghost function Ids(slots: Slots, n: nat): set<Srvid>
    requires n <= |slots|
  {
    set i | 0 <= i < n :: slots[i].srvid
  }

  lemma {:induction false} IdsSize(slots: Slots, n: nat)
    requires n <= |slots|
    ensures |Ids(slots, n)| <= n
  {
    if n > 0 {
      IdsSize(slots, n - 1);
      assert Ids(slots, n) == Ids(slots, n - 1) + {slots[n - 1].srvid};
    }
  }

  lemma SubsetSize<T>(a: set<T>, b: set<T>)
    requires a <= b
    ensures |a| <= |b|
  {
    assert b == a + (b - a);
  }

  /** The sliding-window bound.  Under a limit of `max` slots the reader accepts at most `max`
      different services in any window of `seconds`, one more where the override is built in. */
  lemma {:induction false} SlidingWindow(c: Config, st: State, calls: seq<Call>, max: nat, lo: int)
    requires max <= MAXECMRATELIMIT && Ordered(calls) && Tidy(st.slots) && FreeFrom(st.slots, max)
    requires Spared(c, st, calls, max)
    ensures |Window(After(c, st, calls, max).accepts, lo, lo + c.seconds)| <= max + if c.dvbapi then 1 else 0
  {
    var r := After(c, st, calls, max);
    var w := Window(r.accepts, lo, lo + c.seconds);
    if calls == [] {
      assert w == {};
    } else {
      var n := |calls| - 1;
      if calls[n].now > lo + c.seconds {
        SlidingWindow(c, st, calls[..n], max, lo);
        assert w == Window(After(c, st, calls[..n], max).accepts, lo, lo + c.seconds);
      } else {
        RunKeepsInv(c, st, calls, max);
        WindowCovered(c, r, max, calls[n].now, lo);
      }
    }
  }

  lemma {:induction false} WindowCovered(c: Config, r: Run, max: nat, now: int, lo: int)
    requires max <= MAXECMRATELIMIT && RunInv(c, r, max, now) && now <= lo + c.seconds
    ensures |Window(r.accepts, lo, lo + c.seconds)| <= max + if c.dvbapi then 1 else 0
  {
    var w := Window(r.accepts, lo, lo + c.seconds);
    var cover := Ids(r.st.slots, max);
    if m :| Missing(c, r, max, now, m) {
      cover := cover + {m.srvid};
    }
    forall s | s in w ensures s in cover {
      var a :| a in r.accepts && lo <= a.time <= lo + c.seconds && a.srvid == s;
      assert now - a.time <= c.seconds;
      assert Missing(c, r, max, now, a) || HasEntry(r.st.slots, max, a);
    }
    IdsSize(r.st.slots, max);
    SubsetSize(w, cover);
  }

  // ---------- The cooldown machine ----------

  /** The slot with the latest entry among `i .. n - 1`, the first one on ties. */
  function Latest(slots: Slots, i: nat, n: nat): (r: nat)
    requires i < n <= MAXECMRATELIMIT
    ensures i <= r < n
    ensures forall j :: i <= j < n ==> slots[j].last <= slots[r].last
  {
    if n == i + 1 then i else
      var l := Latest(slots, i, n - 1);
      if slots[n - 1].last > slots[l].last then n - 1 else l
  }

  /** The slots after `k` steps of the selection sort. */
  function Selected(slots: Slots, k: nat): Slots
    requires k <= MAXECMRATELIMIT
  {
    if k == 0 then slots else
      var s := Selected(slots, k - 1);
      var l := Latest(s, k - 1, MAXECMRATELIMIT);
      s[l := s[k - 1]][k - 1 := s[l]]
  }

  function Youngest(slots: Slots, k: nat): Slots
    requires k <= MAXECMRATELIMIT
  {
    Selected(slots, k)[..k] + seq(MAXECMRATELIMIT - k, _ => FREE)
  }

  lemma {:induction false} SelectedSorts(slots: Slots, k: nat)
    requires k <= MAXECMRATELIMIT
    ensures var s := Selected(slots, k);
            && multiset(s) == multiset(slots)
            && (forall i, j :: 0 <= i < k && i < j < |s| ==> s[i].last >= s[j].last)
  {
    if k > 0 {
      SelectedSorts(slots, k - 1);
      var s := Selected(slots, k - 1);
      var l := Latest(s, k - 1, MAXECMRATELIMIT);
      Swap(s, l, k - 1);
    }
  }

  lemma Swap(s: seq<Slot>, i: nat, j: nat)
    requires i < |s| && j < |s|
    ensures multiset(s[i := s[j]][j := s[i]]) == multiset(s)
  {
  }

  /** Entering the limiting phase keeps exactly the `k` youngest entries, youngest first: what is
      dropped together with what is kept makes up the old slots, and nothing dropped is younger. */
  lemma {:induction false} YoungestKept(slots: Slots, k: nat)
    requires k <= MAXECMRATELIMIT
    ensures var s, dropped := Youngest(slots, k), Selected(slots, k)[k..];
            && multiset(s[..k]) + multiset(dropped) == multiset(slots)
            && (forall i, j :: 0 <= i < j < k ==> s[i].last >= s[j].last)
            && (forall i, j :: 0 <= i < k && 0 <= j < |dropped| ==> s[i].last >= dropped[j].last)
            && FreeFrom(s, k)
  {
    SelectedSorts(slots, k);
    var sel := Selected(slots, k);
    assert sel == sel[..k] + sel[k..];
    assert Youngest(slots, k)[..k] == sel[..k];
  }

  lemma {:induction false} SelectedTidy(slots: Slots, k: nat)
    requires k <= MAXECMRATELIMIT && Tidy(slots)
    ensures Tidy(Selected(slots, k))
  {
    if k > 0 { SelectedTidy(slots, k - 1); }
  }

  /** The entries among the first `n` slots that still count at the end of the delay phase. */
  function Pending(c: Config, st: State, n: nat): nat
    requires n <= MAXECMRATELIMIT
  {
    if n == 0 then 0 else
      Pending(c, st, n - 1) + if st.since + c.delay - st.slots[n - 1].last <= c.seconds then 1 else 0
  }

  predicate DelayOver(c: Config, st: State, now: int) {
    st.cooldown == 2 && now - st.since > c.delay
  }

  predicate PeriodOver(c: Config, st: State, now: int) {
    st.cooldown == 1 && now - st.since > c.period
  }

  /** The transitions the clock alone decides, and how many slots may then be searched. */
  function Tick(c: Config, st: State, now: int): (State, nat)
    requires c.ecm <= MAXECMRATELIMIT
  {
    if PeriodOver(c, st, now) then (st.(cooldown := 0, since := 0), MAXECMRATELIMIT)
    else if st.cooldown == 1 then (st, c.ecm)
    else if !DelayOver(c, st, now) then (st, MAXECMRATELIMIT)
    else if Pending(c, st, MAXECMRATELIMIT) <= c.ecm then (st.(cooldown := 0, since := 0), MAXECMRATELIMIT)
    else (st.(slots := Youngest(st.slots, c.ecm), cooldown := 1, since := now), c.ecm)
  }

  /** The whole call. */
  function Checked(c: Config, st: State, req: Request, reader: bool, now: int): (State, bool)
    requires c.ecm <= MAXECMRATELIMIT
  {
    if c.ecm == 0 then (st, true)
    else if c.delay == 0 then Limited(c, st, req, reader, now, c.ecm)
    else
      var (t, max) := Tick(c, st, now);
      var (st', ok) := Limited(c, t, req, reader, now, max);
      if ok && reader && t.cooldown == 0 && Found(c, t, req, now, max).1 >= c.ecm
      then (st'.(cooldown := 2, since := now), ok)
      else (st', ok)
  }

  /** `since` is only set in the delay and the limiting phase, and the limiting phase uses no slot
      beyond the limit. */
  ghost predicate CooldownInv(c: Config, st: State) {
    && Tidy(st.slots)
    && st.cooldown in {0, 1, 2}
    && (st.cooldown == 0 ==> st.since == 0)
    && (st.cooldown == 1 ==> FreeFrom(st.slots, c.ecm))
  }

  lemma {:induction false} CheckKeepsInv(c: Config, st: State, req: Request, reader: bool, now: int)
    requires 0 < c.ecm <= MAXECMRATELIMIT && c.delay != 0 && CooldownInv(c, st) && now >= 0
    ensures CooldownInv(c, Checked(c, st, req, reader, now).0)
  {
    var (t, max) := Tick(c, st, now);
    if t.cooldown == 1 && st.cooldown == 2 {
      SelectedTidy(st.slots, c.ecm);
    }
    hide Selected, FirstUsable, Tidied;
    LimitedKeepsTidy(c, t, req, reader, now, max);
  }

  /** Exactly when each phase is left and entered.  The delay phase starts when the reader takes a slot
      beyond the limit outside of the other phases; a probe never starts it. */
  lemma {:induction false} Transitions(c: Config, st: State, req: Request, reader: bool, now: int)
    requires 0 < c.ecm <= MAXECMRATELIMIT && c.delay != 0 && CooldownInv(c, st) && now >= 0
    ensures var (st', ok) := Checked(c, st, req, reader, now);
            var overrun := DelayOver(c, st, now) && Pending(c, st, MAXECMRATELIMIT) > c.ecm;
            var limiting := overrun || (st.cooldown == 1 && !PeriodOver(c, st, now));
            var delaying := st.cooldown == 2 && !DelayOver(c, st, now);
            var beyond := exists k :: c.ecm <= k < MAXECMRATELIMIT && st'.slots[k] == Slot(req.srvid, now);
            && (st'.cooldown == 1 <==> limiting)
            && (limiting ==> st'.since == if overrun then now else st.since)
            && (st'.cooldown == 2 <==> delaying || (!limiting && ok && reader && beyond))
            && (st'.cooldown == 2 ==> st'.since == if delaying then st.since else now)
  {
    var (t, max) := Tick(c, st, now);
    var k := Found(c, t, req, now, max).1;
    if t.cooldown == 1 && st.cooldown == 2 {
      SelectedTidy(st.slots, c.ecm);
    }
    hide Tidied, Selected, Pending, FirstUsable;
    SpaceFrame(c, t, req, reader, now, max);
    LimitedKeepsTidy(c, t, req, reader, now, max);
    if k >= 0 && reader {
      assert Limited(c, t, req, reader, now, max).0.slots[k] == Slot(req.srvid, now);
    }
  }

  /** Looking for space leaves the cooldown alone and finds a slot below `max`, or none. */
  lemma SpaceFrame(c: Config, st: State, req: Request, reader: bool, now: int, max: nat)
    requires max <= MAXECMRATELIMIT
    ensures var st' := Limited(c, st, req, reader, now, max).0;
            st'.cooldown == st.cooldown && st'.since == st.since
    ensures var (t, k) := Found(c, st, req, now, max);
            -1 <= k < max && t.cooldown == st.cooldown && t.since == st.since
  {
  }

  // ---------- Runs of whole calls ----------

  function CheckAll(c: Config, st: State, calls: seq<Call>): (State, seq<Accept>)
    requires c.ecm <= MAXECMRATELIMIT
  {
    if calls == [] then (st, []) else
      var n := |calls| - 1;
      var (st1, accepts) := CheckAll(c, st, calls[..n]);
      var (st2, ok) := Checked(c, st1, calls[n].req, calls[n].reader, calls[n].now);
      (st2, if ok && calls[n].reader then accepts + [Accept(calls[n].req.srvid, calls[n].now)] else accepts)
  }

  /** The limit is in force: no cooldown configured, or the limiting phase lasts over all calls. */
  ghost predicate LimitInForce(c: Config, st: State, calls: seq<Call>) {
    && 0 < c.ecm <= MAXECMRATELIMIT
    && (c.delay == 0 || (st.cooldown == 1 && forall i :: 0 <= i < |calls| ==> calls[i].now - st.since <= c.period))
  }

  lemma {:induction false} CheckAllIsLimited(c: Config, st: State, calls: seq<Call>)
    requires LimitInForce(c, st, calls)
    ensures var (st', accepts) := CheckAll(c, st, calls);
            var r := After(c, st, calls, c.ecm);
            st' == r.st && accepts == r.accepts && st'.cooldown == st.cooldown && st'.since == st.since
  {
    if calls != [] {
      var n := |calls| - 1;
      CheckAllIsLimited(c, st, calls[..n]);
      var st1 := CheckAll(c, st, calls[..n]).0;
      SpaceFrame(c, st1, calls[n].req, calls[n].reader, calls[n].now, c.ecm);
      hide Tidied, FirstUsable, Oldest;
    }
  }

  /** While the limit is in force, no window of `seconds` sees more than `ecm` accepted services, one
      more where the override is built in. */
  lemma {:induction false} LimitHolds(c: Config, st: State, calls: seq<Call>, lo: int)
    requires LimitInForce(c, st, calls) && Ordered(calls) && Tidy(st.slots) && FreeFrom(st.slots, c.ecm)
    requires Spared(c, st, calls, c.ecm)
    ensures |Window(CheckAll(c, st, calls).1, lo, lo + c.seconds)| <= c.ecm + if c.dvbapi then 1 else 0
  {
    CheckAllIsLimited(c, st, calls);
    SlidingWindow(c, st, calls, c.ecm, lo);
  }

  lemma {:induction false} CooldownRun(c: Config, st: State, calls: seq<Call>)
    requires 0 < c.ecm <= MAXECMRATELIMIT && c.delay != 0 && CooldownInv(c, st) && Ordered(calls)
    ensures CooldownInv(c, CheckAll(c, st, calls).0)
  {
    hide Checked, Tidy, FreeFrom;
    if calls != [] {
      var n := |calls| - 1;
      CooldownRun(c, st, calls[..n]);
      CheckKeepsInv(c, CheckAll(c, st, calls[..n]).0, calls[n].req, calls[n].reader, calls[n].now);
    }
  }

  // ---------- The code ----------

  /** The rate-limit fields of a reader.  The slot array has a fixed size; `ecm` must fit into it,
      which the configuration reader leaves to the user. */
  class Limiter {
    const c: Config
    const rlecmh: array<Slot>
    var lastdvbapirateoverride: int
    var cooldownstate: int
    var cooldowntime: int

    ghost predicate Valid()
      reads this
    {
      rlecmh.Length == MAXECMRATELIMIT && c.ecm <= MAXECMRATELIMIT
    }

    function Now(): State
      requires Valid()
      reads this, rlecmh
    {
      State(rlecmh[..], lastdvbapirateoverride, cooldownstate, cooldowntime)
    }

    constructor (c: Config)
      requires c.ecm <= MAXECMRATELIMIT
      ensures Valid() && this.c == c && fresh(rlecmh) && Now() == Fresh()
    {
      this.c := c;
      rlecmh := new Slot[MAXECMRATELIMIT](_ => FREE);
      lastdvbapirateoverride, cooldownstate, cooldowntime := 0, 0, 0;
    }

    /** The housekeeping loop behind slot `h` and the release of a foreign entry in `h`. */
    method Tidy(srvid: Srvid, now: int, h: nat, max: nat)
      requires Valid() && h < max <= MAXECMRATELIMIT
      modifies rlecmh
      ensures rlecmh[..] == Tidied(c, old(rlecmh[..]), srvid, now, h, max)
    {
      hide SweepSlot;
      ghost var s := rlecmh[..];
      for f := h + 1 to max
        invariant rlecmh[..] == Swept(c, s, srvid, now, h, f)
      {
        SweepOne(srvid, now, h, f);
      }
      if rlecmh[h].srvid != srvid && rlecmh[h].last != -1 {
        rlecmh[h] := FREE;
      }
    }

    method SweepOne(srvid: Srvid, now: int, h: nat, f: nat)
      requires Valid() && h < f < MAXECMRATELIMIT
      modifies rlecmh
      ensures rlecmh[..] == SweepSlot(c, old(rlecmh[..]), srvid, now, h, f)
    {
      if rlecmh[f].srvid == srvid {
        rlecmh[h] := rlecmh[f];
        rlecmh[f] := FREE;
      }
      if now - rlecmh[f].last > c.seconds && rlecmh[f].last != -1 {
        rlecmh[f] := FREE;
      }
    }

    method FindSpace(req: Request, now: int, maxloop: nat) returns (space: int)
      requires Valid() && maxloop <= MAXECMRATELIMIT
      modifies this`lastdvbapirateoverride, rlecmh
      ensures (Now(), space) == Found(c, old(Now()), req, now, maxloop)
    {
      hide Tidied;
      for h := 0 to maxloop
        invariant Now() == old(Now())
        invariant FirstUsable(c, rlecmh[..], req.srvid, now, maxloop, 0)
                  == FirstUsable(c, rlecmh[..], req.srvid, now, maxloop, h)
      {
        if now - rlecmh[h].last > c.seconds || rlecmh[h].last == -1 || rlecmh[h].srvid == req.srvid {
          Tidy(req.srvid, now, h, maxloop);
          return h;
        }
      }
      if c.dvbapi && req.dvbapiUser {
        if lastdvbapirateoverride < now - c.seconds {
          space := -1;
          var minecmtime := now;
          for h := 0 to maxloop
            invariant -1 <= space < h && space == Oldest(rlecmh[..], now, h)
            invariant minecmtime == if space < 0 then now else rlecmh[space].last
            invariant Now() == old(Now())
          {
            if rlecmh[h].last < minecmtime {
              minecmtime := rlecmh[h].last;
              space := h;
            }
          }
          lastdvbapirateoverride := now;
          return;
        }
      }
      return -1;
    }

    /** The partial selection sort, and the release of the slots behind it. */
    method SortEcmrl()
      requires Valid()
      modifies rlecmh
      ensures rlecmh[..] == Youngest(old(rlecmh[..]), c.ecm)
    {
      ghost var s := rlecmh[..];
      for i := 0 to c.ecm
        invariant rlecmh[..] == Selected(s, i)
      {
        SelectLatest(i);
      }
      ReleaseFrom(c.ecm);
    }

    /** Swaps the latest of the slots from `i` on into slot `i`. */
    method SelectLatest(i: nat)
      requires Valid() && i < MAXECMRATELIMIT
      modifies rlecmh
      ensures var s := old(rlecmh[..]);
              var l := Latest(s, i, MAXECMRATELIMIT);
              rlecmh[..] == s[l := s[i]][i := s[l]]
    {
      var loc, tmp := i, rlecmh[i];
      for j := i + 1 to MAXECMRATELIMIT
        invariant i <= loc < j && loc == Latest(rlecmh[..], i, j) && tmp == rlecmh[loc]
      {
        if rlecmh[j].last > tmp.last {
          loc, tmp := j, rlecmh[j];
        }
      }
      if loc != i {
        rlecmh[loc] := rlecmh[i];
        rlecmh[i] := tmp;
      }
    }

    method ReleaseFrom(k: nat)
      requires Valid() && k <= MAXECMRATELIMIT
      modifies rlecmh
      ensures rlecmh[..] == old(rlecmh[..k]) + seq(MAXECMRATELIMIT - k, _ => FREE)
    {
      for i := k to MAXECMRATELIMIT
        invariant forall j :: 0 <= j < k ==> rlecmh[j] == old(rlecmh[j])
        invariant forall j :: k <= j < i ==> rlecmh[j] == FREE
      {
        rlecmh[i] := FREE;
      }
    }

    method Register(space: nat, req: Request, now: int)
      requires Valid() && space < MAXECMRATELIMIT
      modifies rlecmh
      ensures rlecmh[..] == old(rlecmh[..])[space := Slot(req.srvid, now)]
    {
      rlecmh[space] := Slot(req.srvid, now);
    }

    method Check(req: Request, readerMode: bool, now: int) returns (ok: bool)
      requires Valid()
      modifies this, rlecmh
      ensures (Now(), ok) == Checked(c, old(Now()), req, readerMode, now)
    {
      hide Found, Youngest;
      if c.ecm == 0 {
        return true;
      }
      var foundspace;
      if c.delay == 0 {
        SpaceFrame(c, Now(), req, readerMode, now, c.ecm);
        foundspace := FindSpace(req, now, c.ecm);
        if foundspace < 0 {
          return false;
        }
        if readerMode {
          Register(foundspace, req, now);
        }
        return true;
      }
      var maxslots := MAXECMRATELIMIT;
      if cooldownstate == 1 {
        if now - cooldowntime <= c.period {
          maxslots := c.ecm;
        } else {
          cooldownstate, cooldowntime := 0, 0;
        }
      }
      if cooldownstate == 2 && now - cooldowntime > c.delay {
        var over := CountPending();
        if !over {
          cooldownstate, cooldowntime := 0, 0;
          maxslots := MAXECMRATELIMIT;
        } else {
          cooldownstate, cooldowntime := 1, now;
          maxslots := c.ecm;
          SortEcmrl();
        }
      }
      SpaceFrame(c, Now(), req, readerMode, now, maxslots);
      foundspace := FindSpace(req, now, maxslots);
      if foundspace < 0 {
        return false;
      }
      if cooldownstate == 0 && foundspace >= c.ecm {
        if !readerMode {
          return true;
        }
        cooldownstate, cooldowntime := 2, now;
      }
      if readerMode {
        Register(foundspace, req, now);
      }
      return true;
    }

    /** Whether more than `ecm` entries still count at the end of the delay phase; the loop stops at
        the first one too many. */
    method CountPending() returns (over: bool)
      requires Valid()
      ensures over <==> Pending(c, Now(), MAXECMRATELIMIT) > c.ecm
    {
      var maxslots := 0;
      for h := 0 to MAXECMRATELIMIT
        invariant maxslots == Pending(c, Now(), h) <= c.ecm
      {
        if cooldowntime + c.delay - rlecmh[h].last <= c.seconds {
          maxslots := maxslots + 1;
          if maxslots > c.ecm {
            PendingGrows(c, Now(), h + 1, MAXECMRATELIMIT);
            return true;
          }
        }
      }
      return false;
    }
  }

  lemma {:induction false} PendingGrows(c: Config, st: State, m: nat, n: nat)
    requires m <= n <= MAXECMRATELIMIT
    ensures Pending(c, st, m) <= Pending(c, st, n)
  {
    if m < n { PendingGrows(c, st, m, n - 1); }
  }
}
