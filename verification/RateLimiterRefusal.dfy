/** When the rate limiter refuses a request (oscam/oscam-chk.c, lines 14-93 and 122-242): the answer of one
    call in slots and times, and the answers of a reader without a limit. */
module RateLimiterRefusal {
  import opened RateLimiter

  /** The requests of the reader itself among some calls. */
  function Requests(calls: seq<Call>): seq<Accept> {
    if calls == [] then []
    else
      var n := |calls| - 1;
      Requests(calls[..n]) + if calls[n].reader then [Accept(calls[n].req.srvid, calls[n].now)] else []
  }

  /** A reader without a limit accepts every request, whatever comes, and keeps no record. */
  lemma {:induction false} NoLimitAcceptsAll(c: Config, st: State, calls: seq<Call>)
    requires c.ecm == 0
    ensures CheckAll(c, st, calls) == (st, Requests(calls))
    ensures forall req, reader, now :: Checked(c, st, req, reader, now) == (st, true)
  {
    if calls != [] {
      var n := |calls| - 1;
      NoLimitAcceptsAll(c, st, calls[..n]);
      assert Requests(calls[..n]) + [] == Requests(calls[..n]);
    }
  }

  /** A slot holds another service that was requested at most `seconds` ago. */
  ghost predicate Busy(c: Config, s: Slot, srvid: Srvid, now: int) {
    s.last != -1 && s.srvid != srvid && now <= s.last + c.seconds
  }

  /** The one exception per `seconds` for the user of the DVB adapter, as far as some slot was not set in
      this very second. */
  ghost predicate Excepted(c: Config, st: State, slots: Slots, req: Request, now: int, n: nat)
    requires n <= MAXECMRATELIMIT
  {
    && c.dvbapi && req.dvbapiUser && st.lastOverride + c.seconds < now
    && exists i :: 0 <= i < n && slots[i].last < now
  }

  lemma LimitedRefuses(c: Config, st: State, req: Request, reader: bool, now: int, max: nat)
    requires max <= MAXECMRATELIMIT
    ensures !Limited(c, st, req, reader, now, max).1
            <==> (forall i :: 0 <= i < max ==> Busy(c, st.slots[i], req.srvid, now))
                 && !Excepted(c, st, st.slots, req, now, max)
  {
    hide Tidied, FirstUsable, Oldest;
    var h := FirstUsable(c, st.slots, req.srvid, now, max, 0);
    var r := Oldest(st.slots, now, max);
    if h < max {
      assert !Busy(c, st.slots[h], req.srvid, now);
    }
  }

  /** The limit is enforced in this call: there is no cooldown, or the limiting phase lasts, or it starts
      because the delay is over and too many entries still counted at its end. */
  ghost predicate Enforced(c: Config, st: State, now: int) {
    || c.delay == 0
    || (st.cooldown == 1 && now <= st.since + c.period)
    || Overrun(c, st, now)
  }

  ghost predicate Overrun(c: Config, st: State, now: int) {
    c.delay != 0 && st.cooldown == 2 && st.since + c.delay < now && Pending(c, st, MAXECMRATELIMIT) > c.ecm
  }

  /** For every state and call: a request is refused exactly when each slot that may be used holds another
      service that still counts, and no exception is due.  Where the limit is enforced these are the
      first `ecm` slots, after the youngest have been kept if the limiting phase starts; else all. */
  lemma RefusedExactly(c: Config, st: State, req: Request, reader: bool, now: int)
    requires 0 < c.ecm <= MAXECMRATELIMIT
    ensures var n := if Enforced(c, st, now) then c.ecm else MAXECMRATELIMIT;
            var slots := if Overrun(c, st, now) then Youngest(st.slots, c.ecm) else st.slots;
            !Checked(c, st, req, reader, now).1
            <==> (forall i :: 0 <= i < n ==> Busy(c, slots[i], req.srvid, now))
                 && !Excepted(c, st, slots, req, now, n)
  {
    hide Limited, Youngest, Pending, Busy;
    if c.delay == 0 {
      LimitedRefuses(c, st, req, reader, now, c.ecm);
    } else {
      var (t, max) := Tick(c, st, now);
      LimitedRefuses(c, t, req, reader, now, max);
    }
  }
}
