/**
 The in-memory fixed-window rate limiter: how many requests a caller can get through, and
 why the sweeper that drops old counters cannot be noticed.
 */
module RateLimit {

  datatype Visitor = Visitor(count: int, windowStart: int, window: int)

  /** Five minutes, in nanoseconds: how long a counter lingers at least. */
  const LINGER: int := 300_000_000_000

  /** The counter has to be opened anew. */
  predicate Closed(visitors: map<string, Visitor>, key: string, window: int, now: int) {
    key !in visitors || now - visitors[key].windowStart >= window
  }

  function Counted(visitors: map<string, Visitor>, key: string, window: int, now: int): Visitor {
    if Closed(visitors, key, window, now) then Visitor(1, now, window)
    else visitors[key].(count := visitors[key].count + 1)
  }

  predicate Expired(v: Visitor, now: int) {
    now - v.windowStart > (if v.window > LINGER then v.window else LINGER)
  }

  function Swept(visitors: map<string, Visitor>, now: int): map<string, Visitor> {
    map k | k in visitors && !Expired(visitors[k], now) :: visitors[k]
  }

  class MemoryBackend {
    var visitors: map<string, Visitor>

    constructor ()
      ensures visitors == map[]
    {
      visitors := map[];
    }

    method Allow(key: string, rate: int, window: int, now: int) returns (allowed: bool)
      modifies this
      ensures visitors == old(visitors)[key := Counted(old(visitors), key, window, now)]
      ensures var open := key in old(visitors) && now - old(visitors)[key].windowStart < window;
        && key in visitors && visitors - {key} == old(visitors) - {key}
        && (open ==>
              && visitors[key] == old(visitors)[key].(count := old(visitors)[key].count + 1)
              && (allowed <==> old(visitors)[key].count < rate))
        && (!open ==> allowed && visitors[key] == Visitor(1, now, window))
    {
      if key !in visitors || now - visitors[key].windowStart >= window {
        visitors := visitors[key := Visitor(1, now, window)];
        return true;
      }
      visitors := visitors[key := visitors[key].(count := visitors[key].count + 1)];
      return visitors[key].count <= rate;
    }

    method Cleanup(now: int)
      modifies this
      ensures visitors == Swept(old(visitors), now)
      ensures forall k :: k in visitors ==> k in old(visitors) && visitors[k] == old(visitors)[k]
      ensures forall k :: k in old(visitors) ==>
        var age := now - old(visitors)[k].windowStart;
        (k !in visitors <==> age > old(visitors)[k].window && age > 5 * 60 * 1_000_000_000)
    {
      var rest := visitors.Keys;
      while rest != {}
        invariant rest <= old(visitors).Keys
        invariant forall k :: k in visitors <==> k in old(visitors) && (k in rest || !Expired(old(visitors)[k], now))
        invariant forall k :: k in visitors ==> visitors[k] == old(visitors)[k]
        decreases rest
      {
        var key :| key in rest;
        var v := visitors[key];
        var ttl := if v.window > LINGER then v.window else LINGER;
        if now - v.windowStart > ttl {
          visitors := visitors - {key};
        }
        rest := rest - {key};
      }
      assert visitors.Keys == Swept(old(visitors), now).Keys;
    }
  }

  // ─── Whole runs ───

  datatype Event = Request(key: string, now: int) | Sweep(now: int)

  datatype Entry = Entry(key: string, time: int, allowed: bool)

  /** Each key has one rate and one window length. */
  datatype Limits = Limits(rate: string -> int, window: string -> int)

  ghost predicate Sensible(l: Limits) {
    forall k :: l.rate(k) >= 1 && l.window(k) >= 1
  }

  /** The counters, and the log of every request with its answer. */
  datatype State = State(visitors: map<string, Visitor>, log: seq<Entry>)

  const START := State(map[], [])

  function After(s: State, e: Event, l: Limits): State {
    match e
    case Sweep(now) => s.(visitors := Swept(s.visitors, now))
    case Request(key, now) =>
      var v := Counted(s.visitors, key, l.window(key), now);
      var allowed := Closed(s.visitors, key, l.window(key), now) || v.count <= l.rate(key);
      State(s.visitors[key := v], s.log + [Entry(key, now, allowed)])
  }

  function Run(s: State, events: seq<Event>, l: Limits): State
    decreases events
  {
    if events == [] then s else Run(After(s, events[0], l), events[1..], l)
  }

  /** The clock does not go back. */
  predicate Clocked(events: seq<Event>, from: int)
    decreases events
  {
    events == [] || (from <= events[0].now && Clocked(events[1..], events[0].now))
  }

  function EndClock(events: seq<Event>, clock: int): int {
    if events == [] then clock else EndClock(events[1..], events[0].now)
  }

  function Requests(events: seq<Event>): seq<Event> {
    if events == [] then []
    else if events[0].Request? then [events[0]] + Requests(events[1..])
    else Requests(events[1..])
  }

  // ─── Sweeping is not observable ───

  /** The swept counters are the unswept ones but for some whose window has closed. */
  ghost predicate Simulates(swept: map<string, Visitor>, full: map<string, Visitor>, l: Limits, now: int) {
    && (forall k :: k in swept ==> k in full && swept[k] == full[k])
    && (forall k :: k in full ==> full[k].window == l.window(k))
    && (forall k :: k in full && k !in swept ==> now - full[k].windowStart >= l.window(k))
  }

  lemma {:induction false} SimulatesRun(s: State, f: State, events: seq<Event>, l: Limits, clock: int)
    requires Simulates(s.visitors, f.visitors, l, clock) && s.log == f.log && Clocked(events, clock)
    ensures Run(s, events, l).log == Run(f, Requests(events), l).log
    ensures Simulates(Run(s, events, l).visitors, Run(f, Requests(events), l).visitors, l, EndClock(events, clock))
    decreases events
  {
    if events != [] {
      if events[0].Request? {
        SimulatesRun(After(s, events[0], l), After(f, events[0], l), events[1..], l, events[0].now);
        assert Requests(events)[1..] == Requests(events[1..]);
      } else {
        SimulatesRun(After(s, events[0], l), f, events[1..], l, events[0].now);
      }
    }
  }

  /** Wherever sweeps fall in a run, every request gets the answer it would get without them. */
  lemma SweepsAreUnobservable(events: seq<Event>, l: Limits, clock: int)
    requires Clocked(events, clock)
    ensures Run(START, events, l).log == Run(START, Requests(events), l).log
  {
    SimulatesRun(START, START, events, l, clock);
  }

  // ─── How many requests get through ───

  /** The requests of the key let through from `lo` up to, and not including, `hi`. */
  function Admitted(log: seq<Entry>, key: string, lo: int, hi: int): nat {
    if log == [] then 0
    else
      var last := log[|log| - 1];
      Admitted(log[..|log| - 1], key, lo, hi)
        + (if last.allowed && last.key == key && lo <= last.time < hi then 1 else 0)
  }

  /** The requests of the key let through in an interval of the given length. */
  function AdmittedDuring(log: seq<Entry>, key: string, from: int, length: int): nat {
    Admitted(log, key, from, from + length)
  }

  lemma {:induction false} AdmittedSplit(log: seq<Entry>, key: string, lo: int, mid: int, hi: int)
    requires lo <= mid <= hi
    ensures Admitted(log, key, lo, hi) == Admitted(log, key, lo, mid) + Admitted(log, key, mid, hi)
  {
    if log != [] {
      AdmittedSplit(log[..|log| - 1], key, lo, mid, hi);
    }
  }

  lemma {:induction false} NoneFrom(log: seq<Entry>, key: string, lo: int, hi: int)
    requires forall i :: 0 <= i < |log| && log[i].key == key ==> log[i].time < lo
    ensures Admitted(log, key, lo, hi) == 0
  {
    if log != [] {
      NoneFrom(log[..|log| - 1], key, lo, hi);
    }
  }

  /** What the key's current window, opened at `start`, knows about the requests let through. */
  ghost predicate InWindow(log: seq<Entry>, key: string, v: Visitor, rate: int) {
    && (forall i :: 0 <= i < |log| && log[i].key == key ==> log[i].time < v.windowStart + v.window)
    && (forall hi :: Admitted(log, key, v.windowStart, hi) <= v.count)
    && (forall hi :: Admitted(log, key, v.windowStart, hi) <= rate)
    && (forall a :: v.windowStart - v.window < a <= v.windowStart ==> Admitted(log, key, a, v.windowStart) <= rate)
  }

  ghost predicate Bounded(log: seq<Entry>, key: string, window: int, rate: int) {
    forall from :: AdmittedDuring(log, key, from, window) <= 2 * rate
  }

  ghost predicate Inv(s: State, key: string, l: Limits, now: int) {
    && Bounded(s.log, key, l.window(key), l.rate(key))
    && if key in s.visitors then
         && s.visitors[key].window == l.window(key)
         && s.visitors[key].windowStart <= now
         && InWindow(s.log, key, s.visitors[key], l.rate(key))
       else
         forall i :: 0 <= i < |s.log| ==> s.log[i].key != key
  }

  /** A request that opens a window: everything let through lately came through the window before. */
  lemma OpenWindow(s: State, key: string, l: Limits, clock: int, t: int)
    requires Sensible(l) && Inv(s, key, l, clock) && clock <= t && Closed(s.visitors, key, l.window(key), t)
    ensures Inv(After(s, Request(key, t), l), key, l, t)
  {
    var W, rate, e := l.window(key), l.rate(key), Entry(key, t, true);
    var log' := s.log + [e];
    forall hi
      ensures Admitted(log', key, t, hi) <= 1
    {
      NoneFrom(s.log, key, t, hi);
    }
    forall a | t - W < a <= t
      ensures Admitted(s.log, key, a, t) <= rate && Admitted(log', key, a, t) <= rate
    {
      if key in s.visitors {
        AdmittedSplit(s.log, key, s.visitors[key].windowStart, a, t);
      } else {
        NoneFrom(s.log, key, a, t);
      }
    }
    forall a
      ensures AdmittedDuring(log', key, a, W) <= 2 * rate
    {
      assert AdmittedDuring(s.log, key, a, W) <= 2 * rate;
      if a <= t < a + W {
        AdmittedSplit(s.log, key, a, t, a + W);
        NoneFrom(s.log, key, t, a + W);
      }
    }
  }

  /** A request within the window: an interval one window long meets this window and at most the one before. */
  lemma SameWindow(s: State, key: string, l: Limits, clock: int, t: int)
    requires Sensible(l) && Inv(s, key, l, clock) && clock <= t && !Closed(s.visitors, key, l.window(key), t)
    ensures Inv(After(s, Request(key, t), l), key, l, t)
  {
    var W, rate, v := l.window(key), l.rate(key), s.visitors[key];
    var e := Entry(key, t, v.count + 1 <= rate);
    var log' := s.log + [e];
    forall hi
      ensures Admitted(log', key, v.windowStart, hi) <= v.count + 1 && Admitted(log', key, v.windowStart, hi) <= rate
    {
    }
    forall a | v.windowStart - W < a <= v.windowStart
      ensures Admitted(log', key, a, v.windowStart) <= rate
    {
    }
    forall a
      ensures AdmittedDuring(log', key, a, W) <= 2 * rate
    {
      assert AdmittedDuring(s.log, key, a, W) <= 2 * rate;
      if a <= t < a + W {
        if a >= v.windowStart {
          AdmittedSplit(log', key, v.windowStart, a, a + W);
        } else {
          AdmittedSplit(log', key, a, v.windowStart, a + W);
        }
      }
    }
  }

  lemma OtherKey(s: State, key: string, other: string, l: Limits, clock: int, t: int)
    requires Inv(s, key, l, clock) && clock <= t && other != key
    ensures Inv(After(s, Request(other, t), l), key, l, t)
  {
    var log' := After(s, Request(other, t), l).log;
    forall lo, hi
      ensures Admitted(log', key, lo, hi) == Admitted(s.log, key, lo, hi)
    {
    }
    forall a
      ensures AdmittedDuring(log', key, a, l.window(key)) == AdmittedDuring(s.log, key, a, l.window(key))
    {
    }
  }

  lemma {:induction false} InvRun(s: State, events: seq<Event>, key: string, l: Limits, clock: int)
    requires Sensible(l) && Inv(s, key, l, clock) && Clocked(events, clock)
    requires forall i :: 0 <= i < |events| ==> events[i].Request?
    ensures Inv(Run(s, events, l), key, l, EndClock(events, clock))
    decreases events
  {
    if events != [] {
      var e := events[0];
      if e.key != key {
        OtherKey(s, key, e.key, l, clock, e.now);
      } else if Closed(s.visitors, key, l.window(key), e.now) {
        OpenWindow(s, key, l, clock, e.now);
      } else {
        SameWindow(s, key, l, clock, e.now);
      }
      InvRun(After(s, e, l), events[1..], key, l, e.now);
    }
  }

  lemma {:induction false} RequestsAreClocked(events: seq<Event>, clock: int)
    requires Clocked(events, clock)
    ensures Clocked(Requests(events), clock)
    ensures forall i :: 0 <= i < |Requests(events)| ==> Requests(events)[i].Request?
    decreases events
  {
    if events != [] {
      RequestsAreClocked(events[1..], events[0].now);
      if events[0].Request? {
        assert Requests(events)[1..] == Requests(events[1..]);
      }
    }
  }

  /** In any run with any sweeps, at most twice the rate gets through in any interval one window long. */
  lemma AtMostTwiceTheRate(events: seq<Event>, l: Limits, clock: int, key: string, from: int)
    requires Sensible(l) && Clocked(events, clock)
    ensures AdmittedDuring(Run(START, events, l).log, key, from, l.window(key)) <= 2 * l.rate(key)
  {
    SweepsAreUnobservable(events, l, clock);
    RequestsAreClocked(events, clock);
    InvRun(START, Requests(events), key, l, clock);
  }

  // ─── Every window ───

  /** What a window opened at `start` lets through, and that it is the current one or over. */
  ghost predicate WindowBound(s: State, key: string, l: Limits, start: int) {
    && key in s.visitors
    && AdmittedDuring(s.log, key, start, l.window(key)) <= l.rate(key)
    && (s.visitors[key].windowStart == start || s.visitors[key].windowStart >= start + l.window(key))
  }

  lemma WindowBoundStep(s: State, e: Event, key: string, l: Limits, clock: int, start: int)
    requires Sensible(l) && Inv(s, key, l, clock) && clock <= e.now && e.Request? && WindowBound(s, key, l, start)
    ensures Inv(After(s, e, l), key, l, e.now) && WindowBound(After(s, e, l), key, l, start)
  {
    var t := After(s, e, l);
    if e.key != key {
      OtherKey(s, key, e.key, l, clock, e.now);
    } else if Closed(s.visitors, key, l.window(key), e.now) {
      OpenWindow(s, key, l, clock, e.now);
    } else {
      SameWindow(s, key, l, clock, e.now);
    }
  }

  lemma {:induction false} WindowBoundRun(s: State, events: seq<Event>, key: string, l: Limits, clock: int, start: int)
    requires Sensible(l) && Inv(s, key, l, clock) && Clocked(events, clock) && WindowBound(s, key, l, start)
    requires forall i :: 0 <= i < |events| ==> events[i].Request?
    ensures AdmittedDuring(Run(s, events, l).log, key, start, l.window(key)) <= l.rate(key)
    decreases events
  {
    if events != [] {
      WindowBoundStep(s, events[0], key, l, clock, start);
      WindowBoundRun(After(s, events[0], l), events[1..], key, l, events[0].now, start);
    }
  }

  lemma {:induction false} Concat(s: State, a: seq<Event>, b: seq<Event>, l: Limits, clock: int)
    ensures Run(s, a + b, l) == Run(Run(s, a, l), b, l)
    ensures Clocked(a + b, clock) ==> Clocked(a, clock) && Clocked(b, EndClock(a, clock))
    decreases a
  {
    if a == [] {
      assert a + b == b;
    } else {
      assert (a + b)[1..] == a[1..] + b;
      Concat(After(s, a[0], l), a[1..], b, l, a[0].now);
    }
  }

  lemma {:induction false} RequestsConcat(a: seq<Event>, b: seq<Event>)
    ensures Requests(a + b) == Requests(a) + Requests(b)
  {
    if a == [] {
      assert a + b == b;
    } else {
      assert (a + b)[1..] == a[1..] + b;
      RequestsConcat(a[1..], b);
      assert [a[0]] + Requests(a[1..]) + Requests(b) == [a[0]] + (Requests(a[1..]) + Requests(b));
    }
  }

  lemma {:induction false} RequestsEnd(events: seq<Event>, clock: int)
    requires Clocked(events, clock)
    ensures EndClock(Requests(events), clock) <= EndClock(events, clock)
    ensures clock <= EndClock(events, clock)
    decreases events
  {
    if events != [] {
      RequestsEnd(events[1..], events[0].now);
      if events[0].Request? {
        assert Requests(events)[1..] == Requests(events[1..]);
      }
    }
  }

  /**
   Each window lets at most the rate through. Take any moment of any run, and the window then open for the
   key: whatever comes before and after, no more than the rate gets through within it.
   */
  lemma AtMostRatePerWindow(before: seq<Event>, after: seq<Event>, l: Limits, clock: int, key: string)
    requires Sensible(l) && Clocked(before + after, clock)
    requires key in Run(START, before, l).visitors
    ensures var start := Run(START, before, l).visitors[key].windowStart;
      AdmittedDuring(Run(START, before + after, l).log, key, start, l.window(key)) <= l.rate(key)
  {
    Concat(START, before, after, l, clock);
    var s := Run(START, Requests(before), l);
    SimulatesRun(START, START, before, l, clock);
    SweepsAreUnobservable(before + after, l, clock);
    RequestsConcat(before, after);
    Concat(START, Requests(before), Requests(after), l, clock);
    RequestsAreClocked(before, clock);
    RequestsAreClocked(after, EndClock(before, clock));
    RequestsEnd(before, clock);
    InvRun(START, Requests(before), key, l, clock);
    WindowBoundRun(s, Requests(after), key, l, EndClock(Requests(before), clock), s.visitors[key].windowStart);
  }

  // ─── The rate is also granted ───

  /** How many requests of the key the log holds from a time on. */
  function Asked(log: seq<Entry>, key: string, lo: int): nat {
    if log == [] then 0
    else Asked(log[..|log| - 1], key, lo) + (if log[|log| - 1].key == key && log[|log| - 1].time >= lo then 1 else 0)
  }

  /**
   The current window's count is the number of its requests, and as long as that is within the rate all were
   allowed.
   */
  ghost predicate Granted(s: State, key: string, l: Limits, now: int) {
    key in s.visitors ==>
      var v := s.visitors[key];
      && v.window == l.window(key) && v.windowStart <= now
      && v.count == Asked(s.log, key, v.windowStart)
      && (v.count <= l.rate(key) ==>
            forall i :: 0 <= i < |s.log| && s.log[i].key == key && s.log[i].time >= v.windowStart ==> s.log[i].allowed)
  }

  /** Every request of a key is in its past: at most as late as the clock. */
  ghost predicate Past(s: State, key: string, now: int) {
    && (forall i :: 0 <= i < |s.log| && s.log[i].key == key ==> s.log[i].time <= now)
    && (key !in s.visitors ==> forall i :: 0 <= i < |s.log| ==> s.log[i].key != key)
    && (key in s.visitors ==> forall i :: 0 <= i < |s.log| && s.log[i].key == key ==>
          s.log[i].time < s.visitors[key].windowStart + s.visitors[key].window)
  }

  lemma {:induction false} AskedNone(log: seq<Entry>, key: string, lo: int)
    requires forall i :: 0 <= i < |log| && log[i].key == key ==> log[i].time < lo
    ensures Asked(log, key, lo) == 0
  {
    if log != [] {
      AskedNone(log[..|log| - 1], key, lo);
    }
  }

  /** The key's own request: what its window has seen, itself included, and whether it is let through. */
  ghost predicate Answered(s: State, t: State, key: string, l: Limits) {
    && key in t.visitors && |t.log| == |s.log| + 1
    && var asked := Asked(t.log, key, t.visitors[key].windowStart);
      asked >= 1 && (t.log[|s.log|].allowed <==> asked <= l.rate(key))
  }

  lemma GrantedOpen(s: State, key: string, now: int, l: Limits, clock: int)
    requires Sensible(l) && clock <= now && Past(s, key, clock) && Granted(s, key, l, clock)
    requires Closed(s.visitors, key, l.window(key), now)
    ensures var t := After(s, Request(key, now), l);
      Granted(t, key, l, now) && Past(t, key, now) && Answered(s, t, key, l)
  {
    var t := After(s, Request(key, now), l);
    AskedNone(s.log, key, now);
  }

  lemma GrantedStep(s: State, e: Event, key: string, l: Limits, clock: int)
    requires Sensible(l) && e.Request? && clock <= e.now && Granted(s, key, l, clock) && Past(s, key, clock)
    ensures Granted(After(s, e, l), key, l, e.now) && Past(After(s, e, l), key, e.now)
    ensures e.key == key ==> Answered(s, After(s, e, l), key, l)
  {
    if e.key == key && Closed(s.visitors, key, l.window(key), e.now) {
      GrantedOpen(s, key, e.now, l, clock);
    }
  }

  lemma {:induction false} GrantedRun(s: State, events: seq<Event>, key: string, l: Limits, clock: int)
    requires Sensible(l) && Clocked(events, clock) && Granted(s, key, l, clock) && Past(s, key, clock)
    requires forall i :: 0 <= i < |events| ==> events[i].Request?
    ensures Granted(Run(s, events, l), key, l, EndClock(events, clock))
    ensures Past(Run(s, events, l), key, EndClock(events, clock))
    decreases events
  {
    if events != [] {
      GrantedStep(s, events[0], key, l, clock);
      GrantedRun(After(s, events[0], l), events[1..], key, l, events[0].now);
    }
  }

  /**
   The rate is granted in full: after any requests, the next one of a key is answered yes exactly if, with itself,
   its window has seen no more requests of the key than the rate.
   */
  lemma RateIsGranted(events: seq<Event>, e: Event, l: Limits, clock: int)
    requires Sensible(l) && Clocked(events, clock) && e.Request? && EndClock(events, clock) <= e.now
    requires forall i :: 0 <= i < |events| ==> events[i].Request?
    ensures var s := Run(START, events, l); var t := After(s, e, l);
      && |t.log| == |s.log| + 1
      && (t.log[|s.log|].allowed <==> Asked(t.log, e.key, t.visitors[e.key].windowStart) <= l.rate(e.key))
  {
    GrantedRun(START, events, e.key, l, clock);
    GrantedStep(Run(START, events, l), e, e.key, l, EndClock(events, clock));
  }
}
