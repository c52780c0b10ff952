/** Usage quotas: bounded int64 counters, the recording call, and the once-per-crossing warning. */
module Usage {
  import opened Wrappers

  const MAX_INT64: int := 0x7FFF_FFFF_FFFF_FFFF

  /** UNIQUE(license_id, feature, period, period_key). */
  datatype CounterKey = CounterKey(license: string, feature: string, period: string, periodKey: string)

  datatype Increment = TooLarge | Rejected(used: int) | Accepted(used: int)

  /** The decision on a counter that stands at `used`; a limit of zero or less means no limit. */
  function Decide(used: int, quantity: int, limit: int): Increment {
    if quantity > MAX_INT64 - used then TooLarge
    else if limit > 0 && used + quantity > limit then Rejected(used)
    else Accepted(used + quantity)
  }

  function UsedIn(counters: map<CounterKey, int>, k: CounterKey): int {
    if k in counters then counters[k] else 0
  }

  ghost predicate Int64Counters(counters: map<CounterKey, int>) {
    forall k :: k in counters ==> 0 <= counters[k] <= MAX_INT64
  }

  class Store {
    var counters: map<CounterKey, int>

    constructor ()
      ensures counters == map[]
    {
      counters := map[];
    }

    /** One transaction: make sure the row exists, lock it, decide, update. */
    method IncrementUsageCounterWithLimit(k: CounterKey, quantity: int, limit: int) returns (r: Increment)
      requires Int64Counters(counters) && 0 < quantity <= MAX_INT64 && limit <= MAX_INT64
      modifies this
      ensures Int64Counters(counters)
      ensures r == Decide(UsedIn(old(counters), k), quantity, limit)
      ensures var used := if k in old(counters) then old(counters)[k] else 0;
        && (r == TooLarge <==> used + quantity > 9_223_372_036_854_775_807)
        && (r.Rejected? <==> used + quantity <= 9_223_372_036_854_775_807 && limit > 0 && used + quantity > limit)
        && (r.Rejected? ==> r.used == used) && (r.Accepted? ==> r.used == used + quantity)
      ensures r.Accepted? ==> counters == old(counters)[k := r.used]
      ensures r.TooLarge? ==> counters == old(counters)
      ensures r.Rejected? ==> counters == old(counters)[k := UsedIn(old(counters), k)]
    {
      var before := counters;
      if k !in counters {
        counters := counters[k := 0];
      }
      var current := counters[k];
      if quantity > MAX_INT64 - current {
        counters := before;
        return TooLarge;
      }
      if limit > 0 && current + quantity > limit {
        return Rejected(current);
      }
      counters := counters[k := counters[k] + quantity];
      return Accepted(counters[k]);
    }

    method ResetUsageCounter(k: CounterKey)
      requires Int64Counters(counters)
      modifies this
      ensures Int64Counters(counters)
      ensures counters == if k in old(counters) then old(counters)[k := 0] else old(counters)
    {
      if k in counters {
        counters := counters[k := 0];
      }
    }
  }

  // ─── Recording ───

  datatype Entitlement = Entitlement(feature: string, valueType: string, limit: int, quotaPeriod: string)

  predicate IsQuota(e: Entitlement, feature: string) {
    e.feature == feature && e.valueType == "quota"
  }

  function PeriodOf(e: Entitlement): string { if e.quotaPeriod == "" then "monthly" else e.quotaPeriod }

  ghost predicate FirstQuota(entitlements: seq<Entitlement>, feature: string, e: Entitlement) {
    exists i :: 0 <= i < |entitlements| && entitlements[i] == e
      && forall j :: 0 <= j < i ==> !IsQuota(entitlements[j], feature)
  }

  datatype Outcome =
    | NoQuota
    | QuantityTooLarge
    | QuotaExceeded(usedNow: int, limit: int)
    | Recorded(used: int, limit: int, remaining: int, warned: bool)

  /** A reading of the share of the limit that is used; `threshold` is where the warning is due. */
  datatype Warning = Warning(ratio: (int, int) -> real, threshold: real)

  predicate Warns(w: Warning, before: int, after: int, limit: int) {
    limit > 0 && w.threshold > 0.0 && w.ratio(after, limit) >= w.threshold && w.ratio(before, limit) < w.threshold
  }

  function Quantity(q: int): int { if q <= 0 then 1 else q }

  /** The outcome and the counter used are those of quota e. */
  ghost predicate FollowsQuota(r: Outcome, key: CounterKey, e: Entitlement, before: map<CounterKey, int>, quantity: int)
    requires !r.NoQuota?
  {
    var decision := Decide(UsedIn(before, key), Quantity(quantity), e.limit);
    && key.period == (if e.quotaPeriod == "" then "monthly" else e.quotaPeriod)
    && (r.Recorded? || r.QuotaExceeded? ==> r.limit == e.limit)
    && (r.QuantityTooLarge? <==> decision.TooLarge?)
    && (r.QuotaExceeded? <==> decision.Rejected?)
  }

  class Service {
    const store: Store
    const warning: Warning

    constructor (store: Store, warning: Warning)
      ensures this.store == store && this.warning == warning
    {
      this.store := store;
      this.warning := warning;
    }

    /** The first quota entitlement for the feature. */
    method FindQuota(entitlements: seq<Entitlement>, feature: string) returns (quota: Option<Entitlement>)
      ensures quota.None? <==> forall e :: e in entitlements ==> !IsQuota(e, feature)
      ensures quota.Some? ==> IsQuota(quota.value, feature) && FirstQuota(entitlements, feature, quota.value)
      ensures quota.Some? ==> quota.value.feature == feature && quota.value.valueType == "quota"
      ensures quota.None? ==> forall e :: e in entitlements ==> e.feature != feature || e.valueType != "quota"
    {
      for i := 0 to |entitlements|
        invariant forall j :: 0 <= j < i ==> !IsQuota(entitlements[j], feature)
      {
        if IsQuota(entitlements[i], feature) {
          return Some(entitlements[i]);
        }
      }
      return None;
    }

    /** `periodKey` is CurrentPeriodKey of the quota's period at the time of the call. */
    method RecordUsage(
      license: string, entitlements: seq<Entitlement>, feature: string, quantity: int, periodKey: string)
      returns (r: Outcome, key: CounterKey)
      requires Int64Counters(store.counters) && quantity <= MAX_INT64
      requires forall e :: e in entitlements ==> e.limit <= MAX_INT64
      modifies store
      ensures Int64Counters(store.counters)
      ensures r.NoQuota? <==> forall e :: e in entitlements ==> !IsQuota(e, feature)
      ensures r.NoQuota? || r.QuantityTooLarge? ==> store.counters == old(store.counters)
      ensures !r.NoQuota? ==>
        exists e :: FirstQuota(entitlements, feature, e) && FollowsQuota(r, key, e, old(store.counters), quantity)
      ensures !r.NoQuota? ==> key.license == license && key.feature == feature && key.periodKey == periodKey
      ensures r.QuotaExceeded? ==> r.usedNow == UsedIn(old(store.counters), key)
      ensures r.QuotaExceeded? ==> store.counters == old(store.counters)[key := UsedIn(old(store.counters), key)]
      ensures r.Recorded? ==>
        var before := UsedIn(old(store.counters), key);
        && r.used == before + (if quantity > 0 then quantity else 1) &&
          store.counters == old(store.counters)[key := r.used]
        && (r.limit > 0 ==> r.used <= r.limit && r.remaining == r.limit - r.used)
        && (r.limit == 0 ==> r.remaining == -1)
        && (r.limit < 0 ==> r.remaining == r.limit - r.used)
        && (r.warned <==>
              r.limit > 0 && warning.threshold > 0.0
              && warning.ratio(before, r.limit) < warning.threshold <= warning.ratio(r.used, r.limit))
    {
      key := CounterKey(license, feature, "", periodKey);
      var quota := FindQuota(entitlements, feature);
      if quota.None? {
        return NoQuota, key;
      }
      var limit := quota.value.limit;
      key := CounterKey(license, feature, PeriodOf(quota.value), periodKey);
      var updated := store.IncrementUsageCounterWithLimit(key, Quantity(quantity), limit);
      match updated {
        case TooLarge => return QuantityTooLarge, key;
        case Rejected(used) => return QuotaExceeded(used, limit), key;
        case Accepted(used) =>
          var remaining := limit - used;
          if limit == 0 {
            remaining := -1;
          }
          var warned := false;
          if limit > 0 && warning.threshold > 0.0 {
            var ratio := warning.ratio(used, limit);
            var prevRatio := warning.ratio(used - Quantity(quantity), limit);
            warned := ratio >= warning.threshold && prevRatio < warning.threshold;
          }
          return Recorded(used, limit, remaining, warned), key;
      }
    }
  }

  // ─── Whole runs of one counter ───

  datatype Event = Call(quantity: int) | Reset

  /** `accepted` lists the quantities accepted since the last reset, `warnings` counts the warnings since then. */
  datatype Ledger = Ledger(used: int, accepted: seq<int>, warnings: nat)

  const FRESH := Ledger(0, [], 0)

  function After(s: Ledger, e: Event, limit: int, w: Warning): Ledger {
    match e
    case Reset => FRESH
    case Call(q) =>
      match Decide(s.used, Quantity(q), limit)
      case Accepted(used) =>
        Ledger(used, s.accepted + [Quantity(q)], if Warns(w, s.used, used, limit) then s.warnings + 1 else s.warnings)
      case _ => s
  }

  function Run(s: Ledger, events: seq<Event>, limit: int, w: Warning): Ledger
    decreases events
  {
    if events == [] then s else Run(After(s, events[0], limit, w), events[1..], limit, w)
  }

  function Sum(xs: seq<int>): int {
    if xs == [] then 0 else Sum(xs[..|xs| - 1]) + xs[|xs| - 1]
  }

  /** The ratio never falls as usage grows, and nothing used is below the threshold. */
  ghost predicate Monotone(w: Warning, limit: int) {
    && w.threshold > 0.0
    && w.ratio(0, limit) < w.threshold
    && forall a, b :: 0 <= a <= b ==> w.ratio(a, limit) <= w.ratio(b, limit)
  }

  ghost predicate Balanced(s: Ledger, limit: int, w: Warning) {
    && s.used == Sum(s.accepted)
    && 0 <= s.used <= limit
    && (Monotone(w, limit) ==> s.warnings == if w.ratio(s.used, limit) >= w.threshold then 1 else 0)
  }

  /** A positive quantity is charged as given, anything else as one. */
  lemma ChargedQuantity(q: int)
    ensures q > 0 ==> Quantity(q) == q
    ensures q <= 0 ==> Quantity(q) == 1
  {
  }

  /** The warning is due when the threshold is crossed, and only where there is a limit and a threshold. */
  lemma WarnsAtCrossing(w: Warning, before: int, after: int, limit: int)
    ensures Warns(w, before, after, limit) <==>
      limit > 0 && w.threshold > 0.0 && w.ratio(before, limit) < w.threshold <= w.ratio(after, limit)
  {
  }

  /** The decision never adds beyond int64, and accepts exactly what fits. */
  lemma DecideFits(used: int, quantity: int, limit: int)
    requires 0 <= used <= MAX_INT64 && 0 < quantity <= MAX_INT64 && limit <= MAX_INT64
    ensures !Decide(used, quantity, limit).TooLarge? ==> used + quantity <= MAX_INT64
    ensures limit > 0 && used <= limit ==>
      (Decide(used, quantity, limit).Accepted? <==> used + quantity <= limit)
    ensures Decide(used, quantity, limit).Accepted? ==> Decide(used, quantity, limit).used == used + quantity
  {
  }

  /**
   Under a fixed positive limit every run keeps the counter between zero and the limit and equal to the
   accepted quantities since the last reset; a rejected call changes nothing; and since the last reset the
   warning fired exactly once if usage has reached the threshold and not at all otherwise.
   */
  lemma {:induction false} QuotaRun(s: Ledger, events: seq<Event>, limit: int, w: Warning)
    requires 0 < limit <= MAX_INT64 && Balanced(s, limit, w)
    ensures Balanced(Run(s, events, limit, w), limit, w)
    decreases events
  {
    if events != [] {
      BalancedStep(s, events[0], limit, w);
      QuotaRun(After(s, events[0], limit, w), events[1..], limit, w);
    }
  }

  lemma BalancedStep(s: Ledger, e: Event, limit: int, w: Warning)
    requires 0 < limit <= MAX_INT64 && Balanced(s, limit, w)
    ensures Balanced(After(s, e, limit, w), limit, w)
    ensures e.Call? && !Decide(s.used, Quantity(e.quantity), limit).Accepted? ==> After(s, e, limit, w) == s
  {
    if e.Call? && Decide(s.used, Quantity(e.quantity), limit).Accepted? {
      var t := After(s, e, limit, w);
      assert t.accepted[..|t.accepted| - 1] == s.accepted;
      if Monotone(w, limit) {
        assert w.ratio(s.used, limit) <= w.ratio(t.used, limit);
      }
    }
  }

  /** A quota that starts fresh. */
  lemma QuotaFromFresh(events: seq<Event>, limit: int, w: Warning)
    requires 0 < limit <= MAX_INT64
    ensures Balanced(Run(FRESH, events, limit, w), limit, w)
  {
    QuotaRun(FRESH, events, limit, w);
  }

  /** Without a limit the counter still never leaves int64 and still equals what was accepted. */
  lemma {:induction false} UnlimitedRun(s: Ledger, events: seq<Event>, w: Warning)
    requires 0 <= s.used <= MAX_INT64 && s.used == Sum(s.accepted)
    ensures var t := Run(s, events, 0, w); 0 <= t.used <= MAX_INT64 && t.used == Sum(t.accepted)
    decreases events
  {
    if events != [] {
      var t := After(s, events[0], 0, w);
      if t.accepted != [] {
        assert t.accepted == s.accepted || t.accepted[..|t.accepted| - 1] == s.accepted;
      }
      UnlimitedRun(t, events[1..], w);
    }
  }
}
