/**
 When a license stops working. The lifecycle check of activation, the check of the download
 and SDK endpoints, the signed offline token and the expiry jobs each compute a deadline;
 instants are nanoseconds since the Unix epoch.
 */
module LicenseTime {
  import opened Wrappers

  datatype Status = Active | Trialing | PastDue | Canceled | Suspended | Revoked | Expired | Unknown

  datatype Plan = Plan(graceDays: int, tokenTtlDays: int)

  datatype License = License(status: Status, validUntil: Option<int>, plan: Option<Plan>)

  const SECOND: int := 1_000_000_000
  const DAY: int := 86_400_000_000_000
  const TWO63: int := 0x8000_0000_0000_0000

  /** Two's complement int64, the width of a duration. */
  function Wrap64(x: int): (y: int)
    ensures -9_223_372_036_854_775_808 <= y <= 9_223_372_036_854_775_807
    ensures (x - y) % 18_446_744_073_709_551_616 == 0
    ensures -TWO63 <= x < TWO63 ==> y == x
  {
    (x + TWO63) % (2 * TWO63) - TWO63
  }

  /** A number of days as a duration; past 106751 days it wraps around. */
  function Days(n: int): int { Wrap64(n * DAY) }

  /** The whole second an instant lies in. */
  function Unix(t: int): int { t / SECOND }

  // ─── The checks ───

  datatype Verdict = Usable | LicenseExpired | LicenseCanceled | LicenseSuspended | LicenseRevoked | LicenseInvalid

  predicate Running(status: Status) {
    status.Active? || status.Trialing? || status.PastDue?
  }

  function GraceDays(lic: License): int {
    if lic.plan.Some? then lic.plan.value.graceDays else 7
  }

  function EffectiveGraceDays(lic: License): int {
    if Running(lic.status) then GraceDays(lic) else 0
  }

  function AssertUsable(lic: License, now: int): Verdict {
    match lic.status
    case Active | Trialing | PastDue =>
      if lic.validUntil.Some? && now > lic.validUntil.value
        && now > lic.validUntil.value + Days(EffectiveGraceDays(lic))
      then LicenseExpired else Usable
    case Canceled =>
      if lic.validUntil.Some? && now < lic.validUntil.value then Usable else LicenseCanceled
    case Suspended => LicenseSuspended
    case Revoked => LicenseRevoked
    case Expired => LicenseExpired
    case Unknown => LicenseInvalid
  }

  predicate IsLicenseUsable(lic: License, now: int) {
    match lic.status
    case Active | Trialing | PastDue =>
      lic.validUntil.None? || now < lic.validUntil.value || now < lic.validUntil.value + Days(GraceDays(lic))
    case Canceled => lic.validUntil.Some? && now < lic.validUntil.value
    case _ => false
  }

  // ─── The token ───

  datatype Token = Token(issuedAt: int, expiresAt: int, validUntil: int, graceDays: int)

  function TokenTtl(lic: License): int {
    if lic.plan.Some? && lic.plan.value.tokenTtlDays > 0 then Days(lic.plan.value.tokenTtlDays) else 7 * DAY
  }

  /** The instant the license ends for good. */
  function Deadline(lic: License): int
    requires lic.validUntil.Some?
  {
    lic.validUntil.value + Days(EffectiveGraceDays(lic))
  }

  function SignToken(lic: License, now: int): Token {
    var expires := now + TokenTtl(lic);
    var clamped := if lic.validUntil.Some? && Deadline(lic) < expires then Deadline(lic) else expires;
    var end := if lic.validUntil.Some? then Unix(lic.validUntil.value) else 0;
    Token(Unix(now), Unix(clamped), end, EffectiveGraceDays(lic))
  }

  /** The expiry test of Verify. */
  predicate VerifyAccepts(token: Token, now: int) {
    !(token.expiresAt > 0 && Unix(now) > token.expiresAt)
  }

  // ─── The expiry jobs ───

  /** ExpireGracePeriodLicenses: the rows it selects, and its test on each. */
  predicate GraceJobExpires(lic: License, now: int) {
    && (lic.status.Active? || lic.status.PastDue?)
    && lic.validUntil.Some? && lic.validUntil.value < now
    && now > lic.validUntil.value + Days(GraceDays(lic))
  }

  /** ExpireTrials looks at the end of the trial alone. */
  predicate TrialJobExpires(lic: License, now: int) {
    lic.status.Trialing? && lic.validUntil.Some? && lic.validUntil.value < now
  }

  // ─── Results ───

  /** The plan bounds that are checked when a plan is created or updated. */
  predicate ValidatedPlan(plan: Plan) {
    0 <= plan.graceDays <= 365 && 0 <= plan.tokenTtlDays <= 365
  }

  predicate Validated(lic: License) {
    lic.plan.Some? ==> ValidatedPlan(lic.plan.value)
  }

  /** Grace and check-in interval are day counts that do not wrap as durations. */
  predicate FitsDuration(lic: License) {
    lic.plan.Some? ==> 0 <= lic.plan.value.graceDays <= 106_751 && lic.plan.value.tokenTtlDays <= 106_751
  }

  /** The token is accepted only up to the second of the license's deadline. */
  ghost predicate HonoursDeadline(lic: License, signedAt: int)
    requires lic.validUntil.Some?
  {
    forall t :: VerifyAccepts(SignToken(lic, signedAt), t) ==> Unix(t) <= Unix(Deadline(lic))
  }

  /** The token is accepted only up to the second its check-in interval ends. */
  ghost predicate HonoursInterval(lic: License, signedAt: int) {
    forall t :: VerifyAccepts(SignToken(lic, signedAt), t) ==> Unix(t) <= Unix(signedAt + TokenTtl(lic))
  }

  /**
   A license's token honours its deadline, and its check-in interval, exactly when both end at least a second after
   the epoch: an expiry of zero or less reads as none.
   */
  lemma TokenHonoursDeadlineIff(lic: License, signedAt: int)
    requires lic.validUntil.Some?
    ensures HonoursDeadline(lic, signedAt) <==> Deadline(lic) >= SECOND && signedAt + TokenTtl(lic) >= SECOND
  {
    var token := SignToken(lic, signedAt);
    if token.expiresAt <= 0 {
      var t := (Unix(Deadline(lic)) + 1) * SECOND;
      assert VerifyAccepts(token, t);
    }
  }

  /** A license without an end date gives a token that honours its check-in interval, under the same condition. */
  lemma TokenHonoursIntervalIff(lic: License, signedAt: int)
    requires lic.validUntil.None?
    ensures HonoursInterval(lic, signedAt) <==> signedAt + TokenTtl(lic) >= SECOND
  {
    var token := SignToken(lic, signedAt);
    if token.expiresAt <= 0 {
      var t := (Unix(signedAt + TokenTtl(lic)) + 1) * SECOND;
      assert VerifyAccepts(token, t);
    }
  }

  /** A token stops being accepted some day exactly when its expiry is positive. */
  lemma TokenExpiresIff(token: Token)
    ensures (exists t :: !VerifyAccepts(token, t)) <==> token.expiresAt > 0
  {
    if token.expiresAt > 0 {
      assert !VerifyAccepts(token, (token.expiresAt + 1) * SECOND);
    }
  }

  /** Every license the server finds usable, under the validated bounds or far wider ones, meets that condition. */
  lemma UsableMeetsCondition(lic: License, signedAt: int)
    requires AssertUsable(lic, signedAt).Usable? && signedAt >= SECOND
    ensures Validated(lic) ==> FitsDuration(lic)
    ensures FitsDuration(lic) ==> SignToken(lic, signedAt).expiresAt > 0
    ensures FitsDuration(lic) ==> signedAt + TokenTtl(lic) >= SECOND
    ensures FitsDuration(lic) && lic.validUntil.Some? ==> Deadline(lic) >= SECOND
  {
  }

  /**
   A token the server signs for a usable license is accepted only up to the second of the deadline that the
   server itself uses, and only up to the second its check-in interval ends.
   */
  lemma TokenEndsWithLicense(lic: License, signedAt: int, t: int)
    requires AssertUsable(lic, signedAt).Usable? && Validated(lic) && signedAt >= SECOND
    requires VerifyAccepts(SignToken(lic, signedAt), t)
    ensures lic.validUntil.Some? ==> Unix(t) <= Unix(Deadline(lic))
    ensures Unix(t) <= Unix(signedAt + TokenTtl(lic))
  {
    UsableMeetsCondition(lic, signedAt);
    if lic.validUntil.Some? {
      TokenHonoursDeadlineIff(lic, signedAt);
    } else {
      TokenHonoursIntervalIff(lic, signedAt);
    }
  }

  /**
   Once the server refuses the unchanged license, the token it signed is refused too, but for the rest of the
   deadline's own second.
   */
  lemma RefusedLicenseRefusedToken(lic: License, signedAt: int, t: int)
    requires AssertUsable(lic, signedAt).Usable? && Validated(lic) && signedAt >= SECOND
    requires !AssertUsable(lic, t).Usable? && VerifyAccepts(SignToken(lic, signedAt), t)
    ensures lic.validUntil.Some? && Unix(t) == Unix(Deadline(lic))
  {
    TokenEndsWithLicense(lic, signedAt, t);
  }

  // ─── The deadlines in days ───

  /** A license's own plan decides its grace and check-in interval; without one both are seven days. */
  lemma PlanDecides(lic: License)
    ensures lic.plan.Some? && ValidatedPlan(lic.plan.value) ==>
      && Days(GraceDays(lic)) == lic.plan.value.graceDays * 86_400_000_000_000
      && TokenTtl(lic)
        == (if lic.plan.value.tokenTtlDays == 0 then 7 else lic.plan.value.tokenTtlDays) * 86_400_000_000_000
    ensures lic.plan.None? ==> Days(GraceDays(lic)) == TokenTtl(lic) == 7 * 86_400_000_000_000
  {
  }

  /** The grace of the plan, in days, as long as the license runs. */
  function PlanGrace(lic: License): int {
    if lic.plan.Some? then lic.plan.value.graceDays else 7
  }

  /** What a license in this status is refused with. */
  function Refusal(status: Status): Verdict {
    match status
    case Canceled => LicenseCanceled
    case Suspended => LicenseSuspended
    case Revoked => LicenseRevoked
    case Unknown => LicenseInvalid
    case _ => LicenseExpired
  }

  /**
   The license check, in nanoseconds: running licenses until the end of their grace, canceled ones until their
   end.
   */
  lemma UsableUntil(lic: License, now: int)
    requires Validated(lic)
    ensures AssertUsable(lic, now) == Usable <==>
      || ((lic.status == Active || lic.status == Trialing || lic.status == PastDue)
          && (lic.validUntil == None || now <= lic.validUntil.value + PlanGrace(lic) * 86_400_000_000_000))
      || (lic.status == Canceled && lic.validUntil.Some? && now < lic.validUntil.value)
    ensures AssertUsable(lic, now) in {Usable, Refusal(lic.status)}
  {
  }

  /** The token's expiry is the earlier of the check-in interval's end and the license's, to the second. */
  lemma TokenFields(lic: License, signedAt: int)
    requires Validated(lic) && (lic.status == Active || lic.status == Trialing || lic.status == PastDue)
    ensures var token := SignToken(lic, signedAt);
      var end := signedAt + TokenTtl(lic);
      && token.issuedAt == signedAt / 1_000_000_000 && token.graceDays == PlanGrace(lic)
      && (lic.validUntil.None? ==> token.expiresAt == end / 1_000_000_000 && token.validUntil == 0)
      && (lic.validUntil.Some? ==>
            var dead := lic.validUntil.value + PlanGrace(lic) * 86_400_000_000_000;
            && token.validUntil == lic.validUntil.value / 1_000_000_000
            && token.expiresAt == (if dead < end then dead else end) / 1_000_000_000)
  {
  }

  /** A canceled license has no grace: its token ends with it. */
  lemma CanceledHasNoGrace(lic: License, signedAt: int)
    requires lic.status == Canceled && lic.validUntil.Some?
    ensures SignToken(lic, signedAt).graceDays == 0
    ensures SignToken(lic, signedAt).expiresAt <= lic.validUntil.value / 1_000_000_000
  {
  }

  /** An expiring token is refused from the second after its expiry on, and never before. */
  lemma VerifyByTheSecond(token: Token, now: int)
    requires token.expiresAt > 0
    ensures VerifyAccepts(token, now) <==> now / 1_000_000_000 <= token.expiresAt
  {
  }

  /** The last instant at which a running license with an end date is usable. */
  function LastUsable(lic: License): int
    requires lic.validUntil.Some?
  {
    var end := lic.validUntil.value;
    if Days(GraceDays(lic)) >= 0 then end + Days(GraceDays(lic)) else end
  }

  /** The two lifecycle checks disagree at one single instant: the last usable one of a running license. */
  lemma ChecksDisagreeIff(lic: License, now: int)
    ensures AssertUsable(lic, now).Usable? != IsLicenseUsable(lic, now)
      <==> Running(lic.status) && lic.validUntil.Some? && now == LastUsable(lic)
    ensures IsLicenseUsable(lic, now) ==> AssertUsable(lic, now).Usable?
  {
  }

  /** The grace job expires exactly the active and past-due licenses that the lifecycle check refuses. */
  lemma GraceJobMatchesCheck(lic: License, now: int)
    ensures GraceJobExpires(lic, now) <==>
      (lic.status == Active || lic.status == PastDue) && AssertUsable(lic, now) == LicenseExpired
  {
  }

  /** The trial job ends a trial that the check still admits exactly within the trial's grace period. */
  lemma TrialJobCutsGrace(lic: License, now: int)
    requires lic.status.Trialing? && lic.validUntil.Some?
    ensures TrialJobExpires(lic, now) && AssertUsable(lic, now).Usable? <==> lic.validUntil.value < now <= Deadline(lic)
  {
  }
}
