/**
 The payment-failure ladder: which reminders a license gets while it is past due, over any
 series of runs of the expiry job.
 */
module Dunning {
  import opened Wrappers

  datatype Tier = First | Second | Final

  function MinDays(tier: Tier): int {
    match tier
    case First => 1
    case Second => 7
    case Final => 14
  }

  function Rank(tier: Tier): nat {
    match tier
    case First => 1
    case Second => 2
    case Final => 3
  }

  /** A tag of one episode: the tier and the second at which the license became past due. */
  datatype Tag = Tag(license: string, tier: Tier, episode: int)

  datatype License = License(id: string, pastDue: bool, pastDueAt: Option<int>)

  /** Seconds per day; instants are in seconds. */
  const DAY: int := 86_400

  /** Whole days, truncated toward zero. */
  function DaysPastDue(since: int, now: int): int {
    if now >= since then (now - since) / DAY else -((since - now) / DAY)
  }

  /** The highest tier reached. */
  function Reached(days: int): Option<Tier> {
    if days >= MinDays(Final) then Some(Final)
    else if days >= MinDays(Second) then Some(Second)
    else if days >= MinDays(First) then Some(First)
    else None
  }

  /** The reminder one run of the job sends for a license: the highest tier reached, unless it was sent. */
  function Due(notified: set<Tag>, lic: License, now: int): Option<Tag> {
    if !lic.pastDue || lic.pastDueAt.None? then None
    else
      match Reached(DaysPastDue(lic.pastDueAt.value, now))
      case None => None
      case Some(tier) =>
        var tag := Tag(lic.id, tier, lic.pastDueAt.value);
        if tag in notified then None else Some(tag)
  }

  class ExpiryChecker {
    /** The notifications table, and the mail sent so far. */
    var notified: set<Tag>
    var sent: seq<Tag>

    constructor ()
      ensures notified == {} && sent == []
    {
      notified, sent := {}, [];
    }

    method RemindOne(lic: License, now: int)
      modifies this
      ensures var due := Due(old(notified), lic, now);
        if due.None? then notified == old(notified) && sent == old(sent)
        else notified == old(notified) + {due.value} && sent == old(sent) + [due.value]
    {
      if !lic.pastDue || lic.pastDueAt.None? {
        return;
      }
      var days := DaysPastDue(lic.pastDueAt.value, now);
      var steps := [Final, Second, First];
      assert steps[0] == Final && steps[1] == Second && steps[2] == First;
      var i := 0;
      while i < |steps|
        invariant 0 <= i <= |steps|
        invariant notified == old(notified) && sent == old(sent)
        invariant forall j :: 0 <= j < i ==> days < MinDays(steps[j])
      {
        if days < MinDays(steps[i]) {
          i := i + 1;
          continue;
        }
        assert Reached(days) == Some(steps[i]) by {
          assert i == 0 || days < MinDays(steps[0]);
          assert i <= 1 || days < MinDays(steps[1]);
        }
        var tag := Tag(lic.id, steps[i], lic.pastDueAt.value);
        if tag in notified {
          return;
        }
        sent := sent + [tag];
        notified := notified + {tag};
        return;
      }
      assert days < MinDays(steps[0]) && days < MinDays(steps[1]) && days < MinDays(steps[2]);
    }

    /** One run over the selected licenses. */
    method SendPaymentFailureReminders(licenses: seq<License>, now: int)
      modifies this
      ensures Log(notified, sent) == Checked(Log(old(notified), old(sent)), licenses, now)
    {
      for i := 0 to |licenses|
        invariant Log(notified, sent) == Checked(Log(old(notified), old(sent)), licenses[..i], now)
      {
        RemindOne(licenses[i], now);
        assert licenses[..i + 1][..i] == licenses[..i];
      }
      assert licenses[..|licenses|] == licenses;
    }
  }

  datatype Log = Log(notified: set<Tag>, sent: seq<Tag>)

  function RemindedOne(l: Log, lic: License, now: int): Log {
    var due := Due(l.notified, lic, now);
    if due.None? then l else Log(l.notified + {due.value}, l.sent + [due.value])
  }

  function Checked(l: Log, licenses: seq<License>, now: int): Log {
    if licenses == [] then l
    else RemindedOne(Checked(l, licenses[..|licenses| - 1], now), licenses[|licenses| - 1], now)
  }

  // ─── The ladder in days ───

  /** The tier is the highest reached: one, seven and fourteen whole days after the license became past due. */
  lemma TierByAge(since: int, now: int)
    ensures var tier := Reached(DaysPastDue(since, now));
      && (tier == None <==> now - since < 86_400)
      && (tier == Some(First) <==> 86_400 <= now - since < 604_800)
      && (tier == Some(Second) <==> 604_800 <= now - since < 1_209_600)
      && (tier == Some(Final) <==> 1_209_600 <= now - since)
  {
  }

  /**
   A reminder is due exactly for a past-due license with a known date and a tier reached but not sent in its
   episode.
   */
  lemma DueIsExact(notified: set<Tag>, lic: License, now: int, tag: Tag)
    ensures Due(notified, lic, now) == Some(tag) <==>
      && lic.pastDue && lic.pastDueAt == Some(tag.episode) && tag.license == lic.id && tag !in notified
      && match tag.tier {
           case First => 86_400 <= now - tag.episode < 604_800
           case Second => 604_800 <= now - tag.episode < 1_209_600
           case Final => 1_209_600 <= now - tag.episode
         }
  {
    if lic.pastDueAt.Some? {
      TierByAge(lic.pastDueAt.value, now);
    }
  }

  /** The ladder goes up from the first reminder to the final one. */
  lemma LadderGoesUp()
    ensures Rank(First) < Rank(Second) < Rank(Final)
  {
  }

  // ─── Whole runs ───

  /** One run of the job: when it ran, and the licenses it found. */
  datatype Round = Round(now: int, licenses: seq<License>)

  function Run(l: Log, rounds: seq<Round>): Log
    decreases rounds
  {
    if rounds == [] then l else Run(Checked(l, rounds[0].licenses, rounds[0].now), rounds[1..])
  }

  predicate Clocked(rounds: seq<Round>, from: int)
    decreases rounds
  {
    rounds == [] || (from <= rounds[0].now && Clocked(rounds[1..], rounds[0].now))
  }

  predicate SameEpisode(a: Tag, b: Tag) {
    a.license == b.license && a.episode == b.episode
  }

  /** Within an episode the reminders sent go strictly up the ladder. */
  ghost predicate Climbs(sent: seq<Tag>) {
    forall i, j :: 0 <= i < j < |sent| && SameEpisode(sent[i], sent[j]) ==> Rank(sent[i].tier) < Rank(sent[j].tier)
  }

  /** Everything sent is recorded, was due by `now`, and nothing else is recorded. */
  ghost predicate Recorded(l: Log, now: int) {
    && (forall tag :: tag in l.notified <==> tag in l.sent)
    && (forall tag :: tag in l.sent ==> MinDays(tag.tier) <= DaysPastDue(tag.episode, now))
  }

  lemma {:induction false} ClimbsRound(l: Log, licenses: seq<License>, clock: int, now: int)
    requires Climbs(l.sent) && Recorded(l, clock) && clock <= now
    ensures Climbs(Checked(l, licenses, now).sent) && Recorded(Checked(l, licenses, now), now)
  {
    if licenses == [] {
      forall tag | tag in l.sent
        ensures MinDays(tag.tier) <= DaysPastDue(tag.episode, now)
      {
      }
    } else {
      ClimbsRound(l, licenses[..|licenses| - 1], clock, now);
    }
  }

  lemma {:induction false} ClimbsRun(l: Log, rounds: seq<Round>, clock: int)
    requires Climbs(l.sent) && Recorded(l, clock) && Clocked(rounds, clock)
    ensures Climbs(Run(l, rounds).sent)
    decreases rounds
  {
    if rounds != [] {
      ClimbsRound(l, rounds[0].licenses, clock, rounds[0].now);
      ClimbsRun(Checked(l, rounds[0].licenses, rounds[0].now), rounds[1..], rounds[0].now);
    }
  }

  /**
   Whenever the job runs and whatever it finds, an episode's reminders climb the ladder: none is sent
   twice, none after a higher one, and a new episode starts afresh.
   */
  lemma LadderIsClimbedOnce(rounds: seq<Round>, clock: int)
    requires Clocked(rounds, clock)
    ensures Climbs(Run(Log({}, []), rounds).sent)
  {
    ClimbsRun(Log({}, []), rounds, clock);
  }

  /** No window can be missed: right after a round, the highest tier a past-due license has reached has been sent. */
  lemma {:induction false} ReachedIsSent(l: Log, licenses: seq<License>, now: int, k: nat)
    requires k < |licenses| && licenses[k].pastDue && licenses[k].pastDueAt.Some?
    requires Reached(DaysPastDue(licenses[k].pastDueAt.value, now)).Some?
    ensures Tag(licenses[k].id, Reached(DaysPastDue(licenses[k].pastDueAt.value, now)).value,
      licenses[k].pastDueAt.value)
      in Checked(l, licenses, now).notified
  {
    if k < |licenses| - 1 {
      ReachedIsSent(l, licenses[..|licenses| - 1], now, k);
    }
  }
}
