/**
 The payment handler itself: reserve, release and fulfilCheckout as one caller runs them,
 and the proof that one caller undisturbed is the claim protocol's worker run alone.
 */
module Checkout {
  import opened ProcessedEvents
  import opened Fulfilment
  import opened Stranding

  /** Claimed: this caller handles it. Done: nothing to do. Busy: another caller is mid-way. */
  datatype Verdict = Claimed | Done | Busy

  datatype Reserving = Reserving(verdict: Verdict, rows: Table)

  /** The whole of reserve, as a function of the rows it starts from. */
  function Reserve(rows: Table, fulfilled: bool, slot: Slot, now: int): Reserving {
    var res, mark := Reservation(slot), Marker(slot);
    if res !in rows then Reserving(Claimed, rows[res := now][mark := now])
    else if mark !in rows || fulfilled then Reserving(Done, rows)
    else if Stale(rows, mark, now) then Reserving(Claimed, rows[mark := now])
    else Reserving(Busy, rows)
  }

  /** Worker w alone executes up to n statements, stopping when it owns the slot or has left. */
  function Alone(s: State, w: nat, n: nat): State
    decreases n
  {
    if n == 0 || w !in s.workers || s.workers[w].Own? then s
    else Alone(ExecWorker(s, w, NoFault), w, n - 1)
  }

  /** The state in which reserve leaves the slot, with w its owner if it got the claim. */
  function Settles(s: State, w: nat, slot: Slot): State {
    var r := Reserve(s.rows, slot.Session? && Handled(s, slot), slot, s.now);
    s.(rows := r.rows, workers := if r.verdict.Claimed? then s.workers[w := Own(slot, s.now)] else s.workers)
  }

  /** A worker that nobody disturbs reaches exactly reserve's verdict and rows, in at most six statements. */
  lemma ReserveIsWorkerAlone(s: State, w: nat, slot: Slot)
    requires w !in s.workers
    ensures Alone(Goto(s, w, InsertReservation(slot)), w, 6) == Settles(s, w, slot)
  {
    var res, mark := Reservation(slot), Marker(slot);
    var s0 := Goto(s, w, InsertReservation(slot));
    if res in s.rows {
      var s1 := ExecWorker(s0, w, NoFault);
      assert s1.workers == s.workers[w := ProbeMarker(slot)];
      AloneProbes(s, w, slot);
      assert Alone(s0, w, 6) == Alone(s1, w, 5);
    }
  }

  lemma AloneProbes(s: State, w: nat, slot: Slot)
    requires w !in s.workers && Reservation(slot) in s.rows
    ensures Alone(Goto(s, w, ProbeMarker(slot)), w, 5) == Settles(s, w, slot)
  {
    var s1 := Goto(s, w, ProbeMarker(slot));
    var s2 := ExecWorker(s1, w, NoFault);
    assert Alone(s1, w, 5) == Alone(s2, w, 4);
    if Marker(slot) !in s.rows {
      assert s2.workers == s.workers;
    } else if slot.Session? {
      assert s2.workers == s.workers[w := ProbeFulfilled(slot)];
      AloneProbesFulfilled(s, w, slot);
    } else {
      assert s2.workers == s.workers[w := ExpireMarker(slot)];
      AloneExpires(s, w, slot, 4);
    }
  }

  lemma AloneProbesFulfilled(s: State, w: nat, slot: Slot)
    requires w !in s.workers && Reservation(slot) in s.rows && Marker(slot) in s.rows && slot.Session?
    ensures Alone(Goto(s, w, ProbeFulfilled(slot)), w, 4) == Settles(s, w, slot)
  {
    var s1 := Goto(s, w, ProbeFulfilled(slot));
    var s2 := ExecWorker(s1, w, NoFault);
    assert Alone(s1, w, 4) == Alone(s2, w, 3);
    if Handled(s, slot) {
      assert s2.workers == s.workers;
    } else {
      assert s2.workers == s.workers[w := ExpireMarker(slot)];
      AloneExpires(s, w, slot, 3);
    }
  }

  lemma AloneExpires(s: State, w: nat, slot: Slot, n: nat)
    requires w !in s.workers && Marker(slot) in s.rows && n >= 3
    ensures Alone(Goto(s, w, ExpireMarker(slot)), w, n) ==
      if Stale(s.rows, Marker(slot), s.now)
      then s.(rows := s.rows[Marker(slot) := s.now], workers := s.workers[w := Own(slot, s.now)])
      else s
  {
    var mark := Marker(slot);
    var e := Goto(s, w, ExpireMarker(slot));
    assert e.workers - {w} == s.workers;
    var e1 := ExecWorker(e, w, NoFault);
    assert Alone(e, w, n) == Alone(e1, w, n - 1);
    if Stale(s.rows, mark, s.now) {
      var e2 := ExecWorker(e1, w, NoFault);
      assert e2.workers == s.workers[w := Own(slot, s.now)];
      assert e2.rows == s.rows[mark := s.now];
      assert Alone(e1, w, n - 1) == Alone(e2, w, n - 2);
    }
  }

  // ─── The owner alone ───

  /** An owner whose handler succeeds leaves its slot handled and reading as done, and nothing else changed. */
  lemma OwnerAloneFinishes(s: State, w: nat, slot: Slot)
    requires w in s.workers && s.workers[w].Own? && s.workers[w].slot == slot
    requires slot.Session? ==> slot.id !in s.licenses
    requires Reservation(slot) in s.rows
    ensures var t := ExecWorker(s, w, NoFault);
      && w in t.workers && t.workers[w].Complete?
      && (slot.Session? ==> t.licenses == s.licenses + [slot.id] && t.applied == s.applied)
      && (slot.Event? ==> t.applied == s.applied + multiset{slot.id} && t.licenses == s.licenses)
      && var u := ExecWorker(t, w, NoFault);
        && w !in u.workers && u.rows == s.rows - {Marker(slot)} && ReadsDone(u, slot) && Handled(u, slot)
  {
  }

  /** An owner whose handler fails, or refuses, gives the slot back: neither row is left, and it was not handled. */
  lemma OwnerAloneGivesBack(s: State, w: nat, slot: Slot)
    requires w in s.workers && s.workers[w].Own? && s.workers[w].slot == slot
    ensures forall t :: t == ExecWorker(s, w, Fail) || t == Step(s, Refuse(w)) ==>
      && t.rows == s.rows && t.licenses == s.licenses && t.applied == s.applied
      && w in t.workers && t.workers[w].ReleaseReservation?
      && var u := ExecWorker(t, w, NoFault);
        && w in u.workers && u.rows == s.rows - {Reservation(slot)}
        && var v := ExecWorker(u, w, NoFault);
          w !in v.workers && v.rows == s.rows - {Reservation(slot), Marker(slot)}
          && v.licenses == s.licenses && v.applied == s.applied
  {
    var rows := s.rows - {Reservation(slot)};
    assert rows - {Marker(slot)} == s.rows - {Reservation(slot), Marker(slot)};
    forall t | t == ExecWorker(s, w, Fail) || t == Step(s, Refuse(w))
      ensures t.rows == s.rows && t.licenses == s.licenses && t.applied == s.applied
      ensures w in t.workers && t.workers[w] == ReleaseReservation(slot, s.workers[w].since)
    {
    }
  }

  /** A session that has a license is not given a second one: its owner leaves at once. */
  lemma ConflictEndsTheOwner(s: State, w: nat, fault: Fault)
    requires w in s.workers && s.workers[w].Own? && s.workers[w].slot.Session? && s.workers[w].slot.id in s.licenses
    ensures ExecWorker(s, w, fault).licenses == s.licenses
    ensures fault.NoFault? ==> ExecWorker(s, w, fault) == s.(workers := s.workers - {w})
  {
  }

  /** Whose rows and outcomes two states share. */
  predicate SameRecords(s: State, t: State) {
    s.rows == t.rows && s.licenses == t.licenses && s.applied == t.applied && s.now == t.now && s.legacy == t.legacy
  }

  /** A failed statement changes no row and no outcome. */
  lemma FailChangesNothing(s: State, w: nat)
    requires w in s.workers
    ensures SameRecords(ExecWorker(s, w, Fail), s)
  {
  }

  /** A lost statement changes exactly what an acknowledged one would. */
  lemma LostTakesEffect(s: State, w: nat)
    requires w in s.workers
    ensures SameRecords(ExecWorker(s, w, Lost), ExecWorker(s, w, NoFault))
  {
  }

  /**
   Runs leave nothing out: time passes, older binaries write, workers arrive, execute with any fault and crash at any
   point, and an owner may refuse.
   */
  lemma AnythingCanHappen(s: State, w: nat, slot: Slot, d: nat, fault: Fault)
    ensures Enabled(s, Tick(d)) && Enabled(s, OlderBinary(slot))
    ensures w !in s.workers ==> Enabled(s, Begin(w, slot))
    ensures w in s.workers ==> Enabled(s, Exec(w, fault)) && Enabled(s, Crash(w))
    ensures w in s.workers && s.workers[w].Own? ==> Enabled(s, Refuse(w))
    ensures Step(s, Tick(d)) == s.(now := s.now + d)
    ensures w in s.workers ==> Step(s, Crash(w)) == s.(workers := s.workers - {w})
    ensures w !in s.workers ==> Step(s, Begin(w, slot)) == s.(workers := s.workers[w := InsertReservation(slot)])
    ensures var t := Step(s, OlderBinary(slot));
      && Reservation(slot) in t.rows && t.workers == s.workers
      && (Reservation(slot) !in s.rows ==> slot in t.legacy && t.rows == s.rows[Reservation(slot) := s.now])
      && (Reservation(slot) in s.rows ==> t == s)
  {
  }

  // ─── What the verdicts mean in the protocol ───

  /** The verdict of a caller that finds the state s. */
  function VerdictIn(s: State, slot: Slot): Verdict {
    Reserve(s.rows, slot.Session? && Handled(s, slot), slot, s.now).verdict
  }

  /**
   After any run that strands no slot, whatever else goes wrong in it, a caller told Done about a slot whose holders,
   if any, are all completing is told the truth.
   */
  lemma DoneVerdictIsTrue(ls: seq<Label>, slot: Slot)
    requires Runs(START, ls) && NeverStrands(START, ls)
    requires VerdictIn(Final(START, ls), slot) == Done && OnlyCompleting(Final(START, ls), slot)
    ensures Handled(Final(START, ls), slot) || slot in Final(START, ls).legacy
  {
    DoneIsTrueIff(ls);
    if !Handled(Final(START, ls), slot) {
      assert ReadsDone(Final(START, ls), slot);
    }
  }

  /**
   In timely runs without faults the verdicts are right: Done with nobody on the slot says that it was handled, and
   Busy that a worker tends the slot, for at most ten minutes, and that it was reserved.
   */
  lemma VerdictsAreRight(ls: seq<Label>, slot: Slot)
    requires Clean(START, ls) && Runs(START, ls)
    ensures var t := Final(START, ls);
      && (VerdictIn(t, slot) == Done && Free(t, slot) ==> Handled(t, slot) || slot in t.legacy)
      && (VerdictIn(t, slot) == Busy ==>
            exists w, since :: Tends(t, w, slot, since) && t.now - since <= 600_000_000)
      && (VerdictIn(t, slot) == Claimed && Timely(t) ==> Reservation(slot) !in t.rows && Free(t, slot))
  {
    CleanNeverStrands(ls);
    SettledRun(START, ls);
    var t := Final(START, ls);
    if VerdictIn(t, slot) == Done && Free(t, slot) {
      DoneVerdictIsTrue(ls, slot);
    }
    if VerdictIn(t, slot) == Busy {
      assert Tended(t, slot, t.rows[Marker(slot)]);
    }
    if VerdictIn(t, slot) == Claimed && Timely(t) {
      NothingStale(t, slot);
    }
  }

  /** Worker w's next statements alone, each with its fault. */
  function Released(s: State, w: nat, faults: seq<Fault>): State
    decreases faults
  {
    if faults == [] || w !in s.workers then s else Released(ExecWorker(s, w, faults[0]), w, faults[1..])
  }

  /**
   However a release is cut short, by a failure, a lost acknowledgement or a crash after any number of its
   statements, the slot does not read as done, and a later caller can claim it: at once if the reservation
   went, and otherwise once the marker is stale.
   */
  lemma BrokenReleaseCanBeRetried(s: State, w: nat, slot: Slot, faults: seq<Fault>, now: int)
    requires w in s.workers && s.workers[w].ReleaseReservation? && s.workers[w].slot == slot
    requires Marker(slot) in s.rows && now > s.rows[Marker(slot)] + STALE_CLAIM_AGE
    ensures var t := Released(s, w, faults);
      && !ReadsDone(t, slot)
      && Reserve(t.rows, false, slot, now).verdict == Claimed
      && (Reservation(slot) !in t.rows ==> Reserve(t.rows, false, slot, t.now).verdict == Claimed)
  {
    if faults != [] {
      var t1 := ExecWorker(s, w, faults[0]);
      var rest := faults[1..];
      if w in t1.workers && rest != [] {
        var t2 := ExecWorker(t1, w, rest[0]);
        assert w !in t2.workers;
        assert Released(t1, w, rest) == Released(t2, w, rest[1..]) == t2;
      } else {
        assert Released(t1, w, rest) == t1;
      }
    }
  }

  /** What the Stripe lookups before the claim came back with. */
  datatype Lookup = Resolved | Missing | Transient

  /** Fulfilled: a license stands for the session. NotYet: no license and no error. Retry: transient failure. */
  datatype Outcome = Fulfilled | NotYet | Retry

  function Pending(id: string): Key { Key(StripePendingSession, id) }

  class StripeHandler {
    const store: EventStore
    var licenses: seq<string>

    constructor (store: EventStore)
      ensures this.store == store && licenses == []
    {
      this.store := store;
      licenses := [];
    }

    /**
     Done: finished before. Busy: a claim at most ten minutes old. Otherwise the slot is this caller's from now
     on.
     */
    method ReserveSlot(slot: Slot, now: int) returns (verdict: Verdict)
      modifies store
      ensures Reserving(verdict, store.rows)
           == Reserve(old(store.rows), slot.Session? && slot.id in licenses, slot, now)
      ensures verdict == Done <==>
        && Reservation(slot) in old(store.rows)
        && (Marker(slot) !in old(store.rows) || (slot.Session? && slot.id in licenses))
      ensures verdict == Busy <==>
        && Reservation(slot) in old(store.rows)
        && Marker(slot) in old(store.rows) && now - old(store.rows)[Marker(slot)] <= 600_000_000
        && !(slot.Session? && slot.id in licenses)
      ensures verdict == Claimed ==>
        && Reservation(slot) in store.rows && Marker(slot) in store.rows && store.rows[Marker(slot)] == now
        && store.rows - {Reservation(slot), Marker(slot)} == old(store.rows) - {Reservation(slot), Marker(slot)}
      ensures verdict != Claimed ==> store.rows == old(store.rows)
    {
      var res, mark := Reservation(slot), Marker(slot);
      var reserved := store.ClaimProcessedEvent(res, now);
      if reserved {
        store.DeleteProcessedEvent(mark);
        var claimed := store.ClaimProcessedEvent(mark, now);
        assert store.rows == old(store.rows)[res := now][mark := now];
        return Claimed;
      }
      var inflight := store.HasProcessedEvent(mark);
      if !inflight {
        return Done;
      }
      if slot.Session? && slot.id in licenses {
        return Done;
      }
      var released := store.ReleaseStaleProcessedEvent(mark, now);
      if !released {
        return Busy;
      }
      var claimed := store.ClaimProcessedEvent(mark, now);
      assert store.rows == old(store.rows)[mark := now];
      return Claimed;
    }

    /**
     The reservation goes first: a marker without reservation is claimable, a reservation without marker reads as
     done.
     */
    method Release(slot: Slot)
      modifies store
      ensures store.rows == old(store.rows) - {Reservation(slot), Marker(slot)}
    {
      store.DeleteProcessedEvent(Reservation(slot));
      assert Reservation(slot) !in store.rows;
      store.DeleteProcessedEvent(Marker(slot));
    }

    /**
     One delivery of an event. 200 ends Stripe's retries: the event was finished before, or this delivery finished
     it. 503 says that another delivery is at work, 500 that this one failed and the event can be claimed again.
     */
    method DeliverEvent(id: string, handlerFails: bool, now: int) returns (status: int, handled: bool)
      modifies store
      ensures status == 200 || status == 500 || status == 503
      ensures status == 200 <==>
        || (Key(StripeEvent, id) in old(store.rows) && Key(StripeEventClaim, id) !in old(store.rows))
        || (handled && !handlerFails)
      ensures status == 500 <==> handled && handlerFails
      ensures status == 503 <==>
        && Key(StripeEvent, id) in old(store.rows) && Key(StripeEventClaim, id) in old(store.rows)
        && now - old(store.rows)[Key(StripeEventClaim, id)] <= 600_000_000
      ensures status == 200 ==> Key(StripeEvent, id) in store.rows && Key(StripeEventClaim, id) !in store.rows
      ensures status == 500 ==> Key(StripeEvent, id) !in store.rows && Key(StripeEventClaim, id) !in store.rows
      ensures !handled ==> store.rows == old(store.rows)
    {
      var verdict := ReserveSlot(Event(id), now);
      match verdict {
        case Done => return 200, false;
        case Busy => return 503, false;
        case Claimed =>
      }
      if handlerFails {
        Release(Event(id));
        return 500, true;
      }
      store.CompleteProcessedEvent(Marker(Event(id)));
      return 200, true;
    }

    method SessionFulfilled(id: string) returns (done: bool)
      ensures done <==>
        id in licenses || (Key(StripeFulfill, id) in store.rows && Key(StripeFulfillClaim, id) !in store.rows)
    {
      if id in licenses {
        return true;
      }
      var reserved := store.HasProcessedEvent(Reservation(Session(id)));
      if !reserved {
        return false;
      }
      var inflight := store.HasProcessedEvent(Marker(Session(id)));
      return !inflight;
    }

    /**
     One caller's fulfilment of a paid session. It answers Fulfilled exactly when a license or a done mark stood
     before, or a license is written now, by this caller or by one that won the race to the unique index. A failed
     write leaves the session claimable again; a failed check or claim changes nothing.
     */
    method FulfillCheckout(id: string, lookup: Lookup, trouble: Trouble, now: int) returns (r: Outcome)
      requires Unique(licenses)
      modifies this, store
      ensures Unique(licenses)
      ensures licenses == old(licenses) || (id !in old(licenses) && licenses == old(licenses) + [id])
      ensures Fulfilling(old(store.rows), old(licenses), store.rows, licenses, id, lookup, trouble, now, r)
    {
      if trouble.CheckFails? {
        return Retry;
      }
      var done := SessionFulfilled(id);
      if done {
        return Fulfilled;
      }
      match lookup {
        case Missing => return NotYet;
        case Transient => return Retry;
        case Resolved =>
      }
      if trouble.ClaimFails? {
        return Retry;
      }
      var verdict := ReserveSlot(Session(id), now);
      if verdict != Claimed {
        if trouble.RecheckFails? {
          return Retry;
        }
        done := SessionFulfilled(id);
        return if done then Fulfilled else NotYet;
      }
      if trouble.WriteFails? {
        Release(Session(id));
        assert store.rows == old(store.rows) - {Reservation(Session(id)), Marker(Session(id))};
        return Retry;
      }
      licenses := licenses + [id];
      if trouble.Conflicts? {
        return Fulfilled;
      }
      store.CompleteProcessedEvent(Marker(Session(id)));
      store.DeleteProcessedEvent(Pending(id));
      return Fulfilled;
    }
  }

  /**
   What may go wrong on the way: the first or second look at the session fails, the claim's first statement fails,
   the license insert fails, or another worker's license for the session gets in first.
   */
  datatype Trouble = NoTrouble | CheckFails | ClaimFails | RecheckFails | WriteFails | Conflicts

  /** What one fulfilment may leave, and what it then answers. */
  predicate Fulfilling(rows: Table, licenses: seq<string>, rows': Table, licenses': seq<string>,
    id: string, lookup: Lookup, trouble: Trouble, now: int, r: Outcome)
  {
    var same := rows' == rows && licenses' == licenses;
    var res, mark := Key(StripeFulfill, id), Key(StripeFulfillClaim, id);
    var claims := res !in rows || (mark in rows && now - rows[mark] > 600_000_000);
    if trouble.CheckFails? then r == Retry && same
    else if id in licenses || (res in rows && mark !in rows) then r == Fulfilled && same
    else if lookup == Missing then r == NotYet && same
    else if lookup == Transient || trouble.ClaimFails? then r == Retry && same
    else if !claims then r == (if trouble.RecheckFails? then Retry else NotYet) && same
    else if trouble.WriteFails? then
      r == Retry && licenses' == licenses && rows' == rows - {res, mark}
    else
      && r == Fulfilled && id in licenses' && res in rows'
      && (!trouble.Conflicts? ==> mark !in rows' && Key(StripePendingSession, id) !in rows')
  }
}
