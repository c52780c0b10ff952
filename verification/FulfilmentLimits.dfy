/**
 Runs that show where the guarantees of the claim protocol end: each gives up one
 assumption of a theorem in Fulfilment and breaks its conclusion.
 */
module FulfilmentLimits {
  import opened ProcessedEvents
  import opened Fulfilment
  import opened Stranding

  const SLOT := Event("evt")
  const RES := Reservation(SLOT)
  const MARK := Marker(SLOT)

  predicate Leads(s: State, ls: seq<Label>, t: State) {
    Runs(s, ls) && Final(s, ls) == t
  }

  lemma {:induction false} LeadsThen(s: State, ls: seq<Label>, t: State, l: Label, u: State)
    requires Leads(s, ls, t) && Enabled(t, l) && Step(t, l) == u
    ensures Leads(s, ls + [l], u)
    decreases ls
  {
    if ls == [] {
      assert [l][1..] == [];
    } else {
      assert (ls + [l])[1..] == ls[1..] + [l];
      LeadsThen(Step(s, ls[0]), ls[1..], t, l, u);
    }
  }

  /** A state in which no handler has succeeded and no older binary interfered. */
  function At(now: int, rows: Table, workers: map<nat, Pc>): State {
    State(now, rows, workers, [], multiset{}, {})
  }

  /** Worker w's next statement, without a fault. */
  function Go(w: nat): Label { Exec(w, NoFault) }

  const LATE := STALE_CLAIM_AGE + 1

  /** Worker 0 claims the event. */
  function ClaimRun(): seq<Label> { [] + [Begin(0, SLOT)] + [Go(0)] + [Go(0)] + [Go(0)] }

  const CLAIMED := At(0, map[RES := 0, MARK := 0], map[0 := Own(SLOT, 0)])

  lemma InsertingLeads()
    ensures Leads(START, [] + [Begin(0, SLOT)] + [Go(0)] + [Go(0)], At(0, map[RES := 0], map[0 := InsertMarker(SLOT)]))
  {
    var s1 := At(0, map[], map[0 := InsertReservation(SLOT)]);
    var s2 := At(0, map[RES := 0], map[0 := DropOrphan(SLOT)]);
    LeadsThen(START, [], START, Begin(0, SLOT), s1);
    LeadsThen(START, [] + [Begin(0, SLOT)], s1, Go(0), s2);
    LeadsThen(START, [] + [Begin(0, SLOT)] + [Go(0)], s2, Go(0), At(0, map[RES := 0], map[0 := InsertMarker(SLOT)]));
  }

  lemma ClaimRunLeads()
    ensures Leads(START, ClaimRun(), CLAIMED)
  {
    InsertingLeads();
    LeadsThen(START, [] + [Begin(0, SLOT)] + [Go(0)] + [Go(0)], At(0, map[RES := 0], map[0 := InsertMarker(SLOT)]),
      Go(0), CLAIMED);
  }

  /** Worker 0 is between the two deletes of its release. */
  const RELEASING := At(0, map[MARK := 0], map[0 := ReleaseMarker(SLOT, 0)])

  lemma ReleasingLeads(r: seq<Label>)
    ensures Leads(START, r, CLAIMED) ==>
      Leads(START, r + [Refuse(0)] + [Go(0)], RELEASING)
  {
    if Leads(START, r, CLAIMED) {
      var t1 := At(0, CLAIMED.rows, map[0 := ReleaseReservation(SLOT, 0)]);
      LeadsThen(START, r, CLAIMED, Refuse(0), t1);
      LeadsThen(START, r + [Refuse(0)], t1, Go(0), RELEASING);
    }
  }

  /** Worker w finds the slot reserved, with a marker in flight. */
  lemma ProbeLeads(r: seq<Label>, now: int, rows: Table, workers: map<nat, Pc>, w: nat)
    ensures RES in rows && MARK in rows && w !in workers && Leads(START, r, At(now, rows, workers)) ==>
      Leads(START, r + [Begin(w, SLOT)] + [Go(w)] + [Go(w)], At(now, rows, workers[w := ExpireMarker(SLOT)]))
  {
    if RES in rows && MARK in rows && w !in workers && Leads(START, r, At(now, rows, workers)) {
      var t1 := At(now, rows, workers[w := InsertReservation(SLOT)]);
      var t2 := At(now, rows, workers[w := ProbeMarker(SLOT)]);
      assert t2.workers == t1.workers[w := ProbeMarker(SLOT)];
      assert workers[w := ExpireMarker(SLOT)] == t2.workers[w := ExpireMarker(SLOT)];
      LeadsThen(START, r, At(now, rows, workers), Begin(w, SLOT), t1);
      LeadsThen(START, r + [Begin(w, SLOT)], t1, Go(w), t2);
      LeadsThen(START, r + [Begin(w, SLOT)] + [Go(w)], t2, Go(w), At(now, rows, workers[w := ExpireMarker(SLOT)]));
    }
  }

  /** Worker w expires a stale marker and writes its own. */
  lemma TakeOverLeads(r: seq<Label>, now: int, rows: Table, workers: map<nat, Pc>, w: nat)
    requires Stale(rows, MARK, now) && w in workers && workers[w] == ExpireMarker(SLOT)
    ensures Leads(START, r, At(now, rows, workers)) ==>
      Leads(START, r + [Go(w)] + [Go(w)], At(now, rows[MARK := now], workers[w := Own(SLOT, now)]))
  {
    if Leads(START, r, At(now, rows, workers)) {
      var t1 := At(now, rows - {MARK}, workers[w := TakeOver(SLOT)]);
      var t2 := At(now, rows[MARK := now], workers[w := Own(SLOT, now)]);
      assert t2.workers == t1.workers[w := Own(SLOT, now)];
      assert t2.rows == t1.rows[MARK := now];
      LeadsThen(START, r, At(now, rows, workers), Go(w), t1);
      LeadsThen(START, r + [Go(w)], t1, Go(w), t2);
    }
  }

  /** Owner 0 is overdue when worker 1 probes the slot, expires the marker and takes over. */
  function OverdueRun(): seq<Label> {
    ClaimRun() + [Tick(LATE)] + [Begin(1, SLOT)] + [Go(1)] + [Go(1)] + [Go(1)] + [Go(1)]
  }

  lemma OverdueLeads(r: seq<Label>)
    ensures Leads(START, r, CLAIMED) ==>
      Leads(START, r + [Tick(LATE)] + [Begin(1, SLOT)] + [Go(1)] + [Go(1)] + [Go(1)] + [Go(1)],
      At(LATE, CLAIMED.rows[MARK := LATE], CLAIMED.workers[1 := ExpireMarker(SLOT)][1 := Own(SLOT, LATE)]))
  {
    if Leads(START, r, CLAIMED) {
      var q := r + [Tick(LATE)];
      LeadsThen(START, r, CLAIMED, Tick(LATE), At(LATE, CLAIMED.rows, CLAIMED.workers));
      ProbeLeads(q, LATE, CLAIMED.rows, CLAIMED.workers, 1);
      TakeOverLeads(q + [Begin(1, SLOT)] + [Go(1)] + [Go(1)],
        LATE, CLAIMED.rows, CLAIMED.workers[1 := ExpireMarker(SLOT)], 1);
    }
  }

  lemma OverdueIsFaultless()
    ensures forall l :: l in OverdueRun() ==> Faultless(l)
  {
  }

  /** Timeliness is needed: without any fault, an owner that outlives its claim is joined by a second owner. */
  lemma OverdueOwnerIsJoined()
    ensures Runs(START, OverdueRun())
    ensures forall l :: l in OverdueRun() ==> Faultless(l)
    ensures Owns(Final(START, OverdueRun()), 0, SLOT) && Owns(Final(START, OverdueRun()), 1, SLOT)
  {
    OverdueIsFaultless();
    ClaimRunLeads();
    OverdueLeads(ClaimRun());
  }

  // ─── Three ways to orphan a marker, and what an orphan leads to ───

  const ORPHANED := At(0, map[MARK := 0], map[])

  /** Worker 0 gives its claim back, but the delete of the marker fails. */
  function FailedDelete(): seq<Label> { ClaimRun() + [Refuse(0)] + [Go(0)] + [Exec(0, Fail)] }

  /** The delete of the reservation takes effect but reports an error, so the marker is not deleted. */
  function LostRelease(): seq<Label> { ClaimRun() + [Refuse(0)] + [Exec(0, Lost)] }

  /** The insert of the marker takes effect but reports an error, so the reservation alone is undone. */
  function LostMarker(): seq<Label> { [] + [Begin(0, SLOT)] + [Go(0)] + [Go(0)] + [Exec(0, Lost)] + [Go(0)] }

  lemma HalfReleaseLeads(r: seq<Label>)
    ensures Leads(START, r, CLAIMED) ==>
      Leads(START, r + [Refuse(0)] + [Go(0)] + [Exec(0, Fail)], ORPHANED)
  {
    if Leads(START, r, CLAIMED) {
      ReleasingLeads(r);
      LeadsThen(START, r + [Refuse(0)] + [Go(0)], RELEASING, Exec(0, Fail), ORPHANED);
    }
  }

  lemma LostReleaseLeads(r: seq<Label>)
    ensures Leads(START, r, CLAIMED) ==>
      Leads(START, r + [Refuse(0)] + [Exec(0, Lost)], ORPHANED)
  {
    if Leads(START, r, CLAIMED) {
      var t1 := At(0, CLAIMED.rows, map[0 := ReleaseReservation(SLOT, 0)]);
      LeadsThen(START, r, CLAIMED, Refuse(0), t1);
      LeadsThen(START, r + [Refuse(0)], t1, Exec(0, Lost), ORPHANED);
    }
  }

  lemma LostMarkerLeads(r: seq<Label>)
    ensures Leads(START, r, At(0, map[RES := 0], map[0 := InsertMarker(SLOT)])) ==>
      Leads(START, r + [Exec(0, Lost)] + [Go(0)], ORPHANED)
  {
    if Leads(START, r, At(0, map[RES := 0], map[0 := InsertMarker(SLOT)])) {
      var t1 := At(0, map[RES := 0, MARK := 0], map[0 := UndoReservation(SLOT)]);
      LeadsThen(START, r, At(0, map[RES := 0], map[0 := InsertMarker(SLOT)]), Exec(0, Lost), t1);
      LeadsThen(START, r + [Exec(0, Lost)], t1, Go(0), ORPHANED);
    }
  }

  /**
   Ten minutes after the run r, worker 1 reserves the slot; before it has swept the orphan, worker 2 takes
   the orphan over; then worker 1 goes on.
   */
  function Shared(r: seq<Label>): seq<Label> {
    OrphanReserved(r) + [Begin(2, SLOT)] + [Go(2)] + [Go(2)] + [Go(2)] + [Go(2)] + [Go(1)] + [Go(1)]
  }

  function OrphanReserved(r: seq<Label>): seq<Label> { r + [Tick(LATE)] + [Begin(1, SLOT)] + [Go(1)] }

  const SWEEPING := map[1 := DropOrphan(SLOT)]

  lemma OrphanReservedLeads(r: seq<Label>)
    ensures Leads(START, r, ORPHANED) ==>
      Leads(START, OrphanReserved(r), At(LATE, map[MARK := 0, RES := LATE], SWEEPING))
  {
    if Leads(START, r, ORPHANED) {
      var t1 := At(LATE, map[MARK := 0], map[1 := InsertReservation(SLOT)]);
      LeadsThen(START, r, ORPHANED, Tick(LATE), At(LATE, map[MARK := 0], map[]));
      LeadsThen(START, r + [Tick(LATE)], At(LATE, map[MARK := 0], map[]), Begin(1, SLOT), t1);
      LeadsThen(START, r + [Tick(LATE)] + [Begin(1, SLOT)], t1, Go(1),
        At(LATE, map[MARK := 0, RES := LATE], SWEEPING));
    }
  }

  lemma OrphanTakenLeads(r: seq<Label>)
    ensures Leads(START, r, At(LATE, map[MARK := 0, RES := LATE], SWEEPING)) ==>
      Leads(START, r + [Begin(2, SLOT)] + [Go(2)] + [Go(2)] + [Go(2)] + [Go(2)],
      At(LATE, map[MARK := LATE, RES := LATE], SWEEPING[2 := Own(SLOT, LATE)]))
  {
    if Leads(START, r, At(LATE, map[MARK := 0, RES := LATE], SWEEPING)) {
      var rows := map[MARK := 0, RES := LATE];
      ProbeLeads(r, LATE, rows, SWEEPING, 2);
      var probing := SWEEPING[2 := ExpireMarker(SLOT)];
      TakeOverLeads(r + [Begin(2, SLOT)] + [Go(2)] + [Go(2)], LATE, rows, probing, 2);
      assert rows[MARK := LATE] == map[MARK := LATE, RES := LATE];
      assert probing[2 := Own(SLOT, LATE)] == SWEEPING[2 := Own(SLOT, LATE)];
    }
  }

  lemma OrphanRunEnds(r: seq<Label>)
    ensures Leads(START, r, At(LATE, map[MARK := LATE, RES := LATE], SWEEPING[2 := Own(SLOT, LATE)])) ==>
      Leads(START, r + [Go(1)] + [Go(1)],
      At(LATE, map[MARK := LATE, RES := LATE], map[1 := Own(SLOT, LATE), 2 := Own(SLOT, LATE)]))
  {
    if Leads(START, r, At(LATE, map[MARK := LATE, RES := LATE], SWEEPING[2 := Own(SLOT, LATE)])) {
      var own := Own(SLOT, LATE);
      var t := At(LATE, map[MARK := LATE, RES := LATE], SWEEPING[2 := own]);
      var t1 := At(LATE, map[RES := LATE], map[1 := InsertMarker(SLOT), 2 := own]);
      LeadsThen(START, r, t, Go(1), t1);
      LeadsThen(START, r + [Go(1)], t1, Go(1), At(LATE, map[MARK := LATE, RES := LATE], map[1 := own, 2 := own]));
    }
  }

  /** The run r ends with two workers owning the slot, both with claims that are brand new. */
  predicate EndsShared(r: seq<Label>) {
    Runs(START, r) && Final(START, r) == SHARED
  }

  const SHARED := At(LATE, map[MARK := LATE, RES := LATE], map[1 := Own(SLOT, LATE), 2 := Own(SLOT, LATE)])

  lemma OrphanIsShared(r: seq<Label>)
    ensures Leads(START, r, ORPHANED) ==>
      EndsShared(Shared(r))
  {
    if Leads(START, r, ORPHANED) {
      OrphanReservedLeads(r);
      OrphanTakenLeads(OrphanReserved(r));
      OrphanRunEnds(OrphanReserved(r) + [Begin(2, SLOT)] + [Go(2)] + [Go(2)] + [Go(2)] + [Go(2)]);
    }
  }

  /** Effective releases are needed: a marker delete that fails lets two workers own the slot. */
  lemma OrphanedMarkerIsSharedOwnership()
    ensures EndsShared(Shared(FailedDelete())) && Owns(SHARED, 1, SLOT) && Owns(SHARED, 2, SLOT) && Timely(SHARED)
  {
    ClaimRunLeads();
    HalfReleaseLeads(ClaimRun());
    OrphanIsShared(FailedDelete());
  }

  /** So does a reservation delete whose acknowledgement is lost. */
  lemma LostReleaseIsSharedOwnership()
    ensures EndsShared(Shared(LostRelease())) && Owns(SHARED, 1, SLOT) && Owns(SHARED, 2, SLOT) && Timely(SHARED)
  {
    ClaimRunLeads();
    LostReleaseLeads(ClaimRun());
    OrphanIsShared(LostRelease());
  }

  /** And a marker insert whose acknowledgement is lost. */
  lemma LostMarkerIsSharedOwnership()
    ensures EndsShared(Shared(LostMarker())) && Owns(SHARED, 1, SLOT) && Owns(SHARED, 2, SLOT) && Timely(SHARED)
  {
    InsertingLeads();
    LostMarkerLeads([] + [Begin(0, SLOT)] + [Go(0)] + [Go(0)]);
    OrphanIsShared(LostMarker());
  }

  // ─── Taking over a slot that nobody has reserved ───

  /**
   Worker 1 has seen the slot in flight when its owner releases it and the marker's delete fails. Ten minutes
   later worker 1 expires the orphan: the slot is free, but it is not reserved any more.
   */
  function LateProbe(): seq<Label> {
    ClaimRun() + [Begin(1, SLOT)] + [Go(1)] + [Go(1)] + [Refuse(0)] + [Go(0)] + [Exec(0, Fail)] + [Tick(LATE)]
  }

  const PROBING := map[1 := ExpireMarker(SLOT)]

  lemma LateProbeLeads()
    ensures Leads(START, LateProbe(), At(LATE, map[MARK := 0], PROBING))
  {
    var r := ClaimRun() + [Begin(1, SLOT)] + [Go(1)] + [Go(1)];
    var own := CLAIMED.workers[1 := ExpireMarker(SLOT)];
    ClaimRunLeads();
    ProbeLeads(ClaimRun(), 0, CLAIMED.rows, CLAIMED.workers, 1);
    assert own == PROBING[0 := Own(SLOT, 0)];
    HalfReleaseBeside(r);
    LeadsThen(START, r + [Refuse(0)] + [Go(0)] + [Exec(0, Fail)], At(0, map[MARK := 0], PROBING),
      Tick(LATE), At(LATE, map[MARK := 0], PROBING));
  }

  lemma HalfReleaseBeside(r: seq<Label>)
    ensures Leads(START, r, At(0, CLAIMED.rows, PROBING[0 := Own(SLOT, 0)])) ==>
      Leads(START, r + [Refuse(0)] + [Go(0)] + [Exec(0, Fail)], At(0, map[MARK := 0], PROBING))
  {
    if Leads(START, r, At(0, CLAIMED.rows, PROBING[0 := Own(SLOT, 0)])) {
      var t := At(0, CLAIMED.rows, PROBING[0 := Own(SLOT, 0)]);
      var t1 := At(0, CLAIMED.rows, PROBING[0 := ReleaseReservation(SLOT, 0)]);
      LeadsThen(START, r, t, Refuse(0), t1);
      DeletesBeside(r + [Refuse(0)]);
    }
  }

  lemma DeletesBeside(r: seq<Label>)
    ensures Leads(START, r, At(0, CLAIMED.rows, PROBING[0 := ReleaseReservation(SLOT, 0)])) ==>
      Leads(START, r + [Go(0)] + [Exec(0, Fail)], At(0, map[MARK := 0], PROBING))
  {
    if Leads(START, r, At(0, CLAIMED.rows, PROBING[0 := ReleaseReservation(SLOT, 0)])) {
      var t1 := At(0, CLAIMED.rows, PROBING[0 := ReleaseReservation(SLOT, 0)]);
      var t2 := At(0, map[MARK := 0], PROBING[0 := ReleaseMarker(SLOT, 0)]);
      LeadsThen(START, r, t1, Go(0), t2);
      assert t2.workers - {0} == PROBING;
      LeadsThen(START, r + [Go(0)], t2, Exec(0, Fail), At(0, map[MARK := 0], PROBING));
    }
  }

  /** Worker 1 takes the slot over, and worker 2 finds it unreserved and claims it as well. */
  function TakenUnreserved(): seq<Label> {
    LateProbe() + [Go(1)] + [Go(1)] + [Begin(2, SLOT)] + [Go(2)] + [Go(2)] + [Go(2)]
  }

  lemma ReclaimBeside(r: seq<Label>)
    ensures Leads(START, r, At(LATE, map[MARK := LATE], map[1 := Own(SLOT, LATE)])) ==>
      Leads(START, r + [Begin(2, SLOT)] + [Go(2)] + [Go(2)] + [Go(2)], SHARED)
  {
    if Leads(START, r, At(LATE, map[MARK := LATE], map[1 := Own(SLOT, LATE)])) {
      var own := Own(SLOT, LATE);
      var t1 := At(LATE, map[MARK := LATE], map[1 := own, 2 := InsertReservation(SLOT)]);
      var t2 := At(LATE, map[MARK := LATE, RES := LATE], map[1 := own, 2 := DropOrphan(SLOT)]);
      LeadsThen(START, r, At(LATE, map[MARK := LATE], map[1 := own]), Begin(2, SLOT), t1);
      LeadsThen(START, r + [Begin(2, SLOT)], t1, Go(2), t2);
      MarkBeside(r + [Begin(2, SLOT)] + [Go(2)]);
    }
  }

  lemma MarkBeside(r: seq<Label>)
    ensures Leads(START, r,
      At(LATE, map[MARK := LATE, RES := LATE], map[1 := Own(SLOT, LATE), 2 := DropOrphan(SLOT)])) ==>
      Leads(START, r + [Go(2)] + [Go(2)], SHARED)
  {
    if Leads(START, r, At(LATE, map[MARK := LATE, RES := LATE], map[1 := Own(SLOT, LATE), 2 := DropOrphan(SLOT)])) {
      var own := Own(SLOT, LATE);
      var t2 := At(LATE, map[MARK := LATE, RES := LATE], map[1 := own, 2 := DropOrphan(SLOT)]);
      var t3 := At(LATE, map[RES := LATE], map[1 := own, 2 := InsertMarker(SLOT)]);
      LeadsThen(START, r, t2, Go(2), t3);
      LeadsThen(START, r + [Go(2)], t3, Go(2), SHARED);
    }
  }

  /**
   Both conditions of the exact theorem are needed: here the only takeover hits a slot that is free but not
   reserved, and the slot still ends with two owners.
   */
  lemma UnreservedTakeoverIsSharedOwnership()
    ensures Runs(START, LateProbe()) && TakesOverUnreserved(Final(START, LateProbe()), Go(1))
    ensures !TakesOverHeld(Final(START, LateProbe()), Go(1))
    ensures EndsShared(TakenUnreserved()) && Owns(SHARED, 1, SLOT) && Owns(SHARED, 2, SLOT)
  {
    LateProbeLeads();
    UnreservedState();
    TakenUnreservedLeads(LateProbe());
  }

  lemma TakenUnreservedLeads(r: seq<Label>)
    ensures Leads(START, r, At(LATE, map[MARK := 0], PROBING)) ==>
      Leads(START, r + [Go(1)] + [Go(1)] + [Begin(2, SLOT)] + [Go(2)] + [Go(2)] + [Go(2)], SHARED)
  {
    if Leads(START, r, At(LATE, map[MARK := 0], PROBING)) {
      TakeOverLeads(r, LATE, map[MARK := 0], PROBING, 1);
      assert map[MARK := 0][MARK := LATE] == map[MARK := LATE];
      assert PROBING[1 := Own(SLOT, LATE)] == map[1 := Own(SLOT, LATE)];
      ReclaimBeside(r + [Go(1)] + [Go(1)]);
    }
  }

  lemma UnreservedState()
    ensures TakesOverUnreserved(At(LATE, map[MARK := 0], PROBING), Go(1))
    ensures !TakesOverHeld(At(LATE, map[MARK := 0], PROBING), Go(1))
  {
  }

  // ─── Slots that read as done too early ───

  /**
   Worker 0 is giving its claim back when worker 1 claims the slot; the second delete of the release
   then hits worker 1's marker.
   */
  function UnmarkingRun(): seq<Label> {
    ClaimRun() + [Refuse(0)] + [Go(0)] + [Begin(1, SLOT)] + [Go(1)] + [Go(1)] + [Go(1)] + [Go(0)]
  }

  lemma ReclaimLeads(r: seq<Label>)
    ensures Leads(START, r, RELEASING) ==>
      Leads(START, r + [Begin(1, SLOT)] + [Go(1)] + [Go(1)] + [Go(1)], RECLAIMED)
  {
    if Leads(START, r, RELEASING) {
      var zero := ReleaseMarker(SLOT, 0);
      var t1 := At(0, map[MARK := 0], map[0 := zero, 1 := InsertReservation(SLOT)]);
      var t2 := At(0, map[MARK := 0, RES := 0], map[0 := zero, 1 := DropOrphan(SLOT)]);
      LeadsThen(START, r, RELEASING, Begin(1, SLOT), t1);
      LeadsThen(START, r + [Begin(1, SLOT)], t1, Go(1), t2);
      RemarkLeads(r + [Begin(1, SLOT)] + [Go(1)]);
    }
  }

  /** Worker 1 owns the slot while worker 0's release has its second delete ahead. */
  const RECLAIMED := At(0, map[RES := 0, MARK := 0], map[0 := ReleaseMarker(SLOT, 0), 1 := Own(SLOT, 0)])

  lemma RemarkLeads(r: seq<Label>)
    ensures Leads(START, r,
      At(0, map[MARK := 0, RES := 0], map[0 := ReleaseMarker(SLOT, 0), 1 := DropOrphan(SLOT)])) ==>
      Leads(START, r + [Go(1)] + [Go(1)], RECLAIMED)
  {
    if Leads(START, r, At(0, map[MARK := 0, RES := 0], map[0 := ReleaseMarker(SLOT, 0), 1 := DropOrphan(SLOT)])) {
      var zero := ReleaseMarker(SLOT, 0);
      var t2 := At(0, map[MARK := 0, RES := 0], map[0 := zero, 1 := DropOrphan(SLOT)]);
      var t3 := At(0, map[RES := 0], map[0 := zero, 1 := InsertMarker(SLOT)]);
      LeadsThen(START, r, t2, Go(1), t3);
      LeadsThen(START, r + [Go(1)], t3, Go(1), RECLAIMED);
    }
  }

  lemma UnmarkLeads(r: seq<Label>)
    ensures Leads(START, r, RECLAIMED) ==>
      Leads(START, r + [Go(0)], At(0, map[RES := 0], map[1 := Own(SLOT, 0)]))
  {
    if Leads(START, r, RECLAIMED) {
      LeadsThen(START, r, RECLAIMED, Go(0), At(0, map[RES := 0], map[1 := Own(SLOT, 0)]));
    }
  }

  lemma UnmarkingLeads()
    ensures Leads(START, UnmarkingRun(), At(0, map[RES := 0], map[1 := Own(SLOT, 0)]))
  {
    var r := ClaimRun() + [Refuse(0)] + [Go(0)];
    ClaimRunLeads();
    ReleasingLeads(ClaimRun());
    ReclaimLeads(r);
    UnmarkLeads(r + [Begin(1, SLOT)] + [Go(1)] + [Go(1)] + [Go(1)]);
  }

  /**
   A release can take the next claim's marker with it: without any fault the slot then reads as done while
   its owner's handler is still ahead, and if that owner dies, the slot stays so with nobody on it.
   */
  lemma ReleaseUnmarksTheNextClaim()
    ensures Clean(START, UnmarkingRun()) && Runs(START, UnmarkingRun())
    ensures var t := Final(START, UnmarkingRun());
      && Owns(t, 1, SLOT) && ReadsDone(t, SLOT) && !Handled(t, SLOT) && SLOT !in t.legacy
      && Quiet(Step(t, Crash(1)), SLOT) && ReadsDone(Step(t, Crash(1)), SLOT) && !Handled(Step(t, Crash(1)), SLOT)
  {
    UnmarkingLeads();
    UnmarkingIsClean();
    UnmarkedReadsDone(Final(START, UnmarkingRun()));
  }

  lemma UnmarkedReadsDone(t: State)
    requires t == At(0, map[RES := 0], map[1 := Own(SLOT, 0)])
    ensures Owns(t, 1, SLOT) && ReadsDone(t, SLOT) && !Handled(t, SLOT) && SLOT !in t.legacy
    ensures Quiet(Step(t, Crash(1)), SLOT) && ReadsDone(Step(t, Crash(1)), SLOT) && !Handled(Step(t, Crash(1)), SLOT)
  {
  }

  lemma UnmarkingIsFaultless()
    ensures forall l :: l in UnmarkingRun() ==> Faultless(l) && !l.Tick?
  {
  }

  lemma UnmarkingIsClean()
    ensures Clean(START, UnmarkingRun())
  {
    UnmarkingLeads();
    UnmarkingIsFaultless();
    InstantIsClean(START, UnmarkingRun());
  }

  /** A fault-free run in which no time passes is timely throughout. */
  lemma {:induction false} InstantIsClean(s: State, ls: seq<Label>)
    requires Runs(s, ls) && s.now == 0
    requires forall l :: l in ls ==> Faultless(l) && !l.Tick?
    requires forall w, slot, since :: Tends(s, w, slot, since) ==> since == 0
    ensures Clean(s, ls)
    decreases ls
  {
    if ls != [] {
      var t := Step(s, ls[0]);
      forall w, slot, since | Tends(t, w, slot, since)
        ensures since == 0
      {
        if w in s.workers && (Owning(s.workers[w]) || s.workers[w].ReleaseMarker?) {
          assert Tends(s, w, s.workers[w].slot, s.workers[w].since);
        }
      }
      InstantIsClean(t, ls[1..]);
    }
  }

  /** Between the two inserts of a claim the slot reads as done although its handler has not even started. */
  lemma DoneCanBePremature()
    ensures Runs(START, [] + [Begin(0, SLOT)] + [Go(0)])
    ensures Clean(START, [Begin(0, SLOT), Go(0)])
    ensures var t := Final(START, [] + [Begin(0, SLOT)] + [Go(0)]);
      ReadsDone(t, SLOT) && !Handled(t, SLOT) && SLOT !in t.legacy
  {
    var s1 := At(0, map[], map[0 := InsertReservation(SLOT)]);
    var s2 := At(0, map[RES := 0], map[0 := DropOrphan(SLOT)]);
    LeadsThen(START, [], START, Begin(0, SLOT), s1);
    LeadsThen(START, [] + [Begin(0, SLOT)], s1, Go(0), s2);
  }

  /** Crash-freedom is needed: a worker dying there leaves, with nobody left on the slot, a claim that reads as done. */
  lemma CrashStrandsTheSlot()
    ensures Runs(START, [] + [Begin(0, SLOT)] + [Go(0)] + [Crash(0)])
    ensures var t := Final(START, [] + [Begin(0, SLOT)] + [Go(0)] + [Crash(0)]);
      Quiet(t, SLOT) && ReadsDone(t, SLOT) && !Handled(t, SLOT) && SLOT !in t.legacy
  {
    var s1 := At(0, map[], map[0 := InsertReservation(SLOT)]);
    var s2 := At(0, map[RES := 0], map[0 := DropOrphan(SLOT)]);
    LeadsThen(START, [], START, Begin(0, SLOT), s1);
    LeadsThen(START, [] + [Begin(0, SLOT)], s1, Go(0), s2);
    LeadsThen(START, [] + [Begin(0, SLOT)] + [Go(0)], s2, Crash(0), At(0, map[RES := 0], map[]));
  }

  /** The reservation's insert takes effect but reports an error: nobody is on the slot, and it reads as done. */
  lemma LostReservationStrandsTheSlot()
    ensures Runs(START, [] + [Begin(0, SLOT)] + [Exec(0, Lost)])
    ensures Stranded(Final(START, [] + [Begin(0, SLOT)] + [Exec(0, Lost)]), SLOT)
  {
    var s1 := At(0, map[], map[0 := InsertReservation(SLOT)]);
    LeadsThen(START, [], START, Begin(0, SLOT), s1);
    LeadsThen(START, [] + [Begin(0, SLOT)], s1, Exec(0, Lost), STRANDED);
  }

  const STRANDED := At(0, map[RES := 0], map[])

  /** Owner 0 dies; ten minutes later worker 1 deletes the stale marker, and the insert of its own fails. */
  function FailedTakeover(): seq<Label> {
    Abandoned() + [Begin(1, SLOT)] + [Go(1)] + [Go(1)] + [Go(1)] + [Exec(1, Fail)]
  }

  function Abandoned(): seq<Label> { ClaimRun() + [Crash(0)] + [Tick(LATE)] }

  lemma AbandonedLeads(r: seq<Label>)
    ensures Leads(START, r, CLAIMED) ==>
      Leads(START, r + [Crash(0)] + [Tick(LATE)], At(LATE, CLAIMED.rows, map[]))
  {
    if Leads(START, r, CLAIMED) {
      LeadsThen(START, r, CLAIMED, Crash(0), At(0, CLAIMED.rows, map[]));
      LeadsThen(START, r + [Crash(0)], At(0, CLAIMED.rows, map[]), Tick(LATE), At(LATE, CLAIMED.rows, map[]));
    }
  }

  lemma HalfTakeoverLeads(r: seq<Label>)
    ensures Leads(START, r, At(LATE, CLAIMED.rows, map[1 := ExpireMarker(SLOT)])) ==>
      Leads(START, r + [Go(1)] + [Exec(1, Fail)], At(LATE, map[RES := 0], map[]))
  {
    if Leads(START, r, At(LATE, CLAIMED.rows, map[1 := ExpireMarker(SLOT)])) {
      var t1 := At(LATE, map[RES := 0], map[1 := TakeOver(SLOT)]);
      LeadsThen(START, r, At(LATE, CLAIMED.rows, map[1 := ExpireMarker(SLOT)]), Go(1), t1);
      LeadsThen(START, r + [Go(1)], t1, Exec(1, Fail), At(LATE, map[RES := 0], map[]));
    }
  }

  /** A takeover that fails half-way strands the slot it meant to rescue. */
  lemma FailedTakeoverStrandsTheSlot()
    ensures Runs(START, FailedTakeover()) && Stranded(Final(START, FailedTakeover()), SLOT)
  {
    ClaimRunLeads();
    AbandonedLeads(ClaimRun());
    ProbeLeads(Abandoned(), LATE, CLAIMED.rows, map[], 1);
    assert map[][1 := ExpireMarker(SLOT)] == map[1 := ExpireMarker(SLOT)];
    HalfTakeoverLeads(Abandoned() + [Begin(1, SLOT)] + [Go(1)] + [Go(1)]);
  }
}
