/**
 Exactly-once fulfilment of Stripe events and checkout sessions.

 A slot is an event or a session. Its claim is a durable reservation row plus an
 in-flight marker row. Workers run reserve, the handler, and then completion or
 release; every SQL statement is one step, and steps of any number of workers
 interleave. A statement can fail without effect, or take effect and still report
 an error, and a worker can crash between any two statements.
 */
module Fulfilment {
  import opened ProcessedEvents

  datatype Slot = Event(id: string) | Session(id: string)

  function Reservation(slot: Slot): Key {
    match slot
    case Event(id) => Key(StripeEvent, id)
    case Session(id) => Key(StripeFulfill, id)
  }

  function Marker(slot: Slot): Key {
    match slot
    case Event(id) => Key(StripeEventClaim, id)
    case Session(id) => Key(StripeFulfillClaim, id)
  }

  /** Where a worker stands: the statement it executes next. `since` is the time its marker was written. */
  datatype Pc =
    | InsertReservation(slot: Slot)
    | DropOrphan(slot: Slot)
    | InsertMarker(slot: Slot)
    | UndoReservation(slot: Slot)
    | ProbeMarker(slot: Slot)
    | ProbeFulfilled(slot: Slot)
    | ExpireMarker(slot: Slot)
    | TakeOver(slot: Slot)
    | Own(slot: Slot, since: int)
    | Complete(slot: Slot, since: int)
    | ReleaseReservation(slot: Slot, since: int)
    | ReleaseMarker(slot: Slot, since: int)

  /** None: the statement runs. Fail: it reports an error and did nothing. Lost: it took effect and reports an error. */
  datatype Fault = NoFault | Fail | Lost

  datatype Label =
    | Tick(d: nat)
    | Begin(w: nat, slot: Slot)
    | Exec(w: nat, fault: Fault)
    | Refuse(w: nat)
    | Crash(w: nat)
    | OlderBinary(slot: Slot)

  /**
   `licenses` lists the checkout session id of every license row, `applied` every event
   whose handler ran to success, and `legacy` the slots an older binary recorded.
   */
  datatype State = State(
    now: int,
    rows: Table,
    workers: map<nat, Pc>,
    licenses: seq<string>,
    applied: multiset<string>,
    legacy: set<Slot>)

  const START := State(0, map[], map[], [], multiset{}, {})

  predicate Handled(s: State, slot: Slot) {
    match slot
    case Event(id) => id in s.applied
    case Session(id) => id in s.licenses
  }

  function Leave(s: State, w: nat): State {
    s.(workers := s.workers - {w})
  }

  function Goto(s: State, w: nat, pc: Pc): State {
    s.(workers := s.workers[w := pc])
  }

  function Put(s: State, k: Key): State {
    s.(rows := Insert(s.rows, k, s.now))
  }

  function Drop(s: State, k: Key): State {
    s.(rows := s.rows - {k})
  }

  predicate Enabled(s: State, l: Label) {
    match l
    case Tick(_) => true
    case Begin(w, _) => w !in s.workers
    case Exec(w, _) => w in s.workers
    case Refuse(w) => w in s.workers && s.workers[w].Own?
    case Crash(w) => w in s.workers
    case OlderBinary(_) => true
  }

  /** The handler's success: an event is applied, a session gets its license row. */
  function Succeed(s: State, slot: Slot): State {
    match slot
    case Event(id) => s.(applied := s.applied + multiset{id})
    case Session(id) => s.(licenses := s.licenses + [id])
  }

  /** The unique index on the license's checkout session refuses a second row. */
  predicate Conflicts(s: State, slot: Slot) {
    slot.Session? && slot.id in s.licenses
  }

  /** One statement of worker w. */
  function ExecWorker(s: State, w: nat, fault: Fault): State
    requires w in s.workers
  {
    var pc := s.workers[w];
    var res, mark := Reservation(pc.slot), Marker(pc.slot);
    match pc
    case InsertReservation(slot) =>
      if fault.Fail? then Leave(s, w)
      else if fault.Lost? then Leave(Put(s, res), w)
      else if res !in s.rows then Goto(Put(s, res), w, DropOrphan(slot))
      else Goto(s, w, ProbeMarker(slot))
    case DropOrphan(slot) =>
      Goto(if fault.Fail? then s else Drop(s, mark), w, InsertMarker(slot))
    case InsertMarker(slot) =>
      if fault.Fail? then Goto(s, w, UndoReservation(slot))
      else if fault.Lost? then Goto(Put(s, mark), w, UndoReservation(slot))
      else if mark !in s.rows then Goto(Put(s, mark), w, Own(slot, s.now))
      else Goto(s, w, UndoReservation(slot))
    case UndoReservation(slot) =>
      Leave(if fault.Fail? then s else Drop(s, res), w)
    case ProbeMarker(slot) =>
      if !fault.NoFault? || mark !in s.rows then Leave(s, w)
      else if slot.Session? then Goto(s, w, ProbeFulfilled(slot))
      else Goto(s, w, ExpireMarker(slot))
    case ProbeFulfilled(slot) =>
      if !fault.NoFault? || Handled(s, slot) then Leave(s, w)
      else Goto(s, w, ExpireMarker(slot))
    case ExpireMarker(slot) =>
      if fault.Fail? || !Stale(s.rows, mark, s.now) then Leave(s, w)
      else if fault.Lost? then Leave(Drop(s, mark), w)
      else Goto(Drop(s, mark), w, TakeOver(slot))
    case TakeOver(slot) =>
      if fault.Fail? || mark in s.rows then Leave(s, w)
      else if fault.Lost? then Leave(Put(s, mark), w)
      else Goto(Put(s, mark), w, Own(slot, s.now))
    case Own(slot, since) =>
      if fault.Fail? then Goto(s, w, ReleaseReservation(slot, since))
      else if Conflicts(s, slot) then Leave(s, w)
      else if fault.Lost? then Goto(Succeed(s, slot), w, ReleaseReservation(slot, since))
      else Goto(Succeed(s, slot), w, Complete(slot, since))
    case Complete(slot, since) =>
      Leave(if fault.Fail? then s else Drop(s, mark), w)
    case ReleaseReservation(slot, since) =>
      if fault.Fail? then Leave(s, w)
      else if fault.Lost? then Leave(Drop(s, res), w)
      else Goto(Drop(s, res), w, ReleaseMarker(slot, since))
    case ReleaseMarker(slot, since) =>
      Leave(if fault.Fail? then s else Drop(s, mark), w)
  }

  function Step(s: State, l: Label): State
    requires Enabled(s, l)
  {
    match l
    case Tick(d) => s.(now := s.now + d)
    case Begin(w, slot) => Goto(s, w, InsertReservation(slot))
    case Exec(w, fault) => ExecWorker(s, w, fault)
    case Refuse(w) => Goto(s, w, ReleaseReservation(s.workers[w].slot, s.workers[w].since))
    case Crash(w) => Leave(s, w)
    case OlderBinary(slot) =>
      if Reservation(slot) in s.rows then s else Put(s, Reservation(slot)).(legacy := s.legacy + {slot})
  }

  predicate Runs(s: State, ls: seq<Label>)
    decreases ls
  {
    ls == [] || (Enabled(s, ls[0]) && Runs(Step(s, ls[0]), ls[1..]))
  }

  function Final(s: State, ls: seq<Label>): State
    requires Runs(s, ls)
    decreases ls
  {
    if ls == [] then s else Final(Step(s, ls[0]), ls[1..])
  }

  // ─── Ownership ───

  /** A worker that took the reservation, or took the claim over, and has not given it back. */
  predicate Holding(pc: Pc) {
    pc.DropOrphan? || pc.InsertMarker? || pc.UndoReservation? || pc.TakeOver? || Owning(pc)
  }

  /** A live owner: from the marker's insert until its handling is completed or its release begins to take effect. */
  predicate Owning(pc: Pc) {
    pc.Own? || pc.Complete? || pc.ReleaseReservation?
  }

  predicate Holds(s: State, w: nat, slot: Slot) {
    w in s.workers && Holding(s.workers[w]) && s.workers[w].slot == slot
  }

  predicate Owns(s: State, w: nat, slot: Slot) {
    w in s.workers && Owning(s.workers[w]) && s.workers[w].slot == slot
  }

  /** A worker that wrote a marker at `since` and has not yet finished completing or releasing. */
  predicate Tends(s: State, w: nat, slot: Slot, since: int) {
    && w in s.workers
    && (Owning(s.workers[w]) || s.workers[w].ReleaseMarker?)
    && s.workers[w].slot == slot
    && s.workers[w].since == since
  }

  /** Every owner, and every release under way, is at most as old as a claim may get. */
  ghost predicate Timely(s: State) {
    forall w, slot, since :: Tends(s, w, slot, since) ==> s.now - since <= STALE_CLAIM_AGE
  }

  /**
   The three ways to leave a marker behind without its reservation: a marker insert that
   reports an error although it happened, a release whose first delete does the same, and
   a release whose second delete never takes effect.
   */
  predicate Orphans(s: State, l: Label) {
    match l
    case Exec(w, fault) =>
      w in s.workers &&
      match s.workers[w] {
        case InsertMarker(_) => fault.Lost?
        case ReleaseReservation(_, _) => fault.Lost?
        case ReleaseMarker(_, _) => fault.Fail?
        case _ => false
      }
    case Crash(w) => w in s.workers && s.workers[w].ReleaseMarker?
    case _ => false
  }

  /** A run in which owners are timely and no release or marker insert leaves an orphan; other faults are free. */
  ghost predicate Orderly(s: State, ls: seq<Label>)
    decreases ls
  {
    ls == [] ||
    (Enabled(s, ls[0]) && Timely(s) && !Orphans(s, ls[0]) && Orderly(Step(s, ls[0]), ls[1..]))
  }

  ghost predicate OneHolder(s: State) {
    forall v, w, slot :: Holds(s, v, slot) && Holds(s, w, slot) ==> v == w
  }

  ghost predicate Reserved(s: State) {
    forall w, slot :: Holds(s, w, slot) ==> Reservation(slot) in s.rows
  }

  ghost predicate Tended(s: State, slot: Slot, since: int) {
    exists w :: Tends(s, w, slot, since)
  }

  ghost predicate Free(s: State, slot: Slot) {
    forall w :: !Holds(s, w, slot)
  }

  /** A marker is either tended by the worker that wrote it, or left over with nobody holding the reserved slot. */
  ghost predicate Markers(s: State) {
    forall slot :: Marker(slot) in s.rows ==>
      Tended(s, slot, s.rows[Marker(slot)]) || (Free(s, slot) && Reservation(slot) in s.rows)
  }

  ghost predicate Exclusive(s: State) {
    OneHolder(s) && Reserved(s) && Markers(s)
  }

  /** The two statements that make their worker a holder. */
  predicate Acquires(s: State, w: nat, fault: Fault)
    requires w in s.workers
  {
    var pc := s.workers[w];
    fault.NoFault? && (
      || (pc.InsertReservation? && Reservation(pc.slot) !in s.rows)
      || (pc.ExpireMarker? && Stale(s.rows, Marker(pc.slot), s.now)))
  }

  lemma HoldersAfter(s: State, l: Label, v: nat, slot: Slot)
    requires Enabled(s, l) && Holds(Step(s, l), v, slot)
    ensures Holds(s, v, slot) || (l.Exec? && v == l.w && slot == s.workers[l.w].slot && Acquires(s, l.w, l.fault))
  {
  }

  // ─── Exactly when a slot keeps one holder ───

  predicate TakesOver(s: State, l: Label) {
    l.Exec? && l.w in s.workers && l.fault.NoFault? && s.workers[l.w].ExpireMarker?
    && Stale(s.rows, Marker(s.workers[l.w].slot), s.now)
  }

  /** The step expires the stale marker of a slot somebody still holds. */
  ghost predicate TakesOverHeld(s: State, l: Label) {
    TakesOver(s, l) && !Free(s, s.workers[l.w].slot)
  }

  /** The step expires a stale marker whose reservation is gone: the slot was released meanwhile. */
  predicate TakesOverUnreserved(s: State, l: Label) {
    TakesOver(s, l) && Reservation(s.workers[l.w].slot) !in s.rows
  }

  /** No slot has two holders, and held slots are reserved. */
  ghost predicate Sole(s: State) {
    OneHolder(s) && Reserved(s)
  }

  lemma OneHolderIff(s: State, l: Label)
    requires Sole(s) && Enabled(s, l)
    ensures OneHolder(Step(s, l)) <==> !TakesOverHeld(s, l)
  {
    var t := Step(s, l);
    if TakesOverHeld(s, l) {
      var v :| Holds(s, v, s.workers[l.w].slot);
      assert Holds(t, v, s.workers[l.w].slot) && Holds(t, l.w, s.workers[l.w].slot);
    } else {
      forall u, v, slot | Holds(t, u, slot) && Holds(t, v, slot)
        ensures u == v
      {
        HoldersAfter(s, l, u, slot);
        HoldersAfter(s, l, v, slot);
      }
    }
  }

  lemma ReservedIff(s: State, l: Label)
    requires Sole(s) && Enabled(s, l)
    ensures Reserved(Step(s, l)) <==> !TakesOverUnreserved(s, l)
  {
    var t := Step(s, l);
    if TakesOverUnreserved(s, l) {
      assert Holds(t, l.w, s.workers[l.w].slot);
    } else {
      forall v, slot | Holds(t, v, slot)
        ensures Reservation(slot) in t.rows
      {
        HoldersAfter(s, l, v, slot);
        assert l.Exec? && Holding(s.workers[l.w]) ==> Holds(s, l.w, s.workers[l.w].slot);
      }
    }
  }

  ghost predicate SoleThroughout(s: State, ls: seq<Label>)
    requires Runs(s, ls)
    decreases ls
  {
    Sole(s) && (ls == [] || SoleThroughout(Step(s, ls[0]), ls[1..]))
  }

  /** No step of the run takes over a slot that is held, or one that nobody has reserved. */
  ghost predicate NeverSteals(s: State, ls: seq<Label>)
    requires Runs(s, ls)
    decreases ls
  {
    ls == [] ||
    (!TakesOverHeld(s, ls[0]) && !TakesOverUnreserved(s, ls[0]) && NeverSteals(Step(s, ls[0]), ls[1..]))
  }

  /**
   Mutual exclusion, exactly. Whatever faults, crashes, orphans and overdue owners occur, every slot has at most one
   holder, and a reserved one, at every point of a run if and only if no takeover hits a held or unreserved slot.
   */
  lemma {:induction false} SoleHolderIff(s: State, ls: seq<Label>)
    requires Runs(s, ls) && Sole(s)
    ensures SoleThroughout(s, ls) <==> NeverSteals(s, ls)
    decreases ls
  {
    if ls != [] {
      OneHolderIff(s, ls[0]);
      ReservedIff(s, ls[0]);
      if Sole(Step(s, ls[0])) {
        SoleHolderIff(Step(s, ls[0]), ls[1..]);
      } else {
        assert !SoleThroughout(Step(s, ls[0]), ls[1..]);
      }
    }
  }

  // ─── Timely owners and clean releases never steal ───

  lemma ExclusiveNeverSteals(s: State, l: Label)
    requires Exclusive(s) && Timely(s)
    ensures !TakesOverHeld(s, l) && !TakesOverUnreserved(s, l)
  {
    if TakesOver(s, l) {
      var slot := s.workers[l.w].slot;
      assert Marker(slot) in s.rows;
      assert !Tended(s, slot, s.rows[Marker(slot)]);
    }
  }

  /** Nobody holds the slot once its holder, if any, has stepped out of it. */
  lemma FreeAfter(s: State, w: nat, fault: Fault, slot: Slot)
    requires OneHolder(s) && w in s.workers
    requires Acquires(s, w, fault) ==> s.workers[w].slot != slot
    requires Free(s, slot) || (Holds(s, w, slot) && !Holds(ExecWorker(s, w, fault), w, slot))
    ensures Free(ExecWorker(s, w, fault), slot)
  {
    forall v | Holds(ExecWorker(s, w, fault), v, slot)
      ensures false
    {
      HoldersAfter(s, Exec(w, fault), v, slot);
    }
  }

  lemma ExclusiveMarkers(s: State, w: nat, fault: Fault)
    requires Exclusive(s) && Timely(s) && w in s.workers && !Orphans(s, Exec(w, fault))
    ensures Markers(ExecWorker(s, w, fault))
  {
    var t := ExecWorker(s, w, fault);
    var mine := s.workers[w].slot;
    forall slot | Marker(slot) in t.rows
      ensures Tended(t, slot, t.rows[Marker(slot)]) || (Free(t, slot) && Reservation(slot) in t.rows)
    {
      var since := t.rows[Marker(slot)];
      if Marker(slot) !in s.rows {
        assert slot == mine;
        if w in t.workers {
          assert Tends(t, w, slot, since);
        } else {
          assert Holds(s, w, slot);
          FreeAfter(s, w, fault, slot);
        }
      } else if Tended(s, slot, since) {
        var v :| Tends(s, v, slot, since);
        if v != w || w in t.workers {
          assert Tends(t, v, slot, since);
        } else {
          assert Holds(s, w, slot);
          FreeAfter(s, w, fault, slot);
        }
      } else {
        assert s.rows[Marker(slot)] == since;
        assert Holding(s.workers[w]) ==> Holds(s, w, s.workers[w].slot);
        assert Free(s, slot) && Reservation(slot) in s.rows;
        assert !Holds(s, w, slot);
        FreeAfter(s, w, fault, slot);
      }
    }
  }

  lemma ExclusiveStep(s: State, l: Label)
    requires Exclusive(s) && Timely(s) && Enabled(s, l) && !Orphans(s, l)
    ensures Exclusive(Step(s, l))
  {
    ExclusiveNeverSteals(s, l);
    OneHolderIff(s, l);
    ReservedIff(s, l);
    if l.Exec? {
      ExclusiveMarkers(s, l.w, l.fault);
    } else {
      MarkersOther(s, l);
    }
  }

  lemma MarkersOther(s: State, l: Label)
    requires Exclusive(s) && Enabled(s, l) && !Orphans(s, l) && !l.Exec?
    ensures Markers(Step(s, l))
  {
    var t := Step(s, l);
    forall slot | Marker(slot) in t.rows
      ensures Tended(t, slot, t.rows[Marker(slot)]) || (Free(t, slot) && Reservation(slot) in t.rows)
    {
      var since := t.rows[Marker(slot)];
      assert forall w :: Holds(t, w, slot) ==> Holds(s, w, slot);
      if Tended(s, slot, since) {
        var v :| Tends(s, v, slot, since);
        if v in t.workers {
          assert Tends(t, v, slot, since);
        } else {
          assert Holds(s, v, slot);
        }
      }
    }
  }

  lemma {:induction false} ExclusiveRun(s: State, ls: seq<Label>)
    requires Exclusive(s) && Orderly(s, ls)
    ensures Runs(s, ls) && Exclusive(Final(s, ls)) && NeverSteals(s, ls)
    decreases ls
  {
    if ls != [] {
      ExclusiveNeverSteals(s, ls[0]);
      ExclusiveStep(s, ls[0]);
      ExclusiveRun(Step(s, ls[0]), ls[1..]);
    }
  }

  lemma {:induction false} SoleAtEnd(s: State, ls: seq<Label>)
    requires Runs(s, ls) && SoleThroughout(s, ls)
    ensures Sole(Final(s, ls))
    decreases ls
  {
    if ls != [] {
      SoleAtEnd(Step(s, ls[0]), ls[1..]);
    }
  }

  /** Mutual exclusion: after any orderly run no slot has two live owners, and an owned slot is reserved. */
  lemma OneLiveOwner(ls: seq<Label>, v: nat, w: nat, slot: Slot)
    requires Orderly(START, ls)
    ensures Runs(START, ls)
    ensures Owns(Final(START, ls), v, slot) ==> Reservation(slot) in Final(START, ls).rows
    ensures Owns(Final(START, ls), v, slot) && Owns(Final(START, ls), w, slot) ==> v == w
  {
    ExclusiveRun(START, ls);
    SoleHolderIff(START, ls);
    SoleAtEnd(START, ls);
    var t := Final(START, ls);
    assert Owns(t, v, slot) ==> Holds(t, v, slot);
    assert Owns(t, w, slot) ==> Holds(t, w, slot);
  }

  // ─── One license per session, under every fault ───

  ghost predicate Unique(xs: seq<string>) {
    forall i, j :: 0 <= i < j < |xs| ==> xs[i] != xs[j]
  }

  /**
   Whatever crashes, takeovers, lost acknowledgements and overdue owners occur, a session gets at most one
   license.
   */
  lemma {:induction false} OneLicensePerSession(s: State, ls: seq<Label>)
    requires Unique(s.licenses) && Runs(s, ls)
    ensures Unique(Final(s, ls).licenses)
    ensures s.licenses <= Final(s, ls).licenses
    decreases ls
  {
    if ls != [] {
      OneLicensePerSession(Step(s, ls[0]), ls[1..]);
    }
  }

  // ─── Exactly once, without faults ───

  predicate Faultless(l: Label) {
    match l
    case Exec(_, fault) => fault.NoFault?
    case Crash(_) => false
    case _ => true
  }

  ghost predicate Clean(s: State, ls: seq<Label>)
    decreases ls
  {
    ls == [] ||
    (Enabled(s, ls[0]) && Timely(s) && Faultless(ls[0]) && Clean(Step(s, ls[0]), ls[1..]))
  }

  /** Every holder of the slot has its handler behind it. */
  ghost predicate OnlyCompleting(s: State, slot: Slot) {
    forall w :: Holds(s, w, slot) ==> s.workers[w].Complete?
  }

  ghost predicate AllTended(s: State) {
    forall slot :: Marker(slot) in s.rows ==> Tended(s, slot, s.rows[Marker(slot)])
  }

  ghost predicate NoTakeOver(s: State) {
    forall w :: w in s.workers ==> !s.workers[w].TakeOver?
  }

  /** A reserved slot nobody holds is done; a done slot stays reserved, and is held at most for completion. */
  ghost predicate DoneAt(s: State, slot: Slot) {
    && (Reservation(slot) in s.rows && OnlyCompleting(s, slot) ==> Handled(s, slot) || slot in s.legacy)
    && (Handled(s, slot) ==> Reservation(slot) in s.rows && OnlyCompleting(s, slot))
    && (slot in s.legacy ==> Reservation(slot) in s.rows && Free(s, slot))
    && (forall w :: Holds(s, w, slot) && s.workers[w].Complete? ==> Handled(s, slot))
  }

  ghost predicate DoneIsReserved(s: State) {
    forall slot :: DoneAt(s, slot)
  }

  ghost predicate OnceEach(s: State) {
    Unique(s.licenses) && forall id :: s.applied[id] <= 1
  }

  ghost predicate Settled(s: State) {
    Exclusive(s) && AllTended(s) && NoTakeOver(s) && DoneIsReserved(s) && OnceEach(s)
  }

  /** Timely owners mean no marker is ever stale, so nothing is taken over. */
  lemma NothingStale(s: State, slot: Slot)
    requires AllTended(s) && Timely(s)
    ensures !Stale(s.rows, Marker(slot), s.now)
  {
    if Marker(slot) in s.rows {
      var w :| Tends(s, w, slot, s.rows[Marker(slot)]);
    }
  }

  lemma NoTakeOverStep(s: State, l: Label)
    requires AllTended(s) && Timely(s) && NoTakeOver(s) && Enabled(s, l) && Faultless(l)
    ensures NoTakeOver(Step(s, l))
  {
    if l.Exec? {
      NothingStale(s, s.workers[l.w].slot);
    }
  }

  lemma TendedStep(s: State, l: Label)
    requires AllTended(s) && Timely(s) && NoTakeOver(s) && Enabled(s, l) && Faultless(l)
    requires DoneIsReserved(s)
    ensures AllTended(Step(s, l)) && NoTakeOver(Step(s, l))
  {
    var t := Step(s, l);
    NoTakeOverStep(s, l);
    if l.Exec? {
      NothingStale(s, s.workers[l.w].slot);
      if s.workers[l.w].Own? {
        OwnerIsFirst(s, l.w);
      }
    }
    forall slot | Marker(slot) in t.rows
      ensures Tended(t, slot, t.rows[Marker(slot)])
    {
      var since := t.rows[Marker(slot)];
      if Marker(slot) in s.rows {
        var v :| Tends(s, v, slot, s.rows[Marker(slot)]);
        assert Tends(t, v, slot, since);
      } else {
        assert Tends(t, l.w, slot, since);
      }
    }
  }

  /** In a settled state an owner's handler has not succeeded before. */
  lemma OwnerIsFirst(s: State, w: nat)
    requires DoneIsReserved(s) && w in s.workers && s.workers[w].Own?
    ensures !Handled(s, s.workers[w].slot)
  {
    assert DoneAt(s, s.workers[w].slot);
    assert Holds(s, w, s.workers[w].slot);
  }

  lemma KeysApart(a: Slot, b: Slot)
    requires a != b
    ensures {Reservation(a), Marker(a)} !! {Reservation(b), Marker(b)}
  {
  }

  /** A worker's statement touches its own program counter, its own slot's two rows and its own slot's outcome. */
  lemma ExecFrame(s: State, w: nat, fault: Fault, slot: Slot)
    requires w in s.workers && s.workers[w].slot != slot
    ensures var t := ExecWorker(s, w, fault);
      && t.workers - {w} == s.workers - {w}
      && (w in t.workers ==> t.workers[w].slot == s.workers[w].slot)
      && t.legacy == s.legacy
      && (Reservation(slot) in t.rows <==> Reservation(slot) in s.rows)
      && (Handled(t, slot) <==> Handled(s, slot))
  {
    ExecFrameWorker(s, w, fault);
    ExecFrameRows(s, w, fault, slot);
  }

  lemma ExecFrameWorker(s: State, w: nat, fault: Fault)
    requires w in s.workers
    ensures var t := ExecWorker(s, w, fault);
      && t.workers - {w} == s.workers - {w}
      && (w in t.workers ==> t.workers[w].slot == s.workers[w].slot)
  {
  }

  lemma ExecFrameRows(s: State, w: nat, fault: Fault, slot: Slot)
    requires w in s.workers && s.workers[w].slot != slot
    ensures var t := ExecWorker(s, w, fault);
      && t.legacy == s.legacy
      && (Reservation(slot) in t.rows <==> Reservation(slot) in s.rows)
      && (Handled(t, slot) <==> Handled(s, slot))
  {
    KeysApart(s.workers[w].slot, slot);
  }

  lemma DoneElsewhere(s: State, w: nat, slot: Slot)
    requires DoneAt(s, slot) && w in s.workers && s.workers[w].slot != slot
    ensures DoneAt(ExecWorker(s, w, NoFault), slot)
  {
    var t := ExecWorker(s, w, NoFault);
    ExecFrame(s, w, NoFault, slot);
    forall v
      ensures Holds(t, v, slot) <==> Holds(s, v, slot)
      ensures v != w ==> (v in t.workers <==> v in s.workers)
      ensures v != w && v in s.workers ==> t.workers[v] == s.workers[v]
    {
      assert v != w ==> (v in t.workers - {w} <==> v in s.workers - {w});
      assert v != w && v in s.workers ==> (t.workers - {w})[v] == (s.workers - {w})[v];
    }
  }

  /** The worker's own slot, when the worker does not hold it: it can only take the reservation. */
  lemma DoneAcquire(s: State, w: nat)
    requires Settled(s) && Timely(s) && w in s.workers && !Holding(s.workers[w])
    ensures DoneAt(ExecWorker(s, w, NoFault), s.workers[w].slot)
  {
    var t := ExecWorker(s, w, NoFault);
    var slot := s.workers[w].slot;
    NothingStale(s, slot);
    assert DoneAt(s, slot);
    forall v | v != w
      ensures Holds(t, v, slot) <==> Holds(s, v, slot)
    {
    }
    assert !Holds(s, w, slot);
    if Acquires(s, w, NoFault) {
      assert Holds(t, w, slot) && !t.workers[w].Complete?;
    } else {
      assert !Holds(t, w, slot);
    }
  }

  /** The worker's own slot, when the worker holds it: nobody else does. */
  lemma DoneHolder(s: State, w: nat)
    requires Settled(s) && Timely(s) && w in s.workers && Holding(s.workers[w])
    ensures DoneAt(ExecWorker(s, w, NoFault), s.workers[w].slot)
  {
    var t := ExecWorker(s, w, NoFault);
    var slot := s.workers[w].slot;
    assert DoneAt(s, slot) && Holds(s, w, slot);
    forall v | Holds(t, v, slot)
      ensures v == w
    {
      HoldersAfter(s, Exec(w, NoFault), v, slot);
    }
    if s.workers[w].Own? {
      OwnerIsFirst(s, w);
    }
    assert Holds(t, w, slot) <==> w in t.workers && Holding(t.workers[w]);
  }

  lemma DoneExec(s: State, w: nat, slot: Slot)
    requires Settled(s) && Timely(s) && w in s.workers
    ensures DoneAt(ExecWorker(s, w, NoFault), slot)
  {
    if s.workers[w].slot != slot {
      DoneElsewhere(s, w, slot);
    } else if Holding(s.workers[w]) {
      DoneHolder(s, w);
    } else {
      DoneAcquire(s, w);
    }
  }

  lemma DoneOther(s: State, l: Label, slot: Slot)
    requires Settled(s) && Enabled(s, l) && Faultless(l) && !l.Exec?
    ensures DoneAt(Step(s, l), slot)
  {
    var t := Step(s, l);
    assert DoneAt(s, slot);
    forall v
      ensures Holds(t, v, slot) <==> Holds(s, v, slot)
    {
    }
  }

  lemma OnceStep(s: State, l: Label)
    requires Settled(s) && Enabled(s, l) && Faultless(l)
    ensures OnceEach(Step(s, l))
  {
    if l.Exec? && s.workers[l.w].Own? {
      OwnerIsFirst(s, l.w);
    }
  }

  lemma {:induction false} SettledRun(s: State, ls: seq<Label>)
    requires Settled(s) && Clean(s, ls)
    ensures Runs(s, ls) && Settled(Final(s, ls))
    decreases ls
  {
    if ls != [] {
      ExclusiveStep(s, ls[0]);
      TendedStep(s, ls[0]);
      forall slot ensures DoneAt(Step(s, ls[0]), slot) {
        if ls[0].Exec? {
          DoneExec(s, ls[0].w, slot);
        } else {
          DoneOther(s, ls[0], slot);
        }
      }
      OnceStep(s, ls[0]);
      SettledRun(Step(s, ls[0]), ls[1..]);
    }
  }

  lemma {:induction false} CleanIsOrderly(s: State, ls: seq<Label>)
    requires Clean(s, ls)
    ensures Orderly(s, ls)
    decreases ls
  {
    if ls != [] {
      CleanIsOrderly(Step(s, ls[0]), ls[1..]);
    }
  }

  /** No worker is inside the protocol for this slot. */
  predicate Quiet(s: State, slot: Slot) {
    forall w :: w in s.workers ==> s.workers[w].slot != slot
  }

  /**
   Exactly once. In a run without faults, every handler succeeds at most once for its slot; and
   once nobody works on a slot, its marker is gone and it is reserved exactly when it is done.
   */
  lemma ExactlyOnce(ls: seq<Label>, slot: Slot)
    requires Clean(START, ls)
    ensures Runs(START, ls)
    ensures OnceEach(Final(START, ls))
    ensures Quiet(Final(START, ls), slot) ==>
      && Marker(slot) !in Final(START, ls).rows
      && (Reservation(slot) in Final(START, ls).rows <==>
            Handled(Final(START, ls), slot) || slot in Final(START, ls).legacy)
  {
    SettledRun(START, ls);
    var t := Final(START, ls);
    assert DoneAt(t, slot);
  }

  /** What a prober takes for "done". */
  predicate ReadsDone(s: State, slot: Slot) {
    Reservation(slot) in s.rows && Marker(slot) !in s.rows
  }

  /** The answer "done" is right exactly when no worker holds the slot with its handler still ahead or failed. */
  lemma DoneAnswerIsRight(ls: seq<Label>, slot: Slot)
    requires Clean(START, ls) && Runs(START, ls) && ReadsDone(Final(START, ls), slot)
    ensures Handled(Final(START, ls), slot) || slot in Final(START, ls).legacy
      <==> OnlyCompleting(Final(START, ls), slot)
  {
    SettledRun(START, ls);
    assert DoneAt(Final(START, ls), slot);
  }
}
