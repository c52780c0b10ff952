/**
 When a slot is stranded: it reads as done, nobody is on it, and it was never handled. Stranding is for
 ever, and the steps that strand a slot are listed exactly, for runs with any faults and crashes.
 */
module Stranding {
  import opened ProcessedEvents
  import opened Fulfilment

  predicate Accounted(s: State, slot: Slot) {
    Handled(s, slot) || slot in s.legacy
  }

  /** The slot reads as done with nobody holding it, although it was neither handled nor recorded by an older binary. */
  ghost predicate Stranded(s: State, slot: Slot) {
    ReadsDone(s, slot) && Free(s, slot) && !Accounted(s, slot)
  }

  /** "Reservation without marker" is true of every slot that nobody holds. */
  ghost predicate Truthful(s: State) {
    forall slot :: !Stranded(s, slot)
  }

  /** Whoever is completing has its handler behind it. */
  ghost predicate Completed(s: State) {
    forall w :: w in s.workers && s.workers[w].Complete? ==> Handled(s, s.workers[w].slot)
  }

  /** Nobody but worker w holds the slot. */
  ghost predicate FreeBut(s: State, slot: Slot, w: nat) {
    forall v :: Holds(s, v, slot) ==> v == w
  }

  /**
   Worker w leaves the slot as it is, or as the fault of its last statement makes it, with a reservation and no
   marker.
   */
  predicate Leaves(s: State, w: nat, fault: Fault)
    requires w in s.workers
  {
    var pc := s.workers[w];
    var res, mark := Reservation(pc.slot) in s.rows, Marker(pc.slot) in s.rows;
    match pc
    case InsertReservation(_) => fault.Lost? && !res && !mark
    case UndoReservation(_) => fault.Fail? && res && !mark
    case ExpireMarker(_) => fault.Lost? && res && Stale(s.rows, Marker(pc.slot), s.now)
    case TakeOver(_) => fault.Fail? && res && !mark
    case ReleaseReservation(_, _) => fault.Fail? && res && !mark
    case ReleaseMarker(_, _) => !fault.Fail? && res && mark
    case _ => false
  }

  /**
   The steps that strand a slot, which nobody else holds and which is not done: its holder crashes while the
   reservation stands without a marker; the reservation's insert is lost; undoing it fails; the delete of a stale
   marker is lost; the takeover's own insert fails; a release fails at a reservation without marker; or the second
   delete of a release takes the marker of a slot reserved anew.
   */
  ghost predicate Strands(s: State, l: Label) {
    (l.Crash? || l.Exec?) && l.w in s.workers &&
    var slot := s.workers[l.w].slot;
    && !Accounted(s, slot) && FreeBut(s, slot, l.w)
    && if l.Crash? then Holding(s.workers[l.w]) && ReadsDone(s, slot) else Leaves(s, l.w, l.fault)
  }

  lemma OtherHolders(s: State, l: Label, slot: Slot)
    requires Enabled(s, l)
    requires (l.Exec? || l.Crash?) ==> s.workers[l.w].slot != slot
    ensures Free(Step(s, l), slot) <==> Free(s, slot)
  {
    var t := Step(s, l);
    forall v
      ensures Holds(t, v, slot) <==> Holds(s, v, slot)
    {
    }
  }

  /** After its own step, the worker's slot is free exactly if nobody else holds it and the worker does not. */
  lemma FreeAfterOwn(s: State, l: Label)
    requires Enabled(s, l) && (l.Exec? || l.Crash?)
    ensures var slot := s.workers[l.w].slot; var t := Step(s, l);
      Free(t, slot) <==> FreeBut(s, slot, l.w) && !Holds(t, l.w, slot)
  {
    var slot, t := s.workers[l.w].slot, Step(s, l);
    forall v | v != l.w
      ensures Holds(t, v, slot) <==> Holds(s, v, slot)
    {
    }
  }

  lemma AccountedStays(s: State, l: Label, slot: Slot)
    requires Enabled(s, l)
    ensures Accounted(s, slot) ==> Accounted(Step(s, l), slot)
    ensures Handled(s, slot) ==> Handled(Step(s, l), slot)
  {
  }

  lemma CompletedStep(s: State, l: Label)
    requires Enabled(s, l) && Completed(s)
    ensures Completed(Step(s, l))
  {
    var t := Step(s, l);
    forall v | v in t.workers && t.workers[v].Complete?
      ensures Handled(t, t.workers[v].slot)
    {
      AccountedStays(s, l, t.workers[v].slot);
    }
  }

  lemma OwnStranded(s: State, l: Label)
    requires Truthful(s) && Completed(s) && Enabled(s, l) && (l.Exec? || l.Crash?)
    ensures Stranded(Step(s, l), s.workers[l.w].slot) <==> Strands(s, l)
  {
    var slot := s.workers[l.w].slot;
    assert !Stranded(s, slot);
    FreeAfterOwn(s, l);
    if Accounted(s, slot) {
      AccountedStays(s, l, slot);
    } else if FreeBut(s, slot, l.w) {
      assert ReadsDone(s, slot) ==> Holding(s.workers[l.w]) by {
        if !Holding(s.workers[l.w]) {
          assert Free(s, slot);
        }
      }
      if l.Exec? {
      }
    }
  }

  lemma OtherStranded(s: State, l: Label, slot: Slot)
    requires Enabled(s, l) && !Stranded(s, slot)
    requires (l.Exec? || l.Crash?) ==> s.workers[l.w].slot != slot
    ensures !Stranded(Step(s, l), slot)
  {
    OtherHolders(s, l, slot);
    if l.OlderBinary? && l.slot != slot {
      KeysApart(l.slot, slot);
    }
  }

  /** From a truthful state a step leads to a truthful one exactly if it strands no slot. */
  lemma TruthfulStepIff(s: State, l: Label)
    requires Truthful(s) && Completed(s) && Enabled(s, l)
    ensures Truthful(Step(s, l)) <==> !Strands(s, l)
  {
    var t := Step(s, l);
    if l.Exec? || l.Crash? {
      OwnStranded(s, l);
    }
    if !Strands(s, l) {
      forall slot
        ensures !Stranded(t, slot)
      {
        if !((l.Exec? || l.Crash?) && s.workers[l.w].slot == slot) {
          OtherStranded(s, l, slot);
        }
      }
    }
  }

  // ─── Whole runs ───

  /** No step of the run strands a slot. */
  ghost predicate NeverStrands(s: State, ls: seq<Label>)
    requires Runs(s, ls)
    decreases ls
  {
    ls == [] || (!Strands(s, ls[0]) && NeverStrands(Step(s, ls[0]), ls[1..]))
  }

  ghost predicate TruthfulThroughout(s: State, ls: seq<Label>)
    requires Runs(s, ls)
    decreases ls
  {
    Truthful(s) && (ls == [] || TruthfulThroughout(Step(s, ls[0]), ls[1..]))
  }

  /** A stranded slot stays stranded, whatever happens next: every caller is told that it is done. */
  lemma StrandedStep(s: State, l: Label, slot: Slot)
    requires Enabled(s, l) && Stranded(s, slot)
    ensures Stranded(Step(s, l), slot)
  {
    var t := Step(s, l);
    if (l.Exec? || l.Crash?) && s.workers[l.w].slot == slot {
      assert !Holds(s, l.w, slot);
      FreeAfterOwn(s, l);
    } else {
      OtherHolders(s, l, slot);
      if l.OlderBinary? && l.slot != slot {
        KeysApart(l.slot, slot);
      }
    }
  }

  lemma {:induction false} StrandedIsForever(s: State, ls: seq<Label>, slot: Slot)
    requires Runs(s, ls) && Stranded(s, slot)
    ensures Stranded(Final(s, ls), slot)
    decreases ls
  {
    if ls != [] {
      StrandedStep(s, ls[0], slot);
      StrandedIsForever(Step(s, ls[0]), ls[1..], slot);
    }
  }

  lemma {:induction false} TruthfulIff(s: State, ls: seq<Label>)
    requires Runs(s, ls) && Truthful(s) && Completed(s)
    ensures Truthful(Final(s, ls)) <==> NeverStrands(s, ls)
    ensures TruthfulThroughout(s, ls) <==> NeverStrands(s, ls)
    ensures Completed(Final(s, ls))
    decreases ls
  {
    if ls != [] {
      var t := Step(s, ls[0]);
      TruthfulStepIff(s, ls[0]);
      CompletedStep(s, ls[0]);
      if Truthful(t) {
        TruthfulIff(t, ls[1..]);
      } else {
        var slot :| Stranded(t, slot);
        StrandedIsForever(t, ls[1..], slot);
        CompletedRun(t, ls[1..]);
      }
    }
  }

  lemma {:induction false} CompletedRun(s: State, ls: seq<Label>)
    requires Runs(s, ls) && Completed(s)
    ensures Completed(Final(s, ls))
    decreases ls
  {
    if ls != [] {
      CompletedStep(s, ls[0]);
      CompletedRun(Step(s, ls[0]), ls[1..]);
    }
  }

  /**
   Exactly when "done" can be trusted of slots nobody is on. After any run whatever, with any faults,
     crashes and overdue
   owners, every slot that reads as done with no holder was handled or recorded by an older binary, if and only if
   no step of the run stranded a slot; and a slot that reads as done while its holders are all completing is done too.
   */
  lemma DoneIsTrueIff(ls: seq<Label>)
    requires Runs(START, ls)
    ensures Truthful(Final(START, ls)) <==> NeverStrands(START, ls)
    ensures TruthfulThroughout(START, ls) <==> NeverStrands(START, ls)
    ensures NeverStrands(START, ls) ==>
      forall slot :: ReadsDone(Final(START, ls), slot) && OnlyCompleting(Final(START, ls), slot)
        ==> Accounted(Final(START, ls), slot)
  {
    TruthfulIff(START, ls);
    var t := Final(START, ls);
    if Truthful(t) {
      forall slot | ReadsDone(t, slot) && OnlyCompleting(t, slot)
        ensures Accounted(t, slot)
      {
        assert !Stranded(t, slot);
        if w :| Holds(t, w, slot) {
          assert t.workers[w].Complete?;
        }
      }
    }
  }

  /** Timely runs without faults strand nothing. */
  lemma CleanNeverStrands(ls: seq<Label>)
    requires Clean(START, ls)
    ensures Runs(START, ls) && NeverStrands(START, ls)
  {
    SettledRun(START, ls);
    TruthfulIff(START, ls);
    var t := Final(START, ls);
    forall slot
      ensures !Stranded(t, slot)
    {
      assert DoneAt(t, slot);
    }
  }
}
