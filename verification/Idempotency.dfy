/**
 The Idempotency-Key middleware: claim a slot, run the handler, then complete or abandon
 the slot; any number of requests interleave, and rows are pruned when they expire.
 */
module Idempotency {
  import opened Wrappers
  import opened IdempotencyStore

  // ─── Capturing the response ───

  /** One call of the handler on its response writer. */
  datatype Write = Header(code: int) | Bytes(text: string)

  /**
   The status and body the cache records: the first explicit status, 200 if bytes come first; 0 if nothing was
   written.
   */
  function Captured(ws: seq<Write>): Response {
    if ws == [] then Response(0, "")
    else
      var before := Captured(ws[..|ws| - 1]);
      match ws[|ws| - 1]
      case Header(code) => if before.status == 0 then before.(status := code) else before
      case Bytes(text) => Response(if before.status == 0 then 200 else before.status, before.body + text)
  }

  class CaptureWriter {
    var status: int
    var buf: string

    constructor ()
      ensures Response(status, buf) == Captured([])
    {
      status, buf := 0, "";
    }

    method WriteHeader(code: int, ghost ws: seq<Write>)
      requires Response(status, buf) == Captured(ws)
      modifies this
      ensures Response(status, buf) == Captured(ws + [Header(code)])
    {
      if status == 0 {
        status := code;
      }
      assert (ws + [Header(code)])[..|ws|] == ws;
    }

    method WriteBytes(text: string, ghost ws: seq<Write>)
      requires Response(status, buf) == Captured(ws)
      modifies this
      ensures Response(status, buf) == Captured(ws + [Bytes(text)])
    {
      if status == 0 {
        status := 200;
      }
      buf := buf + text;
      assert (ws + [Bytes(text)])[..|ws|] == ws;
    }
  }

  /** Whatever is written after the first write, the status stays that of the first write. */
  lemma {:induction false} FirstWriteDecides(ws: seq<Write>)
    requires ws != [] && (ws[0].Header? ==> ws[0].code != 0)
    ensures Captured(ws).status == if ws[0].Header? then ws[0].code else 200
  {
    if |ws| == 1 {
      assert ws[..0] == [];
    } else {
      FirstWriteDecides(ws[..|ws| - 1]);
    }
  }

  function Piece(w: Write): string {
    match w
    case Header(_) => ""
    case Bytes(text) => text
  }

  /** What the handler's byte writes put together. */
  function Written(ws: seq<Write>): string {
    if ws == [] then "" else Piece(ws[0]) + Written(ws[1..])
  }

  lemma {:induction false} WrittenAppend(ws: seq<Write>, w: Write)
    ensures Written(ws + [w]) == Written(ws) + Piece(w)
  {
    if ws == [] {
      assert (ws + [w])[1..] == [];
    } else {
      assert (ws + [w])[1..] == ws[1..] + [w];
      WrittenAppend(ws[1..], w);
      assert Piece(ws[0]) + (Written(ws[1..]) + Piece(w)) == Piece(ws[0]) + Written(ws[1..]) + Piece(w);
    }
  }

  /** The recorded body is everything the handler wrote, in order; without any write nothing is recorded. */
  lemma {:induction false} BodyIsWritten(ws: seq<Write>)
    ensures Captured(ws).body == Written(ws)
    ensures ws == [] ==> Captured(ws).status == 0
  {
    if ws != [] {
      var init := ws[..|ws| - 1];
      BodyIsWritten(init);
      WrittenAppend(init, ws[|ws| - 1]);
      assert ws == init + [ws[|ws| - 1]];
    }
  }

  // ─── Requests as concurrent runs ───

  /** Selecting: the insert conflicted and the row is about to be read back. Running: the handler runs. */
  datatype Pc =
    | Inserting(slot: SlotKey, bodyHash: string)
    | Selecting(slot: SlotKey, bodyHash: string)
    | Running(slot: SlotKey, bodyHash: string)
    | Storing(slot: SlotKey, response: Response)

  datatype Answer = Replayed(r: nat, slot: SlotKey, bodyHash: string, response: Response)

  datatype Label =
    | Tick(d: nat)
    | Begin(r: nat, slot: SlotKey, bodyHash: string)
    | Advance(r: nat)
    | Finish(r: nat, response: Response)
    | StoreFails(r: nat)
    | Crash(r: nat)
    | Prune

  /**
   `good` holds, per slot, the body hash and answer of the run that ended below 500 since the slot's
   row was last pruned; `replays` every cached answer sent.
   */
  datatype State = State(
    now: int,
    rows: Table,
    requests: map<nat, Pc>,
    good: map<SlotKey, (string, Response)>,
    replays: seq<Answer>)

  const START := State(0, map[], map[], map[], [])

  predicate Enabled(s: State, l: Label) {
    match l
    case Tick(_) => true
    case Begin(r, slot, _) => r !in s.requests && ValidIdempotencyKey(slot.key)
    case Advance(r) => r in s.requests && !s.requests[r].Running?
    case Finish(r, _) => r in s.requests && s.requests[r].Running?
    case StoreFails(r) => r in s.requests && s.requests[r].Storing?
    case Crash(r) => r in s.requests
    case Prune => true
  }

  function Leave(s: State, r: nat): State {
    s.(requests := s.requests - {r})
  }

  function Goto(s: State, r: nat, pc: Pc): State {
    s.(requests := s.requests[r := pc])
  }

  function Answered(s: State, r: nat, slot: SlotKey, bodyHash: string): State
    requires slot in s.rows
  {
    match Inspect(s.rows[slot], bodyHash)
    case Replay(response) => Leave(s.(replays := s.replays + [Replayed(r, slot, bodyHash, response)]), r)
    case _ => Leave(s, r)
  }

  /** One SQL statement of a request. */
  function AdvanceRequest(s: State, r: nat): State
    requires r in s.requests && !s.requests[r].Running?
  {
    match s.requests[r]
    case Inserting(slot, bodyHash) =>
      if slot !in s.rows then
        Goto(s.(rows := s.rows[slot := Row(bodyHash, None, s.now + TTL)]), r, Running(slot, bodyHash))
      else Goto(s, r, Selecting(slot, bodyHash))
    case Selecting(slot, bodyHash) =>
      if slot !in s.rows then Goto(s, r, Running(slot, bodyHash)) else Answered(s, r, slot, bodyHash)
    case Storing(slot, response) =>
      Leave(s.(rows := Complete(s.rows, slot, response.status, response.body)), r)
  }

  /**
   The deferred step, also after a panic: nothing written or a 5xx frees the slot, anything else is
   to be stored.
   */
  function FinishRun(s: State, r: nat, response: Response): State
    requires r in s.requests && s.requests[r].Running?
  {
    var slot := s.requests[r].slot;
    if response.status == 0 || response.status >= 500 then Leave(s.(rows := Abandon(s.rows, slot)), r)
    else Goto(s.(good := s.good[slot := (s.requests[r].bodyHash, response)]), r, Storing(slot, response))
  }

  function Step(s: State, l: Label): State
    requires Enabled(s, l)
  {
    match l
    case Tick(d) => s.(now := s.now + d)
    case Begin(r, slot, bodyHash) => Goto(s, r, Inserting(slot, bodyHash))
    case Advance(r) => AdvanceRequest(s, r)
    case Finish(r, response) => FinishRun(s, r, response)
    case StoreFails(r) => Leave(s, r)
    case Crash(r) => Leave(s, r)
    case Prune =>
      var kept := PruneExpired(s.rows, s.now);
      s.(rows := kept, good := map k | k in s.good && k in kept :: s.good[k])
  }

  predicate Runs(s: State, ls: seq<Label>)
    decreases ls
  {
    ls == [] || (Enabled(s, ls[0]) && Runs(Step(s, ls[0]), ls[1..]))
  }

  function Final(s: State, ls: seq<Label>): State
    requires Runs(s, ls)
    decreases ls
  {
    if ls == [] then s else Final(Step(s, ls[0]), ls[1..])
  }

  // ─── Runs leave nothing out ───

  /**
   Time passes, requests arrive with any valid key and any body, advance, end their handlers with any answer, fail to
   store it, crash at any point, and expired rows are pruned at any time.
   */
  lemma AnythingCanHappen(s: State, d: nat, r: nat, slot: SlotKey, bodyHash: string, response: Response)
    ensures Enabled(s, Tick(d)) && Step(s, Tick(d)) == s.(now := s.now + d)
    ensures r !in s.requests && ValidIdempotencyKey(slot.key) ==>
      && Enabled(s, Begin(r, slot, bodyHash))
      && Step(s, Begin(r, slot, bodyHash)) == s.(requests := s.requests[r := Inserting(slot, bodyHash)])
    ensures r in s.requests ==> Enabled(s, Crash(r)) && Step(s, Crash(r)) == s.(requests := s.requests - {r})
    ensures r in s.requests && s.requests[r].Running? ==> Enabled(s, Finish(r, response))
    ensures r in s.requests && !s.requests[r].Running? ==> Enabled(s, Advance(r))
    ensures r in s.requests && s.requests[r].Storing? ==>
      Enabled(s, StoreFails(r)) && Step(s, StoreFails(r)) == s.(requests := s.requests - {r})
    ensures Enabled(s, Prune) && Step(s, Prune).requests == s.requests && Step(s, Prune).replays == s.replays
    ensures forall k :: k in Step(s, Prune).rows <==> k in s.rows && s.rows[k].expiresAt >= s.now
    ensures forall k :: k in Step(s, Prune).rows ==> Step(s, Prune).rows[k] == s.rows[k]
  {
  }

  /** A finished run abandons its row exactly if it wrote nothing or failed; otherwise its answer is to be stored. */
  lemma FinishIsExact(s: State, r: nat, response: Response)
    requires r in s.requests && s.requests[r].Running?
    ensures var slot := s.requests[r].slot; var t := FinishRun(s, r, response);
      if response.status == 0 || response.status >= 500 then
        r !in t.requests && t.good == s.good
        && t.rows == if slot in s.rows && s.rows[slot].response == None then s.rows - {slot} else s.rows
      else
        && t.requests == s.requests[r := Storing(slot, response)] && t.rows == s.rows
        && t.good == s.good[slot := (s.requests[r].bodyHash, response)]
  {
  }

  // ─── Assumptions ───

  predicate InFlightAt(s: State, r: nat, slot: SlotKey) {
    r in s.requests && (s.requests[r].Running? || s.requests[r].Storing?) && s.requests[r].slot == slot
  }

  /** Handlers end before the row they claimed expires. */
  ghost predicate Timely(s: State) {
    forall r, slot :: InFlightAt(s, r, slot) && slot in s.rows ==> s.now <= s.rows[slot].expiresAt
  }

  /** The row a conflicting insert ran into vanishes before it is read back. */
  predicate Vanished(s: State, l: Label) {
    l.Advance? && l.r in s.requests && s.requests[l.r].Selecting? && s.requests[l.r].slot !in s.rows
  }

  /** Runs of timely handlers in which insert and read-back act as one step. */
  ghost predicate Orderly(s: State, ls: seq<Label>)
    decreases ls
  {
    ls == [] ||
    (Enabled(s, ls[0]) && Timely(s) && !Vanished(s, ls[0]) && Orderly(Step(s, ls[0]), ls[1..]))
  }

  // ─── Invariant ───

  ghost predicate OneInFlight(s: State) {
    forall q, r, slot :: InFlightAt(s, q, slot) && InFlightAt(s, r, slot) ==> q == r
  }

  /** A run in flight has its row, open and under its own body hash; a run that is being stored is the good one. */
  ghost predicate RunsHaveRows(s: State) {
    forall r, slot :: InFlightAt(s, r, slot) ==>
      && slot in s.rows && s.rows[slot].response.None?
      && (s.requests[r].Running? ==> s.rows[slot].bodyHash == s.requests[r].bodyHash && slot !in s.good)
      && (s.requests[r].Storing? ==> slot in s.good && s.good[slot].1 == s.requests[r].response)
  }

  predicate Cached(response: Response, cached: Response) {
    && cached.status == response.status
    && cached.body == if |response.body| <= 65536 then response.body else response.body[..65536]
  }

  /** A good answer keeps its row, under the hash it was computed for; a complete row has a good answer. */
  ghost predicate GoodHasRow(s: State) {
    && (forall slot :: slot in s.good ==>
          && slot in s.rows && s.rows[slot].bodyHash == s.good[slot].0
          && (s.rows[slot].response.Some? ==> Cached(s.good[slot].1, s.rows[slot].response.value)))
    && (forall slot :: slot in s.rows && s.rows[slot].response.Some? ==> slot in s.good)
  }

  ghost predicate Inv(s: State) {
    OneInFlight(s) && RunsHaveRows(s) && GoodHasRow(s)
  }

  /** Requests in flight after a step were so before, unless the step let one claim a vacant slot. */
  lemma InFlightStep(s: State, l: Label, r: nat, slot: SlotKey)
    requires Enabled(s, l) && !Vanished(s, l) && InFlightAt(Step(s, l), r, slot)
    ensures InFlightAt(s, r, slot) ||
      (l == Advance(r) && s.requests[r].Inserting? && s.requests[r].slot == slot && slot !in s.rows)
    ensures InFlightAt(s, r, slot) && l != Advance(r) && !(l.Finish? && l.r == r)
      ==> Step(s, l).requests[r] == s.requests[r]
  {
  }

  lemma OneInFlightStep(s: State, l: Label)
    requires Inv(s) && Enabled(s, l) && !Vanished(s, l)
    ensures OneInFlight(Step(s, l))
  {
    forall q, r, slot | InFlightAt(Step(s, l), q, slot) && InFlightAt(Step(s, l), r, slot)
      ensures q == r
    {
      InFlightStep(s, l, q, slot);
      InFlightStep(s, l, r, slot);
    }
  }

  /** Only the slot's own request and a prune change a row that a request in flight relies on. */
  lemma RowKept(s: State, l: Label, r: nat, slot: SlotKey)
    requires Inv(s) && Timely(s) && Enabled(s, l) && !Vanished(s, l)
    requires InFlightAt(s, r, slot) && !((l.Advance? || l.Finish?) && l.r == r)
    ensures slot in Step(s, l).rows && Step(s, l).rows[slot] == s.rows[slot]
    ensures slot in Step(s, l).good <==> slot in s.good
    ensures slot in s.good ==> Step(s, l).good[slot] == s.good[slot]
  {
    if (l.Advance? || l.Finish?) && InFlightAt(s, l.r, s.requests[l.r].slot) {
      assert s.requests[l.r].slot != slot;
    }
  }

  lemma RunsHaveRowsStep(s: State, l: Label)
    requires Inv(s) && Timely(s) && Enabled(s, l) && !Vanished(s, l)
    ensures RunsHaveRows(Step(s, l))
  {
    var t := Step(s, l);
    forall r, slot | InFlightAt(t, r, slot)
      ensures slot in t.rows && t.rows[slot].response.None?
      ensures t.requests[r].Running? ==> t.rows[slot].bodyHash == t.requests[r].bodyHash && slot !in t.good
      ensures t.requests[r].Storing? ==> slot in t.good && t.good[slot].1 == t.requests[r].response
    {
      InFlightStep(s, l, r, slot);
      if InFlightAt(s, r, slot) && !((l.Advance? || l.Finish?) && l.r == r) {
        RowKept(s, l, r, slot);
      }
    }
  }

  /** In a timely state a step keeps the invariant exactly when it is not a claim granted without a row. */
  lemma InvIff(s: State, l: Label)
    requires Inv(s) && Timely(s) && Enabled(s, l)
    ensures Inv(Step(s, l)) <==> !Vanished(s, l)
  {
    if Vanished(s, l) {
      assert InFlightAt(Step(s, l), l.r, s.requests[l.r].slot);
    } else {
      OneInFlightStep(s, l);
      RunsHaveRowsStep(s, l);
    }
  }

  lemma {:induction false} InvRun(s: State, ls: seq<Label>)
    requires Inv(s) && Orderly(s, ls)
    ensures Runs(s, ls) && Inv(Final(s, ls))
    decreases ls
  {
    if ls != [] {
      InvIff(s, ls[0]);
      InvRun(Step(s, ls[0]), ls[1..]);
    }
  }

  // ─── Exactly when every run has its row ───

  ghost predicate TimelyThroughout(s: State, ls: seq<Label>)
    requires Runs(s, ls)
    decreases ls
  {
    ls == [] || (Timely(s) && TimelyThroughout(Step(s, ls[0]), ls[1..]))
  }

  predicate NeverVanishes(s: State, ls: seq<Label>)
    requires Runs(s, ls)
    decreases ls
  {
    ls == [] || (!Vanished(s, ls[0]) && NeverVanishes(Step(s, ls[0]), ls[1..]))
  }

  /** Every run in flight has a row of its own: no other request is in flight for its slot, and the slot has a row. */
  ghost predicate RowsHeld(s: State) {
    OneInFlight(s) && forall r, slot :: InFlightAt(s, r, slot) ==> slot in s.rows
  }

  ghost predicate HeldThroughout(s: State, ls: seq<Label>)
    requires Runs(s, ls)
    decreases ls
  {
    RowsHeld(s) && (ls == [] || HeldThroughout(Step(s, ls[0]), ls[1..]))
  }

  lemma {:induction false} HeldIff(s: State, ls: seq<Label>)
    requires Inv(s) && Runs(s, ls) && TimelyThroughout(s, ls)
    ensures HeldThroughout(s, ls) <==> NeverVanishes(s, ls)
    ensures NeverVanishes(s, ls) ==> Orderly(s, ls)
    decreases ls
  {
    if ls != [] {
      var t := Step(s, ls[0]);
      InvIff(s, ls[0]);
      if Vanished(s, ls[0]) {
        assert InFlightAt(t, ls[0].r, s.requests[ls[0].r].slot);
        assert !HeldThroughout(t, ls[1..]);
      } else {
        HeldIff(t, ls[1..]);
      }
    }
  }

  /**
   With handlers that end before their row expires, every run in flight is alone on its slot and has the slot's
   row at every point of a run if and only if no conflicting row vanishes before it is read back.
   */
  lemma RunsHaveRowsIff(ls: seq<Label>)
    requires Runs(START, ls) && TimelyThroughout(START, ls)
    ensures HeldThroughout(START, ls) <==> NeverVanishes(START, ls)
    ensures NeverVanishes(START, ls) ==> Orderly(START, ls)
  {
    HeldIff(START, ls);
  }

  // ─── Results ───

  /** At most one handler run is in flight for a key and endpoint, and it holds the row. */
  lemma OneRunInFlight(ls: seq<Label>, q: nat, r: nat, slot: SlotKey)
    requires Orderly(START, ls) && Runs(START, ls)
    requires InFlightAt(Final(START, ls), q, slot) && InFlightAt(Final(START, ls), r, slot)
    ensures q == r && slot in Final(START, ls).rows
  {
    InvRun(START, ls);
  }

  /**
   What one more step of an orderly run can do about results. A run ends below 500 only if none did
   since the row was created; its answer is kept until the row is pruned; and a replay has the body
   hash of that run, its status, and its body up to the cache limit.
   */
  lemma OneResultAndItsReplays(ls: seq<Label>, l: Label)
    requires Orderly(START, ls) && Runs(START, ls)
    requires Timely(Final(START, ls)) && Enabled(Final(START, ls), l) && !Vanished(Final(START, ls), l)
    ensures var s := Final(START, ls); var t := Step(s, l);
      && (l.Finish? && 0 < l.response.status < 500 ==>
            var slot := s.requests[l.r].slot;
            slot !in s.good && slot in t.good && t.good[slot] == (s.requests[l.r].bodyHash, l.response))
      && (forall slot :: slot in s.good && slot in t.rows ==> slot in t.good && t.good[slot] == s.good[slot])
      && (t.replays != s.replays ==>
            exists r, slot, hash, answer :: t.replays == s.replays + [Replayed(r, slot, hash, answer)]
              && slot in s.good && s.good[slot].0 == hash && Cached(s.good[slot].1, answer))
  {
    InvRun(START, ls);
    var s := Final(START, ls);
    if l.Finish? && 0 < l.response.status < 500 {
      assert InFlightAt(s, l.r, s.requests[l.r].slot);
    }
    if Step(s, l).replays != s.replays {
      var pc := s.requests[l.r];
      assert Step(s, l).replays == s.replays + [Replayed(l.r, pc.slot, pc.bodyHash, s.rows[pc.slot].response.value)];
    }
  }

  // ─── One row, one body ───

  /** The slot has a row at every point of the run. */
  predicate RowStays(s: State, ls: seq<Label>, slot: SlotKey)
    requires Runs(s, ls)
    decreases ls
  {
    slot in s.rows && (ls == [] || RowStays(Step(s, ls[0]), ls[1..], slot))
  }

  /** Every replay for the slot among these answers was asked for with this body. */
  predicate RepliesMatch(replays: seq<Answer>, slot: SlotKey, bodyHash: string) {
    forall i :: 0 <= i < |replays| && replays[i].slot == slot ==> replays[i].bodyHash == bodyHash
  }

  lemma RowServesOneBody(s: State, l: Label, slot: SlotKey)
    requires Inv(s) && Enabled(s, l) && !Vanished(s, l) && slot in s.rows && slot in Step(s, l).rows
    ensures Step(s, l).rows[slot].bodyHash == s.rows[slot].bodyHash
    ensures s.replays <= Step(s, l).replays
    ensures RepliesMatch(Step(s, l).replays[|s.replays|..], slot, s.rows[slot].bodyHash)
    ensures forall r :: InFlightAt(Step(s, l), r, slot) ==> InFlightAt(s, r, slot)
  {
    forall r | InFlightAt(Step(s, l), r, slot)
      ensures InFlightAt(s, r, slot)
    {
      InFlightStep(s, l, r, slot);
    }
  }

  lemma {:induction false} RowServesOneBodyRun(s: State, ls: seq<Label>, slot: SlotKey)
    requires Inv(s) && Orderly(s, ls) && Runs(s, ls) && RowStays(s, ls, slot)
    ensures var t := Final(s, ls);
      && Inv(t) && slot in t.rows && t.rows[slot].bodyHash == s.rows[slot].bodyHash
      && s.replays <= t.replays && RepliesMatch(t.replays[|s.replays|..], slot, s.rows[slot].bodyHash)
      && forall r :: InFlightAt(t, r, slot) ==> InFlightAt(s, r, slot)
    decreases ls
  {
    if ls != [] {
      var u := Step(s, ls[0]);
      InvIff(s, ls[0]);
      RowServesOneBody(s, ls[0], slot);
      RowServesOneBodyRun(u, ls[1..], slot);
      var t := Final(u, ls[1..]);
      assert t.replays[|s.replays|..] == u.replays[|s.replays|..] + t.replays[|u.replays|..];
    }
  }

  /**
   From the creation of a row to its pruning the slot belongs to one body. Whatever requests arrive meanwhile, every
   replay for the slot answers a request with that body, and every handler in flight runs for that body and was
   in flight before: no other handler starts.
   */
  lemma OtherBodyIsRefused(before: seq<Label>, after: seq<Label>, slot: SlotKey)
    requires Orderly(START, before) && Runs(START, before)
    requires Orderly(Final(START, before), after) && Runs(Final(START, before), after)
    requires RowStays(Final(START, before), after, slot)
    ensures var s := Final(START, before); var t := Final(s, after); var hash := s.rows[slot].bodyHash;
      && s.replays <= t.replays && RepliesMatch(t.replays[|s.replays|..], slot, hash)
      && (forall r :: InFlightAt(t, r, slot) ==> InFlightAt(s, r, slot))
      && (forall r :: InFlightAt(t, r, slot) && t.requests[r].Running? ==> t.requests[r].bodyHash == hash)
  {
    InvRun(START, before);
    RowServesOneBodyRun(Final(START, before), after, slot);
  }

  // ─── Where atomic claiming is needed ───

  predicate Leads(s: State, ls: seq<Label>, t: State) {
    Runs(s, ls) && Final(s, ls) == t
  }

  lemma {:induction false} LeadsThen(s: State, ls: seq<Label>, t: State, l: Label, u: State)
    requires Leads(s, ls, t) && Enabled(t, l) && Step(t, l) == u
    ensures Leads(s, ls + [l], u)
    decreases ls
  {
    if ls == [] {
      assert [l][1..] == [];
    } else {
      assert (ls + [l])[1..] == ls[1..] + [l];
      LeadsThen(Step(s, ls[0]), ls[1..], t, l, u);
    }
  }

  const SLOT := SlotKey("key", "/license/activate")
  const OPEN := map[SLOT := Row("hash", None, TTL)]

  function With(rows: Table, requests: map<nat, Pc>): State {
    State(0, rows, requests, map[], [])
  }

  /**
   Request 1 conflicts with request 0's row, which is abandoned before request 1 reads it back; then request 2
   claims anew.
   */
  function VanishingRun(): seq<Label> {
    Conflicting() + [Finish(0, Response(503, ""))] + [Advance(1)] + [Begin(2, SLOT, "hash")] + [Advance(2)]
  }

  function Conflicting(): seq<Label> {
    [] + [Begin(0, SLOT, "hash")] + [Advance(0)] + [Begin(1, SLOT, "hash")] + [Advance(1)]
  }

  lemma ConflictingLeads()
    ensures Leads(START, Conflicting(), With(OPEN, map[0 := Running(SLOT, "hash"), 1 := Selecting(SLOT, "hash")]))
  {
    var s1 := With(map[], map[0 := Inserting(SLOT, "hash")]);
    var s2 := With(OPEN, map[0 := Running(SLOT, "hash")]);
    var s3 := With(OPEN, map[0 := Running(SLOT, "hash"), 1 := Inserting(SLOT, "hash")]);
    LeadsThen(START, [], START, Begin(0, SLOT, "hash"), s1);
    LeadsThen(START, [] + [Begin(0, SLOT, "hash")], s1, Advance(0), s2);
    LeadsThen(START, [] + [Begin(0, SLOT, "hash")] + [Advance(0)], s2, Begin(1, SLOT, "hash"), s3);
    LeadsThen(START, [] + [Begin(0, SLOT, "hash")] + [Advance(0)] + [Begin(1, SLOT, "hash")], s3, Advance(1),
      With(OPEN, map[0 := Running(SLOT, "hash"), 1 := Selecting(SLOT, "hash")]));
  }

  /**
   A vanished row reads as a fresh claim: two handlers then run for one key, in the same window and with the same
   body.
   */
  lemma VanishedRowAdmitsTwoRuns()
    ensures Runs(START, VanishingRun())
    ensures InFlightAt(Final(START, VanishingRun()), 1, SLOT) && InFlightAt(Final(START, VanishingRun()), 2, SLOT)
    ensures Timely(Final(START, VanishingRun()))
  {
    ConflictingLeads();
    var r := Conflicting();
    var t0 := With(OPEN, map[0 := Running(SLOT, "hash"), 1 := Selecting(SLOT, "hash")]);
    var t1 := With(map[], map[1 := Selecting(SLOT, "hash")]);
    var t2 := With(map[], map[1 := Running(SLOT, "hash")]);
    var t3 := With(map[], map[1 := Running(SLOT, "hash"), 2 := Inserting(SLOT, "hash")]);
    var t4 := With(OPEN, map[1 := Running(SLOT, "hash"), 2 := Running(SLOT, "hash")]);
    LeadsThen(START, r, t0, Finish(0, Response(503, "")), t1);
    LeadsThen(START, r + [Finish(0, Response(503, ""))], t1, Advance(1), t2);
    LeadsThen(START, r + [Finish(0, Response(503, ""))] + [Advance(1)], t2, Begin(2, SLOT, "hash"), t3);
    LeadsThen(START, r + [Finish(0, Response(503, ""))] + [Advance(1)] + [Begin(2, SLOT, "hash")], t3, Advance(2), t4);
  }
}
