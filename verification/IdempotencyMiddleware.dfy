/**
 The Idempotency-Key middleware as one request runs through it, what a retry then gets, and
 the proof that one request alone is a request of the concurrent protocol undisturbed.
 */
module IdempotencyMiddleware {
  import opened Wrappers
  import opened IdempotencyStore
  import opened Idempotency

  const MAX_BODY: nat := 262_144

  datatype Request = Request(post: bool, key: string, endpoint: string, body: string)

  /** Ran: the handler answered. Repeated: an earlier answer was sent again. The rest are refusals. */
  datatype Reply =
    | Ran(response: Response)
    | Repeated(response: Response)
    | InvalidKey
    | Unreadable
    | BodyTooLarge
    | Internal
    | Conflict
    | Busy

  /**
   What can go wrong around one request: its body cannot be read, the claim reports an error (`claimLost` if its insert
   took effect all the same), a conflicting row is deleted before it is read back, or the deferred statement fails.
   */
  datatype Faults = Faults(unreadable: bool, claimFails: bool, claimLost: bool, vanishes: bool, settleFails: bool)

  const FAULTLESS := Faults(false, false, false, false, false)

  /** The rows after a claim's insert. */
  function AfterInsert(rows: Table, req: Request, now: int): Table {
    if SlotOf(req) in rows then rows else rows[SlotOf(req) := Row(HashOf(req.body), None, now + TTL)]
  }

  datatype Served = Served(rows: Table, reply: Reply)

  /** Digests of distinct bodies are distinct, so the body stands for its digest. */
  function HashOf(body: string): string { body }

  function SlotOf(req: Request): SlotKey { SlotKey(req.key, req.endpoint) }

  predicate Guarded(req: Request) { req.post && req.key != "" }

  predicate Admissible(req: Request) {
    Guarded(req) && ValidIdempotencyKey(req.key) && |req.body| <= MAX_BODY
  }

  /** The deferred step: what a finished run leaves in the slot. */
  function Settled(rows: Table, slot: SlotKey, response: Response): Table {
    if response.status == 0 || response.status >= 500 then Abandon(rows, slot)
    else Complete(rows, slot, response.status, response.body)
  }

  /** The slot's rows after a granted claim and the handler's run. */
  function RanIn(rows: Table, slot: SlotKey, faults: Faults, ws: seq<Write>): Served {
    Served(if faults.settleFails then rows else Settled(rows, slot, Captured(ws)), Ran(Captured(ws)))
  }

  /** One request, with `ws` what the handler writes if it runs, up to its panic if it panics. */
  function Serve(rows: Table, req: Request, faults: Faults, ws: seq<Write>, now: int): Served {
    if !Guarded(req) then Served(rows, Ran(Captured(ws)))
    else if !ValidIdempotencyKey(req.key) then Served(rows, InvalidKey)
    else if faults.unreadable then Served(rows, Unreadable)
    else if |req.body| > MAX_BODY then Served(rows, BodyTooLarge)
    else if faults.claimFails then Served(rows, Internal)
    else if faults.claimLost then Served(AfterInsert(rows, req, now), Internal)
    else
      var slot := SlotOf(req);
      if slot !in rows then RanIn(AfterInsert(rows, req, now), slot, faults, ws)
      else if faults.vanishes then RanIn(rows - {slot}, slot, faults, ws)
      else
        match Inspect(rows[slot], HashOf(req.body))
        case Replay(response) => Served(rows, Repeated(response))
        case Mismatch => Served(rows, Conflict)
        case _ => Served(rows, Busy)
  }

  class Middleware {
    const store: Store

    constructor (store: Store)
      ensures this.store == store
    {
      this.store := store;
    }

    method RunHandler(ws: seq<Write>) returns (response: Response)
      ensures response == Captured(ws)
    {
      var writer := new CaptureWriter();
      for i := 0 to |ws|
        invariant Response(writer.status, writer.buf) == Captured(ws[..i])
        invariant fresh(writer)
      {
        match ws[i] {
          case Header(code) => writer.WriteHeader(code, ws[..i]);
          case Bytes(text) => writer.WriteBytes(text, ws[..i]);
        }
        assert ws[..i + 1] == ws[..i] + [ws[i]];
      }
      assert ws[..|ws|] == ws;
      response := Response(writer.status, writer.buf);
    }

    method Handle(req: Request, faults: Faults, ws: seq<Write>, now: int) returns (reply: Reply)
      modifies store
      ensures Served(store.rows, reply) == Serve(old(store.rows), req, faults, ws, now)
    {
      var response;
      if !req.post || req.key == "" {
        response := RunHandler(ws);
        return Ran(response);
      }
      if !ValidIdempotencyKey(req.key) {
        return InvalidKey;
      }
      if faults.unreadable {
        return Unreadable;
      }
      if |req.body| > MAX_BODY {
        return BodyTooLarge;
      }
      if faults.claimFails {
        return Internal;
      }
      var slot := SlotOf(req);
      if faults.claimLost {
        var inserted := store.Insert(slot, HashOf(req.body), now);
        return Internal;
      }
      var claim := store.IdempotencyClaim(slot, HashOf(req.body), now, faults.vanishes);
      match claim {
        case Mismatch => return Conflict;
        case Replay(cached) => return Repeated(cached);
        case InFlight => return Busy;
        case Claimed =>
      }
      response := RunHandler(ws);
      if !faults.settleFails {
        Settle(slot, response);
      }
      reply := Ran(response);
    }

    /** The deferred step. */
    method Settle(slot: SlotKey, response: Response)
      modifies store
      ensures store.rows == Settled(old(store.rows), slot, response)
    {
      if response.status == 0 || response.status >= 500 {
        store.IdempotencyAbandon(slot);
      } else {
        store.IdempotencyComplete(slot, response.status, response.body);
      }
    }
  }

  // ─── Retries ───

  /** Requests one after another, each with its faults and with what its handler would write. */
  datatype Call = Call(req: Request, faults: Faults, ws: seq<Write>, now: int)

  function After(rows: Table, call: Call): Served {
    Serve(rows, call.req, call.faults, call.ws, call.now)
  }

  function Session(rows: Table, calls: seq<Call>): Table
    decreases calls
  {
    if calls == [] then rows else Session(After(rows, calls[0]).rows, calls[1..])
  }

  /** No call finds a conflicting row deleted between its two statements. */
  predicate NoneVanishes(calls: seq<Call>) {
    forall i :: 0 <= i < |calls| ==> !calls[i].faults.vanishes
  }

  /** A completed row is never touched again by any request. */
  lemma {:induction false} CompletedStays(rows: Table, calls: seq<Call>, slot: SlotKey)
    requires slot in rows && rows[slot].response.Some? && NoneVanishes(calls)
    ensures slot in Session(rows, calls) && Session(rows, calls)[slot] == rows[slot]
    decreases calls
  {
    if calls != [] {
      CompletedStays(After(rows, calls[0]).rows, calls[1..], slot);
    }
  }

  /**
   The promise to the client. After a run that ended below 500 and was stored, and whatever requests and failures come
   in between, a retry gets that run's status and body (its first 65536 bytes,
     if it is longer) and its own handler does not matter;
   the same key with another body is refused.
   */
  lemma RetryIsReplayed(rows: Table, first: Call, between: seq<Call>, retry: Call)
    requires Admissible(first.req) && SlotOf(first.req) !in rows && 0 < Captured(first.ws).status < 500
    requires first.faults == FAULTLESS && NoneVanishes(between) && retry.faults == FAULTLESS
    requires Admissible(retry.req) && SlotOf(retry.req) == SlotOf(first.req)
    ensures var later := Session(After(rows, first).rows, between); var answer := Captured(first.ws);
      && After(rows, first).reply == Ran(answer)
      && After(later, retry) == Served(later,
           if retry.req.body == first.req.body
           then Repeated(Response(answer.status, if |answer.body| <= 65536 then answer.body else answer.body[..65536]))
           else Conflict)
  {
    CompletedStays(After(rows, first).rows, between, SlotOf(first.req));
  }

  /**
   A run that failed or wrote nothing leaves no trace, so that a retry runs as if it were the first, unless the claim's
   insert took effect behind an error or the row could not be deleted.
   */
  lemma FailureLeavesNoTrace(rows: Table, call: Call)
    requires Admissible(call.req) && SlotOf(call.req) !in rows
    requires Captured(call.ws).status == 0 || Captured(call.ws).status >= 500
    ensures After(rows, call).rows == rows <==>
      call.faults.unreadable || call.faults.claimFails || (!call.faults.claimLost && !call.faults.settleFails)
  {
    var slot := SlotOf(call.req);
    var open := AfterInsert(rows, call.req, call.now);
    assert open - {slot} == rows;
    assert open != rows by {
      assert slot in open;
    }
  }

  // ─── Refusals ───

  /** Each answer of a request is given exactly in its own case, the first that applies. */
  lemma RepliesAreExact(rows: Table, call: Call)
    ensures var req, faults, reply := call.req, call.faults, After(rows, call).reply;
      var slot := SlotKey(req.key, req.endpoint);
      var guarded := req.post && req.key != "";
      var read := guarded && ValidIdempotencyKey(req.key) && !faults.unreadable;
      var claims := read && |req.body| <= 262_144 && !faults.claimFails && !faults.claimLost;
      var conflicts := claims && slot in rows && !faults.vanishes;
      && (reply == InvalidKey <==> guarded && !ValidIdempotencyKey(req.key))
      && (reply == Unreadable <==> guarded && ValidIdempotencyKey(req.key) && faults.unreadable)
      && (reply == BodyTooLarge <==> read && |req.body| > 262_144)
      && (reply == Internal <==> read && |req.body| <= 262_144 && (faults.claimFails || faults.claimLost))
      && (reply == Conflict <==> conflicts && rows[slot].bodyHash != HashOf(req.body))
      && (reply == Busy <==> conflicts && rows[slot].bodyHash == HashOf(req.body) && rows[slot].response == None)
      && (reply.Repeated? <==> conflicts && rows[slot].bodyHash == HashOf(req.body) && rows[slot].response != None)
      && (reply.Ran? <==> !guarded || (claims && (slot !in rows || faults.vanishes)))
      && (reply.Repeated? ==> rows[slot].response == Some(reply.response))
      && (reply.Ran? ==> reply.response.body == Written(call.ws))
      && (!reply.Ran? && !faults.claimLost ==> After(rows, call).rows == rows)
  {
    BodyIsWritten(call.ws);
  }

  // ─── One request of the protocol, alone ───

  /** Request r alone: it advances, its handler writing `ws`, until it has left. */
  function Alone(s: State, r: nat, ws: seq<Write>, n: nat): State
    decreases n
  {
    if n == 0 || r !in s.requests then s
    else if s.requests[r].Running? then Alone(FinishRun(s, r, Captured(ws)), r, ws, n - 1)
    else Alone(AdvanceRequest(s, r), r, ws, n - 1)
  }

  /**
   Undisturbed, a request of the concurrent protocol leaves the rows that Serve computes, and replays exactly
   what Serve replays.
   */
  lemma HandleIsRequestAlone(s: State, r: nat, req: Request, ws: seq<Write>)
    requires r !in s.requests && Admissible(req)
    ensures var served := Serve(s.rows, req, FAULTLESS, ws, s.now);
      var t := Alone(Goto(s, r, Inserting(SlotOf(req), HashOf(req.body))), r, ws, 3);
      && t.requests == s.requests && t.rows == served.rows
      && t.replays == s.replays
        + (if served.reply.Repeated? then [Replayed(r, SlotOf(req), HashOf(req.body), served.reply.response)] else [])
  {
    var slot := SlotOf(req);
    var s0 := Goto(s, r, Inserting(slot, HashOf(req.body)));
    var s1 := AdvanceRequest(s0, r);
    assert Alone(s0, r, ws, 3) == Alone(s1, r, ws, 2);
    if slot !in s.rows {
      var s2 := FinishRun(s1, r, Captured(ws));
      assert Alone(s1, r, ws, 2) == Alone(s2, r, ws, 1);
      if r in s2.requests {
        assert Alone(s2, r, ws, 1) == Alone(AdvanceRequest(s2, r), r, ws, 0);
      }
    } else {
      var s2 := AdvanceRequest(s1, r);
      assert Alone(s1, r, ws, 2) == Alone(s2, r, ws, 1);
    }
    assert Alone(s0, r, ws, 3).requests == s.requests;
  }
}
