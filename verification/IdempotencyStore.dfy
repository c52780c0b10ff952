/** The idempotency_keys table: one row per (key, endpoint). */
module IdempotencyStore {
  import opened Wrappers

  /** The primary key. */
  datatype SlotKey = SlotKey(key: string, endpoint: string)

  datatype Response = Response(status: int, body: string)

  /** `response` is the stored answer once response_complete is set. */
  datatype Row = Row(bodyHash: string, response: Option<Response>, expiresAt: int)

  type Table = map<SlotKey, Row>

  const MAX_CACHED_BODY: nat := 65536

  /** 24 hours, in microseconds. */
  const TTL: int := 86_400_000_000

  datatype Claim = Claimed | Mismatch | InFlight | Replay(response: Response)

  /** What a claim answers when the row is there. */
  function Inspect(row: Row, bodyHash: string): Claim {
    if row.bodyHash != bodyHash then Mismatch
    else if row.response.Some? then Replay(row.response.value)
    else InFlight
  }

  /** The body as far as it is kept. */
  function Truncated(body: string): (kept: string)
    ensures kept <= body
    ensures |body| <= 65536 ==> kept == body
    ensures |body| > 65536 ==> |kept| == 65536
  {
    if |body| > MAX_CACHED_BODY then body[..MAX_CACHED_BODY] else body
  }

  /** Marks the row complete, whosever it is; no row, no effect. */
  function Complete(t: Table, k: SlotKey, status: int, body: string): Table {
    if k in t then t[k := t[k].(response := Some(Response(status, Truncated(body))))] else t
  }

  /** Deletes the row unless it is complete. */
  function Abandon(t: Table, k: SlotKey): Table {
    if k in t && t[k].response.None? then t - {k} else t
  }

  function PruneExpired(t: Table, now: int): Table {
    map k | k in t && t[k].expiresAt >= now :: t[k]
  }

  /** A key of 1 to 256 characters, none of which is NUL, line feed or carriage return. */
  predicate ValidIdempotencyKey(s: string) {
    1 <= |s| <= 256 && '\0' !in s && '\n' !in s && '\r' !in s
  }

  class Store {
    var rows: Table

    constructor ()
      ensures rows == map[]
    {
      rows := map[];
    }

    /** INSERT ... ON CONFLICT DO NOTHING. */
    method Insert(k: SlotKey, bodyHash: string, now: int) returns (inserted: bool)
      modifies this
      ensures inserted <==> k !in old(rows)
      ensures rows == if inserted then old(rows)[k := Row(bodyHash, None, now + TTL)] else old(rows)
    {
      inserted := k !in rows;
      if inserted {
        rows := rows[k := Row(bodyHash, None, now + TTL)];
      }
    }

    /**
     Insert, and on conflict read the row back. `vanishes`: between the two statements somebody else deletes
     the row; that reads as a fresh claim.
     */
    method IdempotencyClaim(k: SlotKey, bodyHash: string, now: int, vanishes: bool) returns (claim: Claim)
      modifies this
      ensures k !in old(rows) ==> claim == Claimed && rows == old(rows)[k := Row(bodyHash, None, now + TTL)]
      ensures k in old(rows) && vanishes ==> claim == Claimed && rows == old(rows) - {k}
      ensures k in old(rows) && !vanishes ==> claim == Inspect(old(rows)[k], bodyHash) && rows == old(rows)
      ensures claim == Mismatch <==> k in old(rows) && !vanishes && old(rows)[k].bodyHash != bodyHash
      ensures claim == InFlight <==>
        k in old(rows) && !vanishes && old(rows)[k].bodyHash == bodyHash && old(rows)[k].response == None
      ensures claim.Replay? ==> old(rows)[k].response == Some(claim.response)
    {
      var inserted := Insert(k, bodyHash, now);
      if inserted {
        return Claimed;
      }
      if vanishes {
        rows := rows - {k};
      }
      if k !in rows {
        return Claimed;
      }
      var row := rows[k];
      if row.bodyHash != bodyHash {
        return Mismatch;
      }
      return if row.response.Some? then Replay(row.response.value) else InFlight;
    }

    method IdempotencyComplete(k: SlotKey, status: int, body: string)
      modifies this
      ensures rows == Complete(old(rows), k, status, body)
      ensures rows - {k} == old(rows) - {k} && (k in rows <==> k in old(rows))
      ensures k in rows ==>
        && rows[k].bodyHash == old(rows)[k].bodyHash && rows[k].expiresAt == old(rows)[k].expiresAt
        && rows[k].response.Some? && rows[k].response.value.status == status
        && rows[k].response.value.body == if |body| <= 65536 then body else body[..65536]
    {
      var body := if |body| > MAX_CACHED_BODY then body[..MAX_CACHED_BODY] else body;
      if k in rows {
        rows := rows[k := rows[k].(response := Some(Response(status, body)))];
      }
    }

    method IdempotencyAbandon(k: SlotKey)
      modifies this
      ensures rows == Abandon(old(rows), k)
      ensures rows == if k in old(rows) && old(rows)[k].response == None then old(rows) - {k} else old(rows)
    {
      if k in rows && rows[k].response.None? {
        rows := rows - {k};
      }
    }

    method IdempotencyPruneExpired(now: int) returns (count: nat)
      modifies this
      ensures rows == PruneExpired(old(rows), now)
      ensures forall k :: k in rows <==> k in old(rows) && old(rows)[k].expiresAt >= now
      ensures forall k :: k in rows ==> rows[k] == old(rows)[k]
      ensures count == |old(rows).Keys - rows.Keys|
    {
      var kept := PruneExpired(rows, now);
      count := |rows.Keys - kept.Keys|;
      rows := kept;
    }
  }

  /** The longest valid key has 256 characters; only three characters are refused, by their codes. */
  lemma ValidKeys(s: string)
    ensures ValidIdempotencyKey(s) <==>
      0 < |s| < 257 && forall i :: 0 <= i < |s| ==> s[i] as int != 0 && s[i] as int != 10 && s[i] as int != 13
  {
    if ValidIdempotencyKey(s) {
      forall i | 0 <= i < |s|
        ensures s[i] as int != 0 && s[i] as int != 10 && s[i] as int != 13
      {
        assert s[i] in s;
      }
    }
  }

  /** A claim's row expires a day after it was made. */
  lemma RowsLastADay(now: int)
    ensures now + TTL == now + 24 * 60 * 60 * 1_000_000
  {
  }
}
