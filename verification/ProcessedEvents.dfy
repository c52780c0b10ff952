/**
 The processed_events table: one row per (provider, event id), each stamped with the
 time it was inserted. Every statement the payment code runs on it is one atomic step.
 */
module ProcessedEvents {

  /** The provider names under which the payment code files its rows. */
  datatype Provider = StripeEvent | StripeEventClaim | StripeFulfill | StripeFulfillClaim | StripePendingSession

  datatype Key = Key(provider: Provider, id: string)

  /** created_at by key; UNIQUE(provider, event_id) is the map's functionality. */
  type Table = map<Key, int>

  /** staleClaimAge: ten minutes, in microseconds, the resolution of a Postgres timestamp. */
  const STALE_CLAIM_AGE: int := 600_000_000

  /** INSERT ... ON CONFLICT DO NOTHING. */
  function Insert(t: Table, k: Key, now: int): Table {
    if k in t then t else t[k := now]
  }

  /** created_at < now() - interval. */
  predicate Stale(t: Table, k: Key, now: int) {
    k in t && t[k] < now - STALE_CLAIM_AGE
  }

  class EventStore {
    var rows: Table

    constructor ()
      ensures rows == map[]
    {
      rows := map[];
    }

    method ClaimProcessedEvent(k: Key, now: int) returns (claimed: bool)
      modifies this
      ensures claimed <==> k !in old(rows)
      ensures rows == if claimed then old(rows)[k := now] else old(rows)
      ensures rows == Insert(old(rows), k, now)
    {
      claimed := k !in rows;
      if claimed {
        rows := rows[k := now];
      }
    }

    method HasProcessedEvent(k: Key) returns (present: bool)
      ensures present <==> k in rows
    {
      present := k in rows;
    }

    method DeleteProcessedEvent(k: Key)
      modifies this
      ensures rows == old(rows) - {k}
    {
      rows := rows - {k};
    }

    method CompleteProcessedEvent(k: Key)
      modifies this
      ensures rows == old(rows) - {k}
    {
      DeleteProcessedEvent(k);
    }

    /** The age test and the delete are one statement, so a row replaced meanwhile survives. */
    method ReleaseStaleProcessedEvent(k: Key, now: int) returns (released: bool)
      modifies this
      ensures released <==> k in old(rows) && now - old(rows)[k] > 600_000_000
      ensures rows == if released then old(rows) - {k} else old(rows)
    {
      released := k in rows && rows[k] < now - STALE_CLAIM_AGE;
      if released {
        rows := rows - {k};
      }
    }
  }
}
