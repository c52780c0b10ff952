/**
 Seats: one row per (license, email), invited, accepted, removed, restored. Each store
 transaction is one atomic step; accepting an invite at the service level is three.
 */
module Seats {
  import opened Wrappers

  /** SHA-256 of a plain invite token; distinct tokens have distinct hashes. */
  datatype Hash = HashOf(token: string)

  datatype Seat = Seat(
    license: string,
    email: string,
    role: string,
    user: Option<string>,
    acceptedAt: Option<int>,
    removedAt: Option<int>,
    tokenHash: Option<Hash>,
    expiresAt: Option<int>)

  /** Seat rows by id, and users by canonical email. */
  datatype Db = Db(seats: map<string, Seat>, users: map<string, string>)

  datatype Invite = Invite(license: string, email: string, role: string, token: string, expiresAt: int)

  datatype Outcome = Created | Restored | Existed | LimitReached

  predicate IsRowOf(db: Db, id: string, license: string, email: string) {
    id in db.seats && db.seats[id].license == license && db.seats[id].email == email
  }

  /** A row of the license and email that is not removed. */
  predicate IsLive(seats: map<string, Seat>, id: string, license: string, email: string) {
    id in seats && seats[id].license == license && seats[id].email == email && seats[id].removedAt.None?
  }

  /** The ids of the license's seats that are not removed. */
  function LiveSeats(db: Db, license: string): set<string> {
    set id | id in db.seats && db.seats[id].license == license && db.seats[id].removedAt.None?
  }

  ghost predicate OneRowEach(db: Db) {
    forall i, j, license, email :: IsRowOf(db, i, license, email) && IsRowOf(db, j, license, email) ==> i == j
  }

  // ─── The operations on values ───

  function Invited(seat: Seat, invite: Invite): Seat {
    seat.(role := invite.role, tokenHash := Some(HashOf(invite.token)), expiresAt := Some(invite.expiresAt))
  }

  /** A removed seat comes back vacant: its next occupant has to accept afresh. */
  function Vacated(seat: Seat): Seat {
    seat.(removedAt := None, user := None, acceptedAt := None)
  }

  datatype Added = Added(db: Db, outcome: Outcome)

  /** `id` is the existing row of the invite's license and email, if any. */
  function AddToRow(db: Db, id: string, invite: Invite, maxSeats: int): Added
    requires id in db.seats
  {
    var seat := db.seats[id];
    if seat.removedAt.None? then
      if seat.acceptedAt.Some? then Added(db, Existed)
      else Added(db.(seats := db.seats[id := Invited(seat, invite)]), Restored)
    else if maxSeats > 0 && |LiveSeats(db, invite.license)| >= maxSeats then Added(db, LimitReached)
    else Added(db.(seats := db.seats[id := Invited(Vacated(seat), invite)]), Restored)
  }

  function AddNewRow(db: Db, id: string, invite: Invite, maxSeats: int): Added {
    if maxSeats > 0 && |LiveSeats(db, invite.license)| >= maxSeats then Added(db, LimitReached)
    else
      var seat := Seat(invite.license, invite.email, invite.role, None, None, None, None, None);
      Added(db.(seats := db.seats[id := Invited(seat, invite)]), Created)
  }

  ghost function AddSeatWithinLimit(db: Db, newId: string, invite: Invite, maxSeats: int): Added {
    if row :| IsRowOf(db, row, invite.license, invite.email) then AddToRow(db, row, invite, maxSeats)
    else AddNewRow(db, newId, invite, maxSeats)
  }

  predicate Holds(db: Db, id: string, token: string) {
    id in db.seats && db.seats[id].tokenHash == Some(HashOf(token))
  }

  /** The invite in this row can be accepted now. */
  predicate Acceptable(db: Db, id: string, token: string, now: int) {
    && Holds(db, id, token)
    && db.seats[id].removedAt.None? && db.seats[id].acceptedAt.None?
    && db.seats[id].expiresAt.Some? && now <= db.seats[id].expiresAt.value
  }

  /** Binds the seat to the user of its own email, who is created if need be, and forgets the token. */
  function Accept(db: Db, id: string, now: int, newUser: string): Db
    requires id in db.seats
  {
    var seat := db.seats[id];
    var user := if seat.email in db.users then db.users[seat.email] else newUser;
    Db(db.seats[id := seat.(user := Some(user), acceptedAt := Some(now), tokenHash := None, expiresAt := None)],
       db.users[seat.email := user])
  }

  /** Undoes an acceptance; the token stays forgotten. */
  function RollbackSeatAccept(db: Db, id: string): Db {
    if id in db.seats then db.(seats := db.seats[id := db.seats[id].(user := None, acceptedAt := None)]) else db
  }

  function RemoveSeat(db: Db, id: string, now: int): Db {
    if id in db.seats && db.seats[id].removedAt.None?
    then db.(seats := db.seats[id := db.seats[id].(removedAt := Some(now))])
    else db
  }

  /** A live invite of this token: not accepted yet, and not past its expiry. */
  predicate Invites(seats: map<string, Seat>, id: string, token: string, now: int) {
    && id in seats && seats[id].tokenHash == Some(HashOf(token))
    && seats[id].removedAt == None && seats[id].acceptedAt == None
    && seats[id].expiresAt.Some? && seats[id].expiresAt.value >= now
  }

  // ─── The tables ───

  class Store {
    var seats: map<string, Seat>
    var users: map<string, string>

    function Contents(): Db
      reads this
    {
      Db(seats, users)
    }

    constructor ()
      ensures Contents() == Db(map[], map[])
    {
      seats, users := map[], map[];
    }

    method Add(newId: string, invite: Invite, maxSeats: int) returns (seatId: string, outcome: Outcome)
      requires OneRowEach(Contents()) && newId !in seats
      modifies this
      ensures Added(Contents(), outcome) == AddSeatWithinLimit(old(Contents()), newId, invite, maxSeats)
      ensures outcome == Existed <==> exists id ::
        IsLive(old(seats), id, invite.license, invite.email) && old(seats)[id].acceptedAt.Some?
      ensures outcome == LimitReached <==>
        && maxSeats > 0
        && |set id | id in old(seats) && old(seats)[id].license == invite.license && old(seats)[id].removedAt.None?|
           >= maxSeats
        && (forall id :: !IsLive(old(seats), id, invite.license, invite.email))
      ensures outcome == Created ==> seatId == newId
      ensures outcome == Restored ==> seatId in old(seats)
      ensures outcome == Created || outcome == Restored ==>
        && seatId in seats && seats - {seatId} == old(seats) - {seatId} && users == old(users)
        && seats[seatId] == Seat(invite.license, invite.email, invite.role,
             if seatId in old(seats) && old(seats)[seatId].removedAt.None? then old(seats)[seatId].user else None,
             None, None, Some(HashOf(invite.token)), Some(invite.expiresAt))
      ensures outcome == Existed || outcome == LimitReached ==> Contents() == old(Contents())
      ensures outcome != LimitReached ==> IsRowOf(Contents(), seatId, invite.license, invite.email)
    {
      var live := set id | id in seats && IsRowOf(Contents(), id, invite.license, invite.email)
        && seats[id].removedAt.None?;
      if live != {} {
        seatId :| seatId in live;
        assert IsRowOf(Contents(), seatId, invite.license, invite.email);
        assert IsLive(seats, seatId, invite.license, invite.email);
        assert forall id :: IsLive(seats, id, invite.license, invite.email) ==> id == seatId by {
          assert forall id :: IsLive(seats, id, invite.license, invite.email) ==>
            IsRowOf(Contents(), id, invite.license, invite.email);
        }
        if seats[seatId].acceptedAt.Some? {
          return seatId, Existed;
        }
        seats := seats[seatId := Invited(seats[seatId], invite)];
        return seatId, Restored;
      }
      assert forall id :: IsRowOf(Contents(), id, invite.license, invite.email) ==> id !in live;
      assert forall id :: IsLive(seats, id, invite.license, invite.email) ==> id in live;
      if maxSeats > 0 {
        var count := |set id | id in seats && seats[id].license == invite.license && seats[id].removedAt.None?|;
        if count >= maxSeats {
          return "", LimitReached;
        }
      }
      var removed := set id | id in seats && IsRowOf(Contents(), id, invite.license, invite.email)
        && seats[id].removedAt.Some?;
      if removed != {} {
        seatId :| seatId in removed;
        assert IsRowOf(Contents(), seatId, invite.license, invite.email);
        seats := seats[seatId := Invited(Vacated(seats[seatId]), invite)];
        return seatId, Restored;
      }
      assert forall id :: IsRowOf(Contents(), id, invite.license, invite.email) ==> id in removed || id in live;
      var seat := Seat(invite.license, invite.email, invite.role, None, None, None, None, None);
      seats := seats[newId := Invited(seat, invite)];
      return newId, Created;
    }

    method AcceptInvite(token: string, now: int, newUser: string) returns (seatId: Option<string>)
      requires forall i, j :: Holds(Contents(), i, token) && Holds(Contents(), j, token) ==> i == j
      modifies this
      ensures seatId.Some? ==> token != "" && old(Acceptable(Contents(), seatId.value, token, now))
      ensures seatId.Some? ==> Contents() == Accept(old(Contents()), seatId.value, now, newUser)
      ensures seatId.None? ==> Contents() == old(Contents())
      ensures seatId.None? ==> token == "" || forall id :: !Acceptable(Contents(), id, token, now)
      ensures seatId.Some? ==> token != "" && Invites(old(seats), seatId.value, token, now)
      ensures seatId.None? && token != "" ==> forall id :: !Invites(old(seats), id, token, now)
      ensures seatId.Some? ==>
        var seat := old(seats)[seatId.value]; var user := if seat.email in old(users) then old(users)[seat.email]
          else newUser;
        && users == old(users)[seat.email := user]
        && seats == old(seats)[seatId.value :=
             Seat(seat.license, seat.email, seat.role, Some(user), Some(now), None, None, None)]
    {
      if token == "" {
        return None;
      }
      var found := set id | id in seats && seats[id].tokenHash == Some(HashOf(token));
      assert forall id :: Holds(Contents(), id, token) <==> id in found;
      assert forall id :: Invites(seats, id, token, now) ==> Holds(Contents(), id, token);
      if found == {} {
        return None;
      }
      var id :| id in found;
      var seat := seats[id];
      if seat.removedAt.Some? || seat.acceptedAt.Some? {
        return None;
      }
      if seat.expiresAt.None? || seat.expiresAt.value < now {
        return None;
      }
      var user := newUser;
      if seat.email in users {
        user := users[seat.email];
      }
      users := users[seat.email := user];
      seats := seats[id := seat.(user := Some(user), acceptedAt := Some(now), tokenHash := None, expiresAt := None)];
      return Some(id);
    }

    method Rollback(id: string)
      modifies this
      ensures Contents() == RollbackSeatAccept(old(Contents()), id)
      ensures users == old(users) && seats ==
        if id in old(seats) then old(seats)[id := old(seats)[id].(user := None, acceptedAt := None)] else old(seats)
    {
      if id in seats {
        seats := seats[id := seats[id].(user := None, acceptedAt := None)];
      }
    }

    method Remove(id: string, now: int)
      modifies this
      ensures Contents() == RemoveSeat(old(Contents()), id, now)
      ensures users == old(users) && seats ==
        if id in old(seats) && old(seats)[id].removedAt == None
        then old(seats)[id := old(seats)[id].(removedAt := Some(now))] else old(seats)
    {
      if id in seats && seats[id].removedAt.None? {
        seats := seats[id := seats[id].(removedAt := Some(now))];
      }
    }

    /**
     The service's accept. A license in bad standing takes the acceptance back and answers as for a bad token;
     if the license cannot be looked up the caller gets an error, but the acceptance stands.
     */
    method AcceptSeatInvite(
      token: string, now: int, newUser: string, badLicenses: set<string>, lookupFails: bool, rollbackFails: bool)
      returns (reply: Reply, ghost id: string)
      requires forall i, j :: Holds(Contents(), i, token) && Holds(Contents(), j, token) ==> i == j
      modifies this
      ensures Accepting(
        old(Contents()), Contents(), reply, id, token, now, newUser, badLicenses, lookupFails, rollbackFails)
    {
      id := "";
      var accepted := AcceptInvite(token, now, newUser);
      if accepted.None? {
        return Invalid, "";
      }
      id := accepted.value;
      if lookupFails {
        return Failed, id;
      }
      if seats[accepted.value].license in badLicenses {
        if !rollbackFails {
          Rollback(accepted.value);
        }
        return Invalid, id;
      }
      return Bound(accepted.value), id;
    }
  }

  /**
   Bound: the caller has the seat. Invalid: the one answer for bad tokens and bad licenses. Failed: an internal
   error.
   */
  datatype Reply = Bound(seat: string) | Invalid | Failed

  /** What an accept by token may do to the tables, and what it then answers. */
  ghost predicate Accepting(before: Db, after: Db, reply: Reply, id: string,
    token: string, now: int, newUser: string, badLicenses: set<string>, lookupFails: bool, rollbackFails: bool)
  {
    if token == "" || forall i :: !Acceptable(before, i, token, now) then
      reply == Invalid && after == before
    else
      && Acceptable(before, id, token, now)
      && var accepted := Accept(before, id, now, newUser);
        if lookupFails then reply == Failed && after == accepted
        else if before.seats[id].license in badLicenses then
          reply == Invalid && after == if rollbackFails then accepted else RollbackSeatAccept(accepted, id)
        else
          reply == Bound(id) && after == accepted
  }

  /** A completed rollback leaves the seat vacant and its token forgotten. */
  lemma RolledBackIsVacant(db: Db, id: string, now: int, newUser: string)
    requires id in db.seats
    ensures var after := RollbackSeatAccept(Accept(db, id, now, newUser), id);
      && id in after.seats
      && after.seats == db.seats[id :=
           db.seats[id].(user := None, acceptedAt := None, tokenHash := None, expiresAt := None)]
  {
  }
}
