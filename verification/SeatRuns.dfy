/**
 Whole runs of invites, re-invites, removals, accepts and rollbacks, in any interleaving,
 with a fixed seat limit per license and a fresh token for every invite.
 */
module SeatRuns {
  import opened Wrappers
  import opened Seats

  /** A service-level accept between its store accept and its answer. */
  datatype Pc = Checking(seat: string) | RollingBack(seat: string)

  datatype Label =
    | Add(id: string, invite: Invite)
    | AcceptToken(w: nat, token: string, now: int, newUser: string)
    | Check(w: nat, standing: bool)
    | Rollback(w: nat, fails: bool)
    | Crash(w: nat)
    | Remove(id: string, now: int)

  /** `caps` is max_seats by license, `issued` every token minted so far, `accepted` the tokens accepted, in order. */
  datatype State = State(
    db: Db,
    caps: map<string, int>,
    issued: set<string>,
    accepted: seq<string>,
    workers: map<nat, Pc>)

  function Start(caps: map<string, int>): State {
    State(Db(map[], map[]), caps, {}, [], map[])
  }

  function Cap(s: State, license: string): int {
    if license in s.caps then s.caps[license] else 0
  }

  predicate Enabled(s: State, l: Label) {
    match l
    case Add(id, invite) => id !in s.db.seats && invite.token != "" && invite.token !in s.issued
    case AcceptToken(w, _, _, _) => w !in s.workers
    case Check(w, _) => w in s.workers && s.workers[w].Checking?
    case Rollback(w, _) => w in s.workers && s.workers[w].RollingBack?
    case Crash(w) => w in s.workers
    case Remove(_, _) => true
  }

  ghost function Step(s: State, l: Label): State
    requires Enabled(s, l)
  {
    match l
    case Add(id, invite) =>
      s.(db := AddSeatWithinLimit(s.db, id, invite, Cap(s, invite.license)).db, issued := s.issued + {invite.token})
    case AcceptToken(w, token, now, newUser) =>
      if id :| token != "" && Acceptable(s.db, id, token, now) then
        s.(db := Accept(s.db, id, now, newUser), accepted := s.accepted + [token],
          workers := s.workers[w := Checking(id)])
      else s
    case Check(w, standing) =>
      if standing then s.(workers := s.workers - {w})
      else s.(workers := s.workers[w := RollingBack(s.workers[w].seat)])
    case Rollback(w, fails) =>
      var t := s.(workers := s.workers - {w});
      if fails then t else t.(db := RollbackSeatAccept(s.db, s.workers[w].seat))
    case Crash(w) => s.(workers := s.workers - {w})
    case Remove(id, now) => s.(db := RemoveSeat(s.db, id, now))
  }

  ghost predicate Runs(s: State, ls: seq<Label>)
    decreases ls
  {
    ls == [] || (Enabled(s, ls[0]) && Runs(Step(s, ls[0]), ls[1..]))
  }

  ghost function Final(s: State, ls: seq<Label>): State
    requires Runs(s, ls)
    decreases ls
  {
    if ls == [] then s else Final(Step(s, ls[0]), ls[1..])
  }

  // ─── Invariants ───

  /** Accepted means bound to a user, and excludes an outstanding token. */
  predicate RowState(seat: Seat) {
    && (seat.acceptedAt.Some? <==> seat.user.Some?)
    && (seat.acceptedAt.Some? ==> seat.tokenHash.None?)
  }

  ghost predicate WithinCaps(s: State) {
    forall license :: Cap(s, license) > 0 ==> |LiveSeats(s.db, license)| <= Cap(s, license)
  }

  /** Stored tokens were issued, and each is stored in one row. */
  ghost predicate Tokens(s: State) {
    && (forall id, token :: Holds(s.db, id, token) ==> token in s.issued)
    && (forall i, j, token :: Holds(s.db, i, token) && Holds(s.db, j, token) ==> i == j)
  }

  /** Issued, and stored in no row that is not removed: accepted, rotated away, discarded, or its seat removed. */
  ghost predicate Dead(s: State, token: string) {
    token in s.issued && forall id :: Holds(s.db, id, token) ==> s.db.seats[id].removedAt.Some?
  }

  ghost predicate AcceptedAreDead(s: State) {
    forall token :: token in s.accepted ==> Dead(s, token)
  }

  ghost predicate Unique(xs: seq<string>) {
    forall i, j :: 0 <= i < j < |xs| ==> xs[i] != xs[j]
  }

  ghost predicate Inv(s: State) {
    && OneRowEach(s.db)
    && (forall id :: id in s.db.seats ==> RowState(s.db.seats[id]))
    && WithinCaps(s)
    && Tokens(s)
    && AcceptedAreDead(s)
    && Unique(s.accepted)
  }

  lemma OneRowStep(s: State, l: Label)
    requires Inv(s) && Enabled(s, l)
    ensures OneRowEach(Step(s, l).db)
  {
    var t := Step(s, l);
    forall i, license, email | IsRowOf(t.db, i, license, email)
      ensures IsRowOf(s.db, i, license, email)
        || (l.Add? && i == l.id && license == l.invite.license && email == l.invite.email
            && forall j :: !IsRowOf(s.db, j, license, email))
    {
    }
  }

  lemma RowsStep(s: State, l: Label)
    requires Inv(s) && Enabled(s, l)
    ensures OneRowEach(Step(s, l).db)
    ensures forall id :: id in Step(s, l).db.seats ==> RowState(Step(s, l).db.seats[id])
  {
    OneRowStep(s, l);
  }

  lemma LiveAddToRow(db: Db, row: string, invite: Invite, maxSeats: int, license: string)
    requires IsRowOf(db, row, invite.license, invite.email)
    ensures var r := AddToRow(db, row, invite, maxSeats);
      var before, after := LiveSeats(db, license), LiveSeats(r.db, license);
      after == before ||
        (after == before + {row} && license == invite.license && (maxSeats > 0 ==> |before| < maxSeats))
  {
  }

  lemma LiveAddNewRow(db: Db, id: string, invite: Invite, maxSeats: int, license: string)
    requires id !in db.seats
    ensures var r := AddNewRow(db, id, invite, maxSeats);
      var before, after := LiveSeats(db, license), LiveSeats(r.db, license);
      after == before || (after == before + {id} && license == invite.license && (maxSeats > 0 ==> |before| < maxSeats))
  {
  }

  /** How the set of live seats may change in one step: by one seat more, and then only below the cap. */
  lemma LiveStep(s: State, l: Label, license: string)
    requires Inv(s) && Enabled(s, l)
    ensures var before, after := LiveSeats(s.db, license), LiveSeats(Step(s, l).db, license);
      after <= before || (exists id :: after == before + {id} && (Cap(s, license) > 0 ==> |before| < Cap(s, license)))
  {
    if l.Add? {
      var maxSeats := Cap(s, l.invite.license);
      if row :| IsRowOf(s.db, row, l.invite.license, l.invite.email) {
        LiveAddToRow(s.db, row, l.invite, maxSeats, license);
      } else {
        LiveAddNewRow(s.db, l.id, l.invite, maxSeats, license);
      }
    }
  }

  lemma CapsStep(s: State, l: Label)
    requires Inv(s) && Enabled(s, l)
    ensures WithinCaps(Step(s, l))
  {
    forall license | Cap(Step(s, l), license) > 0
      ensures |LiveSeats(Step(s, l).db, license)| <= Cap(Step(s, l), license)
    {
      LiveStep(s, l, license);
      var before, after := LiveSeats(s.db, license), LiveSeats(Step(s, l).db, license);
      if after <= before {
        Subset(after, before);
      }
    }
  }

  lemma {:induction false} Subset(a: set<string>, b: set<string>)
    requires a <= b
    ensures |a| <= |b|
    decreases |a|
  {
    if a != {} {
      var x :| x in a;
      Subset(a - {x}, b - {x});
    }
  }

  /** A token newly stored is the invite's own, fresh one. */
  lemma HoldsStep(s: State, l: Label, id: string, token: string)
    requires Inv(s) && Enabled(s, l) && Holds(Step(s, l).db, id, token)
    ensures (Holds(s.db, id, token) && (s.db.seats[id].removedAt.Some? ==> Step(s, l).db.seats[id].removedAt.Some?))
      || (l.Add? && token == l.invite.token && IsRowOf(Step(s, l).db, id, l.invite.license, l.invite.email))
  {
  }

  lemma TokensStep(s: State, l: Label)
    requires Inv(s) && Enabled(s, l)
    ensures Tokens(Step(s, l))
  {
    var t := Step(s, l);
    RowsStep(s, l);
    forall id, token | Holds(t.db, id, token)
      ensures token in t.issued
    {
      HoldsStep(s, l, id, token);
    }
    forall i, j, token | Holds(t.db, i, token) && Holds(t.db, j, token)
      ensures i == j
    {
      HoldsStep(s, l, i, token);
      HoldsStep(s, l, j, token);
    }
  }

  /** Death is final: a dead token stays dead and is not accepted. */
  lemma DeadStep(s: State, l: Label, token: string)
    requires Inv(s) && Enabled(s, l) && Dead(s, token)
    ensures Dead(Step(s, l), token)
    ensures Step(s, l).accepted == s.accepted || (Step(s, l).accepted == s.accepted + [l.token] && l.token != token)
  {
    var t := Step(s, l);
    forall id | Holds(t.db, id, token)
      ensures t.db.seats[id].removedAt.Some?
    {
      HoldsStep(s, l, id, token);
    }
  }

  /** Accepting kills the token. */
  lemma AcceptKills(s: State, l: Label)
    requires Inv(s) && Enabled(s, l) && l.AcceptToken? && Step(s, l).accepted != s.accepted
    ensures Dead(Step(s, l), l.token) && Step(s, l).accepted == s.accepted + [l.token] && !Dead(s, l.token)
  {
    var id :| l.token != "" && Acceptable(s.db, id, l.token, l.now) &&
      Step(s, l).db == Accept(s.db, id, l.now, l.newUser);
    assert Holds(s.db, id, l.token);
    forall i | Holds(Step(s, l).db, i, l.token)
      ensures false
    {
      assert Holds(s.db, i, l.token);
    }
  }

  lemma AcceptedStep(s: State, l: Label)
    requires Inv(s) && Enabled(s, l)
    ensures AcceptedAreDead(Step(s, l)) && Unique(Step(s, l).accepted)
  {
    var t := Step(s, l);
    forall token | token in s.accepted
      ensures Dead(t, token)
    {
      DeadStep(s, l, token);
    }
    if t.accepted != s.accepted {
      AcceptKills(s, l);
    }
  }

  lemma {:induction false} InvRun(s: State, ls: seq<Label>)
    requires Inv(s) && Runs(s, ls)
    ensures Inv(Final(s, ls)) && Final(s, ls).caps == s.caps
    decreases ls
  {
    if ls != [] {
      RowsStep(s, ls[0]);
      CapsStep(s, ls[0]);
      TokensStep(s, ls[0]);
      AcceptedStep(s, ls[0]);
      InvRun(Step(s, ls[0]), ls[1..]);
    }
  }

  // ─── Results ───

  /** Live seats never exceed a positive limit, and a license has one row per email, in every run. */
  lemma SeatsWithinLimit(caps: map<string, int>, ls: seq<Label>, license: string)
    requires Runs(Start(caps), ls) && license in caps && caps[license] > 0
    ensures |LiveSeats(Final(Start(caps), ls).db, license)| <= caps[license]
    ensures OneRowEach(Final(Start(caps), ls).db)
    ensures forall id :: id in Final(Start(caps), ls).db.seats ==> RowState(Final(Start(caps), ls).db.seats[id])
  {
    InvRun(Start(caps), ls);
    assert Cap(Final(Start(caps), ls), license) == caps[license];
  }

  /** No token is accepted twice in any run. */
  lemma TokenAcceptedOnce(caps: map<string, int>, ls: seq<Label>)
    requires Runs(Start(caps), ls)
    ensures Unique(Final(Start(caps), ls).accepted)
  {
    InvRun(Start(caps), ls);
  }

  /** From any reachable state, a dead token is never accepted again, whatever happens next. */
  lemma {:induction false} DeadIsForever(s: State, ls: seq<Label>, token: string)
    requires Inv(s) && Runs(s, ls) && Dead(s, token)
    ensures s.accepted <= Final(s, ls).accepted
    ensures token !in Final(s, ls).accepted[|s.accepted|..]
    decreases ls
  {
    if ls != [] {
      var t := Step(s, ls[0]);
      DeadStep(s, ls[0], token);
      InvRun(s, ls[..1]) by {
        assert ls[..1][1..] == [];
        assert Runs(t, ls[..1][1..]);
      }
      assert ls[..1][1..] == [];
      assert Final(s, ls[..1]) == Final(t, ls[..1][1..]) == t;
      DeadIsForever(t, ls[1..], token);
      var final := Final(t, ls[1..]).accepted;
      assert final[|s.accepted|..] == t.accepted[|s.accepted|..] + final[|t.accepted|..];
    }
  }

  /** Re-inviting or restoring replaces the row's token for good, and removing a seat kills its invite. */
  lemma RotationAndRemovalKill(s: State, l: Label, id: string, token: string)
    requires Inv(s) && Enabled(s, l) && Holds(s.db, id, token)
    requires l.Remove? ==> l.id == id
    requires l.Add? ==> IsRowOf(s.db, id, l.invite.license, l.invite.email) && s.db.seats[id].removedAt.None?
    requires l.Remove? || l.Add?
    ensures Dead(Step(s, l), token)
  {
    var t := Step(s, l);
    assert IsRowOf(s.db, id, s.db.seats[id].license, s.db.seats[id].email);
    forall i | Holds(t.db, i, token)
      ensures t.db.seats[i].removedAt.Some?
    {
      HoldsStep(s, l, i, token);
    }
  }

  // ─── Runs leave nothing out ───

  /**
   Any invite with a fresh id and token, any token at any time, any answer about the license, a rollback that works or
   fails, a crash at any point and any removal can come next; and each does what the store does.
   */
  lemma AnythingCanHappen(s: State, id: string, invite: Invite, w: nat, token: string, now: int, user: string,
    yes: bool)
    ensures id !in s.db.seats && invite.token != "" && invite.token !in s.issued ==>
      && Enabled(s, Add(id, invite))
      && Step(s, Add(id, invite)).issued == s.issued + {invite.token}
      && Step(s, Add(id, invite)).db ==
           AddSeatWithinLimit(s.db, id, invite, if invite.license in s.caps then s.caps[invite.license] else 0).db
    ensures w !in s.workers ==> Enabled(s, AcceptToken(w, token, now, user))
    ensures w in s.workers ==> Enabled(s, Crash(w)) && Step(s, Crash(w)) == s.(workers := s.workers - {w})
    ensures w in s.workers && s.workers[w].Checking? ==>
      && Enabled(s, Check(w, yes))
      && Step(s, Check(w, true)) == s.(workers := s.workers - {w})
      && Step(s, Check(w, false)) == s.(workers := s.workers[w := RollingBack(s.workers[w].seat)])
    ensures w in s.workers && s.workers[w].RollingBack? ==>
      && Enabled(s, Rollback(w, yes))
      && Step(s, Rollback(w, true)) == s.(workers := s.workers - {w})
      && Step(s, Rollback(w, false)) ==
           s.(workers := s.workers - {w}, db := RollbackSeatAccept(s.db, s.workers[w].seat))
    ensures Enabled(s, Remove(id, now)) && Step(s, Remove(id, now)) == s.(db := RemoveSeat(s.db, id, now))
  {
  }

  /** A token is accepted exactly if some row can be accepted with it, and its caller then checks that row. */
  lemma AcceptedIff(s: State, w: nat, token: string, now: int, user: string)
    requires Inv(s) && w !in s.workers
    ensures var t := Step(s, AcceptToken(w, token, now, user));
      if token != "" && exists id :: Invites(s.db.seats, id, token, now)
      then t.accepted == s.accepted + [token] && w in t.workers && t.workers[w].Checking?
      else t == s
  {
    forall id
      ensures Acceptable(s.db, id, token, now) <==> Invites(s.db.seats, id, token, now)
    {
    }
  }

  // ─── How long an acceptance lasts ───

  /** The seat is live and bound: what a caller who was told of success has. */
  predicate Held(s: State, id: string) {
    id in s.db.seats && s.db.seats[id].removedAt.None? && s.db.seats[id].acceptedAt.Some? && s.db.seats[id].user.Some?
  }

  predicate Removes(l: Label, id: string) {
    l.Remove? && l.id == id
  }

  /** A rollback of some acceptance of the seat takes effect. It names the seat's row, not the acceptance. */
  predicate Unbinds(s: State, l: Label, id: string) {
    l.Rollback? && !l.fails && l.w in s.workers && s.workers[l.w].seat == id
  }

  /** The row is still bound to the user it was bound to. */
  predicate SameBinding(s: State, t: State, id: string)
    requires Held(s, id)
  {
    Held(t, id) && t.db.seats[id].user == s.db.seats[id].user && t.db.seats[id].acceptedAt == s.db.seats[id].acceptedAt
  }

  ghost predicate BoundThroughout(s: State, ls: seq<Label>, id: string)
    requires Runs(s, ls)
    decreases ls
  {
    Held(s, id) && (ls == [] || (BoundThroughout(Step(s, ls[0]), ls[1..], id) && SameBinding(s, Step(s, ls[0]), id)))
  }

  ghost predicate NeverUnbound(s: State, ls: seq<Label>, id: string)
    requires Runs(s, ls)
    decreases ls
  {
    ls == [] || (!Unbinds(s, ls[0], id) && NeverUnbound(Step(s, ls[0]), ls[1..], id))
  }

  /**
   A bound seat that is not removed stays bound to the same user at every point of a run if and only if no
   acceptance of that seat is rolled back meanwhile.
   */
  lemma {:induction false} BindingLastsIff(s: State, ls: seq<Label>, id: string)
    requires Runs(s, ls) && Held(s, id)
    requires forall i :: 0 <= i < |ls| ==> !Removes(ls[i], id)
    ensures BoundThroughout(s, ls, id) <==> NeverUnbound(s, ls, id)
    decreases ls
  {
    if ls != [] {
      if Held(Step(s, ls[0]), id) {
        BindingLastsIff(Step(s, ls[0]), ls[1..], id);
      } else {
        assert !BoundThroughout(Step(s, ls[0]), ls[1..], id);
      }
    }
  }

  // ─── A late rollback hits the next occupant ───

  ghost predicate Leads(s: State, ls: seq<Label>, t: State) {
    Runs(s, ls) && Final(s, ls) == t
  }

  lemma {:induction false} LeadsThen(s: State, ls: seq<Label>, t: State, l: Label, u: State)
    requires Leads(s, ls, t) && Enabled(t, l) && Step(t, l) == u
    ensures Leads(s, ls + [l], u)
    decreases ls
  {
    if ls == [] {
      assert [l][1..] == [];
    } else {
      assert (ls + [l])[1..] == ls[1..] + [l];
      LeadsThen(Step(s, ls[0]), ls[1..], t, l, u);
    }
  }

  const FIRST := Invite("license", "user@example.com", "member", "first", 10)
  const SECOND := Invite("license", "user@example.com", "member", "second", 10)
  const INVITED := Seat("license", "user@example.com", "member", None, None, None, Some(HashOf("first")), Some(10))
  const ACCEPTED := INVITED.(user := Some("u"), acceptedAt := Some(1), tokenHash := None, expiresAt := None)
  const REINVITED := INVITED.(tokenHash := Some(HashOf("second")))
  const REACCEPTED := ACCEPTED.(acceptedAt := Some(3))
  const VACANT := ACCEPTED.(user := None, acceptedAt := None)
  const USERS := map["user@example.com" := "u"]

  /** One seat, whose two tokens were issued as far as `issued` says. */
  function At(seat: Seat, users: map<string, string>, issued: set<string>, accepted: seq<string>, workers: map<nat,
    Pc>): State {
    State(Db(map["s" := seat], users), map[], issued, accepted, workers)
  }

  /** The first acceptance, which is to be taken back. */
  function FirstAccept(): seq<Label> {
    [] + [Add("s", FIRST)] + [AcceptToken(0, "first", 1, "u")] + [Check(0, false)]
  }

  const ROLLING := map[0 := RollingBack("s")]

  lemma FirstAcceptLeads()
    ensures Leads(Start(map[]), FirstAccept(), At(ACCEPTED, USERS, {"first"}, ["first"], ROLLING))
  {
    var s := Start(map[]);
    var s1 := At(INVITED, map[], {"first"}, [], map[]);
    var s2 := At(ACCEPTED, USERS, {"first"}, ["first"], map[0 := Checking("s")]);
    LeadsThen(s, [], s, Add("s", FIRST), s1);
    AcceptsFirst();
    LeadsThen(s, [] + [Add("s", FIRST)], s1, AcceptToken(0, "first", 1, "u"), s2);
    LeadsThen(s, [] + [Add("s", FIRST)] + [AcceptToken(0, "first", 1, "u")], s2, Check(0, false),
      At(ACCEPTED, USERS, {"first"}, ["first"], ROLLING));
  }

  lemma AcceptsFirst()
    ensures Step(At(INVITED, map[], {"first"}, [], map[]), AcceptToken(0, "first", 1, "u"))
         == At(ACCEPTED, USERS, {"first"}, ["first"], map[0 := Checking("s")])
  {
    var s := At(INVITED, map[], {"first"}, [], map[]);
    assert Acceptable(s.db, "s", "first", 1);
    assert Accept(s.db, "s", 1, "u") == Db(map["s" := ACCEPTED], USERS);
  }

  const BOTH := {"first", "second"}

  /** The seat is removed and restored under a second token before the rollback comes. */
  lemma RestoredLeads(r: seq<Label>)
    ensures Leads(Start(map[]), r, At(ACCEPTED, USERS, {"first"}, ["first"], ROLLING)) ==>
      Leads(Start(map[]), r + [Remove("s", 2)] + [Add("t", SECOND)],
      At(REINVITED, USERS, BOTH, ["first"], ROLLING))
  {
    if Leads(Start(map[]), r, At(ACCEPTED, USERS, {"first"}, ["first"], ROLLING)) {
      var removed := At(ACCEPTED.(removedAt := Some(2)), USERS, {"first"}, ["first"], ROLLING);
      LeadsThen(Start(map[]), r, At(ACCEPTED, USERS, {"first"}, ["first"], ROLLING), Remove("s", 2), removed);
      Restores();
      LeadsThen(Start(map[]), r + [Remove("s", 2)], removed, Add("t", SECOND),
        At(REINVITED, USERS, BOTH, ["first"], ROLLING));
    }
  }

  lemma Restores()
    ensures var removed := At(ACCEPTED.(removedAt := Some(2)), USERS, {"first"}, ["first"], ROLLING);
      Step(removed, Add("t", SECOND)) == At(REINVITED, USERS, BOTH, ["first"], ROLLING)
  {
    var removed := At(ACCEPTED.(removedAt := Some(2)), USERS, {"first"}, ["first"], ROLLING);
    assert IsRowOf(removed.db, "s", "license", "user@example.com");
    assert {"first"} + {"second"} == BOTH;
    assert Invited(Vacated(removed.db.seats["s"]), SECOND) == REINVITED;
  }

  /** The second acceptance is checked, and its caller is told of success. */
  lemma SecondAcceptLeads(r: seq<Label>)
    ensures Leads(Start(map[]), r, At(REINVITED, USERS, BOTH, ["first"], ROLLING)) ==>
      Leads(Start(map[]), r + [AcceptToken(1, "second", 3, "v")] + [Check(1, true)],
      At(REACCEPTED, USERS, BOTH, ["first", "second"], ROLLING))
  {
    if Leads(Start(map[]), r, At(REINVITED, USERS, BOTH, ["first"], ROLLING)) {
      var checking := At(REACCEPTED, USERS, BOTH, ["first", "second"], ROLLING[1 := Checking("s")]);
      AcceptsSecond();
      LeadsThen(Start(map[]), r, At(REINVITED, USERS, BOTH, ["first"], ROLLING), AcceptToken(1, "second", 3, "v"),
        checking);
      assert checking.workers - {1} == ROLLING;
      LeadsThen(Start(map[]), r + [AcceptToken(1, "second", 3, "v")], checking, Check(1, true),
        At(REACCEPTED, USERS, BOTH, ["first", "second"], ROLLING));
    }
  }

  lemma AcceptsSecond()
    ensures Step(At(REINVITED, USERS, BOTH, ["first"], ROLLING), AcceptToken(1, "second", 3, "v"))
         == At(REACCEPTED, USERS, BOTH, ["first", "second"], ROLLING[1 := Checking("s")])
  {
    var s := At(REINVITED, USERS, BOTH, ["first"], ROLLING);
    assert Acceptable(s.db, "s", "second", 3);
    assert Accept(s.db, "s", 3, "v").seats == map["s" := REACCEPTED];
    assert USERS["user@example.com" := "u"] == USERS;
  }

  function Succeeded(): seq<Label> {
    FirstAccept() + [Remove("s", 2)] + [Add("t", SECOND)] + [AcceptToken(1, "second", 3, "v")] + [Check(1, true)]
  }

  /** A success does not last: a rollback that was due to the seat's previous acceptance unbinds the next one. */
  lemma LateRollbackUndoesASuccess()
    ensures Runs(Start(map[]), Succeeded()) && Runs(Start(map[]), Succeeded() + [Rollback(0, false)])
    ensures Held(Final(Start(map[]), Succeeded()), "s")
    ensures var t := Final(Start(map[]), Succeeded() + [Rollback(0, false)]);
      && "s" in t.db.seats && t.db.seats["s"] == VACANT && t.workers == map[]
  {
    FirstAcceptLeads();
    RestoredLeads(FirstAccept());
    SecondAcceptLeads(FirstAccept() + [Remove("s", 2)] + [Add("t", SECOND)]);
    RollsBack(Succeeded());
  }

  lemma RollsBack(r: seq<Label>)
    ensures Leads(Start(map[]), r, At(REACCEPTED, USERS, BOTH, ["first", "second"], ROLLING)) ==>
      Leads(Start(map[]), r + [Rollback(0, false)], At(VACANT, USERS, BOTH, ["first", "second"], map[]))
  {
    if Leads(Start(map[]), r, At(REACCEPTED, USERS, BOTH, ["first", "second"], ROLLING)) {
      var s := At(REACCEPTED, USERS, BOTH, ["first", "second"], ROLLING);
      assert RollbackSeatAccept(s.db, "s").seats == map["s" := VACANT];
      LeadsThen(Start(map[]), r, s, Rollback(0, false), At(VACANT, USERS, BOTH, ["first", "second"], map[]));
    }
  }
}
