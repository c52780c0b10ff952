/**
 The publish call itself, as one caller runs it: its exact outcome when nothing else runs,
 and the proof that it is the worker of Publishing run alone.
 */
module ReleaseService {
  import opened Wrappers
  import opened ReleaseStore
  import P = Publishing
  import ReleaseLaws

  type Snaps = seq<P.Snap>
  type Storage = map<string, string>

  datatype Outcome =
    | Shipped
    | NotFound
    | NotPublishable
    | NoArtifacts
    | NotReady
    | FileMissing
    | SigningNotConfigured
    | ArtifactModified
    | NotSigned
    | Internal

  datatype Publication = Publication(db: Db, outcome: Outcome)

  predicate Stored(snaps: Snaps, storage: Storage) {
    forall i :: 0 <= i < |snaps| ==> snaps[i].fileKey in storage
  }

  /** The stored bytes of an artifact are those whose digest was recorded when it was finalized. */
  predicate Intact(snap: P.Snap, storage: Storage) {
    snap.fileKey in storage && snap.sha256 == Sha256Of(storage[snap.fileKey])
  }

  datatype Signing = Signing(db: Db, done: bool)

  /** Signs artifact after artifact, up to the first whose bytes changed. */
  function SignAll(db: Db, storage: Storage, snaps: Snaps, key: string): Signing
    decreases snaps
  {
    if snaps == [] then Signing(db, true)
    else if !Intact(snaps[0], storage) then Signing(db, false)
    else
      var written := UpdateArtifactSignature(db, snaps[0].id, Signed(key, storage[snaps[0].fileKey]), key);
      if written.error != Ok then Signing(db, false) else SignAll(written.db, storage, snaps[1..], key)
  }

  /** The part of a call after its checks: signing or clearing, and the gate. */
  ghost function SignAndGate(db: Db, storage: Storage, strict: set<string>, id: string, snaps: Snaps): Publication
    requires id in db.releases
  {
    if P.AnyActive(db, db.releases[id].product) then
      var signing := SignAll(db, storage, snaps, P.ActiveKey(db, db.releases[id].product));
      if !signing.done then Publication(signing.db, ArtifactModified)
      else Publication(PublishRelease(signing.db, id, false, "").db, Shipped)
    else if db.releases[id].product in strict then Publication(db, SigningNotConfigured)
    else Publication(PublishRelease(ClearReleaseSignatures(db, id).db, id, false, "").db, Shipped)
  }

  /** One undisturbed publish call. */
  ghost function PublishCall(db: Db, storage: Storage, strict: set<string>, id: string, snaps: Snaps): Publication {
    if id !in db.releases then Publication(db, NotFound)
    else if db.releases[id].status != Draft then Publication(db, NotPublishable)
    else if !HasArtifact(db, id) then Publication(db, NoArtifacts)
    else if !AllUploaded(db, id) then Publication(db, NotReady)
    else if !Stored(snaps, storage) then Publication(db, FileMissing)
    else SignAndGate(db, storage, strict, id, snaps)
  }

  // ─── What signing does ───

  /** The rows after each listed artifact was signed with the key over its stored bytes. */
  function SignedArtifacts(db: Db, storage: Storage, snaps: Snaps, key: string): map<string, Artifact>
    requires Stored(snaps, storage)
  {
    map a | a in db.artifacts :: SignedRow(db.artifacts[a], a, storage, snaps, key)
  }

  function SignedRow(a: Artifact, id: string, storage: Storage, snaps: Snaps, key: string): Artifact
    requires Stored(snaps, storage)
    decreases snaps
  {
    if snaps == [] then a
    else if snaps[0].id == id then a.(sig := Signed(key, storage[snaps[0].fileKey]), signingKey := Some(key))
    else SignedRow(a, id, storage, snaps[1..], key)
  }

  lemma {:induction false} SignedRowOf(a: Artifact, id: string, storage: Storage, snaps: Snaps, key: string, k: nat)
    requires Stored(snaps, storage)
    requires k <= |snaps| && (k < |snaps| ==> snaps[k].id == id) && forall j :: 0 <= j < k ==> snaps[j].id != id
    ensures SignedRow(a, id, storage, snaps, key) ==
      if k < |snaps| then a.(sig := Signed(key, storage[snaps[k].fileKey]), signingKey := Some(key)) else a
    decreases snaps
  {
    if k > 0 {
      SignedRowOf(a, id, storage, snaps[1..], key, k - 1);
    }
  }

  /** Every row of the snapshots belongs to the draft release. */
  predicate Drafted(db: Db, id: string, snaps: Snaps) {
    && IsDraft(db, id)
    && (forall i, j :: 0 <= i < j < |snaps| ==> snaps[i].id != snaps[j].id)
    && (forall i :: 0 <= i < |snaps| ==> snaps[i].id in db.artifacts && db.artifacts[snaps[i].id].release == id)
  }

  /** Alone, signing gets through exactly if every file still holds the bytes its digest was taken of. */
  lemma {:induction false} SignAllResult(db: Db, storage: Storage, id: string, snaps: Snaps, key: string)
    requires Drafted(db, id, snaps) && Stored(snaps, storage)
    ensures SignAll(db, storage, snaps, key).done <==> forall i :: 0 <= i < |snaps| ==> Intact(snaps[i], storage)
    ensures SignAll(db, storage, snaps, key).done ==>
      SignAll(db, storage, snaps, key).db == db.(artifacts := SignedArtifacts(db, storage, snaps, key))
    decreases snaps
  {
    if snaps == [] {
      assert SignedArtifacts(db, storage, snaps, key) == db.artifacts;
    } else if Intact(snaps[0], storage) {
      var written := UpdateArtifactSignature(db, snaps[0].id, Signed(key, storage[snaps[0].fileKey]), key).db;
      SignAllResult(written, storage, id, snaps[1..], key);
      SignedArtifactsStep(db, written, storage, snaps, key);
      assert (forall i :: 0 <= i < |snaps[1..]| ==> Intact(snaps[1..][i], storage))
        ==> forall i :: 1 <= i < |snaps| ==> Intact(snaps[i], storage) by {
        assert forall i :: 1 <= i < |snaps| ==> snaps[i] == snaps[1..][i - 1];
      }
    }
  }

  lemma SignedArtifactsStep(db: Db, written: Db, storage: Storage, snaps: Snaps, key: string)
    requires Stored(snaps, storage) && snaps != [] && snaps[0].id in db.artifacts
    requires forall i, j :: 0 <= i < j < |snaps| ==> snaps[i].id != snaps[j].id
    requires written == db.(artifacts := db.artifacts[snaps[0].id :=
      db.artifacts[snaps[0].id].(sig := Signed(key, storage[snaps[0].fileKey]), signingKey := Some(key))])
    ensures SignedArtifacts(written, storage, snaps[1..], key) == SignedArtifacts(db, storage, snaps, key)
  {
    var first := snaps[0].id;
    SignedRowOf(written.artifacts[first], first, storage, snaps[1..], key, |snaps| - 1);
  }

  /** A failed signing touches nothing but signature columns of the draft. */
  predicate SameButSignatures(before: Db, after: Db, id: string) {
    && after.releases == before.releases && after.keys == before.keys && after.artifacts.Keys == before.artifacts.Keys
    && forall a :: a in before.artifacts ==>
         && (before.artifacts[a].release != id ==> after.artifacts[a] == before.artifacts[a])
         && after.artifacts[a].Unsign() == before.artifacts[a].Unsign()
  }

  lemma {:induction false} SignAllTouches(db: Db, storage: Storage, id: string, snaps: Snaps, key: string)
    requires Drafted(db, id, snaps)
    ensures SameButSignatures(db, SignAll(db, storage, snaps, key).db, id)
    decreases snaps
  {
    if snaps != [] && Intact(snaps[0], storage) {
      var written := UpdateArtifactSignature(db, snaps[0].id, Signed(key, storage[snaps[0].fileKey]), key).db;
      SignAllTouches(written, storage, id, snaps[1..], key);
    }
  }

  /** Where the rows agree but for signatures, so do the gate's other conditions. */
  lemma GateBlind(before: Db, after: Db, id: string)
    requires SameButSignatures(before, after, id)
    ensures IsDraft(before, id) <==> IsDraft(after, id)
    ensures HasArtifact(before, id) <==> HasArtifact(after, id)
    ensures AllUploaded(before, id) <==> AllUploaded(after, id)
  {
    forall a | a in before.artifacts
      ensures after.artifacts[a].release == before.artifacts[a].release
      ensures after.artifacts[a].IsUploaded() <==> before.artifacts[a].IsUploaded()
    {
      assert after.artifacts[a].Unsign() == before.artifacts[a].Unsign();
    }
  }

  /** After an undisturbed signing the gate's signature test cannot fail. */
  lemma GateOpens(db: Db, storage: Storage, id: string, snaps: Snaps, key: string)
    requires id in db.releases && P.Snapshots(db, id, snaps) && Drafted(db, id, snaps) && Stored(snaps, storage)
    requires HasArtifact(db, id) && AllUploaded(db, id) && SignAll(db, storage, snaps, key).done
    ensures Publishable(SignAll(db, storage, snaps, key).db, id, true, key)
  {
    var signed := SignAll(db, storage, snaps, key).db;
    SignAllResult(db, storage, id, snaps, key);
    SignAllTouches(db, storage, id, snaps, key);
    GateBlind(db, signed, id);
    forall a | a in signed.artifacts && signed.artifacts[a].release == id
      ensures signed.artifacts[a].IsSignedBy(key)
    {
      RowIsSigned(db, storage, id, snaps, key, a);
    }
  }

  lemma RowIsSigned(db: Db, storage: Storage, id: string, snaps: Snaps, key: string, a: string)
    requires P.Snapshots(db, id, snaps) && Stored(snaps, storage)
    requires a in db.artifacts && SignedArtifacts(db, storage, snaps, key)[a].release == id
    ensures db.artifacts[a].release == id && db.artifacts[a].fileKey in storage
    ensures SignedArtifacts(db, storage, snaps, key)[a]
         == db.artifacts[a].(sig := Signed(key, storage[db.artifacts[a].fileKey]), signingKey := Some(key))
  {
    if db.artifacts[a].release == id {
      var i :| 0 <= i < |snaps| && snaps[i].id == a;
      SignedRowOf(db.artifacts[a], a, storage, snaps, key, i);
    } else {
      SignedRowOf(db.artifacts[a], a, storage, snaps, key, |snaps|);
    }
  }

  // ─── The laws of the call ───

  /** The call's conditions, in terms of the tables alone. */
  ghost predicate Shippable(db: Db, storage: Storage, strict: set<string>, id: string) {
    && IsDraft(db, id) && HasArtifact(db, id) && AllUploaded(db, id)
    && (forall a :: a in db.artifacts && db.artifacts[a].release == id ==> db.artifacts[a].fileKey in storage)
    && if P.AnyActive(db, db.releases[id].product)
       then forall a :: a in db.artifacts && db.artifacts[a].release == id ==>
              db.artifacts[a].sha256 == Sha256Of(storage[db.artifacts[a].fileKey])
       else db.releases[id].product !in strict
  }

  /** Every artifact of the release has a key and a digest. */
  predicate Finalized(db: Db, id: string) {
    forall a :: a in db.artifacts && db.artifacts[a].release == id ==>
      db.artifacts[a].fileKey != "" && db.artifacts[a].sha256 != NoDigest
  }

  predicate FilesThere(db: Db, storage: Storage, id: string) {
    forall a :: a in db.artifacts && db.artifacts[a].release == id ==> db.artifacts[a].fileKey in storage
  }

  predicate FilesIntact(db: Db, storage: Storage, id: string) {
    forall a :: a in db.artifacts && db.artifacts[a].release == id ==>
      db.artifacts[a].fileKey in storage && db.artifacts[a].sha256 == Sha256Of(storage[db.artifacts[a].fileKey])
  }

  predicate KeyActive(db: Db, product: string) {
    exists k :: k in db.keys && db.keys[k].product == product && db.keys[k].active
  }

  predicate HasSome(db: Db, id: string) {
    exists a :: a in db.artifacts && db.artifacts[a].release == id
  }

  /** Each refusal of a call's checks is given exactly when its own condition is the first to fail. */
  lemma ChecksAreExact(db: Db, storage: Storage, strict: set<string>, id: string, snaps: Snaps)
    requires id in db.releases ==> P.Snapshots(db, id, snaps)
    ensures var outcome := PublishCall(db, storage, strict, id, snaps).outcome;
      var draft := id in db.releases && db.releases[id].status == Draft;
      && (outcome == NotFound <==> id !in db.releases)
      && (outcome == NotPublishable <==> id in db.releases && !draft)
      && (outcome == NoArtifacts <==> draft && !HasSome(db, id))
      && (outcome == NotReady <==> draft && HasSome(db, id) && !Finalized(db, id))
      && (outcome == FileMissing <==> draft && HasSome(db, id) && Finalized(db, id) && !FilesThere(db, storage, id))
  {
    ReleaseLaws.UploadTests(db, id);
  }

  /** The rest of the call, likewise, once the checks have passed. */
  lemma SigningIsExact(db: Db, storage: Storage, strict: set<string>, id: string, snaps: Snaps)
    requires id in db.releases && P.Snapshots(db, id, snaps) && db.releases[id].status == Draft
    requires HasSome(db, id) && Finalized(db, id) && FilesThere(db, storage, id)
    ensures var outcome := PublishCall(db, storage, strict, id, snaps).outcome; var product := db.releases[id].product;
      && (outcome == SigningNotConfigured <==> !KeyActive(db, product) && product in strict)
      && (outcome == ArtifactModified <==> KeyActive(db, product) && !FilesIntact(db, storage, id))
      && (outcome == Shipped <==> if KeyActive(db, product) then FilesIntact(db, storage, id) else product !in strict)
  {
    ReleaseLaws.UploadTests(db, id);
    if P.AnyActive(db, db.releases[id].product) {
      SignAllResult(db, storage, id, snaps, P.ActiveKey(db, db.releases[id].product));
    }
  }

  /** After a rotation the key that signs is the new one, whatever was active before. */
  lemma RotatedKeySigns(db: Db, id: string, product: string)
    requires id !in db.keys
    ensures var after := RotateSigningKey(db, id, product).db;
      P.AnyActive(after, product) && P.ActiveKey(after, product) == id
  {
    ReleaseLaws.RotationActivates(db, id, product);
    assert ActiveKeyOf(RotateSigningKey(db, id, product).db, product, id);
  }

  /**
   What a shipped release holds: every artifact signed by the active key over its own stored bytes, or none
   signed at all.
   */
  ghost predicate ShippedRow(db: Db, storage: Storage, id: string, before: Artifact, after: Artifact)
    requires id in db.releases
  {
    if P.AnyActive(db, db.releases[id].product) then
      var key := P.ActiveKey(db, db.releases[id].product);
      && before.fileKey in storage
      && after == before.(sig := Signed(key, storage[before.fileKey]), signingKey := Some(key))
    else
      after == before.Unsign()
  }

  /** An undisturbed call ships the release exactly when these conditions held before it. */
  lemma ShipsIff(db: Db, storage: Storage, strict: set<string>, id: string, snaps: Snaps)
    requires id in db.releases ==> P.Snapshots(db, id, snaps)
    ensures PublishCall(db, storage, strict, id, snaps).outcome == Shipped <==> Shippable(db, storage, strict, id)
  {
    if IsDraft(db, id) {
      if Stored(snaps, storage) && P.AnyActive(db, db.releases[id].product) {
        SignAllResult(db, storage, id, snaps, P.ActiveKey(db, db.releases[id].product));
      }
    }
  }

  /** A call that does not ship changes at most signature columns of a draft. */
  lemma RefusalKeepsTheTables(db: Db, storage: Storage, strict: set<string>, id: string, snaps: Snaps)
    requires id in db.releases ==> P.Snapshots(db, id, snaps)
    requires PublishCall(db, storage, strict, id, snaps).outcome != Shipped
    ensures SameButSignatures(db, PublishCall(db, storage, strict, id, snaps).db, id)
    ensures !IsDraft(db, id) ==> PublishCall(db, storage, strict, id, snaps).db == db
  {
    assert SameButSignatures(db, db, id);
    if IsDraft(db, id) && P.AnyActive(db, db.releases[id].product) {
      SignAllTouches(db, storage, id, snaps, P.ActiveKey(db, db.releases[id].product));
    }
  }

  /** A call that ships changes the release's status, makes its signatures all or none, and changes no other row. */
  lemma ShipsAllOrNone(db: Db, storage: Storage, strict: set<string>, id: string, snaps: Snaps)
    requires id in db.releases ==> P.Snapshots(db, id, snaps)
    requires PublishCall(db, storage, strict, id, snaps).outcome == Shipped
    ensures var after := PublishCall(db, storage, strict, id, snaps).db;
      && id in db.releases
      && after.releases == db.releases[id := db.releases[id].(status := Published)]
      && after.keys == db.keys && after.artifacts.Keys == db.artifacts.Keys
      && forall a :: a in db.artifacts ==>
           if db.artifacts[a].release == id then ShippedRow(db, storage, id, db.artifacts[a], after.artifacts[a])
           else after.artifacts[a] == db.artifacts[a]
  {
    if P.AnyActive(db, db.releases[id].product) {
      var key := P.ActiveKey(db, db.releases[id].product);
      SignAllResult(db, storage, id, snaps, key);
      SignAllTouches(db, storage, id, snaps, key);
      GateOpens(db, storage, id, snaps, key);
      forall a | a in db.artifacts && db.artifacts[a].release == id
        ensures ShippedRow(db, storage, id, db.artifacts[a], SignedArtifacts(db, storage, snaps, key)[a])
      {
        assert SignAll(db, storage, snaps, key).db.artifacts[a].Unsign().release == id;
        RowIsSigned(db, storage, id, snaps, key, a);
      }
    } else {
      GateBlind(db, ClearReleaseSignatures(db, id).db, id);
    }
  }

  // ─── The worker alone ───

  ghost function Alone(s: P.State, w: nat, snaps: Snaps, n: nat): P.State
    decreases n
  {
    if n == 0 || w !in s.workers then s else Alone(P.ExecWorker(s, w, snaps), w, snaps, n - 1)
  }

  lemma {:induction false} AloneSigns(s: P.State, w: nat, id: string, todo: Snaps, key: string, snaps: Snaps)
    requires w in s.workers && s.workers[w] == P.SignBytes(id, todo, key)
    requires Drafted(s.db, id, todo)
    ensures Alone(s, w, snaps, 2 * |todo| + 2).db ==
      var signing := SignAll(s.db, s.storage, todo, key);
      if signing.done then PublishRelease(signing.db, id, true, key).db else signing.db
    decreases todo
  {
    var s1 := P.ExecWorker(s, w, snaps);
    if todo == [] {
      assert Alone(s, w, snaps, 2) == Alone(s1, w, snaps, 1) == Alone(P.ExecWorker(s1, w, snaps), w, snaps, 0);
    } else {
      assert Alone(s, w, snaps, 2 * |todo| + 2) == Alone(s1, w, snaps, 2 * |todo| + 1);
      if Intact(todo[0], s.storage) {
        var s2 := P.ExecWorker(s1, w, snaps);
        assert Alone(s1, w, snaps, 2 * |todo| + 1) == Alone(s2, w, snaps, 2 * |todo[1..]| + 2);
        AloneSigns(s2, w, id, todo[1..], key, snaps);
      } else {
        assert w !in s1.workers && s1.db == s.db;
      }
    }
  }

  /** The probes lead on to the key exactly if every file is in storage. */
  lemma {:induction false} AloneProbes(
    s: P.State, w: nat, id: string, product: string, snaps: Snaps, todo: Snaps, m: nat)
    requires w in s.workers && s.workers[w] == P.ProbeFiles(id, product, snaps, todo)
    ensures Stored(todo, s.storage) ==>
      Alone(s, w, snaps, m + |todo| + 1) == Alone(P.Goto(s, w, P.ReadKey(id, product, snaps)), w, snaps, m)
    ensures !Stored(todo, s.storage) ==> Alone(s, w, snaps, m + |todo| + 1).db == s.db
    decreases todo
  {
    var s1 := P.ExecWorker(s, w, snaps);
    assert Alone(s, w, snaps, m + |todo| + 1) == Alone(s1, w, snaps, m + |todo|);
    if todo != [] && todo[0].fileKey in s.storage {
      AloneProbes(s1, w, id, product, snaps, todo[1..], m);
      assert P.Goto(s1, w, P.ReadKey(id, product, snaps)) == P.Goto(s, w, P.ReadKey(id, product, snaps));
    }
  }

  predicate PassesChecks(db: Db, id: string) {
    IsDraft(db, id) && HasArtifact(db, id) && AllUploaded(db, id)
  }

  lemma AloneFromKey(s: P.State, w: nat, id: string, snaps: Snaps, n: nat)
    requires w in s.workers && id in s.db.releases && P.Snapshots(s.db, id, snaps) && Stored(snaps, s.storage)
    requires s.workers[w] == P.ReadKey(id, s.db.releases[id].product, snaps) && n == 2 * |snaps| + 3
    requires PassesChecks(s.db, id)
    ensures Alone(s, w, snaps, n).db == SignAndGate(s.db, s.storage, s.strict, id, snaps).db
  {
    var s2 := P.ExecWorker(s, w, snaps);
    assert Alone(s, w, snaps, n) == Alone(s2, w, snaps, n - 1);
    if P.AnyActive(s.db, s.db.releases[id].product) {
      var key := P.ActiveKey(s.db, s.db.releases[id].product);
      AloneSigns(s2, w, id, snaps, key, snaps);
      if SignAll(s.db, s.storage, snaps, key).done {
        GateOpens(s.db, s.storage, id, snaps, key);
      }
    } else if s.db.releases[id].product !in s.strict {
      AloneUnsigned(s2, w, id, snaps, n - 1);
    }
  }

  lemma AloneUnsigned(s: P.State, w: nat, id: string, snaps: Snaps, n: nat)
    requires w in s.workers && s.workers[w] == P.ClearSignatures(id) && IsDraft(s.db, id) && n >= 2
    ensures Alone(s, w, snaps, n).db == PublishRelease(ClearReleaseSignatures(s.db, id).db, id, false, "").db
  {
    var s1 := P.ExecWorker(s, w, snaps);
    var s2 := P.ExecWorker(s1, w, snaps);
    assert Alone(s, w, snaps, n) == Alone(s1, w, snaps, n - 1) == Alone(s2, w, snaps, n - 2);
  }

  /** From the first probe on, the worker signs and asks the gate exactly if every file is there. */
  lemma AloneFromProbes(s: P.State, t: P.State, w: nat, id: string, snaps: Snaps, m: nat)
    requires w in s.workers && id in s.db.releases && P.Snapshots(s.db, id, snaps)
    requires s.workers[w] == P.ProbeFiles(id, s.db.releases[id].product, snaps, snaps) && m == 2 * |snaps| + 3
    requires PassesChecks(s.db, id)
    requires t == P.Goto(s, w, P.ReadKey(id, s.db.releases[id].product, snaps))
    ensures Alone(s, w, snaps, m + |snaps| + 1).db ==
      if Stored(snaps, s.storage) then SignAndGate(t.db, t.storage, t.strict, id, snaps).db else s.db
  {
    AloneProbes(s, w, id, s.db.releases[id].product, snaps, snaps, m);
    if Stored(snaps, s.storage) {
      AloneFromKey(t, w, id, snaps, m);
    }
  }

  lemma PassingAlone(s: P.State, w: nat, id: string, snaps: Snaps, m: nat)
    requires w in s.workers && s.workers[w] == P.ReadRelease(id) && id in s.db.releases && P.Snapshots(s.db, id, snaps)
    requires PassesChecks(s.db, id) && m == 2 * |snaps| + 3
    ensures Alone(s, w, snaps, m + |snaps| + 2).db ==
      if Stored(snaps, s.storage) then SignAndGate(s.db, s.storage, s.strict, id, snaps).db else s.db
  {
    var s1 := P.Goto(s, w, P.ProbeFiles(id, s.db.releases[id].product, snaps, snaps));
    AloneFromProbes(s1, P.Goto(s1, w, P.ReadKey(id, s.db.releases[id].product, snaps)), w, id, snaps, m);
  }

  /** A worker that nobody disturbs leaves exactly the tables the call leaves. */
  lemma PublishIsWorkerAlone(s: P.State, w: nat, id: string, snaps: Snaps)
    requires w !in s.workers && id in s.db.releases && P.Snapshots(s.db, id, snaps)
    ensures Alone(P.Goto(s, w, P.ReadRelease(id)), w, snaps, 3 * |snaps| + 5).db
         == PublishCall(s.db, s.storage, s.strict, id, snaps).db
  {
    var m := 2 * |snaps| + 3;
    var s0 := P.Goto(s, w, P.ReadRelease(id));
    if PassesChecks(s.db, id) {
      PassingAlone(s0, w, id, snaps, m);
    }
  }

  // ─── Runs leave nothing out ───

  /** Any operation with a fresh id, where it needs one, can come at any time, and does what the store does. */
  lemma AnyOperationCanCome(s: P.State, op: P.Op)
    requires op.CreateRelease? || op.CreateArtifact? || op.CreateKey? || op.RotateKey? ==> op.id != "" && op.id !in s.ids
    ensures P.Enabled(s, P.Admin(op)) && P.Step(s, P.Admin(op)).db == P.Apply(s.db, op)
  {
  }

  /**
   Any bytes can be stored under any key; a call can begin on any release, go on with any current listing of its
   artifacts, and end at any point.
   */
  lemma AnythingCanHappen(s: P.State, w: nat, release: string, fileKey: string, blob: string, snaps: Snaps)
    ensures P.Enabled(s, P.Upload(fileKey, blob))
    ensures P.Step(s, P.Upload(fileKey, blob)) == s.(storage := s.storage[fileKey := blob])
    ensures w !in s.workers ==> P.Enabled(s, P.BeginPublish(w, release))
    ensures w !in s.workers && release in s.db.releases ==>
      P.Step(s, P.BeginPublish(w, release)) == s.(workers := s.workers[w := P.ReadRelease(release)])
    ensures w in s.workers && (s.workers[w].ReadRelease? ==> P.Snapshots(s.db, s.workers[w].release, snaps)) ==>
      P.Enabled(s, P.Exec(w, snaps))
    ensures w in s.workers ==> P.Enabled(s, P.Abort(w)) && P.Step(s, P.Abort(w)) == s.(workers := s.workers - {w})
  {
  }

  // ─── The call ───

  /** Every administrative step of the concurrent model is the store's own method for it. */
  method Administer(store: Store, op: P.Op) returns (error: Error)
    modifies store
    ensures store.Contents() == P.Apply(old(store.Contents()), op)
  {
    match op {
      case CreateRelease(id, product, version, channel) => error := store.Create(id, product, version, channel);
      case CreateArtifact(id, release, platform, fileKey) => error := store.AddArtifact(id, release, platform, fileKey);
      case Finalize(id, fileKey, blob) => error := store.UpdateFile(id, fileKey, Sha256Of(blob));
      case DeleteArtifact(id) =>
        var fileKey;
        fileKey, error := store.RemoveArtifact(id);
      case DeleteRelease(id) =>
        var fileKeys;
        fileKeys, error := store.Delete(id);
      case Yank(id) => error := store.Yank(id);
      case Unyank(id) => error := store.Unyank(id);
      case CreateKey(id, product) => error := store.CreateKey(id, product);
      case RotateKey(id, product) => error := store.RotateKey(id, product);
      case DeactivateKey(id) => error := store.DeactivateKey(id);
    }
  }

  class Publisher {
    const store: Store
    var storage: Storage
    var strict: set<string>

    constructor (store: Store, strict: set<string>)
      ensures this.store == store && storage == map[] && this.strict == strict
    {
      this.store, this.strict := store, strict;
      storage := map[];
    }

    method FindActiveKey(product: string) returns (key: Option<string>)
      ensures key.None? <==> !P.AnyActive(store.Contents(), product)
      ensures key.Some? ==> ActiveKeyOf(store.Contents(), product, key.value)
      ensures key.Some? ==> key.value in store.keys && store.keys[key.value] == SigningKey(product, true)
    {
      if exists k :: k in store.keys && store.keys[k].product == product && store.keys[k].active {
        var k :| k in store.keys && store.keys[k].product == product && store.keys[k].active;
        assert ActiveKeyOf(store.Contents(), product, k);
        return Some(k);
      }
      assert !P.AnyActive(store.Contents(), product);
      return None;
    }

    /** `snaps` is the release's artifacts as the first read lists them. */
    method Publish(id: string, snaps: Snaps) returns (outcome: Outcome)
      requires P.OneActiveKey(store.Contents())
      requires id in store.releases ==> P.Snapshots(store.Contents(), id, snaps)
      modifies store
      ensures Publication(store.Contents(), outcome) == PublishCall(old(store.Contents()), storage, strict, id, snaps)
    {
      ghost var db := store.Contents();
      if id !in store.releases {
        return NotFound;
      }
      var rel := store.releases[id];
      if rel.status != Draft {
        return NotPublishable;
      }
      if |snaps| == 0 {
        assert !HasArtifact(db, id);
        return NoArtifacts;
      }
      assert HasArtifact(db, id) by { assert db.artifacts[snaps[0].id].release == id; }
      var unfinished := exists i :: 0 <= i < |snaps| && (snaps[i].fileKey == "" || snaps[i].sha256 == NoDigest);
      if unfinished {
        return NotReady;
      }
      for i := 0 to |snaps|
        invariant forall j :: 0 <= j < i ==> snaps[j].fileKey in storage
      {
        if snaps[i].fileKey !in storage {
          return FileMissing;
        }
      }
      var key := FindActiveKey(rel.product);
      if key.None? {
        if rel.product in strict {
          return SigningNotConfigured;
        }
        var cleared := store.ClearSignatures(id);
        GateBlind(db, store.Contents(), id);
        var gate := store.Publish(id, false, "");
        return Shipped;
      }
      assert key.value == P.ActiveKey(db, rel.product);
      outcome := SignAndShip(id, snaps, key.value);
    }

    method SignAndShip(id: string, snaps: Snaps, key: string) returns (outcome: Outcome)
      requires id in store.releases && P.Snapshots(store.Contents(), id, snaps) && IsDraft(store.Contents(), id)
      requires HasArtifact(store.Contents(), id) && AllUploaded(store.Contents(), id) && Stored(snaps, storage)
      modifies store
      ensures var signing := SignAll(old(store.Contents()), storage, snaps, key);
        Publication(store.Contents(), outcome) ==
          if signing.done then Publication(PublishRelease(signing.db, id, false, "").db, Shipped)
          else Publication(signing.db, ArtifactModified)
    {
      ghost var db := store.Contents();
      for i := 0 to |snaps|
        invariant SignAll(db, storage, snaps, key) == SignAll(store.Contents(), storage, snaps[i..], key)
        invariant SameButSignatures(db, store.Contents(), id)
      {
        assert snaps[i..][0] == snaps[i] && snaps[i..][1..] == snaps[i + 1..];
        var blob := storage[snaps[i].fileKey];
        if snaps[i].sha256 != Sha256Of(blob) {
          return ArtifactModified;
        }
        assert db.artifacts[snaps[i].id].Unsign().release == id;
        var error := store.UpdateSignature(snaps[i].id, Signed(key, blob), key);
        if error != Ok {
          return if error == ReleaseNotPublishable then NotPublishable else Internal;
        }
      }
      assert snaps[|snaps|..] == [];
      GateOpens(db, storage, id, snaps, key);
      var gate := store.Publish(id, true, key);
      match gate {
        case Ok => return Shipped;
        case ReleaseArtifactsNotSigned => return NotSigned;
        case ReleaseNotFound => return NotFound;
        case _ => return NotPublishable;
      }
    }
  }
}
