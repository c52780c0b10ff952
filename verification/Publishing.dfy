/**
 Publishing as concurrent runs. Any number of Publish calls, each a worker that reads the
 release, probes its files, resolves the signing key, signs artifact after artifact and finally asks the
 gate, interleave with every other operation on releases, artifacts and signing keys.
 */
module Publishing {
  import opened Wrappers
  import opened ReleaseStore

  /** What Publish remembers of an artifact from its first read. */
  datatype Snap = Snap(id: string, fileKey: string, sha256: Digest)

  datatype Pc =
    | ReadRelease(release: string)
    | ProbeFiles(release: string, product: string, snaps: seq<Snap>, todo: seq<Snap>)
    | ReadKey(release: string, product: string, snaps: seq<Snap>)
    | ClearSignatures(release: string)
    | SignBytes(release: string, snaps: seq<Snap>, key: string)
    | WriteSignature(release: string, snaps: seq<Snap>, key: string, blob: string)
    | Gate(release: string, signedWith: Option<string>)

  datatype Op =
    | CreateRelease(id: string, product: string, version: string, channel: string)
    | CreateArtifact(id: string, release: string, platform: string, fileKey: string)
    | Finalize(id: string, fileKey: string, blob: string)
    | DeleteArtifact(id: string)
    | DeleteRelease(id: string)
    | Yank(id: string)
    | Unyank(id: string)
    | CreateKey(id: string, product: string)
    | RotateKey(id: string, product: string)
    | DeactivateKey(id: string)

  datatype Label =
    | Admin(op: Op)
    | Upload(fileKey: string, blob: string)
    | BeginPublish(w: nat, release: string)
    | Exec(w: nat, snaps: seq<Snap>)
    | Abort(w: nat)

  /**
   `strict` holds the products whose require_signing is on, `ids` every row id handed out so far,
   `storage` the uploaded bytes by file key.
   */
  datatype State = State(
    db: Db,
    storage: map<string, string>,
    strict: set<string>,
    ids: set<string>,
    workers: map<nat, Pc>)

  function Start(strict: set<string>): State {
    State(Db(map[], map[], map[]), map[], strict, {}, map[])
  }

  /** Row ids are fresh and not empty. */
  predicate Fresh(s: State, op: Op) {
    (op.CreateRelease? || op.CreateArtifact? || op.CreateKey? || op.RotateKey?) ==> op.id != "" && op.id !in s.ids
  }

  function Apply(db: Db, op: Op): Db {
    match op
    case CreateRelease(id, product, version, channel) => 
      ReleaseStore.CreateRelease(db, id, product, version, channel).db
    case CreateArtifact(id, release, platform, fileKey) => 
      ReleaseStore.CreateArtifact(db, id, release, platform, fileKey).db
    case Finalize(id, fileKey, blob) => UpdateArtifactFile(db, id, fileKey, Sha256Of(blob)).db
    case DeleteArtifact(id) => ReleaseStore.DeleteArtifact(db, id).db
    case DeleteRelease(id) => ReleaseStore.DeleteRelease(db, id).db
    case Yank(id) => YankRelease(db, id).db
    case Unyank(id) => UnyankRelease(db, id).db
    case CreateKey(id, product) => CreateSigningKey(db, id, product).db
    case RotateKey(id, product) => RotateSigningKey(db, id, product).db
    case DeactivateKey(id) => DeactivateSigningKey(db, id).db
  }

  /** The snapshot lists each artifact of the release once, with its current file and digest. */
  predicate Snapshots(db: Db, release: string, snaps: seq<Snap>) {
    && (forall i, j :: 0 <= i < j < |snaps| ==> snaps[i].id != snaps[j].id)
    && (forall i :: 0 <= i < |snaps| ==>
          && snaps[i].id in db.artifacts
          && db.artifacts[snaps[i].id].release == release
          && db.artifacts[snaps[i].id].fileKey == snaps[i].fileKey
          && db.artifacts[snaps[i].id].sha256 == snaps[i].sha256)
    && (forall a :: a in db.artifacts && db.artifacts[a].release == release ==>
          exists i :: 0 <= i < |snaps| && snaps[i].id == a)
  }

  predicate Enabled(s: State, l: Label) {
    match l
    case Admin(op) => Fresh(s, op)
    case Upload(_, _) => true
    case BeginPublish(w, _) => w !in s.workers
    case Exec(w, snaps) =>
      w in s.workers &&
      (s.workers[w].ReadRelease? && s.workers[w].release in s.db.releases ==>
         Snapshots(s.db, s.workers[w].release, snaps))
    case Abort(w) => w in s.workers
  }

  function Leave(s: State, w: nat): State {
    s.(workers := s.workers - {w})
  }

  function Goto(s: State, w: nat, pc: Pc): State {
    s.(workers := s.workers[w := pc])
  }

  predicate AnyActive(db: Db, product: string) {
    exists k :: k in db.keys && ActiveKeyOf(db, product, k)
  }

  /** The product's active key; there is at most one. */
  ghost function ActiveKey(db: Db, product: string): string
    requires AnyActive(db, product)
  {
    var k :| k in db.keys && ActiveKeyOf(db, product, k); k
  }

  /** The next step of worker w; a step that cannot go on ends the call with an error. */
  ghost function ExecWorker(s: State, w: nat, snaps: seq<Snap>): State
    requires w in s.workers
  {
    match s.workers[w]
    case ReadRelease(r) =>
      if !IsDraft(s.db, r) || !HasArtifact(s.db, r) || !AllUploaded(s.db, r) then Leave(s, w)
      else Goto(s, w, ProbeFiles(r, s.db.releases[r].product, snaps, snaps))
    case ProbeFiles(r, product, snaps, todo) =>
      if todo == [] then Goto(s, w, ReadKey(r, product, snaps))
      else if todo[0].fileKey !in s.storage then Leave(s, w)
      else Goto(s, w, ProbeFiles(r, product, snaps, todo[1..]))
    case ReadKey(r, product, snaps) =>
      if AnyActive(s.db, product) then Goto(s, w, SignBytes(r, snaps, ActiveKey(s.db, product)))
      else if product in s.strict then Leave(s, w)
      else Goto(s, w, ClearSignatures(r))
    case ClearSignatures(r) =>
      var result := ClearReleaseSignatures(s.db, r);
      if result.error != Ok then Leave(s, w) else Goto(s.(db := result.db), w, Gate(r, None))
    case SignBytes(r, snaps, key) =>
      if snaps == [] then Goto(s, w, Gate(r, Some(key)))
      else if snaps[0].fileKey !in s.storage then Leave(s, w)
      else
        var blob := s.storage[snaps[0].fileKey];
        if snaps[0].sha256 != Sha256Of(blob) then Leave(s, w) else Goto(s, w, WriteSignature(r, snaps, key, blob))
    case WriteSignature(r, snaps, key, blob) =>
      if snaps == [] then Leave(s, w)
      else
        var result := UpdateArtifactSignature(s.db, snaps[0].id, Signed(key, blob), key);
        if result.error != Ok then Leave(s, w) else Goto(s.(db := result.db), w, SignBytes(r, snaps[1..], key))
    case Gate(r, key) =>
      Leave(s.(db := PublishRelease(s.db, r, key.Some?, if key.Some? then key.value else "").db), w)
  }

  ghost function Step(s: State, l: Label): State
    requires Enabled(s, l)
  {
    match l
    case Admin(op) =>
      s.(db := Apply(s.db, op),
         ids := if op.CreateRelease? || op.CreateArtifact? || op.CreateKey? || op.RotateKey?
                then s.ids + {op.id} else s.ids)
    case Upload(fileKey, blob) => s.(storage := s.storage[fileKey := blob])
    case BeginPublish(w, release) => if release in s.db.releases then Goto(s, w, ReadRelease(release)) else s
    case Exec(w, snaps) => ExecWorker(s, w, snaps)
    case Abort(w) => Leave(s, w)
  }

  ghost predicate Runs(s: State, ls: seq<Label>)
    decreases ls
  {
    ls == [] || (Enabled(s, ls[0]) && Runs(Step(s, ls[0]), ls[1..]))
  }

  ghost function Final(s: State, ls: seq<Label>): State
    requires Runs(s, ls)
    decreases ls
  {
    if ls == [] then s else Final(Step(s, ls[0]), ls[1..])
  }

  // ─── Shipped releases are complete and frozen ───

  predicate Shipped(db: Db, release: string) {
    release in db.releases && db.releases[release].status != Draft
  }

  function ArtifactsOf(db: Db, release: string): map<string, Artifact> {
    map a | a in db.artifacts && db.artifacts[a].release == release :: db.artifacts[a]
  }

  /** What any step may do to a shipped release: nothing but yank and unyank it. */
  ghost predicate Keeps(before: Db, after: Db, release: string)
    requires release in before.releases
  {
    && Shipped(after, release)
    && ArtifactsOf(after, release) == ArtifactsOf(before, release)
    && after.releases[release] == before.releases[release].(status := after.releases[release].status)
  }

  /** Shipped releases are kept, and no release ships unless it is complete. */
  ghost predicate Safe(before: Db, after: Db) {
    && (forall r :: Shipped(before, r) ==> Keeps(before, after, r))
    && (forall r :: Shipped(after, r) && !Shipped(before, r) ==> Complete(after, r))
  }

  ghost predicate Complete(db: Db, release: string) {
    HasArtifact(db, release) && AllUploaded(db, release)
  }

  lemma CompleteByArtifacts(before: Db, after: Db, release: string)
    requires ArtifactsOf(before, release) == ArtifactsOf(after, release) && Complete(before, release)
    ensures Complete(after, release)
  {
    var a :| a in before.artifacts && before.artifacts[a].release == release;
    assert a in ArtifactsOf(before, release);
    assert forall b :: b in after.artifacts && after.artifacts[b].release == release ==>
      b in ArtifactsOf(after, release);
  }

  /** Rows carry handed-out ids, artifacts have a release, and shipped releases are complete. */
  ghost predicate Sound(s: State) {
    && Rows(s.db, s.ids)
    && (forall r :: Shipped(s.db, r) ==> Complete(s.db, r))
  }

  predicate OnArtifacts(op: Op) { op.CreateArtifact? || op.Finalize? || op.DeleteArtifact? }

  lemma ArtifactOpKeeps(s: State, op: Op, release: string)
    requires Sound(s) && Fresh(s, op) && Shipped(s.db, release) && OnArtifacts(op)
    ensures Keeps(s.db, Apply(s.db, op), release)
  {
    assert Apply(s.db, op).releases == s.db.releases;
    assert ArtifactsOf(Apply(s.db, op), release) == ArtifactsOf(s.db, release);
  }

  lemma AdminKeeps(s: State, op: Op, release: string)
    requires Sound(s) && Fresh(s, op) && Shipped(s.db, release)
    ensures Keeps(s.db, Apply(s.db, op), release)
  {
    if OnArtifacts(op) {
      ArtifactOpKeeps(s, op, release);
    } else {
      assert ArtifactsOf(Apply(s.db, op), release) == ArtifactsOf(s.db, release);
    }
  }

  lemma AdminSafe(s: State, op: Op)
    requires Sound(s) && Fresh(s, op)
    ensures Safe(s.db, Apply(s.db, op))
  {
    forall r | Shipped(s.db, r)
      ensures Keeps(s.db, Apply(s.db, op), r)
    {
      AdminKeeps(s, op, r);
    }
    forall r | Shipped(Apply(s.db, op), r)
      ensures Shipped(s.db, r)
    {
    }
  }

  lemma PublishSafe(db: Db, id: string, require: bool, key: string)
    ensures Safe(db, PublishRelease(db, id, require, key).db)
  {
  }

  lemma SignatureSafe(db: Db, id: string, sig: Signature, key: string)
    ensures Safe(db, UpdateArtifactSignature(db, id, sig, key).db)
  {
  }

  lemma ClearSafe(db: Db, id: string)
    ensures Safe(db, ClearReleaseSignatures(db, id).db)
  {
  }

  lemma ExecSafe(s: State, w: nat, snaps: seq<Snap>)
    requires w in s.workers
    ensures Safe(s.db, ExecWorker(s, w, snaps).db)
  {
    match s.workers[w]
    case ClearSignatures(r) => ClearSafe(s.db, r);
    case WriteSignature(_, todo, key, blob) =>
      if todo != [] {
        SignatureSafe(s.db, todo[0].id, Signed(key, blob), key);
      }
    case Gate(r, key) => PublishSafe(s.db, r, key.Some?, if key.Some? then key.value else "");
    case _ => assert ExecWorker(s, w, snaps).db == s.db;
  }

  lemma StepSafe(s: State, l: Label)
    requires Sound(s) && Enabled(s, l)
    ensures Safe(s.db, Step(s, l).db)
  {
    match l
    case Admin(op) => AdminSafe(s, op);
    case Exec(w, snaps) => ExecSafe(s, w, snaps);
    case _ => assert Step(s, l).db == s.db;
  }

  /** The rows' ids were handed out, and every artifact belongs to a release row. */
  ghost predicate Rows(db: Db, ids: set<string>) {
    && db.releases.Keys <= ids && db.artifacts.Keys <= ids && db.keys.Keys <= ids && "" !in ids
    && (forall a :: a in db.artifacts ==> db.artifacts[a].release in db.releases)
  }

  lemma AdminRows(s: State, op: Op)
    requires Rows(s.db, s.ids) && Fresh(s, op)
    ensures Rows(Step(s, Admin(op)).db, Step(s, Admin(op)).ids)
  {
  }

  lemma StepSound(s: State, l: Label)
    requires Sound(s) && Enabled(s, l)
    ensures Sound(Step(s, l)) && Safe(s.db, Step(s, l).db)
  {
    StepSafe(s, l);
    if l.Admin? {
      AdminRows(s, l.op);
    }
    var t := Step(s, l);
    forall r | Shipped(t.db, r)
      ensures Complete(t.db, r)
    {
      if Shipped(s.db, r) {
        CompleteByArtifacts(s.db, t.db, r);
      }
    }
  }

  /**
   Once a release has left draft it never returns, is never deleted, and its set of artifacts with
   their files, digests, signatures and key ids never changes, whatever calls run concurrently.
   */
  lemma {:induction false} ShippedIsFrozen(s: State, ls: seq<Label>)
    requires Sound(s) && Runs(s, ls)
    ensures Sound(Final(s, ls))
    ensures forall r :: Shipped(s.db, r) ==> Keeps(s.db, Final(s, ls).db, r)
    decreases ls
  {
    if ls != [] {
      StepSound(s, ls[0]);
      ShippedIsFrozen(Step(s, ls[0]), ls[1..]);
    }
  }

  /** Every release that ever ships has an artifact, and all its artifacts are uploaded. */
  lemma ShippedIsComplete(strict: set<string>, ls: seq<Label>, release: string)
    requires Runs(Start(strict), ls) && Shipped(Final(Start(strict), ls).db, release)
    ensures Complete(Final(Start(strict), ls).db, release)
  {
    ShippedIsFrozen(Start(strict), ls);
  }

  // ─── Signing keys ───

  ghost predicate OneActiveKey(db: Db) {
    forall j, k, product :: ActiveKeyOf(db, product, j) && ActiveKeyOf(db, product, k) ==> j == k
  }

  /** Keys are never deleted and never change hands. */
  ghost predicate KeysKept(before: Db, after: Db) {
    forall k :: k in before.keys ==> k in after.keys && after.keys[k].product == before.keys[k].product
  }

  /** A release row's product never changes, and a deleted release never comes back. */
  ghost predicate ProductsKept(s: State, after: Db) {
    forall r :: r in s.ids && r in after.releases ==>
      r in s.db.releases && after.releases[r].product == s.db.releases[r].product
  }

  lemma AdminKeys(s: State, op: Op)
    requires Rows(s.db, s.ids) && Fresh(s, op) && OneActiveKey(s.db)
    ensures OneActiveKey(Apply(s.db, op)) && KeysKept(s.db, Apply(s.db, op))
  {
    var after := Apply(s.db, op);
    forall k, product | ActiveKeyOf(after, product, k)
      ensures ActiveKeyOf(s.db, product, k) || ((op.CreateKey? || op.RotateKey?) && k == op.id && product == op.product)
      ensures op.CreateKey? && k == op.id && product == op.product ==> forall j :: !ActiveKeyOf(s.db, product, j)
      ensures op.RotateKey? && product == op.product ==> k == op.id
    {
    }
  }

  lemma AdminProducts(s: State, op: Op)
    requires Rows(s.db, s.ids) && Fresh(s, op)
    ensures ProductsKept(s, Apply(s.db, op))
  {
  }

  lemma ExecKeys(s: State, w: nat, snaps: seq<Snap>)
    requires w in s.workers
    ensures ExecWorker(s, w, snaps).db.keys == s.db.keys
    ensures ProductsKept(s, ExecWorker(s, w, snaps).db)
  {
  }

  /** The key a Publish call works with is a key of the release's product, and a strict product never goes unsigned. */
  ghost predicate Bound(s: State, pc: Pc) {
    && pc.release in s.ids
    && ((pc.ProbeFiles? || pc.ReadKey?) && pc.release in s.db.releases ==>
          pc.product == s.db.releases[pc.release].product)
    && (pc.ClearSignatures? ==> Lenient(s, pc.release))
    && (pc.SignBytes? || pc.WriteSignature? ==> KeyFits(s.db, pc.release, pc.key))
    && (pc.Gate? ==>
          if pc.signedWith.Some? then KeyFits(s.db, pc.release, pc.signedWith.value) else Lenient(s, pc.release))
  }

  ghost predicate Lenient(s: State, release: string) {
    release in s.db.releases ==> s.db.releases[release].product !in s.strict
  }

  ghost predicate KeyFits(db: Db, release: string, key: string) {
    key in db.keys && (release in db.releases ==> db.keys[key].product == db.releases[release].product)
  }

  /** The two signature columns agree. */
  ghost predicate ColumnsAgree(a: Artifact) {
    match a.sig
    case Unsigned => a.signingKey.None?
    case Signed(key, _) => a.signingKey == Some(key)
  }

  /** Every artifact of the release carries a signature made with `key`, a key of the release's own product. */
  ghost predicate SignedWith(db: Db, release: string, key: string) {
    && release in db.releases
    && key in db.keys && db.keys[key].product == db.releases[release].product
    && forall a :: a in db.artifacts && db.artifacts[a].release == release ==>
         db.artifacts[a].sig.Signed? && db.artifacts[a].sig.key == key && db.artifacts[a].signingKey == Some(key)
  }

  ghost predicate SignedWithOne(db: Db, release: string) {
    exists key :: SignedWith(db, release, key)
  }

  ghost predicate Signing(s: State) {
    && Sound(s)
    && OneActiveKey(s.db)
    && (forall w :: w in s.workers ==> Bound(s, s.workers[w]))
    && (forall a :: a in s.db.artifacts ==> ColumnsAgree(s.db.artifacts[a]))
    && (forall r :: Shipped(s.db, r) && s.db.releases[r].product in s.strict ==> SignedWithOne(s.db, r))
  }

  lemma ExecBound(s: State, w: nat, snaps: seq<Snap>)
    requires Signing(s) && w in s.workers && w in ExecWorker(s, w, snaps).workers
    ensures Bound(ExecWorker(s, w, snaps), ExecWorker(s, w, snaps).workers[w])
  {
    ExecKeys(s, w, snaps);
    assert Bound(s, s.workers[w]);
  }

  /** The gate is the only way to ship, and with a key it lets through only releases that key signed throughout. */
  lemma ShippedNowIsSigned(s: State, l: Label, release: string)
    requires Signing(s) && Enabled(s, l) && Shipped(Step(s, l).db, release) && !Shipped(s.db, release)
    requires Step(s, l).db.releases[release].product in s.strict
    ensures SignedWithOne(Step(s, l).db, release)
  {
    var t := Step(s, l);
    if l.Admin? {
      assert false;
    } else {
      var pc := s.workers[l.w];
      assert Bound(s, pc);
      var key := pc.signedWith.value;
      assert AllSignedBy(s.db, release, key);
      assert SignedWith(t.db, release, key);
    }
  }

  lemma SignedIsKept(before: Db, after: Db, release: string)
    requires Shipped(before, release) && Keeps(before, after, release) && KeysKept(before, after)
    requires SignedWithOne(before, release)
    ensures SignedWithOne(after, release)
  {
    var key :| SignedWith(before, release, key);
    forall a | a in after.artifacts && after.artifacts[a].release == release
      ensures a in before.artifacts && before.artifacts[a] == after.artifacts[a]
    {
      assert a in ArtifactsOf(after, release);
      assert ArtifactsOf(after, release)[a] == ArtifactsOf(before, release)[a];
    }
    assert SignedWith(after, release, key);
  }

  lemma KeysStep(s: State, l: Label)
    requires Signing(s) && Enabled(s, l)
    ensures var t := Step(s, l);
      OneActiveKey(t.db) && KeysKept(s.db, t.db) && ProductsKept(s, t.db) && s.strict == t.strict && s.ids <= t.ids
  {
    if l.Admin? {
      AdminKeys(s, l.op);
      AdminProducts(s, l.op);
    } else if l.Exec? {
      ExecKeys(s, l.w, l.snaps);
    }
    assert !l.Admin? ==> forall k, product :: ActiveKeyOf(Step(s, l).db, product, k) <==> ActiveKeyOf(s.db, product, k);
  }

  lemma BoundStep(s: State, l: Label, w: nat)
    requires Signing(s) && Enabled(s, l) && w in Step(s, l).workers
    ensures Bound(Step(s, l), Step(s, l).workers[w])
  {
    var t := Step(s, l);
    if w in s.workers && t.workers[w] == s.workers[w] {
      KeysStep(s, l);
    } else if l.Exec? {
      ExecBound(s, w, l.snaps);
    }
  }

  lemma SignedStep(s: State, l: Label, release: string)
    requires Signing(s) && Enabled(s, l)
    requires Shipped(Step(s, l).db, release) && Step(s, l).db.releases[release].product in s.strict
    ensures SignedWithOne(Step(s, l).db, release)
  {
    if Shipped(s.db, release) {
      StepSound(s, l);
      KeysStep(s, l);
      SignedIsKept(s.db, Step(s, l).db, release);
    } else {
      ShippedNowIsSigned(s, l, release);
    }
  }

  lemma ColumnsStep(s: State, l: Label)
    requires Signing(s) && Enabled(s, l)
    ensures forall a :: a in Step(s, l).db.artifacts ==> ColumnsAgree(Step(s, l).db.artifacts[a])
  {
  }

  lemma SigningStep(s: State, l: Label)
    requires Signing(s) && Enabled(s, l)
    ensures Signing(Step(s, l)) && Step(s, l).strict == s.strict
  {
    StepSound(s, l);
    KeysStep(s, l);
    ColumnsStep(s, l);
    forall w | w in Step(s, l).workers ensures Bound(Step(s, l), Step(s, l).workers[w]) {
      BoundStep(s, l, w);
    }
    forall r | Shipped(Step(s, l).db, r) && Step(s, l).db.releases[r].product in Step(s, l).strict
      ensures SignedWithOne(Step(s, l).db, r)
    {
      SignedStep(s, l, r);
    }
  }

  lemma {:induction false} SigningRun(s: State, ls: seq<Label>)
    requires Signing(s) && Runs(s, ls)
    ensures Signing(Final(s, ls)) && Final(s, ls).strict == s.strict
    decreases ls
  {
    if ls != [] {
      SigningStep(s, ls[0]);
      SigningRun(Step(s, ls[0]), ls[1..]);
    }
  }

  /**
   For a product that requires signing, every release that ships carries signatures from one single
   key of that product on all its artifacts, however many publishes, uploads and rotations overlap.
   */
  lemma StrictReleasesCarryOneKey(strict: set<string>, ls: seq<Label>, release: string)
    requires Runs(Start(strict), ls)
    requires Shipped(Final(Start(strict), ls).db, release)
    requires Final(Start(strict), ls).db.releases[release].product in strict
    ensures SignedWithOne(Final(Start(strict), ls).db, release)
  {
    SigningRun(Start(strict), ls);
  }

  /** Creation, rotation and deactivation never leave a product with two active keys. */
  lemma AtMostOneActiveKey(strict: set<string>, ls: seq<Label>)
    requires Runs(Start(strict), ls)
    ensures OneActiveKey(Final(Start(strict), ls).db)
  {
    SigningRun(Start(strict), ls);
  }

  // ─── Signatures and bytes ───

  /** The signature, if any, is over bytes with the row's digest. */
  predicate Covers(a: Artifact) {
    a.sig.Signed? ==> a.sha256 == Sha256Of(a.sig.blob)
  }

  /** The row a Publish call is about to sign still has the digest the call read. */
  predicate Unmoved(s: State, w: nat) {
    w in s.workers && s.workers[w].WriteSignature? && s.workers[w].snaps != [] &&
    s.workers[w].snaps[0].id in s.db.artifacts ==>
      s.db.artifacts[s.workers[w].snaps[0].id].sha256 == s.workers[w].snaps[0].sha256
  }

  /** Between reading the bytes and writing their signature, a call holds bytes with the digest it read. */
  ghost predicate Hashed(s: State) {
    forall w :: w in s.workers && s.workers[w].WriteSignature? ==>
      s.workers[w].snaps != [] && s.workers[w].snaps[0].sha256 == Sha256Of(s.workers[w].blob)
  }

  /** A signature write covers the row's bytes exactly when the row's digest is still the one Publish read. */
  lemma SignatureCoversIff(s: State, w: nat, snaps: seq<Snap>)
    requires Hashed(s) && w in s.workers && s.workers[w].WriteSignature?
    requires ArtifactGuard(s.db, s.workers[w].snaps[0].id) == Ok
    ensures Covers(ExecWorker(s, w, snaps).db.artifacts[s.workers[w].snaps[0].id]) <==> Unmoved(s, w)
  {
  }

  predicate EverySignatureCovers(db: Db) {
    forall a :: a in db.artifacts ==> Covers(db.artifacts[a])
  }

  ghost predicate AllCover(s: State) {
    Hashed(s) && EverySignatureCovers(s.db)
  }

  /** A signature write passes its guard although the row's digest is no longer the one Publish read. */
  predicate WritesMoved(s: State, l: Label) {
    && l.Exec? && l.w in s.workers && s.workers[l.w].WriteSignature? && s.workers[l.w].snaps != []
    && ArtifactGuard(s.db, s.workers[l.w].snaps[0].id) == Ok && !Unmoved(s, l.w)
  }

  lemma AdminCovers(s: State, op: Op)
    requires EverySignatureCovers(s.db)
    ensures EverySignatureCovers(Apply(s.db, op))
  {
  }

  /** A step keeps all signatures over their rows' bytes exactly if it is not a write over a moved digest. */
  lemma CoverIff(s: State, l: Label)
    requires AllCover(s) && Enabled(s, l)
    ensures Hashed(Step(s, l)) && (EverySignatureCovers(Step(s, l).db) <==> !WritesMoved(s, l))
  {
    match l
    case Admin(op) => AdminCovers(s, op);
    case Exec(w, snaps) =>
      if WritesMoved(s, l) {
        SignatureCoversIff(s, w, snaps);
        assert s.workers[w].snaps[0].id in Step(s, l).db.artifacts;
      }
    case _ =>
  }

  ghost predicate CoverThroughout(s: State, ls: seq<Label>)
    requires Runs(s, ls)
    decreases ls
  {
    EverySignatureCovers(s.db) && (ls == [] || CoverThroughout(Step(s, ls[0]), ls[1..]))
  }

  ghost predicate NeverWritesMoved(s: State, ls: seq<Label>)
    requires Runs(s, ls)
    decreases ls
  {
    ls == [] || (!WritesMoved(s, ls[0]) && NeverWritesMoved(Step(s, ls[0]), ls[1..]))
  }

  lemma {:induction false} CoverRunIff(s: State, ls: seq<Label>)
    requires Runs(s, ls) && AllCover(s)
    ensures CoverThroughout(s, ls) <==> NeverWritesMoved(s, ls)
    ensures NeverWritesMoved(s, ls) ==> AllCover(Final(s, ls))
    decreases ls
  {
    if ls != [] {
      CoverIff(s, ls[0]);
      if EverySignatureCovers(Step(s, ls[0]).db) {
        CoverRunIff(Step(s, ls[0]), ls[1..]);
      } else {
        assert !CoverThroughout(Step(s, ls[0]), ls[1..]);
      }
    }
  }

  /**
   At every point of a run every stored signature covers bytes that hash to its row's digest, if and only if no
   signature write of the run passes its guard after the digest it signed for has moved.
   */
  lemma SignaturesCoverIff(strict: set<string>, ls: seq<Label>)
    requires Runs(Start(strict), ls)
    ensures CoverThroughout(Start(strict), ls) <==> NeverWritesMoved(Start(strict), ls)
  {
    CoverRunIff(Start(strict), ls);
  }

  /**
   A digest moves only by finalizing its own artifact, so a run without that finalize leaves it as Publish read
   it.
   */
  lemma {:induction false} DigestStays(s: State, ls: seq<Label>, id: string)
    requires Sound(s) && Runs(s, ls) && id in s.ids
    requires forall i :: 0 <= i < |ls| ==> !(ls[i].Admin? && ls[i].op.Finalize? && ls[i].op.id == id)
    requires id in Final(s, ls).db.artifacts
    ensures id in s.db.artifacts && Final(s, ls).db.artifacts[id].sha256 == s.db.artifacts[id].sha256
    decreases ls
  {
    if ls != [] {
      var t := Step(s, ls[0]);
      StepSound(s, ls[0]);
      DigestStays(t, ls[1..], id);
      DigestStaysStep(s, ls[0], id);
    }
  }

  lemma AdminDigest(s: State, op: Op, id: string)
    requires Sound(s) && Fresh(s, op) && id in s.ids && id in Apply(s.db, op).artifacts
    requires !(op.Finalize? && op.id == id)
    ensures id in s.db.artifacts && Apply(s.db, op).artifacts[id].sha256 == s.db.artifacts[id].sha256
  {
  }

  lemma DigestStaysStep(s: State, l: Label, id: string)
    requires Sound(s) && Enabled(s, l) && id in s.ids && id in Step(s, l).db.artifacts
    requires !(l.Admin? && l.op.Finalize? && l.op.id == id)
    ensures id in s.db.artifacts && Step(s, l).db.artifacts[id].sha256 == s.db.artifacts[id].sha256
  {
    if l.Admin? {
      AdminDigest(s, l.op, id);
    }
  }

  /** The artifacts a Publish call still holds a snapshot of, from its read of the release to their signature writes. */
  function Held(pc: Pc): seq<Snap> {
    match pc
    case ProbeFiles(_, _, snaps, _) => snaps
    case ReadKey(_, _, snaps) => snaps
    case SignBytes(_, snaps, _) => snaps
    case WriteSignature(_, snaps, _, _) => snaps
    case _ => []
  }

  predicate HoldsSnapshot(pc: Pc, id: string) {
    exists i :: 0 <= i < |Held(pc)| && Held(pc)[i].id == id
  }

  /**
   An upload of an artifact is finalized while some Publish call is between its read and that artifact's
   signature.
   */
  ghost predicate FinalizesHeld(s: State, l: Label) {
    l.Admin? && l.op.Finalize? && exists w :: w in s.workers && HoldsSnapshot(s.workers[w], l.op.id)
  }

  /** No step of the run finalizes an artifact that a Publish call is about to sign. */
  ghost predicate NoFinalizeWhileSigning(s: State, ls: seq<Label>)
    requires Runs(s, ls)
    decreases ls
  {
    ls == [] || (!FinalizesHeld(s, ls[0]) && NoFinalizeWhileSigning(Step(s, ls[0]), ls[1..]))
  }

  /** The snapshot is still that of the row, while the row exists. */
  predicate Current(s: State, snap: Snap) {
    && snap.id in s.ids
    && (snap.id in s.db.artifacts ==> s.db.artifacts[snap.id].sha256 == snap.sha256)
  }

  ghost predicate SnapsCurrent(s: State) {
    forall w, i :: w in s.workers && 0 <= i < |Held(s.workers[w])| ==> Current(s, Held(s.workers[w])[i])
  }

  lemma CurrentStep(s: State, l: Label, snap: Snap)
    requires Sound(s) && Enabled(s, l) && Current(s, snap)
    requires !(l.Admin? && l.op.Finalize? && l.op.id == snap.id)
    ensures Current(Step(s, l), snap)
  {
    if snap.id in Step(s, l).db.artifacts {
      DigestStaysStep(s, l, snap.id);
    }
  }

  /** A step hands a Publish call no snapshots but those it held and those it has just read. */
  lemma HeldStep(s: State, l: Label, w: nat, snap: Snap)
    requires Enabled(s, l) && w in Step(s, l).workers && snap in Held(Step(s, l).workers[w])
    ensures (w in s.workers && snap in Held(s.workers[w]))
      || (l.Exec? && l.w == w && s.workers[w].ReadRelease? && snap in l.snaps
          && Snapshots(s.db, s.workers[w].release, l.snaps))
  {
  }

  lemma SnapsCurrentStep(s: State, l: Label)
    requires Sound(s) && SnapsCurrent(s) && Enabled(s, l) && !FinalizesHeld(s, l)
    ensures SnapsCurrent(Step(s, l))
  {
    var t := Step(s, l);
    forall w, i | w in t.workers && 0 <= i < |Held(t.workers[w])|
      ensures Current(t, Held(t.workers[w])[i])
    {
      var snap := Held(t.workers[w])[i];
      HeldStep(s, l, w, snap);
      if w in s.workers && snap in Held(s.workers[w]) {
        var j :| 0 <= j < |Held(s.workers[w])| && Held(s.workers[w])[j] == snap;
        CurrentStep(s, l, snap);
      } else {
        ReadIsCurrent(s, l.snaps, s.workers[w].release, snap);
        CurrentStep(s, l, snap);
      }
    }
  }

  lemma ReadIsCurrent(s: State, snaps: seq<Snap>, release: string, snap: Snap)
    requires Sound(s) && Snapshots(s.db, release, snaps) && snap in snaps
    ensures Current(s, snap)
  {
    var i :| 0 <= i < |snaps| && snaps[i] == snap;
    assert snaps[i].id in s.db.artifacts;
  }

  lemma CurrentIsUnmoved(s: State, w: nat)
    requires SnapsCurrent(s)
    ensures Unmoved(s, w)
  {
    if w in s.workers && s.workers[w].WriteSignature? && s.workers[w].snaps != [] {
      assert Current(s, Held(s.workers[w])[0]);
    }
  }

  lemma {:induction false} CurrentNeverWritesMoved(s: State, ls: seq<Label>)
    requires Runs(s, ls) && NoFinalizeWhileSigning(s, ls)
    requires Sound(s) && SnapsCurrent(s)
    ensures NeverWritesMoved(s, ls)
    decreases ls
  {
    if ls != [] {
      if ls[0].Exec? {
        CurrentIsUnmoved(s, ls[0].w);
      }
      SnapsCurrentStep(s, ls[0]);
      StepSound(s, ls[0]);
      CurrentNeverWritesMoved(Step(s, ls[0]), ls[1..]);
    }
  }

  /**
   In every run in which no upload of an artifact is finalized between a Publish call's read of the release and
   its signature write, every stored signature covers bytes that hash to the row's digest, at every point.
   */
  lemma SignaturesCoverTheirBytes(strict: set<string>, ls: seq<Label>, id: string)
    requires Runs(Start(strict), ls) && NoFinalizeWhileSigning(Start(strict), ls)
    ensures CoverThroughout(Start(strict), ls)
    ensures id in Final(Start(strict), ls).db.artifacts ==> Covers(Final(Start(strict), ls).db.artifacts[id])
  {
    CurrentNeverWritesMoved(Start(strict), ls);
    CoverRunIff(Start(strict), ls);
  }
}
