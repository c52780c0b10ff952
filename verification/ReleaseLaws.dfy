/**
 What the release operations do, said without naming how: which row changes and to what, what undoes
 what, and exactly when each operation is refused.
 */
module ReleaseLaws {
  import opened Wrappers
  import opened ReleaseStore

  /** Only the release row `id` may differ. */
  predicate OnlyRelease(before: Db, after: Db, id: string) {
    && after.artifacts == before.artifacts && after.keys == before.keys
    && after.releases - {id} == before.releases - {id}
  }

  /** Only the artifact row `id` may differ. */
  predicate OnlyArtifact(before: Db, after: Db, id: string) {
    && after.releases == before.releases && after.keys == before.keys
    && after.artifacts - {id} == before.artifacts - {id}
  }

  /** A release that is yanked is no longer published; unyanking it restores everything; nothing else can be either. */
  lemma YankCycle(db: Db, id: string)
    ensures var r := YankRelease(db, id);
      && (r.error == Ok <==> id in db.releases && db.releases[id].status == Published)
      && (r.error == ReleaseNotFound <==> id !in db.releases)
      && (r.error != Ok ==> r.db == db && (r.error == ReleaseNotFound || r.error == ReleaseNotYankable))
      && (r.error == Ok ==>
            && OnlyRelease(db, r.db, id) && id in r.db.releases
            && r.db.releases[id] == db.releases[id].(status := Yanked)
            && UnyankRelease(r.db, id) == Result(db, Ok))
  {
  }

  /** Unyanking publishes a yanked release again, exactly, and yanking it anew restores everything. */
  lemma UnyankCycle(db: Db, id: string)
    ensures var r := UnyankRelease(db, id);
      && (r.error == Ok <==> id in db.releases && db.releases[id].status == Yanked)
      && (r.error == ReleaseNotFound <==> id !in db.releases)
      && (r.error != Ok ==> r.db == db && (r.error == ReleaseNotFound || r.error == ReleaseNotYankable))
      && (r.error == Ok ==>
            && OnlyRelease(db, r.db, id) && id in r.db.releases
            && r.db.releases[id] == db.releases[id].(status := Published)
            && YankRelease(r.db, id) == Result(db, Ok))
  {
  }

  /** A successful publish turns that draft into a published release and changes nothing else; a refused one nothing. */
  lemma PublishChangesStatus(db: Db, id: string, requireSignatures: bool, key: string)
    ensures var r := PublishRelease(db, id, requireSignatures, key);
      && (r.error != Ok ==> r.db == db)
      && (r.error == Ok ==>
            && OnlyRelease(db, r.db, id) && id in db.releases && db.releases[id].status == Draft
            && id in r.db.releases && r.db.releases[id] == db.releases[id].(status := Published))
  {
  }

  /** What the publishing tests of a release mean. */
  lemma UploadTests(db: Db, id: string)
    ensures HasArtifact(db, id) <==> exists a :: a in db.artifacts && db.artifacts[a].release == id
    ensures AllUploaded(db, id) <==> forall a :: a in db.artifacts && db.artifacts[a].release == id ==>
      db.artifacts[a].fileKey != "" && db.artifacts[a].sha256 != NoDigest
  {
  }

  lemma SignatureTests(db: Db, id: string, key: string)
    ensures AllSignedBy(db, id, key) <==> forall a :: a in db.artifacts && db.artifacts[a].release == id ==>
      db.artifacts[a].sig != Unsigned && db.artifacts[a].signingKey.Some?
      && (key == "" || db.artifacts[a].signingKey == Some(key))
  {
  }

  /** Creating a release is refused exactly for a version the product has; otherwise deleting the draft undoes it. */
  lemma DraftCycle(db: Db, id: string, product: string, version: string, channel: string)
    requires id !in db.releases && forall a :: a in db.artifacts ==> db.artifacts[a].release != id
    ensures var r := CreateRelease(db, id, product, version, channel);
      && (r.error == ReleaseAlreadyExists <==>
            exists x :: x in db.releases && db.releases[x].product == product && db.releases[x].version == version)
      && (r.error != Ok ==> r.db == db && r.error == ReleaseAlreadyExists)
      && (r.error == Ok ==>
            && OnlyRelease(db, r.db, id) && id in r.db.releases
            && r.db.releases[id] == Release(product, version, channel, Draft)
            && DeleteRelease(r.db, id) == Result(db, Ok))
  {
    var r := CreateRelease(db, id, product, version, channel);
    if r.error == Ok {
      var d := DeleteRelease(r.db, id);
      assert d.db.releases == db.releases;
      assert d.db.artifacts == db.artifacts;
    }
  }

  /** Deleting takes the draft and its artifacts, and nothing else; a release that ever shipped is refused. */
  lemma DeleteTakesTheDraft(db: Db, id: string)
    ensures var r := DeleteRelease(db, id);
      && (r.error == Ok <==> id in db.releases && db.releases[id].status == Draft)
      && (r.error == ReleaseNotFound <==> id !in db.releases)
      && (r.error != Ok ==> r.db == db && (r.error == ReleaseNotFound || r.error == ReleaseNotDeletable))
      && (r.error == Ok ==>
            && r.db.releases == db.releases - {id} && r.db.keys == db.keys
            && (forall a :: a in r.db.artifacts <==> a in db.artifacts && db.artifacts[a].release != id)
            && (forall a :: a in r.db.artifacts ==> r.db.artifacts[a] == db.artifacts[a]))
  {
  }

  predicate HasPlatform(db: Db, release: string, platform: string) {
    exists a :: a in db.artifacts && db.artifacts[a].release == release && db.artifacts[a].platform == platform
  }

  /** A new artifact is neither uploaded nor signed, one platform at a time, and deleting it undoes its creation. */
  lemma ArtifactCycle(db: Db, id: string, release: string, platform: string, fileKey: string)
    requires id !in db.artifacts
    ensures var r := CreateArtifact(db, id, release, platform, fileKey);
      && (r.error == ReleaseNotFound <==> release !in db.releases)
      && (r.error == ReleaseNotPublishable <==> release in db.releases && db.releases[release].status != Draft)
      && (r.error == ArtifactAlreadyExists <==>
            release in db.releases && db.releases[release].status == Draft && HasPlatform(db, release, platform))
      && (r.error != Ok ==> r.db == db)
      && r.error in {Ok, ReleaseNotFound, ReleaseNotPublishable, ArtifactAlreadyExists}
      && (r.error == Ok ==>
            && OnlyArtifact(db, r.db, id) && id in r.db.artifacts
            && r.db.artifacts[id] == Artifact(release, platform, fileKey, NoDigest, Unsigned, None)
            && !AllUploaded(r.db, release)
            && DeleteArtifact(r.db, id) == Result(db, Ok))
  {
    var r := CreateArtifact(db, id, release, platform, fileKey);
    if r.error == Ok {
      assert !r.db.artifacts[id].IsUploaded();
      assert DeleteArtifact(r.db, id).db.artifacts == db.artifacts;
    }
  }

  /** The three operations on one artifact are refused alike: no such artifact, or its release is no draft any more. */
  lemma ArtifactRefusals(db: Db, id: string, fileKey: string, sha256: Digest, sig: Signature, key: string)
    ensures var missing := id !in db.artifacts || db.artifacts[id].release !in db.releases;
      var shipped := !missing && db.releases[db.artifacts[id].release].status != Draft;
      forall r :: r in {UpdateArtifactFile(db, id, fileKey, sha256), UpdateArtifactSignature(db, id, sig, key),
        DeleteArtifact(db, id)} ==>
          && (r.error == ArtifactNotFound <==> missing)
          && (r.error == ReleaseNotPublishable <==> shipped)
          && (r.error == Ok <==> !missing && !shipped)
          && (r.error != Ok ==> r.db == db)
  {
  }

  /** Finalizing records file and digest and leaves the artifact unsigned; signing then adds exactly the two columns. */
  lemma UploadThenSign(db: Db, id: string, fileKey: string, sha256: Digest, sig: Signature, key: string)
    requires UpdateArtifactFile(db, id, fileKey, sha256).error == Ok
    ensures var f := UpdateArtifactFile(db, id, fileKey, sha256).db; var s := UpdateArtifactSignature(f, id, sig, key);
      && id in db.artifacts && id in f.artifacts && id in s.db.artifacts
      && OnlyArtifact(db, f, id) && s.error == Ok && OnlyArtifact(db, s.db, id)
      && f.artifacts[id] ==
           Artifact(db.artifacts[id].release, db.artifacts[id].platform, fileKey, sha256, Unsigned, None)
      && s.db.artifacts[id] ==
           Artifact(db.artifacts[id].release, db.artifacts[id].platform, fileKey, sha256, sig, Some(key))
  {
  }

  lemma SignatureTouchesItsColumns(db: Db, id: string, sig: Signature, key: string)
    requires UpdateArtifactSignature(db, id, sig, key).error == Ok
    ensures var s := UpdateArtifactSignature(db, id, sig, key).db;
      && id in db.artifacts && id in s.artifacts && OnlyArtifact(db, s, id)
      && s.artifacts[id] == db.artifacts[id].(sig := sig, signingKey := Some(key))
  {
  }

  /** Deleting an artifact takes that row alone. */
  lemma DeleteTakesTheArtifact(db: Db, id: string)
    requires DeleteArtifact(db, id).error == Ok
    ensures OnlyArtifact(db, DeleteArtifact(db, id).db, id) && id !in DeleteArtifact(db, id).db.artifacts
  {
  }

  /** Clearing leaves no artifact of the draft signed, keeps their files, and touches no other release. */
  lemma ClearLeavesNoneSigned(db: Db, id: string)
    ensures var r := ClearReleaseSignatures(db, id);
      && (r.error == Ok <==> id in db.releases && db.releases[id].status == Draft)
      && (r.error == ReleaseNotFound <==> id !in db.releases)
      && (r.error != Ok ==> r.db == db && (r.error == ReleaseNotFound || r.error == ReleaseNotPublishable))
      && (r.error == Ok ==>
            && r.db.releases == db.releases && r.db.keys == db.keys && r.db.artifacts.Keys == db.artifacts.Keys
            && forall a :: a in db.artifacts ==>
                 if db.artifacts[a].release == id
                 then r.db.artifacts[a] == db.artifacts[a].(sig := Unsigned, signingKey := None)
                 else r.db.artifacts[a] == db.artifacts[a])
  {
  }

  // ─── Signing keys ───

  /** Exactly this key of the product is active. */
  predicate ActiveIs(db: Db, product: string, id: string) {
    forall k :: k in db.keys ==> (db.keys[k].product == product && db.keys[k].active <==> k == id)
  }

  predicate NoneActive(db: Db, product: string) {
    forall k :: k in db.keys ==> !(db.keys[k].product == product && db.keys[k].active)
  }

  /** The keys of other products are untouched. */
  predicate OtherProductsKept(before: Db, after: Db, product: string) {
    && after.releases == before.releases && after.artifacts == before.artifacts
    && (forall k :: k in before.keys && before.keys[k].product != product ==>
          k in after.keys && after.keys[k] == before.keys[k])
    && (forall k :: k in after.keys && after.keys[k].product != product ==> k in before.keys)
  }

  /** Rotation always ends with the new key, and it alone, active; older keys stay as retired rows. */
  lemma RotationActivates(db: Db, id: string, product: string)
    requires id !in db.keys
    ensures var r := RotateSigningKey(db, id, product);
      && r.error == Ok && id in r.db.keys && ActiveIs(r.db, product, id) && OtherProductsKept(db, r.db, product)
      && r.db.keys.Keys == db.keys.Keys + {id}
      && (forall k :: k in db.keys ==> r.db.keys[k].product == db.keys[k].product)
  {
  }

  /** A first key is active; while one is active a second is refused. */
  lemma CreationActivates(db: Db, id: string, product: string)
    requires id !in db.keys
    ensures var r := CreateSigningKey(db, id, product);
      && (r.error == Ok <==> NoneActive(db, product))
      && (r.error != Ok ==> r.db == db && r.error == SigningKeyAlreadyActive)
      && (r.error == Ok ==>
            id in r.db.keys && ActiveIs(r.db, product, id) && r.db.keys - {id} == db.keys
            && OtherProductsKept(db, r.db, product))
  {
  }

  /** Deactivation turns that key off, once, and no other. */
  lemma DeactivationTurnsOff(db: Db, id: string)
    ensures var r := DeactivateSigningKey(db, id);
      && (r.error == SigningKeyNotFound <==> id !in db.keys)
      && (r.error == SigningKeyAlreadyInactive <==> id in db.keys && !db.keys[id].active)
      && (r.error == Ok <==> id in db.keys && db.keys[id].active)
      && (r.error != Ok ==> r.db == db)
      && (r.error == Ok ==>
            && r.db.releases == db.releases && r.db.artifacts == db.artifacts
            && r.db.keys - {id} == db.keys - {id}
            && id in r.db.keys && r.db.keys[id] == SigningKey(db.keys[id].product, false))
  {
  }

  /** Where at most one key is active, deactivating it leaves none, so that a new one can be created. */
  lemma DeactivateThenCreate(db: Db, former: string, id: string, product: string)
    requires former in db.keys && ActiveIs(db, product, former) && id !in db.keys
    ensures var off := DeactivateSigningKey(db, former).db;
      NoneActive(off, product) && CreateSigningKey(off, id, product).error == Ok
      && ActiveIs(CreateSigningKey(off, id, product).db, product, id)
  {
    DeactivationTurnsOff(db, former);
    CreationActivates(DeactivateSigningKey(db, former).db, id, product);
  }
}
