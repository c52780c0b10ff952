/**
 Releases, their artifacts and the signing keys, with every transaction of the release
 store as one atomic operation. Each operation is a method on the tables, proved equal to
 a function on their values; the laws below are about those functions.
 */
module ReleaseStore {
  import opened Wrappers

  datatype Status = Draft | Published | Yanked

  datatype Release = Release(product: string, version: string, channel: string, status: Status)

  /** The sha256 column: empty, or the digest of some bytes. Distinct bytes have distinct digests. */
  datatype Digest = NoDigest | Sha256Of(blob: string)

  /** The ed25519_sig column: empty, or what one key produced over some bytes. */
  datatype Signature = Unsigned | Signed(key: string, blob: string)

  datatype Artifact = Artifact(
    release: string,
    platform: string,
    fileKey: string,
    sha256: Digest,
    sig: Signature,
    signingKey: Option<string>)
  {
    predicate IsUploaded() {
      fileKey != "" && sha256 != NoDigest
    }

    function Unsign(): Artifact {
      this.(sig := Unsigned, signingKey := None)
    }

    /** Signed at all, and by `key` when one is given. */
    predicate IsSignedBy(key: string) {
      sig.Signed? && signingKey.Some? && (key != "" ==> signingKey.value == key)
    }
  }

  datatype SigningKey = SigningKey(product: string, active: bool)

  datatype Db = Db(releases: map<string, Release>, artifacts: map<string, Artifact>, keys: map<string, SigningKey>)

  datatype Error =
    | Ok
    | ReleaseNotFound
    | ReleaseAlreadyExists
    | ReleaseNotPublishable
    | ReleaseNotYankable
    | ReleaseNotDeletable
    | ReleaseNoArtifacts
    | ReleaseArtifactsNotReady
    | ReleaseArtifactsNotSigned
    | ArtifactNotFound
    | ArtifactAlreadyExists
    | SigningKeyNotFound
    | SigningKeyAlreadyActive
    | SigningKeyAlreadyInactive

  datatype Result = Result(db: Db, error: Error)

  // ─── The operations on values ───

  predicate IsDraft(db: Db, id: string) {
    id in db.releases && db.releases[id].status == Draft
  }

  function WithStatus(db: Db, id: string, status: Status): Db
    requires id in db.releases
  {
    db.(releases := db.releases[id := db.releases[id].(status := status)])
  }

  function CreateRelease(db: Db, id: string, product: string, version: string, channel: string): Result {
    if exists r :: r in db.releases && db.releases[r].product == product && db.releases[r].version == version
    then Result(db, ReleaseAlreadyExists)
    else Result(db.(releases := db.releases[id := Release(product, version, channel, Draft)]), Ok)
  }

  predicate HasArtifact(db: Db, id: string) {
    exists a :: a in db.artifacts && db.artifacts[a].release == id
  }

  predicate AllUploaded(db: Db, id: string) {
    forall a :: a in db.artifacts && db.artifacts[a].release == id ==> db.artifacts[a].IsUploaded()
  }

  predicate AllSignedBy(db: Db, id: string, key: string) {
    forall a :: a in db.artifacts && db.artifacts[a].release == id ==> db.artifacts[a].IsSignedBy(key)
  }

  /** The WHERE clause of the publishing UPDATE. */
  predicate Publishable(db: Db, id: string, requireSignatures: bool, key: string) {
    && IsDraft(db, id)
    && HasArtifact(db, id)
    && AllUploaded(db, id)
    && (requireSignatures ==> AllSignedBy(db, id, key))
  }

  /** The reason given for a refused publish, read from the same state. */
  function Unpublishable(db: Db, id: string, requireSignatures: bool, key: string): Error {
    if id !in db.releases then ReleaseNotFound
    else if db.releases[id].status != Draft then ReleaseNotPublishable
    else if !HasArtifact(db, id) then ReleaseNoArtifacts
    else if !AllUploaded(db, id) then ReleaseArtifactsNotReady
    else if requireSignatures && !AllSignedBy(db, id, key) then ReleaseArtifactsNotSigned
    else ReleaseNotPublishable
  }

  function PublishRelease(db: Db, id: string, requireSignatures: bool, key: string): Result {
    if Publishable(db, id, requireSignatures, key) then Result(WithStatus(db, id, Published), Ok)
    else Result(db, Unpublishable(db, id, requireSignatures, key))
  }

  function YankRelease(db: Db, id: string): Result {
    if id !in db.releases then Result(db, ReleaseNotFound)
    else if db.releases[id].status != Published then Result(db, ReleaseNotYankable)
    else Result(WithStatus(db, id, Yanked), Ok)
  }

  function UnyankRelease(db: Db, id: string): Result {
    if id !in db.releases then Result(db, ReleaseNotFound)
    else if db.releases[id].status != Yanked then Result(db, ReleaseNotYankable)
    else Result(WithStatus(db, id, Published), Ok)
  }

  /** The cascade drops the release's artifacts. */
  function DeleteRelease(db: Db, id: string): Result {
    if id !in db.releases then Result(db, ReleaseNotFound)
    else if db.releases[id].status != Draft then Result(db, ReleaseNotDeletable)
    else Result(db.(releases := db.releases - {id},
                    artifacts := map a | a in db.artifacts && db.artifacts[a].release != id :: db.artifacts[a]), Ok)
  }

  function CreateArtifact(db: Db, id: string, release: string, platform: string, fileKey: string): Result {
    if release !in db.releases then Result(db, ReleaseNotFound)
    else if db.releases[release].status != Draft then Result(db, ReleaseNotPublishable)
    else if exists a :: a in db.artifacts && db.artifacts[a].release == release && db.artifacts[a].platform == platform
    then Result(db, ArtifactAlreadyExists)
    else
      var empty := Artifact(release, platform, fileKey, NoDigest, Unsigned, None);
      Result(db.(artifacts := db.artifacts[id := empty]), Ok)
  }

  /** The guard shared by the operations on one artifact: it exists and its release is still a draft. */
  function ArtifactGuard(db: Db, id: string): Error {
    if id !in db.artifacts || db.artifacts[id].release !in db.releases then ArtifactNotFound
    else if db.releases[db.artifacts[id].release].status != Draft then ReleaseNotPublishable
    else Ok
  }

  /** A new upload invalidates the signature of the old one. */
  function UpdateArtifactFile(db: Db, id: string, fileKey: string, sha256: Digest): Result {
    var error := ArtifactGuard(db, id);
    if error != Ok then Result(db, error)
    else Result(db.(artifacts := db.artifacts[id :=
      db.artifacts[id].(fileKey := fileKey, sha256 := sha256).Unsign()]), Ok)
  }

  function UpdateArtifactSignature(db: Db, id: string, sig: Signature, key: string): Result {
    var error := ArtifactGuard(db, id);
    if error != Ok then Result(db, error)
    else Result(db.(artifacts := db.artifacts[id := db.artifacts[id].(sig := sig, signingKey := Some(key))]), Ok)
  }

  function ClearReleaseSignatures(db: Db, id: string): Result {
    if id !in db.releases then Result(db, ReleaseNotFound)
    else if db.releases[id].status != Draft then Result(db, ReleaseNotPublishable)
    else Result(db.(artifacts := map a | a in db.artifacts ::
      if db.artifacts[a].release == id then db.artifacts[a].Unsign() else db.artifacts[a]), Ok)
  }

  function DeleteArtifact(db: Db, id: string): Result {
    var error := ArtifactGuard(db, id);
    if error != Ok then Result(db, error) else Result(db.(artifacts := db.artifacts - {id}), Ok)
  }

  predicate ActiveKeyOf(db: Db, product: string, key: string) {
    key in db.keys && db.keys[key].product == product && db.keys[key].active
  }

  function CreateSigningKey(db: Db, id: string, product: string): Result {
    if exists k :: k in db.keys && ActiveKeyOf(db, product, k) then Result(db, SigningKeyAlreadyActive)
    else Result(db.(keys := db.keys[id := SigningKey(product, true)]), Ok)
  }

  /** Deactivates whatever key is active and inserts the new one, in one transaction. */
  function RotateSigningKey(db: Db, id: string, product: string): Result {
    var retired := map k | k in db.keys ::
      if db.keys[k].product == product then db.keys[k].(active := false) else db.keys[k];
    Result(db.(keys := retired[id := SigningKey(product, true)]), Ok)
  }

  function DeactivateSigningKey(db: Db, id: string): Result {
    if id !in db.keys then Result(db, SigningKeyNotFound)
    else if !db.keys[id].active then Result(db, SigningKeyAlreadyInactive)
    else Result(db.(keys := db.keys[id := db.keys[id].(active := false)]), Ok)
  }

  // ─── The tables ───

  class Store {
    var releases: map<string, Release>
    var artifacts: map<string, Artifact>
    var keys: map<string, SigningKey>

    function Contents(): Db
      reads this
    {
      Db(releases, artifacts, keys)
    }

    constructor ()
      ensures Contents() == Db(map[], map[], map[])
    {
      releases, artifacts, keys := map[], map[], map[];
    }

    method Create(id: string, product: string, version: string, channel: string) returns (error: Error)
      modifies this
      ensures Result(Contents(), error) == CreateRelease(old(Contents()), id, product, version, channel)
    {
      if exists r :: r in releases && releases[r].product == product && releases[r].version == version {
        return ReleaseAlreadyExists;
      }
      releases := releases[id := Release(product, version, channel, Draft)];
      return Ok;
    }

    method Publish(id: string, requireSignatures: bool, key: string) returns (error: Error)
      modifies this
      ensures Result(Contents(), error) == PublishRelease(old(Contents()), id, requireSignatures, key)
    {
      var mine := set a | a in artifacts && artifacts[a].release == id;
      assert forall a :: a in artifacts && artifacts[a].release == id <==> a in mine;
      var unfinished := exists a :: a in mine && (artifacts[a].fileKey == "" || artifacts[a].sha256 == NoDigest);
      var unsigned := exists a :: a in mine && !artifacts[a].IsSignedBy(key);
      if id in releases && releases[id].status == Draft && mine != {} && !unfinished &&
        (!requireSignatures || !unsigned) {
        releases := releases[id := releases[id].(status := Published)];
        return Ok;
      }
      error := Diagnose(id, requireSignatures, key);
    }

    method Diagnose(id: string, requireSignatures: bool, key: string) returns (error: Error)
      ensures error == Unpublishable(Contents(), id, requireSignatures, key)
    {
      if id !in releases {
        return ReleaseNotFound;
      }
      if releases[id].status != Draft {
        return ReleaseNotPublishable;
      }
      var mine := set a | a in artifacts && artifacts[a].release == id;
      assert forall a :: a in artifacts && artifacts[a].release == id <==> a in mine;
      if mine == {} {
        return ReleaseNoArtifacts;
      }
      assert HasArtifact(Contents(), id) by {
        var a :| a in mine;
      }
      if exists a :: a in mine && !artifacts[a].IsUploaded() {
        return ReleaseArtifactsNotReady;
      }
      if requireSignatures && exists a :: a in mine && !artifacts[a].IsSignedBy(key) {
        return ReleaseArtifactsNotSigned;
      }
      return ReleaseNotPublishable;
    }

    method Yank(id: string) returns (error: Error)
      modifies this
      ensures Result(Contents(), error) == YankRelease(old(Contents()), id)
    {
      if id in releases && releases[id].status == Published {
        releases := releases[id := releases[id].(status := Yanked)];
        return Ok;
      }
      return if id in releases then ReleaseNotYankable else ReleaseNotFound;
    }

    method Unyank(id: string) returns (error: Error)
      modifies this
      ensures Result(Contents(), error) == UnyankRelease(old(Contents()), id)
    {
      if id in releases && releases[id].status == Yanked {
        releases := releases[id := releases[id].(status := Published)];
        return Ok;
      }
      return if id in releases then ReleaseNotYankable else ReleaseNotFound;
    }

    /** Returns the storage keys the caller has to clean up. */
    method Delete(id: string) returns (fileKeys: set<string>, error: Error)
      modifies this
      ensures Result(Contents(), error) == DeleteRelease(old(Contents()), id)
      ensures error == Ok ==> forall k ::
        k in fileKeys <==> k != "" && (exists a :: (
          a in old(artifacts) && old(artifacts)[a].release == id && old(artifacts)[a].fileKey == k))
      ensures error != Ok ==> fileKeys == {}
    {
      if id !in releases {
        return {}, ReleaseNotFound;
      }
      if releases[id].status != Draft {
        return {}, ReleaseNotDeletable;
      }
      fileKeys := set a | a in artifacts && artifacts[a].release == id && artifacts[a].fileKey != "" ::
        artifacts[a].fileKey;
      releases := releases - {id};
      artifacts := map a | a in artifacts && artifacts[a].release != id :: artifacts[a];
      error := Ok;
    }

    method AddArtifact(id: string, release: string, platform: string, fileKey: string) returns (error: Error)
      modifies this
      ensures Result(Contents(), error) == CreateArtifact(old(Contents()), id, release, platform, fileKey)
    {
      if release !in releases {
        return ReleaseNotFound;
      }
      if releases[release].status != Draft {
        return ReleaseNotPublishable;
      }
      if exists a :: a in artifacts && artifacts[a].release == release && artifacts[a].platform == platform {
        return ArtifactAlreadyExists;
      }
      artifacts := artifacts[id := Artifact(release, platform, fileKey, NoDigest, Unsigned, None)];
      return Ok;
    }

    method UpdateFile(id: string, fileKey: string, sha256: Digest) returns (error: Error)
      modifies this
      ensures Result(Contents(), error) == UpdateArtifactFile(old(Contents()), id, fileKey, sha256)
    {
      if id !in artifacts || artifacts[id].release !in releases {
        return ArtifactNotFound;
      }
      if releases[artifacts[id].release].status != Draft {
        return ReleaseNotPublishable;
      }
      artifacts := artifacts[id := artifacts[id].(fileKey := fileKey, sha256 := sha256).Unsign()];
      return Ok;
    }

    method UpdateSignature(id: string, sig: Signature, key: string) returns (error: Error)
      modifies this
      ensures Result(Contents(), error) == UpdateArtifactSignature(old(Contents()), id, sig, key)
    {
      if id !in artifacts || artifacts[id].release !in releases {
        return ArtifactNotFound;
      }
      if releases[artifacts[id].release].status != Draft {
        return ReleaseNotPublishable;
      }
      artifacts := artifacts[id := artifacts[id].(sig := sig, signingKey := Some(key))];
      return Ok;
    }

    method ClearSignatures(id: string) returns (error: Error)
      modifies this
      ensures Result(Contents(), error) == ClearReleaseSignatures(old(Contents()), id)
    {
      if id !in releases {
        return ReleaseNotFound;
      }
      if releases[id].status != Draft {
        return ReleaseNotPublishable;
      }
      artifacts := map a | a in artifacts ::
        if artifacts[a].release == id then artifacts[a].Unsign() else artifacts[a];
      return Ok;
    }

    method RemoveArtifact(id: string) returns (fileKey: string, error: Error)
      modifies this
      ensures Result(Contents(), error) == DeleteArtifact(old(Contents()), id)
      ensures error == Ok ==> id in old(artifacts) && fileKey == old(artifacts)[id].fileKey
      ensures error != Ok ==> fileKey == ""
    {
      if id !in artifacts || artifacts[id].release !in releases {
        return "", ArtifactNotFound;
      }
      if releases[artifacts[id].release].status != Draft {
        return "", ReleaseNotPublishable;
      }
      fileKey, error := artifacts[id].fileKey, Ok;
      artifacts := artifacts - {id};
    }

    method CreateKey(id: string, product: string) returns (error: Error)
      modifies this
      ensures Result(Contents(), error) == CreateSigningKey(old(Contents()), id, product)
    {
      if exists k :: k in keys && keys[k].product == product && keys[k].active {
        return SigningKeyAlreadyActive;
      }
      keys := keys[id := SigningKey(product, true)];
      return Ok;
    }

    method RotateKey(id: string, product: string) returns (error: Error)
      modifies this
      ensures Result(Contents(), error) == RotateSigningKey(old(Contents()), id, product)
      ensures error == Ok && id in keys && keys[id] == SigningKey(product, true)
      ensures forall k :: k in keys && keys[k].product == product && keys[k].active ==> k == id
      ensures forall k :: k in old(keys) && k != id ==>
        k in keys && keys[k].product == old(keys)[k].product
        && (old(keys)[k].product != product ==> keys[k] == old(keys)[k])
    {
      keys := map k | k in keys ::
        if keys[k].product == product && keys[k].active then keys[k].(active := false) else keys[k];
      keys := keys[id := SigningKey(product, true)];
      assert keys == RotateSigningKey(old(Contents()), id, product).db.keys;
      return Ok;
    }

    method DeactivateKey(id: string) returns (error: Error)
      modifies this
      ensures Result(Contents(), error) == DeactivateSigningKey(old(Contents()), id)
    {
      if id in keys && keys[id].active {
        keys := keys[id := keys[id].(active := false)];
        return Ok;
      }
      return if id in keys then SigningKeyAlreadyInactive else SigningKeyNotFound;
    }
  }

  // ─── Laws of single operations ───

  /**
   With nothing in between, the refusal names the precondition that failed, and the generic refusal means "not a
   draft".
   */
  lemma RefusalIsExact(db: Db, id: string, requireSignatures: bool, key: string)
    ensures var e := PublishRelease(db, id, requireSignatures, key).error;
      && (e == Ok <==> Publishable(db, id, requireSignatures, key))
      && (e == ReleaseNotFound <==> id !in db.releases)
      && (e == ReleaseNotPublishable <==> id in db.releases && !IsDraft(db, id))
      && (e == ReleaseNoArtifacts <==> IsDraft(db, id) && !HasArtifact(db, id))
      && (e == ReleaseArtifactsNotReady <==> IsDraft(db, id) && HasArtifact(db, id) && !AllUploaded(db, id))
      && (e == ReleaseArtifactsNotSigned <==>
            IsDraft(db, id) && HasArtifact(db, id) && AllUploaded(db, id)
            && requireSignatures && !AllSignedBy(db, id, key))
  {
  }
}
