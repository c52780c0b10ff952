/**
 The run behind the condition in Publishing.SignatureCoversIff: an upload finalized between
 Publish's reading of the bytes and its signature write ships with a signature over other bytes.
 */
module PublishingLimits {
  import opened Wrappers
  import opened ReleaseStore
  import opened Publishing

  ghost predicate Leads(s: State, ls: seq<Label>, t: State) {
    Runs(s, ls) && Final(s, ls) == t
  }

  lemma {:induction false} LeadsThen(s: State, ls: seq<Label>, t: State, l: Label, u: State)
    requires Leads(s, ls, t) && Enabled(t, l) && Step(t, l) == u
    ensures Leads(s, ls + [l], u)
    decreases ls
  {
    if ls == [] {
      assert [l][1..] == [];
    } else {
      assert (ls + [l])[1..] == ls[1..] + [l];
      LeadsThen(Step(s, ls[0]), ls[1..], t, l, u);
    }
  }

  const KEYS := map["k" := SigningKey("p", true)]
  const DRAFT := map["r" := Release("p", "1.0.0", "stable", Draft)]
  const LIVE := map["r" := Release("p", "1.0.0", "stable", Published)]
  const SNAPS := [Snap("a", "f", Sha256Of("old"))]

  function Upload1(blob: string, sig: Signature, key: Option<string>): Artifact {
    Artifact("r", "linux-x64", "f", Sha256Of(blob), sig, key)
  }

  /** One product with one key and one draft with one artifact, whose stored bytes are `blob`. */
  function With(artifact: Artifact, blob: string, workers: map<nat, Pc>): State {
    State(Db(DRAFT, map["a" := artifact], KEYS), map["f" := blob], {"p"}, {"k", "r", "a"}, workers)
  }

  function Created(): seq<Label> {
    [] + [Admin(CreateKey("k", "p"))] + [Admin(CreateRelease("r", "p", "1.0.0", "stable"))]
  }

  function SetUp(): seq<Label> {
    Created() + [Admin(CreateArtifact("a", "r", "linux-x64", "f"))] + [Upload("f", "old")]
      + [Admin(Finalize("a", "f", "old"))]
  }

  const CREATED := State(Db(DRAFT, map[], KEYS), map[], {"p"}, {"k", "r"}, map[])

  lemma CreatedLeads()
    ensures Leads(Start({"p"}), Created(), CREATED)
  {
    var s := Start({"p"});
    var s1 := State(Db(map[], map[], KEYS), map[], {"p"}, {"k"}, map[]);
    LeadsThen(s, [], s, Admin(CreateKey("k", "p")), s1);
    LeadsThen(s, [] + [Admin(CreateKey("k", "p"))], s1, Admin(CreateRelease("r", "p", "1.0.0", "stable")), CREATED);
  }

  const EMPTY := Artifact("r", "linux-x64", "f", NoDigest, Unsigned, None)

  lemma UploadedLeads(r: seq<Label>)
    ensures Leads(Start({"p"}), r, CREATED) ==>
      Leads(Start({"p"}), r + [Admin(CreateArtifact("a", "r", "linux-x64", "f"))] + [Upload("f", "old")],
      With(EMPTY, "old", map[]))
  {
    if Leads(Start({"p"}), r, CREATED) {
      var s3 := State(Db(DRAFT, map["a" := EMPTY], KEYS), map[], {"p"}, {"k", "r", "a"}, map[]);
      LeadsThen(Start({"p"}), r, CREATED, Admin(CreateArtifact("a", "r", "linux-x64", "f")), s3);
      LeadsThen(Start({"p"}), r + [Admin(CreateArtifact("a", "r", "linux-x64", "f"))], s3,
        Upload("f", "old"), With(EMPTY, "old", map[]));
    }
  }

  lemma SetUpLeads()
    ensures Leads(Start({"p"}), SetUp(), With(Upload1("old", Unsigned, None), "old", map[]))
  {
    CreatedLeads();
    UploadedLeads(Created());
    FinalizedLeads(Created() + [Admin(CreateArtifact("a", "r", "linux-x64", "f"))] + [Upload("f", "old")]);
  }

  lemma FinalizedLeads(r: seq<Label>)
    ensures Leads(Start({"p"}), r, With(EMPTY, "old", map[])) ==>
      Leads(Start({"p"}), r + [Admin(Finalize("a", "f", "old"))],
      With(Upload1("old", Unsigned, None), "old", map[]))
  {
    if Leads(Start({"p"}), r, With(EMPTY, "old", map[])) {
      LeadsThen(Start({"p"}), r, With(EMPTY, "old", map[]), Admin(Finalize("a", "f", "old")),
        With(Upload1("old", Unsigned, None), "old", map[]));
    }
  }

  /** The draft with its one finalized artifact, and a Publish call at `pc`. */
  function Ready(pc: Pc): State { With(Upload1("old", Unsigned, None), "old", map[0 := pc]) }

  /** Publish reads the release and finds its file in storage. */
  lemma ReadLeads(r: seq<Label>)
    ensures Leads(Start({"p"}), r, With(Upload1("old", Unsigned, None), "old", map[])) ==>
      Leads(Start({"p"}), r + [BeginPublish(0, "r")] + [Exec(0, SNAPS)] + [Exec(0, [])] + [Exec(0, [])],
      Ready(ReadKey("r", "p", SNAPS)))
  {
    if Leads(Start({"p"}), r, With(Upload1("old", Unsigned, None), "old", map[])) {
      var s := Start({"p"});
      LeadsThen(s, r, With(Upload1("old", Unsigned, None), "old", map[]), BeginPublish(0, "r"),
        Ready(ReadRelease("r")));
      SnapshotTaken();
      LeadsThen(s, r + [BeginPublish(0, "r")], Ready(ReadRelease("r")), Exec(0, SNAPS),
        Ready(ProbeFiles("r", "p", SNAPS, SNAPS)));
      ProbedLeads(r + [BeginPublish(0, "r")] + [Exec(0, SNAPS)]);
    }
  }

  lemma SnapshotTaken()
    ensures Enabled(Ready(ReadRelease("r")), Exec(0, SNAPS))
    ensures Step(Ready(ReadRelease("r")), Exec(0, SNAPS)) == Ready(ProbeFiles("r", "p", SNAPS, SNAPS))
  {
    SnapsAreCurrent();
    var t := Ready(ReadRelease("r"));
    assert t.db.artifacts["a"].IsUploaded();
    assert HasArtifact(t.db, "r");
  }

  lemma SnapsAreCurrent()
    ensures Snapshots(Ready(ReadRelease("r")).db, "r", SNAPS)
  {
    assert SNAPS[0] == Snap("a", "f", Sha256Of("old"));
  }

  lemma ProbedLeads(r: seq<Label>)
    ensures Leads(Start({"p"}), r, Ready(ProbeFiles("r", "p", SNAPS, SNAPS))) ==>
      Leads(Start({"p"}), r + [Exec(0, [])] + [Exec(0, [])], Ready(ReadKey("r", "p", SNAPS)))
  {
    if Leads(Start({"p"}), r, Ready(ProbeFiles("r", "p", SNAPS, SNAPS))) {
      assert SNAPS[1..] == [];
      LeadsThen(Start({"p"}), r, Ready(ProbeFiles("r", "p", SNAPS, SNAPS)), Exec(0, []),
        Ready(ProbeFiles("r", "p", SNAPS, [])));
      LeadsThen(Start({"p"}), r + [Exec(0, [])], Ready(ProbeFiles("r", "p", SNAPS, [])), Exec(0, []),
        Ready(ReadKey("r", "p", SNAPS)));
    }
  }

  /** Publish resolves the key and reads the bytes it will sign. */
  lemma KeyLeads(r: seq<Label>)
    ensures Leads(Start({"p"}), r, Ready(ReadKey("r", "p", SNAPS))) ==>
      Leads(Start({"p"}), r + [Exec(0, [])] + [Exec(0, [])], Ready(WriteSignature("r", SNAPS, "k", "old")))
  {
    if Leads(Start({"p"}), r, Ready(ReadKey("r", "p", SNAPS))) {
      var t := Ready(ReadKey("r", "p", SNAPS));
      assert ActiveKeyOf(t.db, "p", "k");
      assert ActiveKey(t.db, "p") == "k";
      LeadsThen(Start({"p"}), r, t, Exec(0, []), Ready(SignBytes("r", SNAPS, "k")));
      LeadsThen(Start({"p"}), r + [Exec(0, [])], Ready(SignBytes("r", SNAPS, "k")), Exec(0, []),
        Ready(WriteSignature("r", SNAPS, "k", "old")));
    }
  }

  /** Another upload of the same artifact is stored and finalized. */
  lemma ReplaceLeads(r: seq<Label>)
    ensures Leads(Start({"p"}), r, Ready(WriteSignature("r", SNAPS, "k", "old"))) ==>
      Leads(Start({"p"}), r + [Upload("f", "new")] + [Admin(Finalize("a", "f", "new"))],
      With(Upload1("new", Unsigned, None), "new", map[0 := WriteSignature("r", SNAPS, "k", "old")]))
  {
    if Leads(Start({"p"}), r, Ready(WriteSignature("r", SNAPS, "k", "old"))) {
      var s := Start({"p"});
      var ws := map[0 := WriteSignature("r", SNAPS, "k", "old")];
      LeadsThen(s, r, With(Upload1("old", Unsigned, None), "old", ws), Upload("f", "new"),
        With(Upload1("old", Unsigned, None), "new", ws));
      LeadsThen(s, r + [Upload("f", "new")], With(Upload1("old", Unsigned, None), "new", ws),
        Admin(Finalize("a", "f", "new")), With(Upload1("new", Unsigned, None), "new", ws));
    }
  }

  /** The signature over the old bytes is written onto the new digest. */
  lemma WriteLeads(r: seq<Label>)
    ensures Leads(Start({"p"}), r,
      With(Upload1("new", Unsigned, None), "new", map[0 := WriteSignature("r", SNAPS, "k", "old")])) ==>
      Leads(Start({"p"}), r + [Exec(0, [])],
      With(Upload1("new", Signed("k", "old"), Some("k")), "new", map[0 := SignBytes("r", [], "k")]))
  {
    if Leads(Start({"p"}), r,
      With(Upload1("new", Unsigned, None), "new", map[0 := WriteSignature("r", SNAPS, "k", "old")])) {
      var t := With(Upload1("new", Unsigned, None), "new", map[0 := WriteSignature("r", SNAPS, "k", "old")]);
      var u := With(Upload1("new", Signed("k", "old"), Some("k")), "new", map[0 := SignBytes("r", [], "k")]);
      assert SNAPS[0].id == "a" && SNAPS[1..] == [];
      assert Step(t, Exec(0, [])).db.artifacts == u.db.artifacts;
      LeadsThen(Start({"p"}), r, t, Exec(0, []), u);
    }
  }

  /** The gate finds every artifact signed with the key and lets the release through. */
  lemma GateLeads(r: seq<Label>)
    ensures Leads(Start({"p"}), r,
      With(Upload1("new", Signed("k", "old"), Some("k")), "new", map[0 := SignBytes("r", [], "k")])) ==>
      Leads(Start({"p"}), r + [Exec(0, [])] + [Exec(0, [])],
      With(Upload1("new", Signed("k", "old"), Some("k")), "new", map[]).(db :=
        Db(LIVE, map["a" := Upload1("new", Signed("k", "old"), Some("k"))], KEYS)))
  {
    if Leads(Start({"p"}), r,
      With(Upload1("new", Signed("k", "old"), Some("k")), "new", map[0 := SignBytes("r", [], "k")])) {
      var s := Start({"p"});
      var a := Upload1("new", Signed("k", "old"), Some("k"));
      var t2 := With(a, "new", map[0 := Gate("r", Some("k"))]);
      LeadsThen(s, r, With(a, "new", map[0 := SignBytes("r", [], "k")]), Exec(0, []), t2);
      assert HasArtifact(t2.db, "r") by {
        assert "a" in t2.db.artifacts;
      }
      LeadsThen(s, r + [Exec(0, [])], t2, Exec(0, []), With(a, "new", map[]).(db := Db(LIVE, map["a" := a], KEYS)));
    }
  }

  ghost function RacingRun(): seq<Label> {
    SetUp() + [BeginPublish(0, "r")] + [Exec(0, SNAPS)] + [Exec(0, [])] + [Exec(0, [])] + [Exec(0, [])] + [Exec(0, [])]
      + [Upload("f", "new")] + [Admin(Finalize("a", "f", "new"))]
      + [Exec(0, [])] + [Exec(0, [])] + [Exec(0, [])]
  }

  /** A shipped release, signed throughout as the gate demands, whose signature does not cover the shipped bytes. */
  lemma FinalizeDuringSigningShipsAWrongSignature()
    ensures Runs(Start({"p"}), RacingRun())
    ensures var db := Final(Start({"p"}), RacingRun()).db;
      Shipped(db, "r") && SignedWith(db, "r", "k") && "a" in db.artifacts && !Covers(db.artifacts["a"])
  {
    SetUpLeads();
    var r := SetUp();
    ReadLeads(r);
    r := r + [BeginPublish(0, "r")] + [Exec(0, SNAPS)] + [Exec(0, [])] + [Exec(0, [])];
    KeyLeads(r);
    r := r + [Exec(0, [])] + [Exec(0, [])];
    ReplaceLeads(r);
    r := r + [Upload("f", "new")] + [Admin(Finalize("a", "f", "new"))];
    WriteLeads(r);
    GateLeads(r + [Exec(0, [])]);
  }
}
