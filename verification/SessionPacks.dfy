/**
 packages/core/src/session-continuity-store.ts and packages/core/src/projection-engine/session-pack.ts: compiling a
 session pack for an active checkpoint. The lock makes the compilations serial; each can stop after any write.
 */
module SessionPacks {
  import opened Prelude
  import opened GovernanceRecords
  import C = SessionCheckpoints

  datatype Adapter = OpenClaw | Hermes {
    function Name(): string { if OpenClaw? then "openclaw" else "hermes" }
  }

  /** derived/<adapter>/session-packs/<session>/<artifact id>.md */
  datatype Path = Path(adapter: Adapter, session: string, artifact: string)

  datatype Artifact = Artifact(id: string, adapter: Adapter, createdAt: int, path: Path, upstream: seq<string>)

  datatype Manifest = Manifest(
    id: string,
    adapter: Adapter,
    createdAt: int,
    profile: string,
    audience: string,
    checkpointRef: string,
    context: C.Context,
    generation: int,
    policyVersion: string,
    policySnapshot: Option<string>,
    artifactRefs: seq<string>,
    upstream: seq<string>)

  /** The text of a pack; writeFile can be cut short. */
  datatype Text = TornText | PackText(checkpoint: string)

  datatype ArtifactKey = ArtifactKey(adapter: Adapter, id: string)

  datatype Packs = Packs(texts: map<Path, Text>, artifacts: map<ArtifactKey, Artifact>, manifests: map<string,
                         Manifest>)

  datatype Input = Input(
    id: Option<string>,
    artifactId: Option<string>,
    now: int,
    adapter: Adapter,
    checkpointId: string,
    instance: Option<string>,
    session: Option<string>,
    thread: Option<string>,
    audience: Option<string>)

  // ---------------------------------------------------------------- choosing the checkpoint

  predicate Agrees(wanted: Option<string>, actual: string) { wanted.None? || wanted.value == actual }

  predicate Matches(c: C.Checkpoint, input: Input) {
    && c.status == C.Active && Agrees(input.instance, c.context.instance)
    && Agrees(input.session, c.context.session) && Agrees(input.thread, c.context.thread)
  }

  function MatchingIds(store: C.Store, input: Input): set<string> { set id | id in store && Matches(store[id], input) }

  /** By id when one is given, else the only active checkpoint that passes the filter. */
  ghost function SelectCheckpoint(store: C.Store, input: Input): Result<C.Checkpoint> {
    if input.checkpointId != "" then
      if input.checkpointId in store && store[input.checkpointId].status == C.Active then Ok(store[input.checkpointId])
      else Thrown("no active checkpoint of this id")
    else
      var matches := MatchingIds(store, input);
      if matches == {} then Thrown("no active checkpoint")
      else if |matches| > 1 then Thrown("multiple active checkpoints match")
      else var id :| id in matches; Ok(store[id])
  }

  lemma OnlyMember(ids: set<string>, a: string, b: string)
    requires |ids| == 1 && a in ids && b in ids
    ensures a == b
  {
    assert a != b ==> |ids - {a}| == 0 && b in ids - {a};
  }

  /** A filter that names a whole context succeeds exactly when one epoch of it has an active checkpoint. */
  lemma FullFilterSelects(store: C.Store, input: Input, id: string)
    requires C.Sound(store) && input.checkpointId == "" && id in store && Matches(store[id], input)
    requires input.instance.Some? && input.session.Some? && input.thread.Some?
    ensures SelectCheckpoint(store, input) == Ok(store[id]) <==>
            forall other :: other in store && Matches(store[other], input) ==>
              store[other].context.epoch == store[id].context.epoch
    ensures SelectCheckpoint(store, input).Ok? ==> SelectCheckpoint(store, input) == Ok(store[id])
  {
    var matches := MatchingIds(store, input);
    assert id in matches;
    if |matches| == 1 {
      forall other | other in store && Matches(store[other], input) ensures other == id {
        assert other in matches;
        OnlyMember(matches, other, id);
      }
      assert matches == {id};
    }
    if forall other :: other in store && Matches(store[other], input) ==>
      store[other].context.epoch == store[id].context.epoch {
      forall other | other in matches ensures other == id {
        assert C.Competes(store[other], store[id].context);
      }
      assert matches == {id};
    }
  }

  /** An active checkpoint that agrees with every ref the filter gives. */
  ghost predicate PassesFilter(c: C.Checkpoint, input: Input) {
    && c.status == C.Active
    && (input.instance.Some? ==> c.context.instance == input.instance.value)
    && (input.session.Some? ==> c.context.session == input.session.value)
    && (input.thread.Some? ==> c.context.thread == input.thread.value)
  }

  /** The call selects an active checkpoint by its id, or the only one that passes the filter. */
  ghost predicate IsSelected(store: C.Store, input: Input, c: C.Checkpoint) {
    && c.id in store && store[c.id] == c && c.status == C.Active
    && if input.checkpointId != "" then c.id == input.checkpointId
       else forall id :: id in store ==> (PassesFilter(store[id], input) <==> id == c.id)
  }

  lemma SelectsExactly(store: C.Store, input: Input, c: C.Checkpoint)
    requires C.Keyed(store)
    ensures SelectCheckpoint(store, input) == Ok(c) <==> IsSelected(store, input, c)
  {
    if input.checkpointId == "" {
      var matches := MatchingIds(store, input);
      forall id | id in store ensures id in matches <==> PassesFilter(store[id], input) {}
      if IsSelected(store, input, c) {
        assert matches == {c.id};
      }
      if SelectCheckpoint(store, input) == Ok(c) {
        forall id | id in matches ensures id == c.id { OnlyMember(matches, id, c.id); }
      }
    }
  }

  // ---------------------------------------------------------------- keys

  predicate ColonFree(s: string) { ':' !in s }

  function Join(parts: seq<string>): string {
    if parts == [] then "" else if |parts| == 1 then parts[0] else parts[0] + ":" + Join(parts[1..])
  }

  /** The text before the first colon. */
  function Head(s: string): string { if s == "" || s[0] == ':' then "" else [s[0]] + Head(s[1..]) }

  lemma {:induction false} HeadOfJoin(a: string, rest: string)
    requires ColonFree(a)
    ensures Head(a + ":" + rest) == a
  {
    if a != "" {
      assert (a + ":" + rest)[1..] == a[1..] + ":" + rest;
      HeadOfJoin(a[1..], rest);
    }
  }

  lemma JoinHead(a: string, rest: string, b: string, more: string)
    requires ColonFree(a) && ColonFree(b) && a + ":" + rest == b + ":" + more
    ensures a == b && rest == more
  {
    HeadOfJoin(a, rest);
    HeadOfJoin(b, more);
    assert rest == (a + ":" + rest)[|a| + 1..] && more == (b + ":" + more)[|b| + 1..];
  }

  lemma {:induction false} JoinIsInjective(a: seq<string>, b: seq<string>)
    requires |a| == |b| && Join(a) == Join(b)
    requires forall s :: s in a || s in b ==> ColonFree(s)
    ensures a == b
    decreases |a|
  {
    if |a| > 1 {
      assert a[0] in a && b[0] in b;
      JoinHead(a[0], Join(a[1..]), b[0], Join(b[1..]));
      JoinIsInjective(a[1..], b[1..]);
      assert a == [a[0]] + a[1..] && b == [b[0]] + b[1..];
    }
  }

  function GenerationText(n: int): string { if n < 0 then "g-" + Decimal(-n) else "g" + Decimal(n) }

  function StableKey(adapter: Adapter, c: C.Checkpoint): string {
    Join([adapter.Name(), c.id, c.context.instance, c.context.session, c.context.thread, c.context.epoch,
          GenerationText(c.generation)])
  }

  /** Safe ids have letters, digits, dot, underscore and dash, so no colon. */
  ghost predicate SafeIsColonFree(safe: string -> bool) { forall s :: safe(s) ==> ColonFree(s) }

  lemma GenerationTextIsInjective(m: nat, n: nat)
    requires GenerationText(m) == GenerationText(n)
    ensures m == n && ColonFree(GenerationText(m))
  {
    DecimalRoundTrip(m);
    DecimalRoundTrip(n);
    assert GenerationText(m)[1..] == Decimal(m) && GenerationText(n)[1..] == Decimal(n);
    assert ':' !in DIGITS;
  }

  /** Distinct valid checkpoints, or distinct adapters, have distinct keys. */
  lemma StableKeyIsInjective(a: Adapter, c: C.Checkpoint, b: Adapter, d: C.Checkpoint, safe: string -> bool)
    requires SafeIsColonFree(safe) && C.ValidCheckpoint(c, safe) && C.ValidCheckpoint(d, safe)
    requires StableKey(a, c) == StableKey(b, d)
    ensures a == b && c.id == d.id && c.context == d.context && c.generation == d.generation
  {
    var left := [a.Name(), c.id, c.context.instance, c.context.session, c.context.thread, c.context.epoch,
                 GenerationText(c.generation)];
    var right := [b.Name(), d.id, d.context.instance, d.context.session, d.context.thread, d.context.epoch,
                  GenerationText(d.generation)];
    GenerationTextIsInjective(c.generation, c.generation);
    GenerationTextIsInjective(d.generation, d.generation);
    KeyPartsColonFree(left, a, c, safe);
    KeyPartsColonFree(right, b, d, safe);
    JoinIsInjective(left, right);
    assert left[0] == right[0] && left[1] == right[1] && left[2] == right[2] && left[3] == right[3]
           && left[4] == right[4]
        && left[5] == right[5] && left[6] == right[6];
    GenerationTextIsInjective(c.generation, d.generation);
    assert OpenClaw.Name()[0] != Hermes.Name()[0];
  }

  lemma KeyPartsColonFree(parts: seq<string>, a: Adapter, c: C.Checkpoint, safe: string -> bool)
    requires SafeIsColonFree(safe) && C.ValidCheckpoint(c, safe) && ColonFree(GenerationText(c.generation))
    requires parts
          == [a.Name(), c.id, c.context.instance, c.context.session, c.context.thread, c.context.epoch,
              GenerationText(c.generation)]
    ensures forall s :: s in parts ==> ColonFree(s)
  {
    assert ColonFree(OpenClaw.Name()) && ColonFree(Hermes.Name());
  }

  // ---------------------------------------------------------------- compiling

  const PROFILE := "session_resume_v2"

  function CompactId(prefix: string, key: string, hash: string -> string): string { prefix + "_" + hash(key) }

  function ManifestId(input: Input, c: C.Checkpoint, hash: string -> string): string {
    if input.id.Some? then input.id.value
    else CompactId("pmf_session_resume_" + input.adapter.Name(), StableKey(input.adapter, c), hash)
  }

  function ArtifactId(input: Input, c: C.Checkpoint, hash: string -> string): string {
    if input.artifactId.Some? then input.artifactId.value
    else CompactId("part_session_resume_" + input.adapter.Name(), StableKey(input.adapter, c), hash)
  }

  function AudienceOf(input: Input): string { if input.audience.Some? then input.audience.value else "runtime" }

  function ArtifactOf(id: string, adapter: Adapter, c: C.Checkpoint, now: int): Artifact {
    Artifact(id, adapter, now, Path(adapter, c.context.session, id), Deduplicated([c.id] + c.upstream))
  }

  function ManifestOf(id: string, artifactId: string, adapter: Adapter, c: C.Checkpoint, audience: string,
                      now: int): Manifest
  {
    Manifest(id, adapter, now, PROFILE, audience, c.id, c.context, c.generation, c.policyVersion, c.policySnapshot,
             [artifactId], Deduplicated([c.id] + c.upstream))
  }

  /** `sameSessionPackManifestContract`; the context stands for the context refs and the epoch. */
  predicate SameManifest(existing: Manifest, next: Manifest) {
    existing.(id := next.id, createdAt := next.createdAt) == next
  }

  predicate SameArtifact(existing: Artifact, next: Artifact) {
    existing.(id := next.id, createdAt := next.createdAt) == next
  }

  datatype Plan = Stored(artifact: Artifact, manifest: Manifest) | Unwritten(artifact: Artifact, manifest: Manifest)

  function PlanPack(packs: Packs, input: Input, c: C.Checkpoint, hash: string -> string): Result<Plan> {
    var artifact := ArtifactOf(ArtifactId(input, c, hash), input.adapter, c, input.now);
    var manifest := ManifestOf(ManifestId(input, c, hash), artifact.id, input.adapter, c, AudienceOf(input), input.now);
    var key := ArtifactKey(input.adapter, artifact.id);
    if manifest.id in packs.manifests
      && !SameManifest(packs.manifests[manifest.id], manifest) then Thrown("manifest contract")
    else if key in packs.artifacts && !SameArtifact(packs.artifacts[key], artifact) then Thrown("artifact contract")
    else if manifest.id in packs.manifests && key !in packs.artifacts then Thrown("manifest without artifact")
    else if manifest.id !in packs.manifests && key in packs.artifacts then Thrown("artifact without manifest")
    else if manifest.id in packs.manifests then Ok(Stored(packs.artifacts[key], packs.manifests[manifest.id]))
    else Ok(Unwritten(artifact, manifest))
  }

  /**
   The store after the first `done` of: begin the text, finish it, write the artifact record, write the manifest
   record.
   */
  function WritePack(packs: Packs, artifact: Artifact, manifest: Manifest, done: nat): Packs {
    var text := if done == 0 then packs.texts
                else packs.texts[artifact.path := if done == 1 then TornText else PackText(manifest.checkpointRef)];
    Packs(text,
          if done >= 3 then packs.artifacts[ArtifactKey(artifact.adapter, artifact.id) := artifact]
          else packs.artifacts,
          if done >= 4 then packs.manifests[manifest.id := manifest] else packs.manifests)
  }

  const ALL_WRITES := 4

  /** A compilation for a checkpoint that stopped after `done` writes. */
  function AfterPack(packs: Packs, input: Input, c: C.Checkpoint, hash: string -> string, done: nat): Packs {
    var plan := PlanPack(packs, input, c, hash);
    if plan.Ok? && plan.value.Unwritten? then WritePack(packs, plan.value.artifact, plan.value.manifest, done)
    else packs
  }

  // ---------------------------------------------------------------- what is written

  /** The text that default ids are the hash of. */
  ghost predicate IsKeyText(key: string, adapter: Adapter, c: C.Checkpoint) {
    c.generation >= 0
    && var epoch := c.context.epoch + ":" + ("g" + Decimal(c.generation));
       var refs := c.context.instance + ":" + (c.context.session + ":" + (c.context.thread + ":" + epoch));
       key == (if adapter == Hermes then "hermes" else "openclaw") + ":" + (c.id + ":" + refs)
  }

  /** The checkpoint and what it came from, each once. */
  ghost predicate AreSources(refs: seq<string>, c: C.Checkpoint) {
    && (forall r :: r in refs <==> r == c.id || r in c.upstream)
    && (forall i, j :: 0 <= i < j < |refs| ==> refs[i] != refs[j])
  }

  /** Everything but the id and the time that a pack of the checkpoint records. */
  ghost predicate IsManifestOf(m: Manifest, artifact: string, input: Input, c: C.Checkpoint) {
    && m.adapter == input.adapter && m.profile == "session_resume_v2"
    && m.audience == (if input.audience.Some? then input.audience.value else "runtime")
    && m.checkpointRef == c.id && m.context == c.context && m.generation == c.generation
    && m.policyVersion == c.policyVersion && m.policySnapshot == c.policySnapshot
    && m.artifactRefs == [artifact] && AreSources(m.upstream, c)
  }

  ghost predicate IsArtifactOf(a: Artifact, id: string, input: Input, c: C.Checkpoint) {
    a.adapter == input.adapter && a.path == Path(input.adapter, c.context.session, id) && AreSources(a.upstream, c)
  }

  /** The given id, or a default one that belongs to the checkpoint. */
  ghost predicate IsIdFor(id: string, given: Option<string>, prefix: string, input: Input, c: C.Checkpoint,
                          hash: string -> string)
  {
    match given
    case Some(g) => id == g
    case None =>
      exists key :: IsKeyText(key, input.adapter, c)
                    && id == prefix + (if input.adapter == Hermes then "hermes" else "openclaw") + "_" + hash(key)
  }

  lemma KeyTextExactly(adapter: Adapter, c: C.Checkpoint)
    requires c.generation >= 0
    ensures IsKeyText(StableKey(adapter, c), adapter, c)
  {
    var g, x := GenerationText(c.generation), c.context;
    assert Join([g]) == g;
    JoinTwo(x.epoch, [g]);
    JoinTwo(x.thread, [x.epoch, g]);
    JoinTwo(x.session, [x.thread, x.epoch, g]);
    JoinTwo(x.instance, [x.session, x.thread, x.epoch, g]);
    JoinTwo(c.id, [x.instance, x.session, x.thread, x.epoch, g]);
    JoinTwo(adapter.Name(), [c.id, x.instance, x.session, x.thread, x.epoch, g]);
    hide Join;
    assert [x.epoch] + [g] == [x.epoch, g];
    assert [x.thread] + [x.epoch, g] == [x.thread, x.epoch, g];
    assert [x.session] + [x.thread, x.epoch, g] == [x.session, x.thread, x.epoch, g];
    assert [x.instance] + [x.session, x.thread, x.epoch, g] == [x.instance, x.session, x.thread, x.epoch, g];
    assert [c.id] + [x.instance, x.session, x.thread, x.epoch, g]
        == [c.id, x.instance, x.session, x.thread, x.epoch, g];
    assert [adapter.Name()] + [c.id, x.instance, x.session, x.thread, x.epoch, g]
        == [adapter.Name(), c.id, x.instance, x.session, x.thread, x.epoch, g];
  }

  lemma JoinTwo(first: string, rest: seq<string>)
    requires rest != []
    ensures Join([first] + rest) == first + ":" + Join(rest)
  {
    assert ([first] + rest)[1..] == rest;
  }

  /** The ids, the text and the two records of a new pack, and nothing else, are written. */
  lemma PackExactly(packs: Packs, input: Input, c: C.Checkpoint, hash: string -> string)
    requires c.generation >= 0
    ensures var id, part := ManifestId(input, c, hash), ArtifactId(input, c, hash);
            var key, after := ArtifactKey(input.adapter, part), AfterPack(packs, input, c, hash, 4);
            var plan := PlanPack(packs, input, c, hash);
            && IsIdFor(id, input.id, "pmf_session_resume_", input, c, hash)
            && IsIdFor(part, input.artifactId, "part_session_resume_", input, c, hash)
            && (plan.Ok? && plan.value.Unwritten? <==> id !in packs.manifests && key !in packs.artifacts)
            && if id !in packs.manifests && key !in packs.artifacts
               then
                 && id in after.manifests && IsManifestOf(after.manifests[id], part, input, c)
                 && after.manifests[id].id == id && after.manifests[id].createdAt == input.now
                 && key in after.artifacts && IsArtifactOf(after.artifacts[key], part, input, c)
                 && after.artifacts[key].id == part && after.artifacts[key].createdAt == input.now
                 && after == Packs(packs.texts[Path(input.adapter, c.context.session, part) := PackText(c.id)],
                                   packs.artifacts[key := after.artifacts[key]],
                                   packs.manifests[id := after.manifests[id]])
               else after == packs
  {
    KeyTextExactly(input.adapter, c);
    var key := StableKey(input.adapter, c);
    hide StableKey, IsKeyText, Deduplicated;
    assert input.id.None? ==> IsKeyText(key, input.adapter, c);
    IdExactly(ManifestId(input, c, hash), input.id, "pmf_session_resume_", input, c, hash);
    IdExactly(ArtifactId(input, c, hash), input.artifactId, "part_session_resume_", input, c, hash);
    hide IsIdFor, ManifestId, ArtifactId;
  }

  lemma IdExactly(id: string, given: Option<string>, prefix: string, input: Input, c: C.Checkpoint,
                  hash: string -> string)
    requires IsKeyText(StableKey(input.adapter, c), input.adapter, c)
    requires id == match given
                   case Some(g) => g
                   case None => CompactId(prefix + input.adapter.Name(), StableKey(input.adapter, c), hash)
    ensures IsIdFor(id, given, prefix, input, c, hash)
  {
    hide StableKey, IsKeyText;
  }

  /**
   The stored pack is returned exactly when both records are there and a compilation into an empty store would write
   the same but for ids and times; unless both are missing, anything else throws.
   */
  lemma StoredExactly(packs: Packs, input: Input, c: C.Checkpoint, hash: string -> string)
    ensures var id, key := ManifestId(input, c, hash), ArtifactKey(input.adapter, ArtifactId(input, c, hash));
            var plan, first := PlanPack(packs, input, c, hash), AfterPack(NO_PACKS, input, c, hash, 4);
            && (plan.Ok? && plan.value.Stored? <==>
                  && id in packs.manifests && key in packs.artifacts
                  && id in first.manifests && key in first.artifacts
                  && packs.manifests[id].(id := id, createdAt := input.now) == first.manifests[id]
                  && packs.artifacts[key].(id := key.id, createdAt := input.now) == first.artifacts[key])
            && (plan.Ok? && plan.value.Stored? ==>
                  plan.value.manifest == packs.manifests[id] && plan.value.artifact == packs.artifacts[key])
            && (plan.Thrown? ==> id in packs.manifests || key in packs.artifacts)
  {
    hide ManifestId, ArtifactId, Deduplicated;
  }

  const NO_PACKS := Packs(map[], map[], map[])

  // ---------------------------------------------------------------- the procedure

  /** The derived part of a store; the process dies when `budget` writes have been done. */
  class PackStore {
    var packs: Packs
    var budget: nat

    method ChooseCheckpoint(checkpoints: C.Store, input: Input) returns (chosen: Result<C.Checkpoint>)
      ensures chosen == SelectCheckpoint(checkpoints, input)
    {
      if input.checkpointId != "" {
        if input.checkpointId in checkpoints && checkpoints[input.checkpointId].status == C.Active {
          return Ok(checkpoints[input.checkpointId]);
        }
        return Thrown("no active checkpoint of this id");
      }
      var matches := MatchingIds(checkpoints, input);
      if matches == {} { return Thrown("no active checkpoint"); }
      if |matches| > 1 { return Thrown("multiple active checkpoints match"); }
      var id :| id in matches;
      forall other | other in matches ensures other == id { OnlyMember(matches, other, id); }
      assert matches == {id};
      chosen := Ok(checkpoints[id]);
    }

    method Spend() returns (alive: bool)
      modifies this`budget
      ensures alive == (old(budget) > 0) && budget == if alive then old(budget) - 1 else 0
    {
      alive := budget > 0;
      if alive { budget := budget - 1; }
    }

    method CompileSessionPack(checkpoints: C.Store, input: Input, hash: string -> string)
        returns (result: Result<Plan>, ghost done: nat)
      modifies this
      ensures var chosen := SelectCheckpoint(checkpoints, input);
              if chosen.Thrown? then result.Thrown? && packs == old(packs)
              else
                && packs == AfterPack(old(packs), input, chosen.value, hash, done)
                && (result.Ok? ==> result == PlanPack(old(packs), input, chosen.value, hash) && done == ALL_WRITES)
    {
      hide SelectCheckpoint, PlanPack;
      done := ALL_WRITES;
      var chosen := ChooseCheckpoint(checkpoints, input);
      if chosen.Thrown? { return Thrown(chosen.message), done; }
      var plan := PlanPack(packs, input, chosen.value, hash);
      if plan.Thrown? || plan.value.Stored? { return plan, done; }
      var artifact, manifest := plan.value.artifact, plan.value.manifest;
      var alive := Spend();
      if !alive { return Thrown("stopped"), 0; }
      packs := packs.(texts := packs.texts[artifact.path := TornText]);
      alive := Spend();
      if !alive { return Thrown("stopped"), 1; }
      packs := packs.(texts := packs.texts[artifact.path := PackText(manifest.checkpointRef)]);
      assert packs == WritePack(old(packs), artifact, manifest, 2);
      alive := Spend();
      if !alive { return Thrown("stopped"), 2; }
      packs := packs.(artifacts := packs.artifacts[ArtifactKey(artifact.adapter, artifact.id) := artifact]);
      alive := Spend();
      if !alive { return Thrown("stopped"), 3; }
      packs := packs.(manifests := packs.manifests[manifest.id := manifest]);
      result := plan;
    }
  }

  // ---------------------------------------------------------------- what every state keeps

  predicate Placed(packs: Packs) {
    && (forall k :: k in packs.artifacts ==> PlacedAt(packs.artifacts[k], k))
    && (forall id :: id in packs.manifests ==> packs.manifests[id].id == id)
  }

  predicate PlacedAt(a: Artifact, k: ArtifactKey) {
    a.id == k.id && a.adapter == k.adapter && a.path.adapter == k.adapter && a.path.artifact == k.id
  }

  /** No manifest record without its artifact record, and no artifact record without its whole text. */
  predicate Backed(packs: Packs) {
    && (forall id :: id in packs.manifests ==> BackedManifest(packs, packs.manifests[id]))
    && (forall k :: k in packs.artifacts ==> BackedArtifact(packs, packs.artifacts[k]))
  }

  predicate BackedManifest(packs: Packs, m: Manifest) {
    forall i :: 0 <= i < |m.artifactRefs| ==> ArtifactKey(m.adapter, m.artifactRefs[i]) in packs.artifacts
  }

  predicate BackedArtifact(packs: Packs, a: Artifact) { a.path in packs.texts && packs.texts[a.path].PackText? }

  /** Records are never changed or removed. */
  predicate Keeps(packs: Packs, later: Packs) {
    && (forall k :: k in packs.artifacts ==> k in later.artifacts && later.artifacts[k] == packs.artifacts[k])
    && (forall id :: id in packs.manifests ==> id in later.manifests && later.manifests[id] == packs.manifests[id])
  }

  lemma PackStepIsSafe(packs: Packs, input: Input, c: C.Checkpoint, hash: string -> string, done: nat)
    requires Placed(packs) && Backed(packs)
    ensures var after := AfterPack(packs, input, c, hash, done); Placed(after) && Backed(after) && Keeps(packs, after)
  {
    var plan := PlanPack(packs, input, c, hash);
    if plan.Ok? && plan.value.Unwritten? {
      WriteIsSafe(packs, plan.value.artifact, plan.value.manifest, done);
    }
  }

  lemma WriteIsSafe(packs: Packs, artifact: Artifact, manifest: Manifest, done: nat)
    requires Placed(packs) && Backed(packs)
    requires ArtifactKey(artifact.adapter, artifact.id) !in packs.artifacts && manifest.id !in packs.manifests
    requires PlacedAt(artifact, ArtifactKey(artifact.adapter, artifact.id))
    requires manifest.adapter == artifact.adapter && manifest.artifactRefs == [artifact.id]
    ensures var after := WritePack(packs, artifact, manifest, done);
            Placed(after) && Backed(after) && Keeps(packs, after)
  {
    var after := WritePack(packs, artifact, manifest, done);
    forall k | k in after.artifacts ensures BackedArtifact(after, after.artifacts[k]) {
      if k in packs.artifacts {
        assert BackedArtifact(packs, packs.artifacts[k]) && PlacedAt(packs.artifacts[k], k);
      }
    }
    forall id | id in after.manifests ensures BackedManifest(after, after.manifests[id]) {
      if id in packs.manifests { assert BackedManifest(packs, packs.manifests[id]); }
    }
  }

  // ---------------------------------------------------------------- runs of creations and compilations

  datatype State = State(checkpoints: C.Store, packs: Packs)

  datatype Event = Create(creation: C.Creation) | Compile(input: Input, checkpoint: C.Checkpoint, done: nat)

  ghost predicate Possible(s: State, e: Event, safe: string -> bool) {
    match e
    case Create(c) => C.Legal(s.checkpoints, c, safe)
    case Compile(input, c, _) => SelectCheckpoint(s.checkpoints, input) == Ok(c)
  }

  function Next(s: State, e: Event, hash: string -> string): State {
    match e
    case Create(c) => s.(checkpoints := C.After(s.checkpoints, c))
    case Compile(input, c, done) => s.(packs := AfterPack(s.packs, input, c, hash, done))
  }

  ghost predicate Run(s: State, events: seq<Event>, safe: string -> bool, hash: string -> string)
    decreases |events|
  {
    events == [] || (Possible(s, events[0], safe) && Run(Next(s, events[0], hash), events[1..], safe, hash))
  }

  function Final(s: State, events: seq<Event>, hash: string -> string): State
    decreases |events|
  {
    if events == [] then s else Final(Next(s, events[0], hash), events[1..], hash)
  }

  /**
   In every reachable state, stops included, each manifest has its artifact and each artifact its text; records stay.
   */
  lemma {:induction false} PacksAreBackedAndLasting(s: State, events: seq<Event>, hash: string -> string)
    requires Placed(s.packs) && Backed(s.packs)
    ensures var final := Final(s, events, hash).packs; Placed(final) && Backed(final) && Keeps(s.packs, final)
    decreases |events|
  {
    hide Placed, Backed, AfterPack;
    if events != [] {
      if events[0].Compile? {
        PackStepIsSafe(s.packs, events[0].input, events[0].checkpoint, hash, events[0].done);
      }
      PacksAreBackedAndLasting(Next(s, events[0], hash), events[1..], hash);
    }
  }

  // ---------------------------------------------------------------- calling again

  /** The call asks for the pack of the same checkpoint facts under the same ids. */
  predicate AsksForTheSame(input: Input, c: C.Checkpoint, again: Input, d: C.Checkpoint) {
    again.id == input.id && again.artifactId == input.artifactId && again.adapter == input.adapter && C.SameFacts(c, d)
  }

  /**
   Whatever happens after a compilation that finished, the same call, by whatever clock, returns what was stored then,
   unless it asks for another audience: then it throws.
   */
  lemma RecompileReturnsStored(s: State, input: Input, c: C.Checkpoint, hash: string -> string, events: seq<Event>,
                               again: Input, d: C.Checkpoint)
    requires Placed(s.packs) && Backed(s.packs) && AsksForTheSame(input, c, again, d)
    requires PlanPack(s.packs, input, c, hash).Ok? && PlanPack(s.packs, input, c, hash).value.Unwritten?
    ensures var final := Final(Next(s, Compile(input, c, ALL_WRITES), hash), events, hash).packs;
            var plan := PlanPack(s.packs, input, c, hash).value;
            if AudienceOf(again) == AudienceOf(input) then PlanPack(final, again, d, hash)
              == Ok(Stored(plan.artifact, plan.manifest))
            else PlanPack(final, again, d, hash).Thrown?
  {
    var next, plan := Next(s, Compile(input, c, ALL_WRITES), hash), PlanPack(s.packs, input, c, hash).value;
    var final := Final(next, events, hash).packs;
    PackStepIsSafe(s.packs, input, c, hash, ALL_WRITES);
    PacksAreBackedAndLasting(next, events, hash);
    NewPackIsThere(s.packs, input, c, hash);
    hide Final, Backed, Placed, PlanPack, AfterPack;
    assert Keeps(next.packs, final);
    PlanOnStored(s.packs, final, input, c, hash, again, d);
  }

  lemma NewPackIsThere(packs: Packs, input: Input, c: C.Checkpoint, hash: string -> string)
    requires PlanPack(packs, input, c, hash).Ok? && PlanPack(packs, input, c, hash).value.Unwritten?
    ensures var after, plan := AfterPack(packs, input, c, hash, ALL_WRITES), PlanPack(packs, input, c, hash).value;
            var key := ArtifactKey(input.adapter, plan.artifact.id);
            && key in after.artifacts && after.artifacts[key] == plan.artifact
            && plan.manifest.id in after.manifests && after.manifests[plan.manifest.id] == plan.manifest
  {
    hide StableKey, CompactId;
  }

  lemma PlanOnStored(packs: Packs, later: Packs, input: Input, c: C.Checkpoint, hash: string -> string, again: Input,
                     d: C.Checkpoint)
    requires AsksForTheSame(input, c, again, d)
    requires PlanPack(packs, input, c, hash).Ok? && PlanPack(packs, input, c, hash).value.Unwritten?
    requires var plan := PlanPack(packs, input, c, hash).value;
             var key := ArtifactKey(input.adapter, plan.artifact.id);
             && key in later.artifacts && later.artifacts[key] == plan.artifact
             && plan.manifest.id in later.manifests && later.manifests[plan.manifest.id] == plan.manifest
    ensures var plan := PlanPack(packs, input, c, hash).value;
            if AudienceOf(again) == AudienceOf(input) then PlanPack(later, again, d, hash)
              == Ok(Stored(plan.artifact, plan.manifest))
            else PlanPack(later, again, d, hash).Thrown?
  {
    FactsDetermineKey(input.adapter, c, d);
    hide StableKey, CompactId, Deduplicated;
  }

  /** An artifact record whose manifest record is missing, or taken by another pack. */
  predicate Orphaned(packs: Packs, key: ArtifactKey, id: string) {
    key in packs.artifacts
    && (id in packs.manifests ==>
          packs.manifests[id].adapter != key.adapter || packs.manifests[id].artifactRefs != [key.id])
  }

  lemma OrphanStays(packs: Packs, input: Input, c: C.Checkpoint, done: nat, hash: string -> string, key: ArtifactKey,
                    id: string)
    requires Orphaned(packs, key, id)
    ensures Orphaned(AfterPack(packs, input, c, hash, done), key, id)
  {
    hide ManifestId, ArtifactId;
  }

  lemma {:induction false} OrphanStaysThroughout(s: State, events: seq<Event>, hash: string -> string,
                                                 key: ArtifactKey, id: string)
    requires Orphaned(s.packs, key, id)
    ensures Orphaned(Final(s, events, hash).packs, key, id)
    decreases |events|
  {
    hide Orphaned, AfterPack;
    if events != [] {
      if events[0].Compile? { OrphanStays(s.packs, events[0].input, events[0].checkpoint, events[0].done, hash, key,
                                          id); }
      OrphanStaysThroughout(Next(s, events[0], hash), events[1..], hash, key, id);
    }
  }

  lemma OrphanThrows(packs: Packs, input: Input, c: C.Checkpoint, hash: string -> string)
    requires Orphaned(packs, ArtifactKey(input.adapter, ArtifactId(input, c, hash)), ManifestId(input, c, hash))
    ensures PlanPack(packs, input, c, hash).Thrown?
  {
    hide ManifestId, ArtifactId;
  }

  /**
   A compilation that stopped between the artifact record and the manifest record is never made good: whatever happens
   afterwards, the same call throws.
   */
  lemma HalfWrittenForGood(s: State, input: Input, c: C.Checkpoint, hash: string -> string, events: seq<Event>,
                           again: Input, d: C.Checkpoint)
    requires PlanPack(s.packs, input, c, hash).Ok? && PlanPack(s.packs, input, c, hash).value.Unwritten?
    requires AsksForTheSame(input, c, again, d)
    ensures PlanPack(Final(Next(s, Compile(input, c, 3), hash), events, hash).packs, again, d, hash).Thrown?
  {
    var key, id := ArtifactKey(input.adapter, ArtifactId(input, c, hash)), ManifestId(input, c, hash);
    assert Orphaned(Next(s, Compile(input, c, 3), hash).packs, key, id);
    OrphanStaysThroughout(Next(s, Compile(input, c, 3), hash), events, hash, key, id);
    FactsDetermineKey(input.adapter, c, d);
    hide Orphaned, Final, PlanPack, StableKey;
    OrphanThrows(Final(Next(s, Compile(input, c, 3), hash), events, hash).packs, again, d, hash);
  }

  /** Stopped earlier, only the text is there, and the next call writes it again. */
  lemma TextAloneIsRewritten(packs: Packs, input: Input, c: C.Checkpoint, hash: string -> string, done: nat,
                             again: Input, d: C.Checkpoint)
    requires PlanPack(packs, input, c, hash).Ok? && PlanPack(packs, input, c, hash).value.Unwritten?
    requires AsksForTheSame(input, c, again, d) && done < 3
    ensures var plan := PlanPack(AfterPack(packs, input, c, hash, done), again, d, hash);
            plan.Ok? && plan.value.Unwritten?
  {
    FactsDetermineKey(input.adapter, c, d);
    hide StableKey;
  }

  // ---------------------------------------------------------------- default ids

  predicate UsesDefaults(input: Input) { input.id.None? && input.artifactId.None? }

  predicate AllDefault(events: seq<Event>) { forall e :: e in events && e.Compile? ==> UsesDefaults(e.input) }

  /** The record was compiled, at some time and for some audience, from the checkpoint it names. */
  predicate ManifestFrom(m: Manifest, checkpoints: C.Store, hash: string -> string) {
    m.checkpointRef in checkpoints &&
    var c := checkpoints[m.checkpointRef];
    m == ManifestOf(CompactId("pmf_session_resume_" + m.adapter.Name(), StableKey(m.adapter, c), hash),
                    CompactId("part_session_resume_" + m.adapter.Name(), StableKey(m.adapter, c), hash),
                    m.adapter, c, m.audience, m.createdAt)
  }

  predicate ArtifactFrom(a: Artifact, checkpoints: C.Store, hash: string -> string) {
    exists id :: id in checkpoints && ArtifactFromIt(a, checkpoints[id], hash)
  }

  predicate ArtifactFromIt(a: Artifact, c: C.Checkpoint, hash: string -> string) {
    a == ArtifactOf(CompactId("part_session_resume_" + a.adapter.Name(), StableKey(a.adapter, c), hash), a.adapter, c,
                    a.createdAt)
  }

  predicate Derived(s: State, hash: string -> string) {
    && (forall id :: id in s.packs.manifests ==> ManifestFrom(s.packs.manifests[id], s.checkpoints, hash))
    && (forall k :: k in s.packs.artifacts ==> ArtifactFrom(s.packs.artifacts[k], s.checkpoints, hash))
  }

  ghost predicate AllValid(checkpoints: C.Store, safe: string -> bool) {
    forall id :: id in checkpoints ==> C.ValidCheckpoint(checkpoints[id], safe)
  }

  ghost predicate Injective(hash: string -> string) { forall a, b :: hash(a) == hash(b) ==> a == b }

  ghost predicate Tidy(s: State, safe: string -> bool, hash: string -> string) {
    C.Sound(s.checkpoints) && AllValid(s.checkpoints, safe) && Placed(s.packs) && Derived(s, hash)
  }

  lemma FactsDetermineKey(adapter: Adapter, c: C.Checkpoint, d: C.Checkpoint)
    requires C.SameFacts(c, d)
    ensures StableKey(adapter, c) == StableKey(adapter, d)
    ensures forall id, now :: ArtifactOf(id, adapter, c, now) == ArtifactOf(id, adapter, d, now)
    ensures forall id, part, audience, now ::
              ManifestOf(id, part, adapter, c, audience, now) == ManifestOf(id, part, adapter, d, audience, now)
  {
  }

  lemma CreateKeepsTidy(s: State, c: C.Creation, safe: string -> bool, hash: string -> string)
    requires Tidy(s, safe, hash) && C.Legal(s.checkpoints, c, safe)
    ensures Tidy(Next(s, Event.Create(c), hash), safe, hash)
  {
    var after := C.After(s.checkpoints, c);
    C.CreationKeepsSound(s.checkpoints, c, safe);
    C.CreationExtends(s.checkpoints, c, safe);
    C.CreationWritesValid(s.checkpoints, c, safe);
    hide C.After, C.Legal, C.Sound, StableKey, ManifestOf, ArtifactOf;
    forall id | id in s.packs.manifests ensures ManifestFrom(s.packs.manifests[id], after, hash) {
      var m := s.packs.manifests[id];
      assert ManifestFrom(m, s.checkpoints, hash);
      FactsDetermineKey(m.adapter, s.checkpoints[m.checkpointRef], after[m.checkpointRef]);
    }
    forall k | k in s.packs.artifacts ensures ArtifactFrom(s.packs.artifacts[k], after, hash) {
      var a := s.packs.artifacts[k];
      assert ArtifactFrom(a, s.checkpoints, hash);
      var id :| id in s.checkpoints && ArtifactFromIt(a, s.checkpoints[id], hash);
      FactsDetermineKey(a.adapter, s.checkpoints[id], after[id]);
      assert ArtifactFromIt(a, after[id], hash);
    }
  }

  lemma CompileKeepsDerived(s: State, input: Input, c: C.Checkpoint, done: nat, hash: string -> string)
    requires Derived(s, hash) && UsesDefaults(input) && c.id in s.checkpoints && s.checkpoints[c.id] == c
    ensures Derived(s.(packs := AfterPack(s.packs, input, c, hash, done)), hash)
  {
    hide StableKey, CompactId;
    var plan := PlanPack(s.packs, input, c, hash);
    if plan.Ok? && plan.value.Unwritten? {
      assert ArtifactFromIt(plan.value.artifact, s.checkpoints[c.id], hash);
      assert ManifestFrom(plan.value.manifest, s.checkpoints, hash);
      hide PlanPack, ArtifactFromIt, ManifestFrom;
    }
  }

  lemma SelectedIsStored(store: C.Store, input: Input, c: C.Checkpoint)
    requires C.Keyed(store) && SelectCheckpoint(store, input) == Ok(c)
    ensures c.id in store && store[c.id] == c && c.status == C.Active
  {
    if input.checkpointId == "" {
      var matches := MatchingIds(store, input);
      assert forall id :: id in matches ==> id in store && store[id].status == C.Active;
    }
  }

  lemma EventKeepsTidy(s: State, e: Event, safe: string -> bool, hash: string -> string)
    requires Tidy(s, safe, hash) && Backed(s.packs) && Possible(s, e, safe) && (e.Compile? ==> UsesDefaults(e.input))
    ensures Tidy(Next(s, e, hash), safe, hash) && Backed(Next(s, e, hash).packs)
  {
    match e
    case Create(c) => CreateKeepsTidy(s, c, safe, hash);
    case Compile(input, c, done) =>
      SelectedIsStored(s.checkpoints, input, c);
      CompileKeepsDerived(s, input, c, done, hash);
      PackStepIsSafe(s.packs, input, c, hash, done);
  }

  lemma {:induction false} RunKeepsTidy(s: State, events: seq<Event>, safe: string -> bool, hash: string -> string)
    requires Tidy(s, safe, hash) && Backed(s.packs) && Run(s, events, safe, hash) && AllDefault(events)
    ensures Tidy(Final(s, events, hash), safe, hash) && Backed(Final(s, events, hash).packs)
    decreases |events|
  {
    hide Tidy, Backed, Possible, Next;
    if events != [] {
      assert events[0] in events;
      EventKeepsTidy(s, events[0], safe, hash);
      RunKeepsTidy(Next(s, events[0], hash), events[1..], safe, hash);
    }
  }

  /** Records with the default id of a checkpoint were compiled from that checkpoint. */
  lemma DefaultIdsAreOwn(s: State, adapter: Adapter, c: C.Checkpoint, safe: string -> bool, hash: string -> string)
    requires Tidy(s, safe, hash) && SafeIsColonFree(safe) && Injective(hash)
    requires c.id in s.checkpoints && s.checkpoints[c.id] == c
    ensures var id := CompactId("pmf_session_resume_" + adapter.Name(), StableKey(adapter, c), hash);
            id in s.packs.manifests ==>
              s.packs.manifests[id].adapter == adapter && s.packs.manifests[id].checkpointRef == c.id
    ensures var k := ArtifactKey(adapter,
                                 CompactId("part_session_resume_" + adapter.Name(), StableKey(adapter, c), hash));
            k in s.packs.artifacts ==> ArtifactFromIt(s.packs.artifacts[k], c, hash)
  {
    hide StableKey, ManifestOf, C.Sound, C.ValidCheckpoint;
    var id := CompactId("pmf_session_resume_" + adapter.Name(), StableKey(adapter, c), hash);
    assert C.ValidCheckpoint(c, safe);
    if id in s.packs.manifests {
      var m := s.packs.manifests[id];
      assert ManifestFrom(m, s.checkpoints, hash);
      var d := s.checkpoints[m.checkpointRef];
      ManifestIdIsOwn(m, s.checkpoints, hash);
      CompactIdIsInjective("pmf_session_resume_", adapter, StableKey(adapter, c), m.adapter, StableKey(m.adapter, d),
                           hash);
      assert C.ValidCheckpoint(d, safe);
      StableKeyIsInjective(adapter, c, m.adapter, d, safe);
    }
    var k := ArtifactKey(adapter, CompactId("part_session_resume_" + adapter.Name(), StableKey(adapter, c), hash));
    if k in s.packs.artifacts {
      var a := s.packs.artifacts[k];
      assert ArtifactFrom(a, s.checkpoints, hash) && PlacedAt(a, k);
      var other :| other in s.checkpoints && ArtifactFromIt(a, s.checkpoints[other], hash);
      var d := s.checkpoints[other];
      CompactIdIsInjective("part_session_resume_", adapter, StableKey(adapter, c), a.adapter, StableKey(a.adapter, d),
                           hash);
      assert C.ValidCheckpoint(d, safe);
      StableKeyIsInjective(adapter, c, a.adapter, d, safe);
      assert other == c.id by { KeyedById(s.checkpoints, other); KeyedById(s.checkpoints, c.id); }
    }
  }

  lemma KeyedById(store: C.Store, id: string)
    requires C.Sound(store) && id in store
    ensures store[id].id == id
  {
  }

  lemma ManifestIdIsOwn(m: Manifest, checkpoints: C.Store, hash: string -> string)
    requires ManifestFrom(m, checkpoints, hash)
    ensures m.id
         == CompactId("pmf_session_resume_" + m.adapter.Name(), StableKey(m.adapter, checkpoints[m.checkpointRef]),
                      hash)
    ensures checkpoints[m.checkpointRef].id == m.checkpointRef
  {
    hide StableKey;
  }

  lemma CompactIdIsInjective(prefix: string, a: Adapter, x: string, b: Adapter, y: string, hash: string -> string)
    requires Injective(hash) && CompactId(prefix + a.Name(), x, hash) == CompactId(prefix + b.Name(), y, hash)
    ensures a == b && x == y
  {
    var left, right := CompactId(prefix + a.Name(), x, hash), CompactId(prefix + b.Name(), y, hash);
    assert left[|prefix|] == a.Name()[0] && right[|prefix|] == b.Name()[0];
    assert OpenClaw.Name()[0] == 'o' && Hermes.Name()[0] == 'h';
    assert a == b;
    var n := |prefix + a.Name()| + 1;
    assert left[n..] == hash(x) && right[n..] == hash(y);
  }

  /**
   With default ids a compilation never meets a record of another checkpoint: after any run it throws only because
   the stored pack was for another audience, or because an earlier compilation stopped after the artifact record.
   */
  lemma DefaultPacksNeverClash(s: State, events: seq<Event>, safe: string -> bool, hash: string -> string, input: Input,
      c: C.Checkpoint)
    requires Tidy(s, safe, hash) && Backed(s.packs) && Run(s, events, safe, hash) && AllDefault(events)
    requires SafeIsColonFree(safe) && Injective(hash) && UsesDefaults(input)
    requires SelectCheckpoint(Final(s, events, hash).checkpoints, input) == Ok(c)
    ensures var packs := Final(s, events, hash).packs;
            var id, k := ManifestId(input, c, hash), ArtifactKey(input.adapter, ArtifactId(input, c, hash));
            PlanPack(packs, input, c, hash).Thrown? <==>
              if id in packs.manifests then packs.manifests[id].audience != AudienceOf(input) else k in packs.artifacts
  {
    var reached := Final(s, events, hash);
    RunKeepsTidy(s, events, safe, hash);
    SelectedIsStored(reached.checkpoints, input, c);
    DefaultIdsAreOwn(reached, input.adapter, c, safe, hash);
    hide Run, StableKey, SelectCheckpoint, Final, CompactId;
    assert C.Keyed(reached.checkpoints);
    OwnPlan(reached, input, c, hash);
  }

  lemma OwnPlan(s: State, input: Input, c: C.Checkpoint, hash: string -> string)
    requires Derived(s, hash) && Backed(s.packs) && Placed(s.packs) && UsesDefaults(input)
    requires C.Keyed(s.checkpoints) && c.id in s.checkpoints && s.checkpoints[c.id] == c
    requires var id := ManifestId(input, c, hash);
             id in s.packs.manifests ==>
               s.packs.manifests[id].adapter == input.adapter && s.packs.manifests[id].checkpointRef == c.id
    requires var k := ArtifactKey(input.adapter, ArtifactId(input, c, hash));
             k in s.packs.artifacts ==> ArtifactFromIt(s.packs.artifacts[k], c, hash)
    ensures var id, k := ManifestId(input, c, hash), ArtifactKey(input.adapter, ArtifactId(input, c, hash));
            PlanPack(s.packs, input, c, hash).Thrown? <==>
              if id in s.packs.manifests then s.packs.manifests[id].audience != AudienceOf(input)
              else k in s.packs.artifacts
  {
    hide StableKey, CompactId;
    var id, k := ManifestId(input, c, hash), ArtifactKey(input.adapter, ArtifactId(input, c, hash));
    var manifest := ManifestOf(id, k.id, input.adapter, c, AudienceOf(input), input.now);
    if id in s.packs.manifests {
      var m := s.packs.manifests[id];
      assert ManifestFrom(m, s.checkpoints, hash);
      assert m == ManifestOf(id, k.id, input.adapter, c, m.audience, m.createdAt);
      assert BackedManifest(s.packs, m) && m.artifactRefs[0] == k.id;
      assert SameManifest(m, manifest) <==> m.audience == AudienceOf(input);
    }
    if k in s.packs.artifacts {
      assert SameArtifact(s.packs.artifacts[k], ArtifactOf(k.id, input.adapter, c, input.now));
    }
    hide Derived, Backed, Placed, ManifestFrom, ArtifactFromIt, ManifestOf, ArtifactOf, SameManifest, SameArtifact;
  }
}
