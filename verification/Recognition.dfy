/**
 packages/core/src/projection-engine/hermes-recognition.ts: the manifest of a recognition projection, and the rules of
 packages/core/src/validation.ts that a stored manifest must meet, which are written separately.
 */
module Recognition {
  import opened Prelude
  import opened ProjectionReads

  datatype Strategy = CheckpointConsistent | MixedStateTolerant

  /** A trace of the retrieval metadata; its suppression reasons are of the listed kinds. */
  datatype Trace = Trace(
    ref: Option<string>,
    query: string,
    recipe: string,
    policy: string,
    included: seq<string>,
    suppressed: seq<string>)

  datatype Manifest = Manifest(
    id: string,
    compilerVersion: string,
    actor: Option<string>,
    owner: Option<string>,
    binding: Binding,
    checkpointRef: Option<string>,
    epoch: Option<string>,
    generation: Option<int>,
    strategy: Strategy,
    boundaryNote: Option<string>,
    hasLayerUpdates: bool,
    contextRefs: seq<string>,
    suppressedRefs: Option<seq<string>>,
    suppressedRecords: Option<seq<Suppressed>>,
    traceRefs: Option<seq<string>>,
    includedCandidates: Option<seq<string>>,
    suppressedCandidates: Option<seq<string>>,
    traces: Option<seq<Trace>>,
    diagnosticRefs: seq<string>,
    artifactRefs: seq<string>,
    upstreamRefs: seq<string>)

  // ---------------------------------------------------------------- the rules

  datatype Rule = CompilerVersion | GenerationRule | CheckpointFields | MixedFields | BoundaryNote | LayerUpdates
                | UniqueContextRefs | DeclaredContextRef | UniqueSuppressedRefs | SuppressedField | SuppressedTogether
                | MissingSuppressedRecord | MissingSuppressedRef | UniqueRetrievalRefs | TraceField | UniqueTraceRefs
                | MissingRetrievalRef | UndeclaredRetrievalRef | UpstreamRefs | UniqueArtifactRefs

  predicate Unique(refs: seq<string>) { forall i, j :: 0 <= i < j < |refs| ==> refs[i] != refs[j] }

  function Declared(m: Manifest): seq<Option<string>> {
    [m.actor, m.owner, m.binding.instance, m.binding.session, m.binding.thread]
  }

  function IdsOf(records: seq<Suppressed>): (ids: seq<string>)
    ensures |ids| == |records|
  {
    seq(|records|, i requires 0 <= i < |records| => records[i].id)
  }

  predicate GoodGeneration(m: Manifest) { m.generation.Some? && m.generation.value >= 0 }

  predicate StrategyRules(m: Manifest) {
    if m.strategy == CheckpointConsistent then
      Given(m.checkpointRef) && Given(m.epoch) && GoodGeneration(m) && m.boundaryNote.None? && !m.hasLayerUpdates
    else
      !Given(m.checkpointRef) && !Given(m.epoch) && !GoodGeneration(m) && Given(m.boundaryNote) && m.hasLayerUpdates
  }

  ghost predicate SuppressionRules(m: Manifest) {
    && (m.suppressedRefs.Some? <==> m.suppressedRecords.Some?)
    && (m.suppressedRefs.Some? ==> Unique(m.suppressedRefs.value))
    && (m.suppressedRecords.Some? ==> forall r :: r in m.suppressedRecords.value ==> HasFields(r))
    && (m.suppressedRefs.Some? && m.suppressedRecords.Some? ==>
          forall id :: id in m.suppressedRefs.value <==> id != "" && id in IdsOf(m.suppressedRecords.value))
  }

  predicate GoodTrace(t: Trace) {
    t.query != "" && t.recipe != "" && t.policy != "" && Unique(t.included) && Unique(t.suppressed)
  }

  ghost function TraceRefs(traces: seq<Trace>): set<string> { set t | t in traces && t.ref.Some? :: t.ref.value }
  ghost function IncludedRefs(traces: seq<Trace>): set<string> { set t, r | t in traces && r in t.included :: r }
  ghost function SuppressedRefs(traces: seq<Trace>): set<string> { set t, r | t in traces && r in t.suppressed :: r }

  /** A list that is there has no repetition and, beside traces, exactly the refs that they mention. */
  ghost predicate ListsRefs(listed: Option<seq<string>>, hasTraces: bool, mentioned: set<string>) {
    listed.Some? ==> Unique(listed.value) && (hasTraces ==> SetOf(listed.value) == mentioned)
  }

  ghost predicate RetrievalRules(m: Manifest) {
    var traces := if m.traces.Some? then m.traces.value else [];
    && (forall t :: t in traces ==> GoodTrace(t))
    && ListsRefs(m.traceRefs, m.traces.Some?, TraceRefs(traces))
    && ListsRefs(m.includedCandidates, m.traces.Some?, IncludedRefs(traces))
    && ListsRefs(m.suppressedCandidates, m.traces.Some?, SuppressedRefs(traces))
  }

  /** What a manifest must be like, as one statement. */
  ghost predicate MeetsRules(m: Manifest) {
    && m.compilerVersion != "" && (m.generation.Some? ==> m.generation.value >= 0) && StrategyRules(m)
    && Unique(m.contextRefs) && (forall ref :: Some(ref) in Declared(m) ==> ref in m.contextRefs)
    && SuppressionRules(m) && RetrievalRules(m) && m.upstreamRefs != [] && Unique(m.artifactRefs)
  }

  function SetOf(refs: seq<string>): set<string> { set r | r in refs }

  /** `hasUniqueEntries` compares the size of the set with the length of the list. */
  lemma {:induction false} SizeMeansUnique(refs: seq<string>)
    ensures |SetOf(refs)| <= |refs|
    ensures |SetOf(refs)| == |refs| <==> Unique(refs)
    decreases |refs|
  {
    if refs != [] {
      var front, last := refs[..|refs| - 1], refs[|refs| - 1];
      assert refs == front + [last];
      SizeMeansUnique(front);
      assert SetOf(refs) == SetOf(front) + {last};
      if last in front {
        assert SetOf(refs) == SetOf(front);
        var i :| 0 <= i < |front| && front[i] == last;
        assert refs[i] == refs[|refs| - 1];
      } else {
        assert Unique(refs) <==> Unique(front) by {
          if Unique(front) {
            forall i, j | 0 <= i < j < |refs|
              ensures refs[i] != refs[j] { if j == |front| { assert front[i] in front; } }
          }
          if Unique(refs) {
            forall i, j | 0 <= i < j < |front| ensures front[i] != front[j] { assert refs[i] != refs[j]; }
          }
        }
      }
    }
  }

  method CheckUnique(refs: seq<string>, rule: Rule, issues: seq<Rule>) returns (more: seq<Rule>)
    ensures more == if Unique(refs) then issues else issues + [rule]
  {
    SizeMeansUnique(refs);
    more := if |SetOf(refs)| == |refs| then issues else issues + [rule];
  }

  method CheckStrategy(m: Manifest) returns (issues: seq<Rule>)
    ensures issues == [] <==> StrategyRules(m)
  {
    issues := [];
    if m.strategy == CheckpointConsistent {
      if !Given(m.checkpointRef) { issues := issues + [CheckpointFields]; }
      if !Given(m.epoch) { issues := issues + [CheckpointFields]; }
      if !GoodGeneration(m) { issues := issues + [CheckpointFields]; }
      if m.boundaryNote.Some? { issues := issues + [MixedFields]; }
      if m.hasLayerUpdates { issues := issues + [MixedFields]; }
    } else {
      if Given(m.checkpointRef) || Given(m.epoch) || GoodGeneration(m) { issues := issues + [CheckpointFields]; }
      if !Given(m.boundaryNote) { issues := issues + [BoundaryNote]; }
      if !m.hasLayerUpdates { issues := issues + [LayerUpdates]; }
    }
  }

  method CheckDeclared(m: Manifest) returns (issues: seq<Rule>)
    ensures issues == [] <==> forall ref :: Some(ref) in Declared(m) ==> ref in m.contextRefs
  {
    issues := [];
    var declared, i := Declared(m), 0;
    while i < |declared|
      invariant 0 <= i <= |declared|
      invariant issues == [] <==> forall j :: 0 <= j < i && declared[j].Some? ==> declared[j].value in m.contextRefs
    {
      if declared[i].Some? && declared[i].value !in m.contextRefs { issues := issues + [DeclaredContextRef]; }
      i := i + 1;
    }
    assert forall j :: 0 <= j < |declared| ==> declared[j] in declared;
  }

  predicate HasFields(r: Suppressed) { r.id != "" && r.kind != "" && r.reason != "" }

  method CheckSuppressedRecords(records: seq<Suppressed>) returns (issues: seq<Rule>, ids: set<string>)
    ensures issues == [] <==> forall r :: r in records ==> HasFields(r)
    ensures ids == SetOf(IdsOf(records)) - {""}
  {
    issues, ids := [], {};
    var i := 0;
    while i < |records|
      invariant 0 <= i <= |records|
      invariant issues == [] <==> forall j :: 0 <= j < i ==> HasFields(records[j])
      invariant ids == SetOf(IdsOf(records)[..i]) - {""}
    {
      assert IdsOf(records)[..i + 1] == IdsOf(records)[..i] + [records[i].id];
      if records[i].id == "" { issues := issues + [SuppressedField]; }
      if records[i].kind == "" { issues := issues + [SuppressedField]; }
      if records[i].reason == "" { issues := issues + [SuppressedField]; }
      if records[i].id != "" { ids := ids + {records[i].id}; }
      i := i + 1;
    }
    assert IdsOf(records)[..i] == IdsOf(records);
    assert forall j :: 0 <= j < |records| ==> records[j] in records;
  }

  /** One issue for each member of the first set that the second does not have. */
  method CheckContained(refs: set<string>, allowed: set<string>, rule: Rule, issues: seq<Rule>)
        returns (more: seq<Rule>)
    ensures more == [] <==> issues == [] && refs <= allowed
  {
    more := issues;
    var remaining := refs;
    while remaining != {}
      invariant remaining <= refs
      invariant more == [] <==> issues == [] && refs - remaining <= allowed
      decreases |remaining|
    {
      var ref :| ref in remaining;
      assert refs - (remaining - {ref}) == (refs - remaining) + {ref};
      if ref !in allowed { more := more + [rule]; }
      remaining := remaining - {ref};
    }
    assert refs - {} == refs;
  }

  method CheckSuppression(m: Manifest) returns (issues: seq<Rule>)
    ensures issues == [] <==> SuppressionRules(m)
  {
    issues := [];
    if m.suppressedRefs.Some? { issues := CheckUnique(m.suppressedRefs.value, UniqueSuppressedRefs, issues); }
    var recordIds: set<string> := {};
    if m.suppressedRecords.Some? {
      var fields;
      fields, recordIds := CheckSuppressedRecords(m.suppressedRecords.value);
      issues := issues + fields;
    }
    if m.suppressedRefs.Some? != m.suppressedRecords.Some? { issues := issues + [SuppressedTogether]; }
    if m.suppressedRefs.Some? && m.suppressedRecords.Some? {
      var refs := SetOf(m.suppressedRefs.value);
      issues := CheckContained(refs, recordIds, MissingSuppressedRecord, issues);
      issues := CheckContained(recordIds, refs, MissingSuppressedRef, issues);
      SameIds(m.suppressedRefs.value, IdsOf(m.suppressedRecords.value));
    }
    hide SetOf, IdsOf, Unique;
  }

  lemma SameIds(refs: seq<string>, ids: seq<string>)
    ensures SetOf(refs) <= SetOf(ids) - {""} && SetOf(ids) - {""} <= SetOf(refs) <==>
            forall id :: id in refs <==> id != "" && id in ids
  {
    assert forall id :: id in refs <==> id in SetOf(refs);
    assert forall id :: id in ids <==> id in SetOf(ids);
  }

  method CheckTraces(traces: seq<Trace>) returns (issues: seq<Rule>)
    ensures issues == [] <==> forall t :: t in traces ==> GoodTrace(t)
  {
    issues := [];
    var i := 0;
    while i < |traces|
      invariant 0 <= i <= |traces|
      invariant issues == [] <==> forall j :: 0 <= j < i ==> GoodTrace(traces[j])
    {
      var t := traces[i];
      if t.query == "" { issues := issues + [TraceField]; }
      if t.recipe == "" { issues := issues + [TraceField]; }
      if t.policy == "" { issues := issues + [TraceField]; }
      issues := CheckUnique(t.included, UniqueTraceRefs, issues);
      issues := CheckUnique(t.suppressed, UniqueTraceRefs, issues);
      i := i + 1;
    }
    assert forall j :: 0 <= j < |traces| ==> traces[j] in traces;
  }

  method AddAll(seen: set<string>, refs: seq<string>) returns (all: set<string>)
    ensures all == seen + SetOf(refs)
  {
    all := seen;
    var i := 0;
    while i < |refs|
      invariant 0 <= i <= |refs|
      invariant all == seen + SetOf(refs[..i])
    {
      assert refs[..i + 1] == refs[..i] + [refs[i]];
      all := all + {refs[i]};
      i := i + 1;
    }
    assert refs[..i] == refs;
  }

  /** The refs that the traces mention. */
  method CollectRefs(traces: seq<Trace>) returns (refs: set<string>, included: set<string>, suppressed: set<string>)
    ensures refs == TraceRefs(traces) && included == IncludedRefs(traces) && suppressed == SuppressedRefs(traces)
  {
    refs, included, suppressed := {}, {}, {};
    var i := 0;
    while i < |traces|
      invariant 0 <= i <= |traces|
      invariant refs == TraceRefs(traces[..i])
      invariant included == IncludedRefs(traces[..i])
      invariant suppressed == SuppressedRefs(traces[..i])
    {
      OneMoreTrace(traces[..i], traces[i]);
      assert traces[..i + 1] == traces[..i] + [traces[i]];
      hide TraceRefs, IncludedRefs, SuppressedRefs, SetOf;
      if traces[i].ref.Some? { refs := refs + {traces[i].ref.value}; }
      included := AddAll(included, traces[i].included);
      suppressed := AddAll(suppressed, traces[i].suppressed);
      i := i + 1;
    }
    assert traces[..i] == traces;
  }

  lemma OneMoreTrace(traces: seq<Trace>, t: Trace)
    ensures TraceRefs(traces + [t]) == TraceRefs(traces) + if t.ref.Some? then {t.ref.value} else {}
    ensures IncludedRefs(traces + [t]) == IncludedRefs(traces) + SetOf(t.included)
    ensures SuppressedRefs(traces + [t]) == SuppressedRefs(traces) + SetOf(t.suppressed)
  {
    assert forall x :: x in traces + [t] <==> x in traces || x == t;
  }

  /** The unique list and the comparison with the traces, for one of the three lists. */
  method CheckListed(listed: Option<seq<string>>, hasTraces: bool, mentioned: set<string>, issues: seq<Rule>)
      returns (more: seq<Rule>)
    ensures more == [] <==> issues == [] && ListsRefs(listed, hasTraces, mentioned)
  {
    more := issues;
    if listed.None? { return; }
    more := CheckUnique(listed.value, UniqueRetrievalRefs, more);
    if hasTraces {
      var declared := SetOf(listed.value);
      more := CheckContained(mentioned, declared, MissingRetrievalRef, more);
      more := CheckContained(declared, mentioned, UndeclaredRetrievalRef, more);
    }
  }

  method CheckRetrieval(m: Manifest) returns (issues: seq<Rule>)
    ensures issues == [] <==> RetrievalRules(m)
  {
    var traces := if m.traces.Some? then m.traces.value else [];
    issues := CheckTraces(traces);
    var refs, included, suppressed := CollectRefs(traces);
    issues := CheckListed(m.traceRefs, m.traces.Some?, refs, issues);
    issues := CheckListed(m.includedCandidates, m.traces.Some?, included, issues);
    issues := CheckListed(m.suppressedCandidates, m.traces.Some?, suppressed, issues);
  }

  /** The hand-written part of `validateProjectionManifest`. */
  method ValidateProjectionManifest(m: Manifest) returns (issues: seq<Rule>)
    ensures issues == [] <==> MeetsRules(m)
  {
    issues := if m.compilerVersion == "" then [CompilerVersion] else [];
    if m.generation.Some? && m.generation.value < 0 { issues := issues + [GenerationRule]; }
    var strategy := CheckStrategy(m);
    issues := issues + strategy;
    issues := CheckUnique(m.contextRefs, UniqueContextRefs, issues);
    var declared := CheckDeclared(m);
    issues := issues + declared;
    var suppression := CheckSuppression(m);
    issues := issues + suppression;
    var retrieval := CheckRetrieval(m);
    issues := issues + retrieval;
    if m.upstreamRefs == [] { issues := issues + [UpstreamRefs]; }
    issues := CheckUnique(m.artifactRefs, UniqueArtifactRefs, issues);
  }

  // ---------------------------------------------------------------- the compiler

  datatype Ids = Ids(json: string, context: string, manifest: string)

  /** `rest` are the records from observations to wiki claims; instances and diagnostics have no entry of their own. */
  datatype Input = Input(
    context: ReadContext,
    ids: Ids,
    actors: seq<Record>,
    instances: seq<Record>,
    rest: seq<Record>,
    diagnostics: seq<Record>)
  {
    function Indexed(): seq<Record> { actors + rest }
    function All(): seq<Record> { actors + instances + rest + diagnostics }
  }

  /** `[...new Set(values.filter((value) => value.length > 0))]` */
  function UniqueRefs(values: seq<string>): (refs: seq<string>)
    ensures Unique(refs) && forall r :: r in refs <==> r in values && r != ""
  {
    if values == [] then []
    else
      var last, earlier := values[|values| - 1], UniqueRefs(values[..|values| - 1]);
      assert values == values[..|values| - 1] + [last];
      if last == "" || last in earlier then earlier else earlier + [last]
  }

  /** The first record of each id, in order. */
  function FirstOfEachId(records: seq<Suppressed>): seq<Suppressed> {
    if records == [] then []
    else
      var last, earlier := records[|records| - 1], FirstOfEachId(records[..|records| - 1]);
      if exists r :: r in earlier && r.id == last.id then earlier else earlier + [last]
  }

  /** No record before it has its id. */
  predicate IsFirst(records: seq<Suppressed>, i: nat)
    requires i < |records|
  {
    forall j :: 0 <= j < i ==> records[j].id != records[i].id
  }

  lemma LastIsFirst(front: seq<Suppressed>, last: Suppressed)
    requires IsFirst(front + [last], |front|)
    requires forall r :: r in FirstOfEachId(front) ==> r in front
    ensures last in FirstOfEachId(front + [last])
  {
    var all := front + [last];
    assert all[..|all| - 1] == front;
    forall r | r in FirstOfEachId(front) ensures r.id != last.id {
      var j :| 0 <= j < |front| && front[j] == r;
      assert all[j] == r;
    }
  }

  lemma {:induction false} FirstOfEachIdMeaning(records: seq<Suppressed>)
    ensures var first := FirstOfEachId(records);
            && Unique(IdsOf(first)) && (forall id :: id in IdsOf(first) <==> id in IdsOf(records))
            && (forall r :: r in first ==> r in records)
            && (forall i :: 0 <= i < |records| && IsFirst(records, i) ==> records[i] in first)
    decreases |records|
  {
    if records != [] {
      var front, last := records[..|records| - 1], records[|records| - 1];
      FirstOfEachIdMeaning(front);
      assert records == front + [last];
      var earlier := FirstOfEachId(front);
      assert IdsOf(records) == IdsOf(front) + [last.id];
      MemberIds(earlier, last.id);
      assert IdsOf(earlier + [last]) == IdsOf(earlier) + [last.id];
      forall i | 0 <= i < |records| && IsFirst(records, i) ensures records[i] in FirstOfEachId(records) {
        if i < |front| { assert IsFirst(front, i) && front[i] in earlier; } else { LastIsFirst(front, last); }
      }
    }
  }

  lemma MemberIds(records: seq<Suppressed>, id: string)
    ensures id in IdsOf(records) <==> exists r :: r in records && r.id == id
  {
    if r :| r in records && r.id == id {
      var i :| 0 <= i < |records| && records[i] == r;
      assert IdsOf(records)[i] == id;
    }
    if id in IdsOf(records) {
      var i :| 0 <= i < |records| && IdsOf(records)[i] == id;
      assert records[i] in records;
    }
  }

  /** `uniqueSuppressedRecords`, with its set of seen ids. */
  method UniqueSuppressedRecords(records: seq<Suppressed>) returns (result: seq<Suppressed>)
    ensures result == FirstOfEachId(records)
  {
    result := [];
    var seen: set<string> := {};
    var i := 0;
    while i < |records|
      invariant 0 <= i <= |records|
      invariant result == FirstOfEachId(records[..i])
      invariant forall id :: id in seen <==> exists r :: r in result && r.id == id
    {
      assert records[..i + 1][..i] == records[..i] && records[..i + 1][i] == records[i];
      if records[i].id !in seen {
        seen := seen + {records[i].id};
        result := result + [records[i]];
      }
      i := i + 1;
    }
    assert records[..i] == records;
  }

  function TargetsAndUpstream(records: seq<Record>): seq<string> {
    if records == [] then [] else [records[0].id] + records[0].upstream + TargetsAndUpstream(records[1..])
  }

  function RecordIds(records: seq<Record>): (ids: seq<string>)
    ensures |ids| == |records|
  {
    seq(|records|, i requires 0 <= i < |records| => records[i].id)
  }

  function OrEmpty(ref: Option<string>): string { if ref.Some? then ref.value else "" }

  function SuppressedIn(input: Input): seq<Suppressed> {
    FirstOfEachId(SuppressedOf(input.actors, input.context) + SuppressedOf(input.instances, input.context)
                  + SuppressedOf(input.rest, input.context) + SuppressedOf(input.diagnostics, input.context))
  }

  const NOTE := "Cross-subsystem reads may observe mixed state under the current trust model."

  /**
   The manifest of `compileHermesRecognitionProjection`, through `createProjectionManifest`; `linked` are the
   diagnostics of the hydration cards.
   */
  function CompileManifest(input: Input, linked: seq<string>): Manifest {
    var c := input.context;
    var suppressed := SuppressedIn(input);
    var upstream := UniqueRefs(TargetsAndUpstream(Included(input.Indexed(), c)) + linked
                               + [OrEmpty(c.binding.instance), OrEmpty(c.binding.session), OrEmpty(c.binding.thread)]);
    Manifest(input.ids.manifest, "hermes.recognition.v1", c.actor, c.owner, c.binding, None, None, None,
             MixedStateTolerant,
             Some(NOTE), true,
             UniqueRefs([OrEmpty(c.actor), OrEmpty(c.owner), OrEmpty(c.binding.instance), OrEmpty(c.binding.session),
                         OrEmpty(c.binding.thread)]),
             Some(IdsOf(suppressed)), Some(suppressed), None, None, None, None, RecordIds(Included(input.diagnostics,
                                                                                                   c)),
             [input.ids.json, input.ids.context], if upstream != [] then upstream else ["store_manifest"])
  }

  /** Every record that would be suppressed has an id and a kind. */
  predicate Named(records: seq<Record>, context: ReadContext) {
    forall r :: r in records && !ReadDecision(r, context).admitted ==> r.id != "" && r.kind != ""
  }

  predicate NullOrGiven(ref: Option<string>) { ref.Some? ==> ref.value != "" }

  lemma SuppressedInMeaning(input: Input)
    ensures SuppressedIn(input) == FirstOfEachId(SuppressedOf(input.All(), input.context))
  {
    SuppressedConcat(input.actors + input.instances + input.rest, input.diagnostics, input.context);
    SuppressedConcat(input.actors + input.instances, input.rest, input.context);
    SuppressedConcat(input.actors, input.instances, input.context);
  }

  lemma SuppressedFields(input: Input)
    requires Named(input.All(), input.context)
    ensures forall s :: s in SuppressedIn(input) ==> HasFields(s)
  {
    SuppressedInMeaning(input);
    FilterMembers(input.All(), input.context);
    FirstOfEachIdMeaning(SuppressedOf(input.All(), input.context));
    hide ReadDecision, Included, SuppressedOf, FirstOfEachId, SuppressedIn;
    forall s | s in SuppressedIn(input) ensures HasFields(s) {
      var r :| r in input.All() && !ReadDecision(r, input.context).admitted && s == SuppressedRecord(r, input.context);
      ReadMeaning(r, input.context);
    }
  }

  lemma ContextRefsMeaning(c: ReadContext)
    ensures var refs := UniqueRefs([OrEmpty(c.actor), OrEmpty(c.owner), OrEmpty(c.binding.instance),
                                    OrEmpty(c.binding.session), OrEmpty(c.binding.thread)]);
            var declared := [c.actor, c.owner, c.binding.instance, c.binding.session, c.binding.thread];
            (forall ref :: Some(ref) in declared ==> ref in refs) <==>
            NullOrGiven(c.actor) && NullOrGiven(c.owner) && NullOrGiven(c.binding.instance)
                && NullOrGiven(c.binding.session) && NullOrGiven(c.binding.thread)
  {
    var declared := [c.actor, c.owner, c.binding.instance, c.binding.session, c.binding.thread];
    var refs := UniqueRefs([OrEmpty(c.actor), OrEmpty(c.owner), OrEmpty(c.binding.instance),
                            OrEmpty(c.binding.session), OrEmpty(c.binding.thread)]);
    assert declared[0] in declared && declared[1] in declared && declared[2] in declared && declared[3] in declared
        && declared[4] in declared;
    assert "" !in refs;
    if NullOrGiven(c.actor) && NullOrGiven(c.owner) && NullOrGiven(c.binding.instance)
        && NullOrGiven(c.binding.session) && NullOrGiven(c.binding.thread) {
      var texts := [OrEmpty(c.actor), OrEmpty(c.owner), OrEmpty(c.binding.instance), OrEmpty(c.binding.session),
                    OrEmpty(c.binding.thread)];
      assert texts[0] in texts && texts[1] in texts && texts[2] in texts && texts[3] in texts && texts[4] in texts;
    } else {
      assert exists ref :: Some(ref) in declared && ref == "";
    }
  }

  /**
   The compiled manifest meets the rules exactly when each context ref is null or not empty and the two artifact ids
   differ, for records that are named; whatever was read, suppressed, or linked.
   */
  lemma CompiledManifestIsValid(input: Input, linked: seq<string>)
    requires Named(input.All(), input.context)
    ensures MeetsRules(CompileManifest(input, linked)) <==>
              input.ids.json != input.ids.context && NullOrGiven(input.context.actor)
                && NullOrGiven(input.context.owner)
              && NullOrGiven(input.context.binding.instance) && NullOrGiven(input.context.binding.session)
              && NullOrGiven(input.context.binding.thread)
  {
    CompiledSuppression(input, linked);
    ContextRefsMeaning(input.context);
    hide SuppressedIn, TargetsAndUpstream, Included, ReadDecision, Named, UniqueRefs;
    var m := CompileManifest(input, linked);
    NoRetrieval(m);
    assert Unique(m.artifactRefs) <==> input.ids.json != input.ids.context by {
      assert m.artifactRefs[0] == input.ids.json && m.artifactRefs[1] == input.ids.context;
    }
    assert Declared(m) == [m.actor, m.owner, m.binding.instance, m.binding.session, m.binding.thread];
    CompiledBasics(input, linked);
    hide CompileManifest, Declared, Unique, SuppressionRules, RetrievalRules, StrategyRules, NullOrGiven;
  }

  lemma CompiledBasics(input: Input, linked: seq<string>)
    ensures var m := CompileManifest(input, linked);
            && m.compilerVersion != "" && m.generation.None? && StrategyRules(m) && Unique(m.contextRefs)
               && m.upstreamRefs != []
            && m.contextRefs == UniqueRefs([OrEmpty(m.actor), OrEmpty(m.owner), OrEmpty(m.binding.instance),
                                            OrEmpty(m.binding.session), OrEmpty(m.binding.thread)])
            && m.actor == input.context.actor && m.owner == input.context.owner && m.binding == input.context.binding
  {
    hide SuppressedIn, TargetsAndUpstream, Included;
  }

  lemma NoRetrieval(m: Manifest)
    requires m.traceRefs == None && m.includedCandidates == None && m.suppressedCandidates == None && m.traces == None
    ensures RetrievalRules(m)
  {
  }

  lemma CompiledSuppression(input: Input, linked: seq<string>)
    requires Named(input.All(), input.context)
    ensures SuppressionRules(CompileManifest(input, linked))
  {
    var suppressed := SuppressedIn(input);
    SuppressedFields(input);
    SuppressedInMeaning(input);
    FirstOfEachIdMeaning(SuppressedOf(input.All(), input.context));
    hide SuppressedOf, FirstOfEachId, TargetsAndUpstream, Included, SuppressedIn, UniqueRefs, Named, ReadDecision;
    forall id ensures id in IdsOf(suppressed) ==> id != "" { MemberIds(suppressed, id); }
  }

  lemma {:induction false} TargetsHaveIds(records: seq<Record>, r: Record)
    requires r in records
    ensures r.id in TargetsAndUpstream(records) && forall ref :: ref in r.upstream ==>
              ref in TargetsAndUpstream(records)
    decreases |records|
  {
    if r != records[0] { TargetsHaveIds(records[1..], r); }
  }

  /** The id of a read record with an entry, and every ref that it depends on, is upstream of the manifest. */
  lemma ReadIsUpstream(input: Input, linked: seq<string>, r: Record)
    requires r in Included(input.Indexed(), input.context)
    ensures var m := CompileManifest(input, linked);
            (r.id != "" ==> r.id in m.upstreamRefs) && forall ref :: ref in r.upstream && ref != "" ==>
              ref in m.upstreamRefs
  {
    TargetsHaveIds(Included(input.Indexed(), input.context), r);
    hide Included, TargetsAndUpstream, SuppressedIn;
  }

  /**
   Of every record but a runtime instance that was read: the id of one that was read and has an entry is upstream of the
   manifest, with the refs it depends on; the id of a read diagnostic is among its diagnostics; and the id of one that
   was not read is in its suppressed list.
   */
  lemma RecordsAreAccountedFor(input: Input, linked: seq<string>, r: Record)
    requires r in input.All()
    ensures var m := CompileManifest(input, linked);
            if ReadDecision(r, input.context).admitted then
              && (r in input.Indexed() ==>
                    (r.id != "" ==> r.id in m.upstreamRefs) && forall ref :: ref in r.upstream && ref != "" ==>
                      ref in m.upstreamRefs)
              && (r in input.diagnostics ==> r.id in m.diagnosticRefs)
            else m.suppressedRefs.Some? && r.id in m.suppressedRefs.value
  {
    FilterMembers(input.Indexed(), input.context);
    FilterMembers(input.diagnostics, input.context);
    FilterMembers(input.All(), input.context);
    SuppressedInMeaning(input);
    var all := SuppressedOf(input.All(), input.context);
    FirstOfEachIdMeaning(all);
    hide ReadDecision, Included, SuppressedOf, FirstOfEachId, SuppressedIn, TargetsAndUpstream;
    if !ReadDecision(r, input.context).admitted {
      assert SuppressedRecord(r, input.context) in all;
      MemberIds(all, r.id);
    } else {
      if r in input.Indexed() { ReadIsUpstream(input, linked, r); }
      if r in input.diagnostics { DiagnosticIsListed(Included(input.diagnostics, input.context), r); }
    }
  }

  lemma DiagnosticIsListed(records: seq<Record>, r: Record)
    requires r in records
    ensures r.id in RecordIds(records)
  {
    var i :| 0 <= i < |records| && records[i] == r;
    assert RecordIds(records)[i] == r.id;
  }

  // ---------------------------------------------------------------- the refs of the manifest

  /** What the projection may name as its source: read records with an entry, what they depend on, and its context. */
  predicate IsSource(input: Input, linked: seq<string>, ref: string) {
    && ref != ""
    && (|| (exists r :: r in input.actors + input.rest && ReadDecision(r, input.context).admitted
                        && (r.id == ref || ref in r.upstream))
        || ref in linked
        || input.context.binding.instance == Some(ref) || input.context.binding.session == Some(ref)
        || input.context.binding.thread == Some(ref))
  }

  lemma {:induction false} TargetsMeaning(records: seq<Record>, ref: string)
    ensures ref in TargetsAndUpstream(records) <==> exists r :: r in records && (r.id == ref || ref in r.upstream)
  {
    if records != [] {
      TargetsMeaning(records[1..], ref);
      assert forall r :: r in records <==> r == records[0] || r in records[1..];
    }
  }

  /** The sources are upstream of the manifest and nothing else is; without any, the store manifest stands for them. */
  lemma UpstreamExactly(input: Input, linked: seq<string>)
    ensures var refs := CompileManifest(input, linked).upstreamRefs;
            && (forall ref :: IsSource(input, linked, ref) ==> ref in refs)
            && ((exists ref :: IsSource(input, linked, ref)) ==> forall ref :: ref in refs ==>
                  IsSource(input, linked, ref))
            && ((forall ref :: !IsSource(input, linked, ref)) ==> refs == ["store_manifest"])
  {
    FilterMembers(input.Indexed(), input.context);
    var read, c := Included(input.Indexed(), input.context), input.context;
    var own := [OrEmpty(c.binding.instance), OrEmpty(c.binding.session), OrEmpty(c.binding.thread)];
    var unique := UniqueRefs(TargetsAndUpstream(read) + linked + own);
    assert input.Indexed() == input.actors + input.rest;
    forall ref ensures ref in unique <==> IsSource(input, linked, ref) {
      TargetsMeaning(read, ref);
      hide ReadDecision, Included, TargetsAndUpstream;
      assert ref in own <==> ref == own[0] || ref == own[1] || ref == own[2];
    }
    hide ReadDecision, Included, TargetsAndUpstream, SuppressedIn, IsSource, UniqueRefs;
    if unique != [] { assert IsSource(input, linked, unique[0]); }
  }

  /**
   The other refs of the manifest: its diagnostics are the read ones, its suppressed records are those that were not
   read, each with its reason, and its context is the projection's. It is a mixed-state manifest of the first version.
   */
  lemma OtherRefsExactly(input: Input, linked: seq<string>, ref: string)
    ensures var m, c := CompileManifest(input, linked), input.context;
            && m.id == input.ids.manifest && m.compilerVersion == "hermes.recognition.v1" && m.actor == c.actor
            && m.owner == c.owner && m.binding == c.binding && m.artifactRefs == [input.ids.json, input.ids.context]
            && m.strategy == MixedStateTolerant && m.checkpointRef == None && m.epoch == None && m.generation == None
            && m.traceRefs == None && m.includedCandidates == None && m.suppressedCandidates == None
            && m.traces == None && m.hasLayerUpdates && m.boundaryNote.Some? && m.boundaryNote.value != ""
            && (ref in m.diagnosticRefs <==>
                  exists r :: r in input.diagnostics && ReadDecision(r, input.context).admitted && r.id == ref)
            && m.suppressedRefs.Some? && m.suppressedRecords.Some?
            && (ref in m.suppressedRefs.value <==>
                  exists r :: r in input.All() && !ReadDecision(r, input.context).admitted && r.id == ref)
            && (forall s :: s in m.suppressedRecords.value ==>
                  exists r :: r in input.All() && !ReadDecision(r, input.context).admitted
                              && s == Suppressed(r.id, r.kind, ReadDecision(r, input.context).reason))
            && (ref in m.contextRefs <==>
                  ref != "" && (input.context.actor == Some(ref) || input.context.owner == Some(ref)
                                || input.context.binding.instance == Some(ref)
                                || input.context.binding.session == Some(ref)
                                || input.context.binding.thread == Some(ref)))
  {
    FilterMembers(input.diagnostics, input.context);
    FilterMembers(input.All(), input.context);
    SuppressedInMeaning(input);
    var all := SuppressedOf(input.All(), input.context);
    FirstOfEachIdMeaning(all);
    MemberIds(all, ref);
    RecordIdsMeaning(Included(input.diagnostics, input.context), ref);
    ContextRefs(input.context, ref);
    hide ReadDecision, Included, SuppressedOf, FirstOfEachId, SuppressedIn, TargetsAndUpstream, UniqueRefs;
    if r :| r in input.All() && !ReadDecision(r, input.context).admitted && r.id == ref {
      assert SuppressedRecord(r, input.context) in all;
    }
  }

  lemma RecordIdsMeaning(records: seq<Record>, ref: string)
    ensures ref in RecordIds(records) <==> exists r :: r in records && r.id == ref
  {
    if r :| r in records && r.id == ref { DiagnosticIsListed(records, r); }
    if ref in RecordIds(records) {
      var i :| 0 <= i < |records| && RecordIds(records)[i] == ref;
      assert records[i] in records;
    }
  }

  lemma ContextRefs(c: ReadContext, ref: string)
    ensures ref in UniqueRefs([OrEmpty(c.actor), OrEmpty(c.owner), OrEmpty(c.binding.instance),
                               OrEmpty(c.binding.session), OrEmpty(c.binding.thread)]) <==>
            ref != "" && (c.actor == Some(ref) || c.owner == Some(ref) || c.binding.instance == Some(ref)
                          || c.binding.session == Some(ref) || c.binding.thread == Some(ref))
  {
    var texts := [OrEmpty(c.actor), OrEmpty(c.owner), OrEmpty(c.binding.instance), OrEmpty(c.binding.session),
                  OrEmpty(c.binding.thread)];
    assert texts[0] in texts && texts[1] in texts && texts[2] in texts && texts[3] in texts && texts[4] in texts;
    hide UniqueRefs;
  }
}
