/** packages/core/src/adapter-sdk/projection.ts: which records a projection may read. */
module ProjectionReads {
  import opened Prelude

  datatype Scope = OwnerPrivate | RuntimePrivate | OpenScope

  /** The three runtime bindings of a record or of a projection. */
  datatype Binding = Binding(instance: Option<string>, session: Option<string>, thread: Option<string>)

  datatype Record = Record(
    id: string,
    kind: string,
    inCanon: bool,
    scope: Scope,
    own: Binding,                     // the fields of the record
    provenance: Binding,              // runtime_ref, session_ref and thread_ref
    provenanceActor: Option<string>,
    actor: Option<string>,
    owner: Option<string>,
    updatedAt: int,
    upstream: seq<string>)            // the upstream refs its recognition entry would have

  datatype ReadContext = ReadContext(actor: Option<string>, owner: Option<string>, binding: Binding)

  datatype Verdict = Verdict(admitted: bool, reason: string)

  function Or(a: Option<string>, b: Option<string>): Option<string> { if a.Some? then a else b }

  /** `resolveRecordRuntimeContext` */
  function BindingOf(r: Record): Binding {
    var inherited := if r.inCanon then Binding(None, None, None) else r.provenance;
    Binding(Or(Or(r.own.instance, inherited.instance), if r.kind == "runtime_instance" then Some(r.id) else None),
            Or(Or(r.own.session, inherited.session), if r.kind == "runtime_session" then Some(r.id) else None),
            Or(Or(r.own.thread, inherited.thread), if r.kind == "conversation_thread" then Some(r.id) else None))
  }

  predicate Given(ref: Option<string>) { ref.Some? && ref.value != "" }

  predicate IsBound(b: Binding) { Given(b.instance) || Given(b.session) || Given(b.thread) }

  predicate Mismatch(record: Option<string>, context: Option<string>) { record.Some? && record != context }

  function RefSet(ref: Option<string>): set<string> { if Given(ref) then {ref.value} else {} }

  /** `resolveOwnerPrivateBindings` */
  function Identities(r: Record): set<string> {
    RefSet(r.provenanceActor) + RefSet(r.actor) + RefSet(r.owner) + (if r.kind == "actor_identity" then {r.id} else {})
  }

  function ScopedDecision(prefix: string, b: Binding, context: Binding): Verdict {
    if !IsBound(b) then
      if prefix == "runtime_private" then Verdict(false, "runtime_private_missing_context_binding")
      else Verdict(true, "owner_private_unscoped")
    else if !IsBound(context) then Verdict(false, prefix + "_requires_projection_context")
    else if Mismatch(b.instance, context.instance) then Verdict(false, prefix + "_runtime_instance_mismatch")
    else if Mismatch(b.session, context.session) then Verdict(false, prefix + "_runtime_session_mismatch")
    else if Mismatch(b.thread, context.thread) then Verdict(false, prefix + "_conversation_thread_mismatch")
    else Verdict(true, prefix + "_context_match")
  }

  /** `evaluateProjectionReadDecision` */
  function ReadDecision(r: Record, context: ReadContext): Verdict {
    var b := BindingOf(r);
    if r.scope == OpenScope then Verdict(true, "scope_allows_projection")
    else if r.scope == OwnerPrivate && !IsBound(b) then
      var bound, active := Identities(r), RefSet(context.actor) + RefSet(context.owner);
      if bound == {} then Verdict(false, "owner_private_missing_identity_binding")
      else if active == {} then Verdict(false, "owner_private_requires_identity_context")
      else if bound * active == {} then Verdict(false, "owner_private_identity_mismatch")
      else Verdict(true, "owner_private_identity_match")
    else ScopedDecision(if r.scope == OwnerPrivate then "owner_private" else "runtime_private", b, context.binding)
  }

  // ---------------------------------------------------------------- what is read, in the fields of the record

  datatype Dimension = Instance | Session | Thread

  function RefOf(b: Binding, d: Dimension): Option<string> {
    match d
    case Instance => b.instance
    case Session => b.session
    case Thread => b.thread
  }

  function KindOf(d: Dimension): string {
    match d
    case Instance => "runtime_instance"
    case Session => "runtime_session"
    case Thread => "conversation_thread"
  }

  /**
   Whom the record is bound to: its own ref comes first, then the ref of its provenance, which means nothing in canon;
   a record of the dimension itself is bound to its own id.
   */
  predicate IsBoundTo(r: Record, d: Dimension, ref: string) {
    var own, inherited := RefOf(r.own, d), RefOf(r.provenance, d);
    || own == Some(ref)
    || (own == None && !r.inCanon && inherited == Some(ref))
    || (own == None && (r.inCanon || inherited == None) && r.kind == KindOf(d) && r.id == ref)
  }

  ghost predicate HasBinding(r: Record) { exists d, ref :: ref != "" && IsBoundTo(r, d, ref) }

  ghost predicate FitsContext(r: Record, d: Dimension, context: ReadContext) {
    forall ref :: IsBoundTo(r, d, ref) ==> RefOf(context.binding, d) == Some(ref)
  }

  predicate NamesIdentity(r: Record, id: string) {
    || r.provenanceActor == Some(id) || r.actor == Some(id) || r.owner == Some(id)
    || (r.kind == "actor_identity" && r.id == id)
  }

  predicate IsReader(context: ReadContext, id: string) { context.actor == Some(id) || context.owner == Some(id) }

  lemma BindingMeaning(r: Record, d: Dimension)
    ensures forall ref :: RefOf(BindingOf(r), d) == Some(ref) <==> IsBoundTo(r, d, ref)
  {
  }

  lemma BoundMeaning(r: Record)
    ensures IsBound(BindingOf(r)) <==> HasBinding(r)
  {
    BindingMeaning(r, Instance);
    BindingMeaning(r, Session);
    BindingMeaning(r, Thread);
    var b := BindingOf(r);
    hide BindingOf, IsBoundTo;
    if Given(b.instance) { assert IsBoundTo(r, Instance, b.instance.value); }
    if Given(b.session) { assert IsBoundTo(r, Session, b.session.value); }
    if Given(b.thread) { assert IsBoundTo(r, Thread, b.thread.value); }
    if d, ref :| ref != "" && IsBoundTo(r, d, ref) { assert RefOf(b, d) == Some(ref); }
  }

  lemma FitMeaning(r: Record, d: Dimension, context: ReadContext)
    ensures Mismatch(RefOf(BindingOf(r), d), RefOf(context.binding, d)) <==> !FitsContext(r, d, context)
  {
    BindingMeaning(r, d);
    hide BindingOf, IsBoundTo;
    var ref := RefOf(BindingOf(r), d);
    if ref.Some? { assert IsBoundTo(r, d, ref.value); }
  }

  /** The identities that the record names and those of the projection have one in common. */
  ghost predicate SharesIdentity(r: Record, context: ReadContext) {
    exists id :: id != "" && NamesIdentity(r, id) && IsReader(context, id)
  }

  ghost predicate NamesNobody(r: Record) {
    r.kind != "actor_identity" && forall id :: NamesIdentity(r, id) ==> id == ""
  }

  ghost predicate HasNoReader(context: ReadContext) { forall id :: IsReader(context, id) ==> id == "" }

  lemma IdentityMembers(r: Record, context: ReadContext, id: string)
    ensures id in Identities(r) <==>
              NamesIdentity(r, id) && (id != "" || (r.kind == "actor_identity" && r.id == ""))
    ensures id in RefSet(context.actor) + RefSet(context.owner) <==> IsReader(context, id) && id != ""
  {
  }

  lemma IdentityMeaning(r: Record, context: ReadContext)
    ensures Identities(r) * (RefSet(context.actor) + RefSet(context.owner)) != {} <==> SharesIdentity(r, context)
    ensures Identities(r) == {} <==> NamesNobody(r)
    ensures RefSet(context.actor) + RefSet(context.owner) == {} <==> HasNoReader(context)
  {
    var bound, active := Identities(r), RefSet(context.actor) + RefSet(context.owner);
    forall id
      ensures id in bound <==>
              NamesIdentity(r, id) && (id != "" || (r.kind == "actor_identity" && r.id == ""))
      ensures id in active <==> IsReader(context, id) && id != ""
    {
      IdentityMembers(r, context, id);
    }
    assert r.kind == "actor_identity" ==> NamesIdentity(r, r.id);
    hide Identities, RefSet, NamesIdentity, IsReader;
    if SharesIdentity(r, context) {
      var id :| id != "" && NamesIdentity(r, id) && IsReader(context, id);
      assert id in bound * active;
    }
    if r.kind == "actor_identity" { assert r.id in bound; }
  }

  /**
   A record is included exactly when it is not private; or it is bound to a runtime context and every binding it has
   is the projection's; or it belongs to the owner, is bound to no context, and names an identity of the projection.
   */
  lemma ReadMeaning(r: Record, context: ReadContext)
    ensures ReadDecision(r, context).admitted <==>
              || r.scope == OpenScope
              || (HasBinding(r) && forall d :: FitsContext(r, d, context))
              || (r.scope == OwnerPrivate && !HasBinding(r) && SharesIdentity(r, context))
    ensures ReadDecision(r, context).reason != ""
  {
    BoundMeaning(r);
    IdentityMeaning(r, context);
    forall d ensures Mismatch(RefOf(BindingOf(r), d), RefOf(context.binding, d)) <==> !FitsContext(r, d, context) {
      FitMeaning(r, d, context);
    }
    assert RefOf(BindingOf(r), Instance) == BindingOf(r).instance
           && RefOf(BindingOf(r), Session) == BindingOf(r).session;
    assert RefOf(BindingOf(r), Thread) == BindingOf(r).thread;
    var b := BindingOf(r);
    hide BindingOf, Identities, HasBinding, FitsContext, NamesIdentity;
    if HasBinding(r) && forall d :: FitsContext(r, d, context) { FittingIsGiven(b, context.binding); }
  }

  /** Why a record is suppressed: the first of these conditions that holds. */
  ghost function WhySuppressed(r: Record, context: ReadContext): string {
    if !HasBinding(r) then
      if r.scope == RuntimePrivate then "runtime_private_missing_context_binding"
      else if NamesNobody(r) then "owner_private_missing_identity_binding"
      else if HasNoReader(context) then "owner_private_requires_identity_context"
      else "owner_private_identity_mismatch"
    else
      (if r.scope == RuntimePrivate then "runtime_private" else "owner_private")
      + (if forall d, ref :: RefOf(context.binding, d) == Some(ref) ==> ref == "" then "_requires_projection_context"
         else if !FitsContext(r, Instance, context) then "_runtime_instance_mismatch"
         else if !FitsContext(r, Session, context) then "_runtime_session_mismatch"
         else "_conversation_thread_mismatch")
  }

  lemma UnboundContext(b: Binding)
    ensures IsBound(b) <==> exists d, ref :: RefOf(b, d) == Some(ref) && ref != ""
  {
    if Given(b.instance) { assert RefOf(b, Instance) == Some(b.instance.value); }
    if Given(b.session) { assert RefOf(b, Session) == Some(b.session.value); }
    if Given(b.thread) { assert RefOf(b, Thread) == Some(b.thread.value); }
  }

  /** The reason given for a suppressed record. */
  lemma ReasonMeaning(r: Record, context: ReadContext)
    requires !ReadDecision(r, context).admitted
    ensures ReadDecision(r, context).reason == WhySuppressed(r, context)
  {
    BoundMeaning(r);
    IdentityMeaning(r, context);
    UnboundContext(context.binding);
    FitMeaning(r, Instance, context);
    FitMeaning(r, Session, context);
    FitMeaning(r, Thread, context);
    hide BindingOf, Identities, HasBinding, FitsContext, NamesIdentity, NamesNobody, HasNoReader, SharesIdentity,
         IsBound;
  }

  /** A given binding that the projection shares is given there too. */
  lemma FittingIsGiven(b: Binding, context: Binding)
    requires IsBound(b)
    requires !Mismatch(b.instance, context.instance) && !Mismatch(b.session, context.session)
             && !Mismatch(b.thread, context.thread)
    ensures IsBound(context)
  {
  }

  /** Two projections that both read a private record have every context that it is bound to in common. */
  lemma BoundRecordsStayInContext(r: Record, a: ReadContext, b: ReadContext, d: Dimension, ref: string)
    requires r.scope != OpenScope && HasBinding(r) && IsBoundTo(r, d, ref)
    requires ReadDecision(r, a).admitted && ReadDecision(r, b).admitted
    ensures RefOf(a.binding, d) == RefOf(b.binding, d) == Some(ref)
  {
    ReadMeaning(r, a);
    ReadMeaning(r, b);
    assert FitsContext(r, d, a) && FitsContext(r, d, b);
  }

  datatype Suppressed = Suppressed(id: string, kind: string, reason: string)

  function Included(records: seq<Record>, context: ReadContext): seq<Record> {
    if records == [] then []
    else (if ReadDecision(records[0], context).admitted then [records[0]] else []) + Included(records[1..], context)
  }

  function SuppressedOf(records: seq<Record>, context: ReadContext): seq<Suppressed> {
    if records == [] then []
    else
      (if ReadDecision(records[0], context).admitted then [] else [SuppressedRecord(records[0], context)])
      + SuppressedOf(records[1..], context)
  }

  function SuppressedRecord(r: Record, context: ReadContext): Suppressed {
    Suppressed(r.id, r.kind, ReadDecision(r, context).reason)
  }

  /** The filter splits the records: each goes to one side, as the read decision says. */
  lemma {:induction false} FilterMembers(records: seq<Record>, context: ReadContext)
    ensures forall r :: r in Included(records, context) <==> r in records && ReadDecision(r, context).admitted
    ensures forall s :: s in SuppressedOf(records, context) <==>
              exists r :: r in records && !ReadDecision(r, context).admitted && s == SuppressedRecord(r, context)
  {
    hide ReadDecision;
    if records != [] {
      FilterMembers(records[1..], context);
      assert records == [records[0]] + records[1..];
    }
  }

  lemma {:induction false} IncludedConcat(a: seq<Record>, b: seq<Record>, context: ReadContext)
    ensures Included(a + b, context) == Included(a, context) + Included(b, context)
    decreases |a|
  {
    hide ReadDecision;
    if a == [] {
      assert a + b == b;
    } else {
      IncludedConcat(a[1..], b, context);
      assert (a + b)[1..] == a[1..] + b && (a + b)[0] == a[0];
    }
  }

  lemma {:induction false} SuppressedConcat(a: seq<Record>, b: seq<Record>, context: ReadContext)
    ensures SuppressedOf(a + b, context) == SuppressedOf(a, context) + SuppressedOf(b, context)
    decreases |a|
  {
    hide ReadDecision;
    if a == [] {
      assert a + b == b;
    } else {
      SuppressedConcat(a[1..], b, context);
      assert (a + b)[1..] == a[1..] + b && (a + b)[0] == a[0];
    }
  }

  /** The filter goes record by record, and keeps their order on both sides. */
  lemma FilterKeepsOrder(front: seq<Record>, r: Record, rest: seq<Record>, context: ReadContext)
    ensures var admitted, why := ReadDecision(r, context).admitted, ReadDecision(r, context).reason;
            && Included(front + [r] + rest, context)
               == Included(front, context) + (if admitted then [r] else []) + Included(rest, context)
            && SuppressedOf(front + [r] + rest, context)
               == SuppressedOf(front, context) + (if admitted then [] else [Suppressed(r.id, r.kind, why)])
                  + SuppressedOf(rest, context)
  {
    hide ReadDecision;
    IncludedConcat(front + [r], rest, context);
    IncludedConcat(front, [r], context);
    SuppressedConcat(front + [r], rest, context);
    SuppressedConcat(front, [r], context);
  }

  /** `filterProjectionRecords` */
  method FilterProjectionRecords(records: seq<Record>, context: ReadContext)
      returns (included: seq<Record>, suppressed: seq<Suppressed>)
    ensures included == Included(records, context) && suppressed == SuppressedOf(records, context)
    ensures |included| + |suppressed| == |records|
  {
    hide ReadDecision;
    included, suppressed := [], [];
    var i := 0;
    while i < |records|
      invariant 0 <= i <= |records|
      invariant included + Included(records[i..], context) == Included(records, context)
      invariant suppressed + SuppressedOf(records[i..], context) == SuppressedOf(records, context)
      invariant |included| + |suppressed| == i
    {
      var r := records[i];
      assert records[i..][0] == r && records[i..][1..] == records[i + 1..];
      if ReadDecision(r, context).admitted {
        assert included + Included(records[i..], context) == (included + [r]) + Included(records[i + 1..], context);
        included := included + [r];
      } else {
        var s := SuppressedRecord(r, context);
        assert suppressed + SuppressedOf(records[i..], context)
            == (suppressed + [s]) + SuppressedOf(records[i + 1..], context);
        suppressed := suppressed + [s];
      }
      i := i + 1;
    }
  }
}
