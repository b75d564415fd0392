/** What an import writes: the rows, column by column, in terms of the bundle and of the new ids alone. */
module ImportMeaning {
  import opened BundleImport
  import opened AttachmentOrder
  import opened ImportedRows
  import opened Wrappers

  const NOTHING := Refs(None, None, None, [])

  /** An optional reference: to nothing when there is none, or when it is to nothing carried. */
  ghost predicate SentIfAny(keys: seq<Id>, ids: seq<Id>, was: Option<Id>, now: Option<Id>)
    requires |ids| <= |keys|
  {
    if was.None? then now.None? else Sent(keys, ids, was.value, now)
  }

  /** The row of a lead that was parked or closed is too. */
  function Disposition(l: Lead): string {
    if l.disposition in {"parked", "closed"} then l.disposition else ""
  }

  function Status(f: Finding): string {
    if f.status in {"resolved"} then "resolved" else ""
  }

  ghost predicate FindingWritten(bundle: Bundle, plan: Plan, i: nat, r: Row)
    requires PlanFits(bundle, plan) && i < |bundle.findings|
  {
    var f := bundle.findings[i];
    && r == Row(Findings, plan.findingIds[i], Some(plan.engagementId), None, None,
                Refs(None, None, None, r.refs.evidence), f.title, Status(f))
    && AllSent(EvidenceKeys(bundle.evidence), plan.artifactIds, f.evidence, r.refs.evidence)
  }

  ghost predicate AttemptWritten(bundle: Bundle, plan: Plan, i: nat, r: Row)
    requires PlanFits(bundle, plan) && i < |bundle.attempts|
  {
    var a := bundle.attempts[i];
    && r == Row(Attempts, plan.attemptIds[i], Some(plan.engagementId), None, None, r.refs, a.summary, "")
    && Sent(LeadKeys(bundle.leads), plan.leadIds, a.leadId, r.refs.link)
    && SentIfAny(FindingKeys(bundle.findings), plan.findingIds, a.finding, r.refs.finding)
    && SentIfAny(ObjectiveKeys(bundle.objectives), plan.objectiveIds, a.objective, r.refs.objective)
    && AllSent(EvidenceKeys(bundle.evidence), plan.artifactIds, a.evidence, r.refs.evidence)
  }

  ghost predicate ExcerptWritten(bundle: Bundle, plan: Plan, i: nat, r: Row)
    requires PlanFits(bundle, plan) && i < |bundle.excerpts|
  {
    var e := bundle.excerpts[i];
    && r == Row(Excerpts, plan.excerptIds[i], Some(plan.engagementId), Some(plan.runId), r.artifact, NOTHING,
                e.content, "")
    && Sent(EvidenceKeys(bundle.evidence), plan.artifactIds, e.artifactId, r.artifact)
  }

  ghost predicate AttachmentWritten(bundle: Bundle, plan: Plan, i: nat, r: Row)
    requires PlanFits(bundle, plan) && i < |plan.attachmentIds|
  {
    var ordered := OrderOf(bundle.attachments).attachments;
    && r == Row(Attachments, plan.attachmentIds[i], Some(plan.engagementId), None, None,
                Refs(r.refs.link, None, None, []), ordered[i].digest, "")
    && SentIfAny(AttachmentKeys(ordered), plan.attachmentIds, ordered[i].parent, r.refs.link)
  }

  /** A secret or one of its verifications. */
  predicate SecretWritten(engagementId: Id, secret: Secret, ids: SecretIds, r: Row)
    requires |ids.verifications| == |secret.verifications|
  {
    || r == Row(Secrets, ids.id, Some(engagementId), None, None, NOTHING, secret.name, "")
    || exists j :: 0 <= j < |ids.verifications| &&
         r == Row(Verifications, ids.verifications[j], Some(engagementId), None, None,
                  Refs(Some(ids.id), None, None, []), secret.verifications[j], "")
  }

  ghost predicate AnySecretWritten(engagementId: Id, secrets: seq<Secret>, ids: seq<SecretIds>, r: Row)
    requires SecretsFit(secrets, ids)
  {
    exists i :: 0 <= i < |ids| && SecretWritten(engagementId, secrets[i], ids[i], r)
  }

  /** The engagement, its notes and the finished action and run that hold what is imported. */
  predicate RootWritten(bundle: Bundle, plan: Plan, r: Row) {
    var e := plan.engagementId;
    || r == Row(Engagements, e, None, None, None, NOTHING, bundle.name, "")
    || r == Row(Notes, plan.noteId, Some(e), None, None, NOTHING, bundle.notes, "")
    || r == Row(Actions, plan.actionId, Some(e), None, None, NOTHING, "", "succeeded")
    || r == Row(Runs, plan.runId, Some(e), None, None, Refs(Some(plan.actionId), None, None, []), "", "succeeded")
  }

  predicate ArtifactWritten(plan: Plan, e: Evidence, id: Id, r: Row) {
    r == Row(Artifacts, id, None, Some(plan.runId), None, NOTHING, e.digest, e.kind)
  }

  predicate LeadWritten(plan: Plan, l: Lead, id: Id, r: Row) {
    r == Row(Leads, id, Some(plan.engagementId), None, None, NOTHING, l.title, Disposition(l))
  }

  predicate ObjectiveWritten(plan: Plan, o: Objective, id: Id, r: Row) {
    r == Row(Objectives, id, Some(plan.engagementId), None, None, NOTHING, o.name, o.state)
  }

  /** `r` is a row the import of this bundle owes under these ids. */
  ghost predicate Written(bundle: Bundle, plan: Plan, r: Row)
    requires PlanFits(bundle, plan)
  {
    || RootWritten(bundle, plan, r)
    || (exists i :: 0 <= i < |bundle.evidence| && ArtifactWritten(plan, bundle.evidence[i], plan.artifactIds[i], r))
    || (exists i :: 0 <= i < |bundle.leads| && LeadWritten(plan, bundle.leads[i], plan.leadIds[i], r))
    || AnySecretWritten(plan.engagementId, bundle.secrets, plan.secretIds, r)
    || (exists i :: 0 <= i < |plan.objectiveIds| &&
          ObjectiveWritten(plan, bundle.objectives[i], plan.objectiveIds[i], r))
    || (exists i :: 0 <= i < |bundle.findings| && FindingWritten(bundle, plan, i, r))
    || (exists i :: 0 <= i < |bundle.attempts| && AttemptWritten(bundle, plan, i, r))
    || (exists i :: 0 <= i < |bundle.excerpts| && ExcerptWritten(bundle, plan, i, r))
    || exists i :: 0 <= i < |plan.attachmentIds| && AttachmentWritten(bundle, plan, i, r)
  }

  // ---- The rows of each table ----

  lemma FindingIs(bundle: Bundle, plan: Plan, i: nat, r: Row)
    requires PlanFits(bundle, plan) && i < |bundle.findings|
    ensures FindingWritten(bundle, plan, i, r) <==>
            r == FindingRow(plan.engagementId, bundle.findings[i], plan.findingIds[i], MapsOf(bundle, plan).artifacts)
  {
    StoredSent(EvidenceKeys(bundle.evidence), plan.artifactIds, bundle.findings[i].evidence, r.refs.evidence);
  }

  lemma SentLookup(keys: seq<Id>, ids: seq<Id>, was: Option<Id>, now: Option<Id>)
    requires |ids| <= |keys|
    ensures SentIfAny(keys, ids, was, now) <==> now == Lookup(Remap(keys, ids), was)
  {
    if was.Some? {
      LookupSent(keys, ids, was.value, now);
    }
  }

  lemma AttemptIs(bundle: Bundle, plan: Plan, i: nat, r: Row)
    requires PlanFits(bundle, plan) && i < |bundle.attempts|
    ensures AttemptWritten(bundle, plan, i, r) <==>
            r == AttemptRow(plan.engagementId, bundle.attempts[i], plan.attemptIds[i], MapsOf(bundle, plan))
  {
    hide Sent, SentIfAny, AllSent, RemapStored, Lookup, Remap;
    var a := bundle.attempts[i];
    LookupSent(LeadKeys(bundle.leads), plan.leadIds, a.leadId, r.refs.link);
    SentLookup(FindingKeys(bundle.findings), plan.findingIds, a.finding, r.refs.finding);
    SentLookup(ObjectiveKeys(bundle.objectives), plan.objectiveIds, a.objective, r.refs.objective);
    StoredSent(EvidenceKeys(bundle.evidence), plan.artifactIds, a.evidence, r.refs.evidence);
  }

  lemma ExcerptIs(bundle: Bundle, plan: Plan, i: nat, r: Row)
    requires PlanFits(bundle, plan) && i < |bundle.excerpts|
    ensures ExcerptWritten(bundle, plan, i, r) <==>
            r == ExcerptRow(plan.engagementId, plan.runId, bundle.excerpts[i], plan.excerptIds[i],
                            MapsOf(bundle, plan).artifacts)
  {
    hide Sent, Lookup, Remap;
    LookupSent(EvidenceKeys(bundle.evidence), plan.artifactIds, bundle.excerpts[i].artifactId, r.artifact);
  }

  lemma AttachmentIs(bundle: Bundle, plan: Plan, i: nat, r: Row)
    requires PlanFits(bundle, plan) && i < |plan.attachmentIds|
    ensures AttachmentWritten(bundle, plan, i, r) <==>
            r == AttachmentRows(plan.engagementId, OrderOf(bundle.attachments).attachments, plan.attachmentIds)[i]
  {
    hide Sent, SentIfAny, Lookup, Remap, OrderOf;
    var ordered := OrderOf(bundle.attachments).attachments;
    SentLookup(AttachmentKeys(ordered), plan.attachmentIds, ordered[i].parent, r.refs.link);
  }

  lemma {:induction false} SecretsAre(engagementId: Id, secrets: seq<Secret>, ids: seq<SecretIds>, r: Row)
    requires SecretsFit(secrets, ids)
    ensures AnySecretWritten(engagementId, secrets, ids, r) <==> r in AllSecretRows(engagementId, secrets, ids)
  {
    if ids != [] {
      var n := |ids| - 1;
      SecretsAre(engagementId, secrets, ids[..n], r);
      SecretIs(engagementId, secrets[n], ids[n], r);
      forall i | 0 <= i < n
        ensures ids[..n][i] == ids[i]
      {
      }
      assert AnySecretWritten(engagementId, secrets, ids, r) <==>
        AnySecretWritten(engagementId, secrets, ids[..n], r) || SecretWritten(engagementId, secrets[n], ids[n], r);
    }
  }

  lemma SecretIs(engagementId: Id, secret: Secret, ids: SecretIds, r: Row)
    requires |ids.verifications| == |secret.verifications|
    ensures SecretWritten(engagementId, secret, ids, r) <==> r in SecretRows(engagementId, secret, ids)
  {
    var under := VerificationRows(engagementId, secret, ids.id, ids.verifications);
    forall j | 0 <= j < |under|
      ensures under[j] == Row(Verifications, ids.verifications[j], Some(engagementId), None, None,
                              Refs(Some(ids.id), None, None, []), secret.verifications[j], "")
      ensures under[j] in under
    {
    }
  }

  lemma RootsAre(bundle: Bundle, plan: Plan, r: Row)
    ensures RootWritten(bundle, plan, r) <==> r in RootRows(bundle, plan)
  {
  }

  lemma ArtifactsAre(plan: Plan, evidence: seq<Evidence>, ids: seq<Id>, r: Row)
    requires |ids| == |evidence|
    ensures (exists i :: 0 <= i < |evidence| && ArtifactWritten(plan, evidence[i], ids[i], r)) <==>
            r in ArtifactRows(evidence, ids, plan.runId)
  {
    var rows := ArtifactRows(evidence, ids, plan.runId);
    assert forall i :: 0 <= i < |ids| ==> (rows[i] == r <==> ArtifactWritten(plan, evidence[i], ids[i], r));
  }

  lemma LeadsAre(plan: Plan, leads: seq<Lead>, ids: seq<Id>, r: Row)
    requires |ids| == |leads|
    ensures (exists i :: 0 <= i < |leads| && LeadWritten(plan, leads[i], ids[i], r)) <==>
            r in LeadRows(plan.engagementId, leads, ids)
  {
    var rows := LeadRows(plan.engagementId, leads, ids);
    assert forall i :: 0 <= i < |ids| ==> (rows[i] == r <==> LeadWritten(plan, leads[i], ids[i], r));
  }

  lemma ObjectivesAre(plan: Plan, objectives: seq<Objective>, ids: seq<Id>, r: Row)
    requires |ids| <= |objectives|
    ensures (exists i :: 0 <= i < |ids| && ObjectiveWritten(plan, objectives[i], ids[i], r)) <==>
            r in ObjectiveRows(plan.engagementId, objectives, ids)
  {
    var rows := ObjectiveRows(plan.engagementId, objectives, ids);
    assert forall i :: 0 <= i < |ids| ==> (rows[i] == r <==> ObjectiveWritten(plan, objectives[i], ids[i], r));
  }

  lemma FindingsAre(bundle: Bundle, plan: Plan, r: Row)
    requires PlanFits(bundle, plan)
    ensures (exists i :: 0 <= i < |bundle.findings| && FindingWritten(bundle, plan, i, r)) <==>
            r in FindingRows(plan.engagementId, bundle.findings, plan.findingIds, MapsOf(bundle, plan).artifacts)
  {
    hide FindingWritten, MapsOf, OrderOf;
    var rows := FindingRows(plan.engagementId, bundle.findings, plan.findingIds, MapsOf(bundle, plan).artifacts);
    forall i | 0 <= i < |bundle.findings|
      ensures FindingWritten(bundle, plan, i, r) <==> r == rows[i]
    {
      FindingIs(bundle, plan, i, r);
    }
  }

  lemma AttemptsAre(bundle: Bundle, plan: Plan, r: Row)
    requires PlanFits(bundle, plan)
    ensures (exists i :: 0 <= i < |bundle.attempts| && AttemptWritten(bundle, plan, i, r)) <==>
            r in AttemptRows(plan.engagementId, bundle.attempts, plan.attemptIds, MapsOf(bundle, plan))
  {
    hide AttemptWritten, MapsOf, OrderOf;
    var rows := AttemptRows(plan.engagementId, bundle.attempts, plan.attemptIds, MapsOf(bundle, plan));
    forall i | 0 <= i < |bundle.attempts|
      ensures AttemptWritten(bundle, plan, i, r) <==> r == rows[i]
    {
      AttemptIs(bundle, plan, i, r);
    }
  }

  lemma ExcerptsAre(bundle: Bundle, plan: Plan, r: Row)
    requires PlanFits(bundle, plan)
    ensures (exists i :: 0 <= i < |bundle.excerpts| && ExcerptWritten(bundle, plan, i, r)) <==>
            r in ExcerptRows(plan.engagementId, plan.runId, bundle.excerpts, plan.excerptIds,
                             MapsOf(bundle, plan).artifacts)
  {
    hide ExcerptWritten, MapsOf, OrderOf;
    var rows := ExcerptRows(plan.engagementId, plan.runId, bundle.excerpts, plan.excerptIds,
                            MapsOf(bundle, plan).artifacts);
    forall i | 0 <= i < |bundle.excerpts|
      ensures ExcerptWritten(bundle, plan, i, r) <==> r == rows[i]
    {
      ExcerptIs(bundle, plan, i, r);
    }
  }

  lemma AttachmentsAre(bundle: Bundle, plan: Plan, r: Row)
    requires PlanFits(bundle, plan)
    ensures (exists i :: 0 <= i < |plan.attachmentIds| && AttachmentWritten(bundle, plan, i, r)) <==>
            r in AttachmentRows(plan.engagementId, OrderOf(bundle.attachments).attachments, plan.attachmentIds)
  {
    hide AttachmentWritten, AttachmentRow, OrderOf;
    var rows := AttachmentRows(plan.engagementId, OrderOf(bundle.attachments).attachments, plan.attachmentIds);
    forall i | 0 <= i < |plan.attachmentIds|
      ensures AttachmentWritten(bundle, plan, i, r) <==> r == rows[i]
    {
      AttachmentIs(bundle, plan, i, r);
    }
  }

  /** The rows of an import are those the bundle stands for under the new ids, and no others. */
  lemma RowsExactly(bundle: Bundle, plan: Plan, r: Row)
    requires PlanFits(bundle, plan)
    ensures r in RowsOf(bundle, plan) <==> Written(bundle, plan, r)
  {
    hide RowsOf, MapsOf, OrderOf, RootWritten, ArtifactWritten, LeadWritten, ObjectiveWritten, AnySecretWritten,
         FindingWritten, AttemptWritten, ExcerptWritten, AttachmentWritten;
    RowsAre(bundle, plan, r);
    RootsAre(bundle, plan, r);
    ArtifactsAre(plan, bundle.evidence, plan.artifactIds, r);
    LeadsAre(plan, bundle.leads, plan.leadIds, r);
    SecretsAre(plan.engagementId, bundle.secrets, plan.secretIds, r);
    ObjectivesAre(plan, bundle.objectives, plan.objectiveIds, r);
    FindingsAre(bundle, plan, r);
    AttemptsAre(bundle, plan, r);
    ExcerptsAre(bundle, plan, r);
    AttachmentsAre(bundle, plan, r);
  }
}
