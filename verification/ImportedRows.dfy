/** The rows a bundle stands for once every record has its new id, and how they refer to one another. */
module ImportedRows {
  import opened BundleImport
  import opened AttachmentOrder
  import opened Wrappers

  // ---- New ids for old ones ----

  /** The first old ids sent to the new ones, later entries overriding earlier ones. */
  function Remap(keys: seq<Id>, ids: seq<Id>): map<Id, Id>
    requires |ids| <= |keys|
  {
    if ids == [] then map[]
    else Remap(keys, ids[..|ids| - 1])[keys[|ids| - 1] := ids[|ids| - 1]]
  }

  lemma RemapNothing(keys: seq<Id>)
    ensures Remap(keys, []) == map[]
  {
  }

  lemma RemapGrows(keys: seq<Id>, ids: seq<Id>, id: Id)
    requires |ids| < |keys|
    ensures Remap(keys, ids + [id]) == Remap(keys, ids)[keys[|ids|] := id]
  {
    assert (ids + [id])[..|ids|] == ids;
  }

  /** `j` is the last place of the key. */
  predicate LastAt(keys: seq<Id>, n: nat, key: Id, j: nat)
    requires n <= |keys|
  {
    j < n && keys[j] == key && forall k :: j < k < n ==> keys[k] != key
  }

  lemma {:induction false} RemapPlace(keys: seq<Id>, ids: seq<Id>, key: Id) returns (j: nat)
    requires |ids| <= |keys| && key in Remap(keys, ids)
    ensures LastAt(keys, |ids|, key, j) && Remap(keys, ids)[key] == ids[j]
  {
    var n := |ids| - 1;
    if key == keys[n] {
      j := n;
    } else {
      j := RemapPlace(keys, ids[..n], key);
    }
  }

  lemma {:induction false} RemapKeys(keys: seq<Id>, ids: seq<Id>)
    requires |ids| <= |keys|
    ensures forall key :: key in Remap(keys, ids) <==> key in keys[..|ids|]
  {
    if ids != [] {
      var n := |ids| - 1;
      RemapKeys(keys, ids[..n]);
      assert keys[..|ids|] == keys[..n] + [keys[n]];
    }
  }

  /** A key is sent to the id of its last place, and nothing else is sent anywhere. */
  lemma RemapIs(keys: seq<Id>, ids: seq<Id>)
    requires |ids| <= |keys|
    ensures forall key :: key in Remap(keys, ids) <==> key in keys[..|ids|]
    ensures forall key ::
              key in Remap(keys, ids) ==>
                exists j: nat :: LastAt(keys, |ids|, key, j) && Remap(keys, ids)[key] == ids[j]
  {
    RemapKeys(keys, ids);
    forall key | key in Remap(keys, ids)
      ensures exists j: nat :: LastAt(keys, |ids|, key, j) && Remap(keys, ids)[key] == ids[j]
    {
      var j := RemapPlace(keys, ids, key);
    }
  }

  lemma RemapAt(keys: seq<Id>, ids: seq<Id>, key: Id) returns (j: nat)
    requires |ids| == |keys| && key in keys
    ensures LastAt(keys, |keys|, key, j) && key in Remap(keys, ids) && Remap(keys, ids)[key] == ids[j]
  {
    RemapKeys(keys, ids);
    assert keys[..|ids|] == keys;
    j := RemapPlace(keys, ids, key);
  }

  /** Without repeated keys every key is sent to its own id. */
  lemma RemapDistinct(keys: seq<Id>, ids: seq<Id>, i: nat)
    requires |ids| == |keys| && NoRepeats(keys) && i < |keys|
    ensures keys[i] in Remap(keys, ids) && Remap(keys, ids)[keys[i]] == ids[i]
  {
    RemapIs(keys, ids);
    assert keys[..|ids|] == keys;
  }

  /** Entries for other keys do not change what a key is sent to. */
  lemma {:induction false} RemapStays(keys: seq<Id>, ids: seq<Id>, i: nat, key: Id)
    requires i <= |ids| <= |keys| && forall j :: i <= j < |ids| ==> keys[j] != key
    ensures Lookup(Remap(keys, ids), Some(key)) == Lookup(Remap(keys, ids[..i]), Some(key))
    decreases |ids|
  {
    if i < |ids| {
      RemapStays(keys, ids[..|ids| - 1], i, key);
      assert ids[..|ids| - 1][..i] == ids[..i];
    } else {
      assert ids[..i] == ids;
    }
  }

  /** The new id of an optional reference, if there is one. */
  function Lookup(remap: map<Id, Id>, key: Option<Id>): Option<Id> {
    if key.Some? && key.value in remap then Some(remap[key.value]) else None
  }

  /** The new id of the last record with an old id, none when there is no such record. */
  ghost predicate Sent(keys: seq<Id>, ids: seq<Id>, was: Id, now: Option<Id>)
    requires |ids| <= |keys|
  {
    match now
    case None => was !in keys[..|ids|]
    case Some(id) => exists j :: 0 <= j < |ids| && keys[j] == was && ids[j] == id && was !in keys[j + 1..|ids|]
  }

  lemma InTail(keys: seq<Id>, from: nat, to: nat, j: nat)
    requires from <= j < to <= |keys|
    ensures keys[j] in keys[from..to]
  {
    assert keys[from..to][j - from] == keys[j];
  }

  /** Where a key is sent is what is looked up for it. */
  lemma LookupSent(keys: seq<Id>, ids: seq<Id>, was: Id, now: Option<Id>)
    requires |ids| <= |keys|
    ensures Sent(keys, ids, was, now) <==> now == Lookup(Remap(keys, ids), Some(was))
  {
    RemapKeys(keys, ids);
    if was in Remap(keys, ids) {
      var j := RemapPlace(keys, ids, was);
      assert was !in keys[j + 1..|ids|];
      if Sent(keys, ids, was, now) {
        var i :| 0 <= i < |ids| && keys[i] == was && ids[i] == now.value && was !in keys[i + 1..|ids|];
        if i < j {
          InTail(keys, i + 1, |ids|, j);
        }
      }
    }
  }

  /**
   * A list of references: each to a carried record is to its new id, each other one stays, and
   * none is lost, added or moved.
   */
  ghost predicate AllSent(keys: seq<Id>, ids: seq<Id>, was: seq<Id>, now: seq<Id>)
    requires |ids| == |keys|
  {
    && |now| == |was|
    && forall i :: 0 <= i < |was| ==>
         (was[i] in keys ==> Sent(keys, ids, was[i], Some(now[i]))) && (was[i] !in keys ==> now[i] == was[i])
  }

  lemma StoredSent(keys: seq<Id>, ids: seq<Id>, was: seq<Id>, now: seq<Id>)
    requires |ids| == |keys|
    ensures AllSent(keys, ids, was, now) <==> now == RemapStored(was, Remap(keys, ids))
  {
    RemapKeys(keys, ids);
    assert keys[..|ids|] == keys;
    var stored := RemapStored(was, Remap(keys, ids));
    forall i, id | 0 <= i < |was|
      ensures was[i] in keys ==> (Sent(keys, ids, was[i], Some(id)) <==> id == stored[i])
    {
      LookupSent(keys, ids, was[i], Some(id));
    }
  }

  /** References to evidence; unknown ones pass through. */
  function RemapStored(ids: seq<Id>, remap: map<Id, Id>): seq<Id> {
    seq(|ids|, i requires 0 <= i < |ids| => if ids[i] in remap then remap[ids[i]] else ids[i])
  }

  function EvidenceKeys(evidence: seq<Evidence>): (r: seq<Id>)
    ensures |r| == |evidence| && forall i :: 0 <= i < |r| ==> r[i] == evidence[i].artifactId
  {
    seq(|evidence|, i requires 0 <= i < |evidence| => evidence[i].artifactId)
  }

  function LeadKeys(leads: seq<Lead>): (r: seq<Id>)
    ensures |r| == |leads| && forall i :: 0 <= i < |r| ==> r[i] == leads[i].id
  {
    seq(|leads|, i requires 0 <= i < |leads| => leads[i].id)
  }

  function FindingKeys(findings: seq<Finding>): (r: seq<Id>)
    ensures |r| == |findings| && forall i :: 0 <= i < |r| ==> r[i] == findings[i].id
  {
    seq(|findings|, i requires 0 <= i < |findings| => findings[i].id)
  }

  function ObjectiveKeys(objectives: seq<Objective>): (r: seq<Id>)
    ensures |r| == |objectives| && forall i :: 0 <= i < |r| ==> r[i] == objectives[i].id
  {
    seq(|objectives|, i requires 0 <= i < |objectives| => objectives[i].id)
  }

  function AttachmentKeys(attachments: seq<Attachment>): (r: seq<Id>)
    ensures |r| == |attachments| && forall i :: 0 <= i < |r| ==> r[i] == attachments[i].id
  {
    seq(|attachments|, i requires 0 <= i < |attachments| => attachments[i].id)
  }

  // ---- Rows ----

  function RecordRow(table: Table, engagementId: Id, id: Id, refs: Refs, content: string, state: string): Row {
    Row(table, id, Some(engagementId), None, None, refs, content, state)
  }

  function EngagementRow(engagementId: Id, name: string): Row {
    Row(Engagements, engagementId, None, None, None, NO_REFS, name, "")
  }

  function ActionRow(engagementId: Id, actionId: Id): Row {
    RecordRow(Actions, engagementId, actionId, NO_REFS, "", "succeeded")
  }

  function RunRow(engagementId: Id, runId: Id, actionId: Id): Row {
    RecordRow(Runs, engagementId, runId, Under(actionId), "", "succeeded")
  }

  function ArtifactRow(e: Evidence, id: Id, runId: Id): Row {
    Row(Artifacts, id, None, Some(runId), None, NO_REFS, e.digest, e.kind)
  }

  function LeadState(l: Lead): string {
    if l.disposition == "parked" || l.disposition == "closed" then l.disposition else ""
  }

  function LeadRow(engagementId: Id, l: Lead, id: Id): Row {
    RecordRow(Leads, engagementId, id, NO_REFS, l.title, LeadState(l))
  }

  function FindingState(f: Finding): string {
    if f.status == "resolved" then "resolved" else ""
  }

  function FindingRow(engagementId: Id, f: Finding, id: Id, artifacts: map<Id, Id>): Row {
    RecordRow(Findings, engagementId, id, NO_REFS.(evidence := RemapStored(f.evidence, artifacts)), f.title,
              FindingState(f))
  }

  /** An attempt, under the new row of its lead, with what it links to. */
  function AttemptRow(engagementId: Id, a: Attempt, id: Id, maps: Maps): Row {
    RecordRow(Attempts, engagementId, id,
              Refs(Lookup(maps.leads, Some(a.leadId)), Lookup(maps.findings, a.finding),
                   Lookup(maps.objectives, a.objective),
                   RemapStored(a.evidence, maps.artifacts)),
              a.summary, "")
  }

  function ExcerptRow(engagementId: Id, runId: Id, e: Excerpt, id: Id, artifacts: map<Id, Id>): Row {
    Row(Excerpts, id, Some(engagementId), Some(runId), Lookup(artifacts, Some(e.artifactId)), NO_REFS, e.content, "")
  }

  function AttachmentRow(engagementId: Id, a: Attachment, id: Id, attachments: map<Id, Id>): Row {
    RecordRow(Attachments, engagementId, id, NO_REFS.(link := Lookup(attachments, a.parent)), a.digest, "")
  }

  /** The ids of a secret and of its verifications. */
  datatype SecretIds = SecretIds(id: Id, verifications: seq<Id>)

  /** The new ids of everything that is referred to by an old one. */
  datatype Maps = Maps(artifacts: map<Id, Id>, leads: map<Id, Id>, findings: map<Id, Id>, objectives: map<Id, Id>)

  function ArtifactRows(evidence: seq<Evidence>, ids: seq<Id>, runId: Id): seq<Row>
    requires |ids| <= |evidence|
  {
    seq(|ids|, i requires 0 <= i < |ids| => ArtifactRow(evidence[i], ids[i], runId))
  }

  function LeadRows(engagementId: Id, leads: seq<Lead>, ids: seq<Id>): seq<Row>
    requires |ids| <= |leads|
  {
    seq(|ids|, i requires 0 <= i < |ids| => LeadRow(engagementId, leads[i], ids[i]))
  }

  function VerificationRows(engagementId: Id, s: Secret, secretId: Id, ids: seq<Id>): seq<Row>
    requires |ids| <= |s.verifications|
  {
    seq(|ids|, i requires 0 <= i < |ids| =>
      RecordRow(Verifications, engagementId, ids[i], Under(secretId), s.verifications[i], ""))
  }

  function SecretRows(engagementId: Id, s: Secret, ids: SecretIds): seq<Row>
    requires |ids.verifications| <= |s.verifications|
  {
    [RecordRow(Secrets, engagementId, ids.id, NO_REFS, s.name, "")]
    + VerificationRows(engagementId, s, ids.id, ids.verifications)
  }

  predicate SecretsFit(secrets: seq<Secret>, ids: seq<SecretIds>) {
    |ids| <= |secrets| && forall i :: 0 <= i < |ids| ==> |ids[i].verifications| == |secrets[i].verifications|
  }

  function AllSecretRows(engagementId: Id, secrets: seq<Secret>, ids: seq<SecretIds>): seq<Row>
    requires SecretsFit(secrets, ids)
  {
    if ids == [] then []
    else
      var n := |ids| - 1;
      AllSecretRows(engagementId, secrets, ids[..n]) + SecretRows(engagementId, secrets[n], ids[n])
  }

  function ObjectiveRows(engagementId: Id, objectives: seq<Objective>, ids: seq<Id>): seq<Row>
    requires |ids| <= |objectives|
  {
    seq(|ids|, i requires 0 <= i < |ids| =>
      RecordRow(Objectives, engagementId, ids[i], NO_REFS, objectives[i].name, objectives[i].state))
  }

  function FindingRows(engagementId: Id, findings: seq<Finding>, ids: seq<Id>, artifacts: map<Id, Id>): seq<Row>
    requires |ids| <= |findings|
  {
    seq(|ids|, i requires 0 <= i < |ids| => FindingRow(engagementId, findings[i], ids[i], artifacts))
  }

  function AttemptRows(engagementId: Id, attempts: seq<Attempt>, ids: seq<Id>, maps: Maps): seq<Row>
    requires |ids| <= |attempts|
  {
    seq(|ids|, i requires 0 <= i < |ids| => AttemptRow(engagementId, attempts[i], ids[i], maps))
  }

  function ExcerptRows(engagementId: Id, runId: Id, excerpts: seq<Excerpt>, ids: seq<Id>,
          artifacts: map<Id, Id>): seq<Row>
    requires |ids| <= |excerpts|
  {
    seq(|ids|, i requires 0 <= i < |ids| => ExcerptRow(engagementId, runId, excerpts[i], ids[i], artifacts))
  }

  /** Every attachment under the new row of its own parent. */
  function AttachmentRows(engagementId: Id, attachments: seq<Attachment>, ids: seq<Id>): seq<Row>
    requires |ids| <= |attachments|
  {
    var remap := Remap(AttachmentKeys(attachments), ids);
    seq(|ids|, i requires 0 <= i < |ids| => AttachmentRow(engagementId, attachments[i], ids[i], remap))
  }

  lemma ArtifactsGrow(evidence: seq<Evidence>, ids: seq<Id>, runId: Id, n: nat)
    requires n < |ids| <= |evidence|
    ensures ArtifactRows(evidence, ids[..n + 1], runId) ==
            ArtifactRows(evidence, ids[..n], runId) + [ArtifactRow(evidence[n], ids[n], runId)]
  {
  }

  lemma LeadsGrow(engagementId: Id, leads: seq<Lead>, ids: seq<Id>, id: Id)
    requires |ids| < |leads|
    ensures LeadRows(engagementId, leads, ids + [id]) ==
            LeadRows(engagementId, leads, ids) + [LeadRow(engagementId, leads[|ids|], id)]
  {
  }

  lemma VerificationsGrow(engagementId: Id, s: Secret, secretId: Id, ids: seq<Id>, id: Id)
    requires |ids| < |s.verifications|
    ensures SecretRows(engagementId, s, SecretIds(secretId, ids + [id])) ==
            SecretRows(engagementId, s, SecretIds(secretId, ids))
            + [RecordRow(Verifications, engagementId, id, Under(secretId), s.verifications[|ids|], "")]
  {
  }

  lemma SecretsGrow(engagementId: Id, secrets: seq<Secret>, ids: seq<SecretIds>, id: SecretIds)
    requires |ids| < |secrets| && SecretsFit(secrets, ids) && |id.verifications| == |secrets[|ids|].verifications|
    ensures SecretsFit(secrets, ids + [id])
    ensures AllSecretRows(engagementId, secrets, ids + [id]) ==
            AllSecretRows(engagementId, secrets, ids) + SecretRows(engagementId, secrets[|ids|], id)
  {
    assert (ids + [id])[..|ids|] == ids;
  }

  lemma FindingsGrow(engagementId: Id, findings: seq<Finding>, ids: seq<Id>, artifacts: map<Id, Id>, id: Id)
    requires |ids| < |findings|
    ensures FindingRows(engagementId, findings, ids + [id], artifacts) ==
            FindingRows(engagementId, findings, ids, artifacts)
            + [FindingRow(engagementId, findings[|ids|], id, artifacts)]
  {
  }

  lemma AttemptsGrow(engagementId: Id, attempts: seq<Attempt>, ids: seq<Id>, maps: Maps, id: Id)
    requires |ids| < |attempts|
    ensures AttemptRows(engagementId, attempts, ids + [id], maps) ==
            AttemptRows(engagementId, attempts, ids, maps) + [AttemptRow(engagementId, attempts[|ids|], id, maps)]
  {
  }

  lemma ExcerptsGrow(engagementId: Id, runId: Id, excerpts: seq<Excerpt>, ids: seq<Id>, artifacts: map<Id, Id>, id: Id)
    requires |ids| < |excerpts|
    ensures ExcerptRows(engagementId, runId, excerpts, ids + [id], artifacts) ==
            ExcerptRows(engagementId, runId, excerpts, ids, artifacts)
            + [ExcerptRow(engagementId, runId, excerpts[|ids|], id, artifacts)]
  {
  }

  /** A row as it is made, with the parents made so far. */
  function RowAsMade(engagementId: Id, attachments: seq<Attachment>, ids: seq<Id>, i: nat): Row
    requires i < |ids| <= |attachments|
  {
    AttachmentRow(engagementId, attachments[i], ids[i], Remap(AttachmentKeys(attachments), ids[..i]))
  }

  function RowsAsMade(engagementId: Id, attachments: seq<Attachment>, ids: seq<Id>): seq<Row>
    requires |ids| <= |attachments|
  {
    seq(|ids|, i requires 0 <= i < |ids| => RowAsMade(engagementId, attachments, ids, i))
  }

  lemma RowsAsMadeGrow(engagementId: Id, attachments: seq<Attachment>, ids: seq<Id>, id: Id)
    requires |ids| < |attachments|
    ensures RowsAsMade(engagementId, attachments, ids + [id]) ==
            RowsAsMade(engagementId, attachments, ids) + [RowAsMade(engagementId, attachments, ids + [id], |ids|)]
  {
    forall i | 0 <= i < |ids|
      ensures RowAsMade(engagementId, attachments, ids + [id], i) == RowAsMade(engagementId, attachments, ids, i)
    {
      assert (ids + [id])[..i] == ids[..i];
    }
  }

  /** With parents first, the next attachment's parent has its new id. */
  lemma ParentMapped(attachments: seq<Attachment>, ids: seq<Id>)
    requires ParentsFirst(attachments) && |ids| < |attachments|
    ensures var a := attachments[|ids|];
            a.parent.Some? ==> Lookup(Remap(AttachmentKeys(attachments), ids), a.parent).Some?
  {
    var n, keys := |ids|, AttachmentKeys(attachments);
    RemapIs(keys, ids);
    assert ParentKnown(attachments[n], Ids(attachments[..n]));
    if attachments[n].parent.Some? {
      var p :| p in attachments[..n] && p.id == attachments[n].parent.value;
      var j :| 0 <= j < n && attachments[..n][j] == p;
      assert keys[..n][j] == p.id;
    }
  }

  /** With parents first and none of their namesakes behind, the parents made so far are the parents. */
  lemma MadeInOrder(engagementId: Id, attachments: seq<Attachment>, ids: seq<Id>)
    requires ParentsFirst(attachments) && |ids| == |attachments|
    ensures RowsAsMade(engagementId, attachments, ids) == AttachmentRows(engagementId, attachments, ids)
  {
    var keys := AttachmentKeys(attachments);
    forall i | 0 <= i < |ids|
      ensures Lookup(Remap(keys, ids[..i]), attachments[i].parent) == Lookup(Remap(keys, ids), attachments[i].parent)
    {
      if attachments[i].parent.Some? {
        RemapStays(keys, ids, i, attachments[i].parent.value);
      }
    }
  }

  // ---- The whole import ----

  datatype Plan = Plan(
    engagementId: Id,
    actionId: Id,
    runId: Id,
    artifactIds: seq<Id>,
    noteId: Id,
    leadIds: seq<Id>,
    secretIds: seq<SecretIds>,
    objectiveIds: seq<Id>,
    findingIds: seq<Id>,
    attemptIds: seq<Id>,
    excerptIds: seq<Id>,
    attachmentIds: seq<Id>)

  /** Evidence, leads, secrets and objectives have their ids, the last two only in a private copy. */
  predicate PlanStarted(bundle: Bundle, plan: Plan) {
    && |plan.artifactIds| == |bundle.evidence| && |plan.leadIds| == |bundle.leads|
    && SecretsFit(bundle.secrets, plan.secretIds) && |plan.objectiveIds| <= |bundle.objectives|
    && (if bundle.privateCopy then |plan.secretIds| == |bundle.secrets| && |plan.objectiveIds| == |bundle.objectives|
        else plan.secretIds == [] && plan.objectiveIds == [])
  }

  /** Every record has its id. */
  predicate PlanFits(bundle: Bundle, plan: Plan) {
    && PlanStarted(bundle, plan)
    && |plan.findingIds| == |bundle.findings| && |plan.attemptIds| == |bundle.attempts|
    && |plan.excerptIds| == |bundle.excerpts|
    && OrderOf(bundle.attachments).Ordered? && |plan.attachmentIds| == |OrderOf(bundle.attachments).attachments|
  }

  function MapsOf(bundle: Bundle, plan: Plan): Maps
    requires PlanFits(bundle, plan)
  {
    Maps(Remap(EvidenceKeys(bundle.evidence), plan.artifactIds), Remap(LeadKeys(bundle.leads), plan.leadIds),
         Remap(FindingKeys(bundle.findings), plan.findingIds),
         Remap(ObjectiveKeys(bundle.objectives), plan.objectiveIds))
  }

  function RootRows(bundle: Bundle, plan: Plan): seq<Row> {
    [EngagementRow(plan.engagementId, bundle.name),
     RecordRow(Notes, plan.engagementId, plan.noteId, NO_REFS, bundle.notes, ""),
     ActionRow(plan.engagementId, plan.actionId), RunRow(plan.engagementId, plan.runId, plan.actionId)]
  }

  function FirstRows(bundle: Bundle, plan: Plan): seq<Row>
    requires PlanStarted(bundle, plan)
  {
    RootRows(bundle, plan)
    + ArtifactRows(bundle.evidence, plan.artifactIds, plan.runId)
    + LeadRows(plan.engagementId, bundle.leads, plan.leadIds)
    + AllSecretRows(plan.engagementId, bundle.secrets, plan.secretIds)
    + ObjectiveRows(plan.engagementId, bundle.objectives, plan.objectiveIds)
  }

  /** Every row of an import apart from what is found again in the evidence. */
  function RowsOf(bundle: Bundle, plan: Plan): seq<Row>
    requires PlanFits(bundle, plan)
  {
    var maps := MapsOf(bundle, plan);
    FirstRows(bundle, plan)
    + FindingRows(plan.engagementId, bundle.findings, plan.findingIds, maps.artifacts)
    + AttemptRows(plan.engagementId, bundle.attempts, plan.attemptIds, maps)
    + ExcerptRows(plan.engagementId, plan.runId, bundle.excerpts, plan.excerptIds, maps.artifacts)
    + AttachmentRows(plan.engagementId, OrderOf(bundle.attachments).attachments, plan.attachmentIds)
  }

  /** The rows of a plan that goes on from another. */
  lemma PlanCompleted(bundle: Bundle, start: Plan, plan: Plan)
    requires PlanStarted(bundle, start) && PlanFits(bundle, plan)
    requires plan == start.(findingIds := plan.findingIds, attemptIds := plan.attemptIds, excerptIds := plan.excerptIds,
                            attachmentIds := plan.attachmentIds)
    ensures var maps := MapsOf(bundle, plan);
            RowsOf(bundle, plan) ==
            FirstRows(bundle, start)
            + FindingRows(plan.engagementId, bundle.findings, plan.findingIds, maps.artifacts)
            + AttemptRows(plan.engagementId, bundle.attempts, plan.attemptIds, maps)
            + ExcerptRows(plan.engagementId, plan.runId, bundle.excerpts, plan.excerptIds, maps.artifacts)
            + AttachmentRows(plan.engagementId, OrderOf(bundle.attachments).attachments, plan.attachmentIds)
  {
  }

  /** Every row has its own id within its table, so no two records share one. */
  predicate Keyed(rows: seq<Row>) {
    forall i, j :: 0 <= i < j < |rows| && rows[i].table == rows[j].table ==> rows[i].id != rows[j].id
  }

  /** Every lead and artifact referred to is carried, and the attachments can be ordered. */
  ghost predicate Linked(bundle: Bundle) {
    && (forall a :: a in bundle.attempts ==> a.leadId in LeadKeys(bundle.leads))
    && (forall e :: e in bundle.excerpts ==> e.artifactId in EvidenceKeys(bundle.evidence))
    && ParentsKnown(bundle.attachments) && Grounded(bundle.attachments)
  }

  /** What a caller can check of a bundle whose bytes are intact. */
  ghost predicate Importable(bundle: Bundle) {
    NoRepeats(EvidenceKeys(bundle.evidence)) && Linked(bundle)
  }

  /** What is carried has a new id. */
  lemma KeysMapped(bundle: Bundle, plan: Plan)
    requires PlanStarted(bundle, plan)
    ensures forall key ::
              key in Remap(EvidenceKeys(bundle.evidence), plan.artifactIds) <==> key in EvidenceKeys(bundle.evidence)
    ensures forall key :: key in Remap(LeadKeys(bundle.leads), plan.leadIds) <==> key in LeadKeys(bundle.leads)
  {
    RemapIs(EvidenceKeys(bundle.evidence), plan.artifactIds);
    RemapIs(LeadKeys(bundle.leads), plan.leadIds);
    assert EvidenceKeys(bundle.evidence)[..|plan.artifactIds|] == EvidenceKeys(bundle.evidence);
    assert LeadKeys(bundle.leads)[..|plan.leadIds|] == LeadKeys(bundle.leads);
  }

  // ---- What is found again in the evidence ----

  /** What each projection finds in an artifact: any number of rows. */
  type Discoveries = (Table, Id) -> set<string>

  function Discovered(found: Discoveries, table: Table, artifactId: Id): set<Row> {
    set c | c in found(table, artifactId) :: Row(table, artifactId, None, None, Some(artifactId), NO_REFS, c, "")
  }

  function DiscoveredIn(found: Discoveries, artifactId: Id): set<Row> {
    Discovered(found, NmapServices, artifactId)
    + Discovered(found, HttpProbeResults, artifactId)
    + Discovered(found, FfufResults, artifactId)
  }

  function AllDiscovered(found: Discoveries, artifactIds: seq<Id>): set<Row> {
    if artifactIds == [] then {}
    else AllDiscovered(found, artifactIds[..|artifactIds| - 1]) + DiscoveredIn(found, artifactIds[|artifactIds| - 1])
  }

  lemma DiscoveredGrow(found: Discoveries, artifactIds: seq<Id>, n: nat)
    requires n < |artifactIds|
    ensures AllDiscovered(found, artifactIds[..n + 1]) ==
            AllDiscovered(found, artifactIds[..n]) + DiscoveredIn(found, artifactIds[n])
  {
    assert artifactIds[..n + 1][..n] == artifactIds[..n];
  }

  // ---- How the rows refer to one another ----

  predicate HasRow(rows: seq<Row>, table: Table, id: Id) {
    exists r :: r in rows && r.table == table && r.id == id
  }

  predicate Refers(rows: seq<Row>, table: Table, id: Option<Id>) {
    id.Some? ==> HasRow(rows, table, id.value)
  }

  /** The evidence of a record: what is carried has its row under the new id it refers to. */
  ghost predicate EvidenceResolved(bundle: Bundle, plan: Plan, rows: seq<Row>, was: seq<Id>, now: seq<Id>)
    requires PlanFits(bundle, plan)
  {
    var keys := EvidenceKeys(bundle.evidence);
    && AllSent(keys, plan.artifactIds, was, now)
    && forall i :: 0 <= i < |was| && was[i] in keys ==> HasRow(rows, Artifacts, now[i])
  }

  /** The rows a row refers to are among the imported ones. */
  ghost predicate Resolved(bundle: Bundle, plan: Plan, rows: seq<Row>, r: Row)
    requires PlanFits(bundle, plan)
  {
    match r.table
    case Runs => r.refs.link.Some? && Refers(rows, Actions, r.refs.link)
    case Verifications => r.refs.link.Some? && Refers(rows, Secrets, r.refs.link)
    case Findings =>
      exists i :: 0 <= i < |plan.findingIds| && plan.findingIds[i] == r.id
                  && EvidenceResolved(bundle, plan, rows, bundle.findings[i].evidence, r.refs.evidence)
    case Attempts =>
      && r.refs.link.Some? && Refers(rows, Leads, r.refs.link)
      && Refers(rows, Findings, r.refs.finding) && Refers(rows, Objectives, r.refs.objective)
      && exists i :: 0 <= i < |plan.attemptIds| && plan.attemptIds[i] == r.id
                     && EvidenceResolved(bundle, plan, rows, bundle.attempts[i].evidence, r.refs.evidence)
    case Excerpts => r.artifact.Some? && Refers(rows, Artifacts, r.artifact)
    case Attachments => Refers(rows, Attachments, r.refs.link)
    case _ => true
  }

  /** Where a map sends a carried key there is a row. */
  lemma Lands(rows: seq<Row>, table: Table, keys: seq<Id>, ids: seq<Id>, key: Option<Id>)
    requires |ids| <= |keys| && AllThere(rows, table, ids)
    ensures Refers(rows, table, Lookup(Remap(keys, ids), key))
  {
    RemapIs(keys, ids);
  }

  lemma InSum(a: seq<Row>, b: seq<Row>, c: seq<Row>, d: seq<Row>, e: seq<Row>)
    ensures forall r :: r in a + b + c + d + e <==> r in a || r in b || r in c || r in d || r in e
  {
  }

  /** Which rows there are. */
  lemma RowsAre(bundle: Bundle, plan: Plan, r: Row)
    requires PlanFits(bundle, plan)
    ensures var maps, e := MapsOf(bundle, plan), plan.engagementId;
            r in RowsOf(bundle, plan) <==>
            || r in RootRows(bundle, plan)
            || r in ArtifactRows(bundle.evidence, plan.artifactIds, plan.runId)
            || r in LeadRows(e, bundle.leads, plan.leadIds)
            || r in AllSecretRows(e, bundle.secrets, plan.secretIds)
            || r in ObjectiveRows(e, bundle.objectives, plan.objectiveIds)
            || r in FindingRows(e, bundle.findings, plan.findingIds, maps.artifacts)
            || r in AttemptRows(e, bundle.attempts, plan.attemptIds, maps)
            || r in ExcerptRows(e, plan.runId, bundle.excerpts, plan.excerptIds, maps.artifacts)
            || r in AttachmentRows(e, OrderOf(bundle.attachments).attachments, plan.attachmentIds)
  {
    var maps, e := MapsOf(bundle, plan), plan.engagementId;
    InSum(RootRows(bundle, plan), ArtifactRows(bundle.evidence, plan.artifactIds, plan.runId),
          LeadRows(e, bundle.leads, plan.leadIds),
          AllSecretRows(e, bundle.secrets, plan.secretIds), ObjectiveRows(e, bundle.objectives, plan.objectiveIds));
    InSum(FirstRows(bundle, plan), FindingRows(e, bundle.findings, plan.findingIds, maps.artifacts),
          AttemptRows(e, bundle.attempts, plan.attemptIds, maps),
          ExcerptRows(e, plan.runId, bundle.excerpts, plan.excerptIds, maps.artifacts),
          AttachmentRows(e, OrderOf(bundle.attachments).attachments, plan.attachmentIds));
  }

  predicate AllThere(rows: seq<Row>, table: Table, ids: seq<Id>) {
    forall i :: 0 <= i < |ids| ==> HasRow(rows, table, ids[i])
  }

  lemma Part(bundle: Bundle, plan: Plan, part: seq<Row>, table: Table, ids: seq<Id>)
    requires PlanFits(bundle, plan)
    requires |part| == |ids| && forall i :: 0 <= i < |ids| ==> part[i].table == table && part[i].id == ids[i]
    requires forall r :: r in part ==> r in RowsOf(bundle, plan)
    ensures AllThere(RowsOf(bundle, plan), table, ids)
  {
    var rows := RowsOf(bundle, plan);
    forall i | 0 <= i < |ids|
      ensures HasRow(rows, table, ids[i])
    {
      assert part[i] in rows;
    }
  }

  lemma ArtifactsThere(bundle: Bundle, plan: Plan)
    requires PlanFits(bundle, plan)
    ensures AllThere(RowsOf(bundle, plan), Artifacts, plan.artifactIds)
  {
    var part := ArtifactRows(bundle.evidence, plan.artifactIds, plan.runId);
    forall r | r in part
      ensures r in RowsOf(bundle, plan)
    {
      RowsAre(bundle, plan, r);
    }
    Part(bundle, plan, part, Artifacts, plan.artifactIds);
  }

  lemma LeadsThere(bundle: Bundle, plan: Plan)
    requires PlanFits(bundle, plan)
    ensures AllThere(RowsOf(bundle, plan), Leads, plan.leadIds)
  {
    var part := LeadRows(plan.engagementId, bundle.leads, plan.leadIds);
    forall r | r in part
      ensures r in RowsOf(bundle, plan)
    {
      RowsAre(bundle, plan, r);
    }
    Part(bundle, plan, part, Leads, plan.leadIds);
  }

  lemma ObjectivesThere(bundle: Bundle, plan: Plan)
    requires PlanFits(bundle, plan)
    ensures AllThere(RowsOf(bundle, plan), Objectives, plan.objectiveIds)
  {
    var part := ObjectiveRows(plan.engagementId, bundle.objectives, plan.objectiveIds);
    forall r | r in part
      ensures r in RowsOf(bundle, plan)
    {
      RowsAre(bundle, plan, r);
    }
    Part(bundle, plan, part, Objectives, plan.objectiveIds);
  }

  lemma FindingsThere(bundle: Bundle, plan: Plan)
    requires PlanFits(bundle, plan)
    ensures AllThere(RowsOf(bundle, plan), Findings, plan.findingIds)
  {
    var part := FindingRows(plan.engagementId, bundle.findings, plan.findingIds, MapsOf(bundle, plan).artifacts);
    forall r | r in part
      ensures r in RowsOf(bundle, plan)
    {
      RowsAre(bundle, plan, r);
    }
    Part(bundle, plan, part, Findings, plan.findingIds);
  }

  lemma AttachmentsThere(bundle: Bundle, plan: Plan)
    requires PlanFits(bundle, plan)
    ensures AllThere(RowsOf(bundle, plan), Attachments, plan.attachmentIds)
  {
    var part := AttachmentRows(plan.engagementId, OrderOf(bundle.attachments).attachments, plan.attachmentIds);
    forall r | r in part
      ensures r in RowsOf(bundle, plan)
    {
      RowsAre(bundle, plan, r);
    }
    Part(bundle, plan, part, Attachments, plan.attachmentIds);
  }

  lemma SecretsThere(bundle: Bundle, plan: Plan)
    requires PlanFits(bundle, plan)
    ensures forall r ::
              r in AllSecretRows(plan.engagementId, bundle.secrets, plan.secretIds) ==> r in RowsOf(bundle, plan)
  {
    forall r | r in AllSecretRows(plan.engagementId, bundle.secrets, plan.secretIds)
      ensures r in RowsOf(bundle, plan)
    {
      RowsAre(bundle, plan, r);
    }
  }

  /** The verifications of a secret are under it. */
  lemma {:induction false} SecretsResolve(bundle: Bundle, plan: Plan, engagementId: Id, secrets: seq<Secret>,
          ids: seq<SecretIds>, rows: seq<Row>)
    requires PlanFits(bundle, plan)
    requires SecretsFit(secrets, ids) && forall r :: r in AllSecretRows(engagementId, secrets, ids) ==> r in rows
    ensures forall r :: r in AllSecretRows(engagementId, secrets, ids) ==> Resolved(bundle, plan, rows, r)
  {
    hide SecretRows, Resolved;
    if ids != [] {
      var n := |ids| - 1;
      SecretsResolve(bundle, plan, engagementId, secrets, ids[..n], rows);
      SecretResolves(bundle, plan, engagementId, secrets[n], ids[n], rows);
    }
  }

  lemma SecretResolves(bundle: Bundle, plan: Plan, engagementId: Id, secret: Secret, ids: SecretIds, rows: seq<Row>)
    requires PlanFits(bundle, plan)
    requires |ids.verifications| <= |secret.verifications|
    requires forall r :: r in SecretRows(engagementId, secret, ids) ==> r in rows
    ensures forall r :: r in SecretRows(engagementId, secret, ids) ==> Resolved(bundle, plan, rows, r)
  {
    hide PlanFits, EvidenceResolved;
    var all := SecretRows(engagementId, secret, ids);
    assert all[0] in rows && all[0].table == Secrets && all[0].id == ids.id;
  }

  lemma AttemptsResolve(bundle: Bundle, plan: Plan, rows: seq<Row>)
    requires PlanFits(bundle, plan) && Linked(bundle)
    requires AllThere(rows, Leads, plan.leadIds) && AllThere(rows, Objectives, plan.objectiveIds)
    requires AllThere(rows, Findings, plan.findingIds) && AllThere(rows, Artifacts, plan.artifactIds)
    ensures forall r ::
              r in AttemptRows(plan.engagementId, bundle.attempts, plan.attemptIds, MapsOf(bundle, plan)) ==>
                Resolved(bundle, plan, rows, r)
  {
    KeysMapped(bundle, plan);
    forall i | 0 <= i < |plan.attemptIds|
      ensures Resolved(bundle, plan, rows,
                       AttemptRow(plan.engagementId, bundle.attempts[i], plan.attemptIds[i], MapsOf(bundle, plan)))
    {
      var a := bundle.attempts[i];
      assert a in bundle.attempts;
      Lands(rows, Leads, LeadKeys(bundle.leads), plan.leadIds, Some(a.leadId));
      Lands(rows, Findings, FindingKeys(bundle.findings), plan.findingIds, a.finding);
      Lands(rows, Objectives, ObjectiveKeys(bundle.objectives), plan.objectiveIds, a.objective);
      EvidenceLands(bundle, plan, rows, a.evidence);
    }
  }

  lemma EvidenceLands(bundle: Bundle, plan: Plan, rows: seq<Row>, was: seq<Id>)
    requires PlanFits(bundle, plan) && AllThere(rows, Artifacts, plan.artifactIds)
    ensures EvidenceResolved(bundle, plan, rows, was, RemapStored(was, MapsOf(bundle, plan).artifacts))
  {
    var keys := EvidenceKeys(bundle.evidence);
    var now := RemapStored(was, MapsOf(bundle, plan).artifacts);
    StoredSent(keys, plan.artifactIds, was, now);
    forall i | 0 <= i < |was| && was[i] in keys
      ensures HasRow(rows, Artifacts, now[i])
    {
      assert Sent(keys, plan.artifactIds, was[i], Some(now[i]));
    }
  }

  lemma FindingsResolve(bundle: Bundle, plan: Plan, rows: seq<Row>)
    requires PlanFits(bundle, plan) && AllThere(rows, Artifacts, plan.artifactIds)
    ensures forall r ::
              r in FindingRows(plan.engagementId, bundle.findings, plan.findingIds, MapsOf(bundle, plan).artifacts) ==>
                Resolved(bundle, plan, rows, r)
  {
    forall i | 0 <= i < |plan.findingIds|
      ensures Resolved(bundle, plan, rows,
                       FindingRow(plan.engagementId, bundle.findings[i], plan.findingIds[i],
                                  MapsOf(bundle, plan).artifacts))
    {
      EvidenceLands(bundle, plan, rows, bundle.findings[i].evidence);
    }
  }

  lemma ExcerptsResolve(bundle: Bundle, plan: Plan, rows: seq<Row>)
    requires PlanFits(bundle, plan) && Linked(bundle) && AllThere(rows, Artifacts, plan.artifactIds)
    ensures forall r ::
              r in ExcerptRows(plan.engagementId, plan.runId, bundle.excerpts, plan.excerptIds,
                               MapsOf(bundle, plan).artifacts) ==>
                Resolved(bundle, plan, rows, r)
  {
    KeysMapped(bundle, plan);
    forall i | 0 <= i < |plan.excerptIds|
      ensures Resolved(bundle, plan, rows,
                       ExcerptRow(plan.engagementId, plan.runId, bundle.excerpts[i], plan.excerptIds[i],
                                  MapsOf(bundle, plan).artifacts))
    {
      var e := bundle.excerpts[i];
      assert e in bundle.excerpts;
      Lands(rows, Artifacts, EvidenceKeys(bundle.evidence), plan.artifactIds, Some(e.artifactId));
    }
  }

  lemma AttachmentsResolve(bundle: Bundle, plan: Plan, engagementId: Id, ordered: seq<Attachment>, ids: seq<Id>,
          rows: seq<Row>)
    requires PlanFits(bundle, plan) && |ids| == |ordered| && AllThere(rows, Attachments, ids)
    ensures forall r :: r in AttachmentRows(engagementId, ordered, ids) ==> Resolved(bundle, plan, rows, r)
  {
    forall i | 0 <= i < |ordered|
      ensures Resolved(bundle, plan, rows,
                       AttachmentRow(engagementId, ordered[i], ids[i], Remap(AttachmentKeys(ordered), ids)))
    {
      Lands(rows, Attachments, AttachmentKeys(ordered), ids, ordered[i].parent);
    }
  }

  /** Rows of these tables refer to nothing. */
  predicate Plain(table: Table) {
    table.Engagements? || table.Notes? || table.Actions? || table.Artifacts? || table.Leads?
    || table.Objectives?
  }

  lemma PlainRows(bundle: Bundle, plan: Plan, r: Row)
    requires PlanFits(bundle, plan) && r in RowsOf(bundle, plan)
    ensures || Plain(r.table) || r == RootRows(bundle, plan)[3]
            || r in AllSecretRows(plan.engagementId, bundle.secrets, plan.secretIds)
            || r in FindingRows(plan.engagementId, bundle.findings, plan.findingIds, MapsOf(bundle, plan).artifacts)
            || r in AttemptRows(plan.engagementId, bundle.attempts, plan.attemptIds, MapsOf(bundle, plan))
            || r in ExcerptRows(plan.engagementId, plan.runId, bundle.excerpts, plan.excerptIds,
                                MapsOf(bundle, plan).artifacts)
            || r in AttachmentRows(plan.engagementId, OrderOf(bundle.attachments).attachments, plan.attachmentIds)
  {
    RowsAre(bundle, plan, r);
  }

  lemma LinkedResolve(bundle: Bundle, plan: Plan, rows: seq<Row>)
    requires PlanFits(bundle, plan) && Linked(bundle) && rows == RowsOf(bundle, plan)
    ensures forall r ::
              r in FindingRows(plan.engagementId, bundle.findings, plan.findingIds, MapsOf(bundle, plan).artifacts) ==>
                Resolved(bundle, plan, rows, r)
    ensures forall r ::
              r in AttemptRows(plan.engagementId, bundle.attempts, plan.attemptIds, MapsOf(bundle, plan)) ==>
                Resolved(bundle, plan, rows, r)
    ensures forall r ::
              r in ExcerptRows(plan.engagementId, plan.runId, bundle.excerpts, plan.excerptIds,
                               MapsOf(bundle, plan).artifacts) ==>
                Resolved(bundle, plan, rows, r)
  {
    ArtifactsThere(bundle, plan);
    LeadsThere(bundle, plan);
    ObjectivesThere(bundle, plan);
    FindingsThere(bundle, plan);
    FindingsResolve(bundle, plan, rows);
    AttemptsResolve(bundle, plan, rows);
    ExcerptsResolve(bundle, plan, rows);
  }

  /** Every row of an import refers only to rows of the same import, apart from evidence that is not carried. */
  lemma ReferencesResolve(bundle: Bundle, plan: Plan, r: Row)
    requires PlanFits(bundle, plan) && Importable(bundle) && r in RowsOf(bundle, plan)
    ensures Resolved(bundle, plan, RowsOf(bundle, plan), r)
  {
    hide RowsOf;
    hide AttachmentRows;
    var rows := RowsOf(bundle, plan);
    PlainRows(bundle, plan, r);
    if r in AllSecretRows(plan.engagementId, bundle.secrets, plan.secretIds) {
      SecretsThere(bundle, plan);
      SecretsResolve(bundle, plan, plan.engagementId, bundle.secrets, plan.secretIds, rows);
    } else if r == RootRows(bundle, plan)[3] {
      RowsAre(bundle, plan, RootRows(bundle, plan)[2]);
    } else {
      LinkedResolve(bundle, plan, rows);
      AttachmentsThere(bundle, plan);
      AttachmentsResolve(bundle, plan, plan.engagementId, OrderOf(bundle.attachments).attachments, plan.attachmentIds,
                         rows);
    }
  }

  /**
   * Each attempt hangs under the row of its own lead: the last one with that id. With
   * distinct lead ids, under the only one.
   */
  lemma AttemptsUnderTheirLeads(bundle: Bundle, plan: Plan, i: nat) returns (j: nat)
    requires PlanFits(bundle, plan) && Importable(bundle) && i < |bundle.attempts|
    ensures LastAt(LeadKeys(bundle.leads), |bundle.leads|, bundle.attempts[i].leadId, j)
    ensures AttemptRow(plan.engagementId, bundle.attempts[i], plan.attemptIds[i], MapsOf(bundle, plan)).refs.link ==
            Some(plan.leadIds[j])
    ensures LeadRow(plan.engagementId, bundle.leads[j], plan.leadIds[j]) in RowsOf(bundle, plan)
  {
    assert bundle.attempts[i] in bundle.attempts;
    j := RemapAt(LeadKeys(bundle.leads), plan.leadIds, bundle.attempts[i].leadId);
    var row := LeadRows(plan.engagementId, bundle.leads, plan.leadIds)[j];
    RowsAre(bundle, plan, row);
  }

  /** The bundle's attachments that arrive are those no namesake of which is less deep. */
  lemma AttachmentArrives(bundle: Bundle, plan: Plan, a: Attachment) returns (i: nat)
    requires PlanFits(bundle, plan) && a in bundle.attachments && LeastDeep(bundle.attachments, a)
    ensures var ordered := OrderOf(bundle.attachments).attachments;
            && i < |ordered| && ordered[i] == a
            && AttachmentRows(plan.engagementId, ordered, plan.attachmentIds)[i] in RowsOf(bundle, plan)
  {
    OrderedExactly(bundle.attachments);
    var ordered := OrderOf(bundle.attachments).attachments;
    i :| 0 <= i < |ordered| && ordered[i] == a;
    RowsAre(bundle, plan, AttachmentRows(plan.engagementId, ordered, plan.attachmentIds)[i]);
  }

  /** With parents first, the row of each attachment is under the row of one with its parent's id. */
  lemma AttachmentUnderParent(engagementId: Id, ordered: seq<Attachment>, ids: seq<Id>, i: nat) returns (j: nat)
    requires ParentsFirst(ordered) && |ids| == |ordered| && i < |ordered| && ordered[i].parent.Some?
    ensures var rows := AttachmentRows(engagementId, ordered, ids);
            j < i && ordered[j].id == ordered[i].parent.value && rows[i].refs.link == Some(rows[j].id)
  {
    var keys, parent := AttachmentKeys(ordered), ordered[i].parent.value;
    assert ParentKnown(ordered[i], Ids(ordered[..i]));
    var q :| q in ordered[..i] && q.id == parent;
    var k :| 0 <= k < i && ordered[..i][k] == q;
    assert keys[k] == parent;
    j := RemapAt(keys, ids, parent);
  }
}
