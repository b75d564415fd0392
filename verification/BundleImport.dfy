/**
 * Importing a workspace bundle: checks first, then rows written step by step, any of
 * which may fail; a failure deletes every row the import added.
 */
module BundleImport {
  import opened Bytes
  import opened Unicode
  import B = Base64Url
  import opened Wrappers

  type Id = string

  datatype Table =
    | Engagements | Notes | Actions | Runs | Artifacts | NmapServices | HttpProbeResults | FfufResults
    | Leads | Attempts | Findings | Secrets | Verifications | Objectives | Excerpts | Attachments | OtherTable

  /** What a record refers to inside its engagement: the record it hangs under, a finding, an objective and evidence. */
  datatype Refs = Refs(link: Option<Id>, finding: Option<Id>, objective: Option<Id>, evidence: seq<Id>)

  const NO_REFS := Refs(None, None, None, [])

  function Under(link: Id): Refs {
    NO_REFS.(link := Some(link))
  }

  /** A row: the columns that tie it to others, its content and its state. */
  datatype Row = Row(table: Table, id: Id, engagement: Option<Id>, run: Option<Id>, artifact: Option<Id>,
          refs: Refs, content: string, state: string)

  type Database = set<Row>

  /** What a failed import knows about the rows it wrote. */
  datatype Ledger = Ledger(engagementId: Id, actionId: Option<Id>, runId: Option<Id>, artifactIds: seq<Id>)

  predicate OfEngagement(table: Table) {
    table.Notes? || table.Leads? || table.Attempts? || table.Findings? || table.Secrets? || table.Verifications?
    || table.Objectives? || table.Excerpts? || table.Attachments?
  }

  predicate OfArtifact(table: Table) {
    table.NmapServices? || table.HttpProbeResults? || table.FfufResults?
  }

  /** The rows the compensating deletes remove. */
  predicate Matches(ledger: Ledger, r: Row) {
    if OfArtifact(r.table) then r.artifact.Some? && r.artifact.value in ledger.artifactIds
    else if r.table.Artifacts? then ledger.runId.Some? && r.run == ledger.runId
    else if OfEngagement(r.table) then r.engagement == Some(ledger.engagementId)
    else if r.table.Runs? then ledger.runId == Some(r.id) && r.engagement == Some(ledger.engagementId)
    else if r.table.Actions? then ledger.actionId == Some(r.id) && r.engagement == Some(ledger.engagementId)
    else r.table.Engagements? && r.id == ledger.engagementId
  }

  /** `later` knows at least what `earlier` knew. */
  predicate Extends(earlier: Ledger, later: Ledger) {
    && later.engagementId == earlier.engagementId
    && (earlier.actionId.Some? ==> later.actionId == earlier.actionId)
    && (earlier.runId.Some? ==> later.runId == earlier.runId)
    && forall id :: id in earlier.artifactIds ==> id in later.artifactIds
  }

  /** The database is what it was before the import and rows the ledger accounts for. */
  predicate Accounted(base: Database, db: Database, ledger: Ledger) {
    base <= db && forall r :: r in db && r !in base ==> Matches(ledger, r)
  }

  /** No row from before carries any of the import's ids. */
  predicate Fresh(base: Database, ledger: Ledger) {
    forall r :: r in base ==> !Matches(ledger, r)
  }

  lemma DeletingRestores(base: Database, db: Database, ledger: Ledger)
    requires Accounted(base, db, ledger) && Fresh(base, ledger)
    ensures (set r | r in db && !Matches(ledger, r)) == base
  {
  }

  // ---- Bundles ----

  datatype Evidence = Evidence(artifactId: Id, kind: string, sizeBytes: nat, digest: string, contentBase64: Text)
  datatype Lead = Lead(id: Id, title: string, disposition: string)
  datatype Attempt = Attempt(leadId: Id, summary: string, evidence: seq<Id>, finding: Option<Id>, objective: Option<Id>)
  datatype Finding = Finding(id: Id, title: string, status: string, evidence: seq<Id>)
  datatype Excerpt = Excerpt(artifactId: Id, content: string)
  datatype Attachment = Attachment(id: Id, sizeBytes: nat, digest: string, contentBase64: Text, parent: Option<Id>)
  datatype Secret = Secret(name: string, verifications: seq<string>)
  datatype Objective = Objective(id: Id, name: string, state: string)

  datatype Bundle = Bundle(
    name: string,
    privateCopy: bool,
    notes: string,
    evidence: seq<Evidence>,
    leads: seq<Lead>,
    attempts: seq<Attempt>,
    findings: seq<Finding>,
    excerpts: seq<Excerpt>,
    attachments: seq<Attachment>,
    secrets: seq<Secret>,
    objectives: seq<Objective>)

  /** Decoding as lenient as the platform's, and the digest. */
  datatype Platform = Platform(decode: Text -> seq<Byte>, sha256: seq<Byte> -> string)

  ghost predicate PlatformOk(p: Platform) {
    forall b: seq<Byte> :: p.decode(B.Btoa(b)) == b
  }

  function DecodeBounded(p: Platform, contentBase64: Text, expectedSizeBytes: nat): Option<seq<Byte>> {
    var bytes := p.decode(contentBase64);
    if |bytes| != expectedSizeBytes || B.Btoa(bytes) != contentBase64 then None else Some(bytes)
  }

  /** However lenient the decoder, only the canonical spelling of bytes of the declared size gets through. */
  lemma DecodeBoundedExactly(p: Platform, contentBase64: Text, expectedSizeBytes: nat, b: seq<Byte>)
    requires PlatformOk(p)
    ensures DecodeBounded(p, contentBase64, expectedSizeBytes) == Some(b) <==>
            contentBase64 == B.Btoa(b) && |b| == expectedSizeBytes
  {
  }

  /** The carried bytes are what the bundle declares. */
  predicate Intact(p: Platform, contentBase64: Text, sizeBytes: nat, digest: string) {
    var bytes := DecodeBounded(p, contentBase64, sizeBytes);
    bytes.Some? && p.sha256(bytes.value) == digest
  }

  /** Intact is exactly the canonical spelling of some bytes of the declared size and digest. */
  lemma IntactExactly(p: Platform, contentBase64: Text, sizeBytes: nat, digest: string)
    requires PlatformOk(p)
    ensures Intact(p, contentBase64, sizeBytes, digest) <==>
            exists b: seq<Byte> :: contentBase64 == B.Btoa(b) && |b| == sizeBytes && p.sha256(b) == digest
  {
    if b: seq<Byte> :| contentBase64 == B.Btoa(b) && |b| == sizeBytes && p.sha256(b) == digest {
      DecodeBoundedExactly(p, contentBase64, sizeBytes, b);
    }
  }

  predicate AllIntact(p: Platform, bundle: Bundle) {
    && (forall e :: e in bundle.evidence ==> Intact(p, e.contentBase64, e.sizeBytes, e.digest))
    && (forall a :: a in bundle.attachments ==> Intact(p, a.contentBase64, a.sizeBytes, a.digest))
  }

  method VerifyBundle(p: Platform, bundle: Bundle) returns (ok: bool)
    ensures ok <==> AllIntact(p, bundle)
  {
    for i := 0 to |bundle.evidence|
      invariant forall j ::
                  0 <= j < i ==>
                    Intact(p, bundle.evidence[j].contentBase64, bundle.evidence[j].sizeBytes, bundle.evidence[j].digest)
    {
      var e := bundle.evidence[i];
      if !Intact(p, e.contentBase64, e.sizeBytes, e.digest) {
        assert e in bundle.evidence;
        return false;
      }
    }
    for i := 0 to |bundle.attachments|
      invariant forall j :: 0 <= j < i ==>
                  Intact(p, bundle.attachments[j].contentBase64, bundle.attachments[j].sizeBytes,
                          bundle.attachments[j].digest)
    {
      var a := bundle.attachments[i];
      if !Intact(p, a.contentBase64, a.sizeBytes, a.digest) {
        assert a in bundle.attachments;
        return false;
      }
    }
    ok := true;
  }

  // ---- Ids ----

  /** No row carries an id that is still to be given out. */
  ghost predicate IdsAhead(db: Database, newIds: nat -> Id, step: nat) {
    forall r, n :: r in db && n >= step ==> r.id != newIds(n)
  }

  ghost predicate Injective(newIds: nat -> Id) {
    forall m, n :: newIds(m) == newIds(n) ==> m == n
  }

  predicate NoRepeats(ids: seq<Id>) {
    forall i, j :: 0 <= i < j < |ids| ==> ids[i] != ids[j]
  }

  /** Ids are given out once: none is among the planned ones or in the database before. */
  ghost predicate IdsOk(base: Database, newIds: nat -> Id, engagementId: Id, actionId: Id, runId: Id,
          artifactIds: seq<Id>) {
    && Injective(newIds) && IdsAhead(base, newIds, 0) && NoRepeats(artifactIds)
    && forall n :: newIds(n) != engagementId && newIds(n) != actionId && newIds(n) != runId && newIds(n) !in artifactIds
  }
}
