/** The import itself: every write may fail, and a failure undoes the ones before it. */
module BundleImporter {
  import opened Bytes
  import opened Unicode
  import opened BundleImport
  import opened AttachmentOrder
  import opened ImportedRows
  import opened ImportMeaning
  import opened Wrappers

  datatype Result = Imported | DigestMismatch | Rejected | Undone

  function Elements(rows: seq<Row>): set<Row> {
    set r | r in rows
  }

  /** Fails exactly when an old id is repeated. */
  method PlanIdRemap(keys: seq<Id>, newIds: seq<Id>) returns (ok: bool, remap: map<Id, Id>)
    requires |keys| == |newIds|
    ensures ok <==> NoRepeats(keys)
    ensures ok ==> remap == Remap(keys, newIds)
  {
    hide Remap;
    RemapNothing(keys);
    remap := map[];
    var index := 0;
    while index < |keys|
      invariant index <= |keys| && remap == Remap(keys, newIds[..index]) && NoRepeats(keys[..index])
    {
      RemapIs(keys, newIds[..index]);
      if keys[index] in remap {
        return false, remap;
      }
      assert keys[..index + 1] == keys[..index] + [keys[index]];
      assert newIds[..index + 1] == newIds[..index] + [newIds[index]];
      RemapGrows(keys, newIds[..index], newIds[index]);
      remap := remap[keys[index] := newIds[index]];
      index := index + 1;
    }
    assert keys[..index] == keys && newIds[..index] == newIds;
    ok := true;
  }

  /** Changing the state of the last row. */
  lemma LastChanged(base: Database, rows: seq<Row>, row: Row, state: string, projected: set<Row>)
    requires row !in base && row !in projected && row !in rows && Keyed(rows + [row])
    ensures var changed := row.(state := state);
            && base + Elements(rows + [row]) + projected - {row} + {changed} ==
               base + Elements(rows + [changed]) + projected
            && Keyed(rows + [changed])
  {
    var changed := row.(state := state);
    assert Elements(rows + [row]) == Elements(rows) + {row} && Elements(rows + [changed]) == Elements(rows) + {changed};
    KeyedLast(rows, row, changed);
  }

  lemma KeyedLast(rows: seq<Row>, row: Row, changed: Row)
    requires Keyed(rows + [row]) && changed.table == row.table && changed.id == row.id
    ensures Keyed(rows + [changed])
  {
    forall i, j | 0 <= i < j < |rows| + 1
      ensures (rows + [changed])[i].table == (rows + [changed])[j].table ==>
                (rows + [changed])[i].id != (rows + [changed])[j].id
    {
      assert (rows + [row])[i].table == (rows + [row])[j].table ==> (rows + [row])[i].id != (rows + [row])[j].id;
    }
  }

  /** Adding a row with an id of its own. */
  lemma RowAdded(base: Database, rows: seq<Row>, row: Row, projected: set<Row>)
    requires Keyed(rows) && forall r :: r in rows && r.table == row.table ==> r.id != row.id
    ensures base + Elements(rows) + projected + {row} == base + Elements(rows + [row]) + projected
    ensures Keyed(rows + [row])
  {
  }

  class Importer {
    var db: Database
    var ledger: Ledger
    var step: nat
    const fails: nat -> bool         // which of the fallible operations fail
    const newIds: nat -> Id          // the ids given to new rows
    const found: Discoveries         // what the projections find in the evidence
    const engagementId: Id
    const actionId: Id
    const runId: Id
    const artifactIds: seq<Id>       // the ids planned for the evidence
    ghost const base: Database       // the rows before the import
    ghost var written: seq<Row>      // the rows of the import, in order
    ghost var projected: set<Row>    // and the ones the projections added
    ghost var smooth: bool           // no operation has failed so far

    constructor (db: Database, fails: nat -> bool, newIds: nat -> Id, found: Discoveries,
                 engagementId: Id, actionId: Id, runId: Id, artifactIds: seq<Id>)
      requires Fresh(db, Ledger(engagementId, Some(actionId), Some(runId), artifactIds))
      requires IdsOk(db, newIds, engagementId, actionId, runId, artifactIds)
      ensures this.db == base == db && this.fails == fails && this.found == found && this.newIds == newIds
      ensures this.engagementId == engagementId && this.actionId == actionId && this.runId == runId
      ensures this.artifactIds == artifactIds
      ensures ledger == Ledger(engagementId, None, None, []) && written == [] && projected == {} && smooth
      ensures Valid()
    {
      this.db, this.base, this.written, this.projected, this.smooth := db, db, [], {}, true;
      this.ledger := Ledger(engagementId, None, None, []);
      this.step, this.fails, this.newIds, this.found := 0, fails, newIds, found;
      this.engagementId, this.actionId, this.runId, this.artifactIds := engagementId, actionId, runId, artifactIds;
    }

    function Planned(): Ledger {
      Ledger(engagementId, Some(actionId), Some(runId), artifactIds)
    }

    /** The database holds what it held before and the rows of the import, all of which the ledger accounts for. */
    ghost predicate Valid()
      reads this
    {
      && db == base + Elements(written) + projected && Keyed(written)
      && (forall r :: r in written ==> Matches(ledger, r))
      && (forall r :: r in projected ==> OfArtifact(r.table) && Matches(ledger, r))
      && Extends(ledger, Planned()) && Fresh(base, Planned()) && IdsAhead(db, newIds, step)
      && IdsOk(base, newIds, engagementId, actionId, runId, artifactIds) && Watched()
    }

    ghost predicate Watched()
      reads this
    {
      smooth <==> forall n: nat :: n < step ==> !fails(n)
    }

    /** The run that owns the imported artifacts is in place. */
    predicate Rooted()
      reads this
    {
      ledger.runId == Some(runId) && ledger.actionId == Some(actionId)
    }

    /** One operation that may fail without writing anything. */
    method Try() returns (ok: bool)
      requires Watched()
      modifies `step, `smooth
      ensures Watched() && step == old(step) + 1 && (ok <==> !fails(old(step))) && smooth == (old(smooth) && ok)
    {
      ok := !fails(step);
      step, smooth := step + 1, smooth && ok;
    }

    /** Adds a row, or fails and adds nothing. */
    method Insert(row: Row) returns (ok: bool)
      requires Valid() && Matches(ledger, row)
      requires forall r :: r in written && r.table == row.table ==> r.id != row.id
      requires forall n :: n > step ==> row.id != newIds(n)
      modifies `db, `written, `step, `smooth
      ensures Valid() && step == old(step) + 1 && smooth == (old(smooth) && ok)
      ensures written == (if ok then old(written) + [row] else old(written))
      ensures db == (if ok then old(db) + {row} else old(db))
    {
      hide Keyed, Fresh, Extends;
      ok := Try();
      if ok {
        RowAdded(base, written, row, projected);
        db := db + {row};
        written := written + [row];
      }
    }

    /** The planned ids are none of those given out. */
    lemma PlannedApart()
      requires Valid()
      ensures forall n :: newIds(n) != actionId && newIds(n) != runId && newIds(n) !in artifactIds
      ensures ledger.engagementId == engagementId
    {
    }

    /** What the database holds. */
    lemma Holdings()
      requires Valid()
      ensures db == base + Elements(written) + projected && Keyed(written) && Watched()
    {
    }

    /** A new id belongs to no row yet. */
    lemma NewIdUnused()
      requires Valid()
      ensures forall r :: r in db || r in written ==> r.id != newIds(step)
      ensures forall n :: n > step ==> newIds(step) != newIds(n)
    {
      forall r | r in written
        ensures r.id != newIds(step)
      {
        assert r in db;
      }
    }

    /** A new row of the engagement in its first state. */
    method CreateFirst(table: Table, refs: Refs, content: string) returns (ok: bool, id: Id, row: Row)
      requires Valid() && smooth && OfEngagement(table)
      modifies `db, `written, `step, `smooth
      ensures Valid() && (ok <==> smooth) && row == RecordRow(table, engagementId, id, refs, content, "")
      ensures ok ==> written == old(written) + [row] && row !in base && row !in projected && row !in old(written)
    {
      id := newIds(step);
      row := RecordRow(table, engagementId, id, refs, content, "");
      NewIdUnused();
      assert row !in db;
      ok := Insert(row);
    }

    /** A new row of the engagement and, when it is not in its first state, the update that puts it there. */
    method Create(table: Table, refs: Refs, content: string, state: string) returns (ok: bool, id: Id)
      requires Valid() && smooth && OfEngagement(table)
      modifies `db, `written, `step, `smooth
      ensures Valid() && (ok <==> smooth)
      ensures ok ==> written == old(written) + [RecordRow(table, engagementId, id, refs, content, state)]
    {
      hide Valid;
      var row: Row;
      ghost var rows := written;
      ok, id, row := CreateFirst(table, refs, content);
      if ok && state != "" {
        ok := TryUpdate();
        if ok {
          assert (rows + [row])[..|rows|] == rows;
          Update(row, state);
        }
      }
    }

    method TryUpdate() returns (ok: bool)
      requires Valid() && smooth
      modifies `step, `smooth
      ensures Valid() && (ok <==> smooth)
    {
      ok := Try();
    }

    /** The last row written gets its state. */
    method Update(row: Row, state: string)
      requires Valid() && written != [] && row == written[|written| - 1] && OfEngagement(row.table)
      requires row !in base && row !in projected && row !in written[..|written| - 1]
      modifies `db, `written
      ensures Valid() && written == old(written)[..|old(written)| - 1] + [row.(state := state)]
    {
      hide Keyed, Fresh, IdsOk, Extends;
      ghost var rows := written[..|written| - 1];
      assert written == rows + [row] && row in written;
      LastChanged(base, rows, row, state, projected);
      db := db - {row} + {row.(state := state)};
      written := rows + [row.(state := state)];
    }

    /** The ledger learns of the action and run before they are written. */
    method Root()
      requires Valid()
      modifies `ledger
      ensures Valid() && Rooted()
    {
      ledger := ledger.(actionId := Some(actionId), runId := Some(runId));
    }

    /** The synthetic action and run that own the imported artifacts. */
    method CreateRun() returns (ok: bool)
      requires Valid() && smooth && forall r :: r in written ==> !r.table.Actions? && !r.table.Runs?
      modifies `db, `written, `ledger, `step, `smooth
      ensures Valid() && Rooted() && (ok <==> smooth)
      ensures ok ==>
                written == old(written) + [ActionRow(engagementId, actionId), RunRow(engagementId, runId, actionId)]
    {
      hide Valid;
      Root();
      PlannedApart();
      ok := Insert(ActionRow(engagementId, actionId));
      if ok {
        ok := InsertRun();
      }
    }

    method InsertRun() returns (ok: bool)
      requires Valid() && smooth && Rooted() && forall r :: r in written ==> !r.table.Runs?
      modifies `db, `written, `step, `smooth
      ensures Valid() && (ok <==> smooth) && (ok ==> written == old(written) + [RunRow(engagementId, runId, actionId)])
    {
      hide Valid;
      PlannedApart();
      ok := Insert(RunRow(engagementId, runId, actionId));
    }

    /** What a projection finds in an artifact is written, and it may fail all the same. */
    method Project(table: Table, artifactId: Id) returns (ok: bool)
      requires Valid() && smooth && OfArtifact(table) && artifactId in ledger.artifactIds
      modifies `db, `projected, `step, `smooth
      ensures Valid() && (ok <==> smooth) && projected == old(projected) + Discovered(found, table, artifactId)
    {
      var rows := Discovered(found, table, artifactId);
      assert artifactId in artifactIds;
      db := db + rows;
      projected := projected + rows;
      ok := Try();
    }

    /** All projections of an artifact. */
    method ProjectAll(artifactId: Id) returns (ok: bool)
      requires Valid() && smooth && artifactId in ledger.artifactIds
      modifies `db, `projected, `step, `smooth
      ensures Valid() && (ok <==> smooth) && (ok ==> projected == old(projected) + DiscoveredIn(found, artifactId))
    {
      hide Valid;
      ok := Project(NmapServices, artifactId);
      if !ok { return; }
      ok := Project(HttpProbeResults, artifactId);
      if !ok { return; }
      ok := Project(FfufResults, artifactId);
    }

    /** The bytes go under their new id, which the ledger then knows. */
    method Publish(newId: Id) returns (ok: bool)
      requires Valid() && smooth && newId in artifactIds
      modifies `ledger, `step, `smooth
      ensures Valid() && (ok <==> smooth) && (ok ==> newId in ledger.artifactIds)
      ensures ledger.runId == old(ledger.runId) && ledger.actionId == old(ledger.actionId)
    {
      ok := Try(); // staging
      if !ok { return; }
      ok := Try(); // publishing
      if !ok { return; }
      ledger := ledger.(artifactIds := ledger.artifactIds + [newId]);
    }

    /** One evidence file: its bytes published, its row written, its discoveries derived again. */
    method ImportArtifact(e: Evidence, newId: Id) returns (ok: bool)
      requires Valid() && smooth && Rooted() && newId in artifactIds
      requires forall r :: r in written && r.table.Artifacts? ==> r.id != newId
      modifies `db, `written, `projected, `ledger, `step, `smooth
      ensures Valid() && Rooted() && (ok <==> smooth)
      ensures ok ==>
                && written == old(written) + [ArtifactRow(e, newId, runId)]
                && projected == old(projected) + DiscoveredIn(found, newId)
    {
      hide Valid;
      ok := Publish(newId);
      if !ok { return; }
      PlannedApart();
      ok := Insert(ArtifactRow(e, newId, runId));
      if !ok { return; }
      ok := ProjectAll(newId);
    }

    /** The next planned id belongs to no artifact yet. */
    lemma ArtifactUnused(rows: seq<Row>, evidence: seq<Evidence>, i: nat)
      requires i < |evidence| == |artifactIds| && NoRepeats(artifactIds)
      requires forall r :: r in rows ==> !r.table.Artifacts?
      ensures forall r ::
                r in rows + ArtifactRows(evidence, artifactIds[..i], runId) && r.table.Artifacts? ==>
                  r.id != artifactIds[i]
    {
    }

    /** The first `i` files are in, behind the rows of `start`. */
    ghost predicate ArtifactsIn(start: seq<Row>, evidence: seq<Evidence>, i: nat)
      requires i <= |evidence| == |artifactIds|
      reads this
    {
      written == start + ArtifactRows(evidence, artifactIds[..i], runId)
      && projected == AllDiscovered(found, artifactIds[..i])
    }

    method ImportNextArtifact(evidence: seq<Evidence>, i: nat, ghost start: seq<Row>) returns (ok: bool)
      requires Valid() && smooth && Rooted() && i < |evidence| == |artifactIds|
      requires ArtifactsIn(start, evidence, i) && forall r :: r in start ==> !r.table.Artifacts?
      modifies `db, `written, `projected, `ledger, `step, `smooth
      ensures Valid() && Rooted() && (ok <==> smooth) && (ok ==> ArtifactsIn(start, evidence, i + 1))
    {
      ArtifactUnused(start, evidence, i);
      ok := ImportArtifact(evidence[i], artifactIds[i]);
      ArtifactsGrow(evidence, artifactIds, runId, i);
      DiscoveredGrow(found, artifactIds, i);
    }

    /** Every evidence file under the id planned for it. */
    method ImportArtifacts(evidence: seq<Evidence>) returns (ok: bool)
      requires Valid() && smooth && Rooted() && |evidence| == |artifactIds|
      requires projected == {} && forall r :: r in written ==> !r.table.Artifacts?
      modifies `db, `written, `projected, `ledger, `step, `smooth
      ensures Valid() && Rooted() && (ok <==> smooth)
      ensures ok ==>
                && written == old(written) + ArtifactRows(evidence, artifactIds, runId)
                && projected == AllDiscovered(found, artifactIds)
    {
      hide Valid;
      ok := true;
      var i := 0;
      while i < |evidence|
        invariant i <= |evidence| && Valid() && Rooted() && ok && smooth && ArtifactsIn(old(written), evidence, i)
      {
        ok := ImportNextArtifact(evidence, i, old(written));
        if !ok { return; }
        i := i + 1;
      }
      assert artifactIds[..i] == artifactIds;
    }

    /** New ids for old ones, then the files; fails when an old id is repeated. */
    method ImportEvidence(evidence: seq<Evidence>) returns (ok: bool, remap: map<Id, Id>)
      requires Valid() && smooth && Rooted() && |evidence| == |artifactIds|
      requires projected == {} && forall r :: r in written ==> !r.table.Artifacts?
      modifies `db, `written, `projected, `ledger, `step, `smooth
      ensures Valid() && Rooted()
      ensures ok ==> NoRepeats(EvidenceKeys(evidence)) && remap == Remap(EvidenceKeys(evidence), artifactIds)
      ensures ok ==>
                && written == old(written) + ArtifactRows(evidence, artifactIds, runId)
                && projected == AllDiscovered(found, artifactIds)
      ensures ok <==> smooth && NoRepeats(EvidenceKeys(evidence))
    {
      hide Valid, Remap;
      ok, remap := PlanIdRemap(EvidenceKeys(evidence), artifactIds);
      if ok {
        ok := ImportArtifacts(evidence);
      }
    }

    /** Every lead in its disposition; a repeated old id leads to the last of its leads. */
    method ImportLeads(leads: seq<Lead>) returns (ok: bool, remap: map<Id, Id>, ghost ids: seq<Id>)
      requires Valid() && smooth
      modifies `db, `written, `step, `smooth
      ensures Valid() && (ok <==> smooth)
      ensures ok ==> |ids| == |leads| && remap == Remap(LeadKeys(leads), ids)
      ensures ok ==> written == old(written) + LeadRows(engagementId, leads, ids)
    {
      hide Valid, Remap;
      RemapNothing(LeadKeys(leads));
      remap, ok, ids := map[], true, [];
      var i := 0;
      while i < |leads|
        invariant i == |ids| <= |leads| && Valid() && ok && smooth && remap == Remap(LeadKeys(leads), ids)
        invariant written == old(written) + LeadRows(engagementId, leads, ids)
      {
        var made, id := Create(Leads, NO_REFS, leads[i].title, LeadState(leads[i]));
        if !made { return false, remap, ids; }
        RemapGrows(LeadKeys(leads), ids, id);
        LeadsGrow(engagementId, leads, ids, id);
        remap := remap[leads[i].id := id];
        ids := ids + [id];
        i := i + 1;
      }
    }

    /** A secret and its verifications under it. */
    method ImportSecret(s: Secret) returns (ok: bool, ghost ids: SecretIds)
      requires Valid() && smooth
      modifies `db, `written, `step, `smooth
      ensures Valid() && (ok <==> smooth)
      ensures ok ==>
                |ids.verifications| == |s.verifications| && written == old(written) + SecretRows(engagementId, s, ids)
    {
      hide Valid;
      var id: Id;
      ok, id := Create(Secrets, NO_REFS, s.name, "");
      ids := SecretIds(id, []);
      if !ok { return; }
      assert SecretRows(engagementId, s, ids) == [RecordRow(Secrets, engagementId, id, NO_REFS, s.name, "")];
      var j := 0;
      while j < |s.verifications|
        invariant j == |ids.verifications| <= |s.verifications| && ids.id == id && Valid() && ok && smooth
        invariant written == old(written) + SecretRows(engagementId, s, ids)
      {
        var verification: Id;
        ok, verification := Create(Verifications, Under(id), s.verifications[j], "");
        if !ok { return; }
        VerificationsGrow(engagementId, s, id, ids.verifications, verification);
        ids := SecretIds(id, ids.verifications + [verification]);
        j := j + 1;
      }
    }

    /** The first secrets are in, behind the rows of `start`. */
    ghost predicate SecretsIn(start: seq<Row>, secrets: seq<Secret>, ids: seq<SecretIds>)
      reads this
    {
      SecretsFit(secrets, ids) && written == start + AllSecretRows(engagementId, secrets, ids)
    }

    method ImportNextSecret(secrets: seq<Secret>, i: nat, ghost ids: seq<SecretIds>, ghost start: seq<Row>)
      returns (ok: bool, ghost more: seq<SecretIds>)
      requires Valid() && smooth && i == |ids| < |secrets| && SecretsIn(start, secrets, ids)
      modifies `db, `written, `step, `smooth
      ensures Valid() && (ok <==> smooth) && |more| == i + 1 && (ok ==> SecretsIn(start, secrets, more))
    {
      hide Valid;
      ghost var secretIds: SecretIds;
      ok, secretIds := ImportSecret(secrets[i]);
      more := ids + [secretIds];
      if ok {
        SecretsGrow(engagementId, secrets, ids, secretIds);
      }
    }

    method ImportSecrets(secrets: seq<Secret>) returns (ok: bool, ghost ids: seq<SecretIds>)
      requires Valid() && smooth
      modifies `db, `written, `step, `smooth
      ensures Valid() && (ok <==> smooth)
      ensures ok ==>
                && |ids| == |secrets|
                && SecretsFit(secrets, ids)
                && written == old(written) + AllSecretRows(engagementId, secrets, ids)
    {
      hide Valid;
      ok, ids := true, [];
      var i := 0;
      while i < |secrets|
        invariant i == |ids| <= |secrets| && Valid() && ok && smooth && SecretsIn(old(written), secrets, ids)
      {
        ok, ids := ImportNextSecret(secrets, i, ids, old(written));
        if !ok { return; }
        i := i + 1;
      }
    }

    /** Objectives in the state they had. */
    method ImportObjectives(objectives: seq<Objective>) returns (ok: bool, remap: map<Id, Id>, ghost ids: seq<Id>)
      requires Valid() && smooth
      modifies `db, `written, `step, `smooth
      ensures Valid() && (ok <==> smooth)
      ensures ok ==> |ids| == |objectives| && remap == Remap(ObjectiveKeys(objectives), ids)
      ensures ok ==> written == old(written) + ObjectiveRows(engagementId, objectives, ids)
    {
      hide Valid, Remap;
      RemapNothing(ObjectiveKeys(objectives));
      remap, ok, ids := map[], true, [];
      var i := 0;
      while i < |objectives|
        invariant i == |ids| <= |objectives| && Valid() && ok && smooth
        invariant remap == Remap(ObjectiveKeys(objectives), ids)
        invariant written == old(written) + ObjectiveRows(engagementId, objectives, ids)
      {
        var o := objectives[i];
        var made, id := Create(Objectives, NO_REFS, o.name, o.state);
        if !made { return false, remap, ids; }
        RemapGrows(ObjectiveKeys(objectives), ids, id);
        assert ObjectiveRows(engagementId, objectives, ids + [id]) ==
               ObjectiveRows(engagementId, objectives, ids)
               + [RecordRow(Objectives, engagementId, id, NO_REFS, o.name, o.state)];
        remap := remap[o.id := id];
        ids := ids + [id];
        i := i + 1;
      }
    }

    /** Secrets with their verifications, then objectives. */
    method ImportPrivate(bundle: Bundle) returns (ok: bool, objectives: map<Id, Id>, ghost secretIds: seq<SecretIds>,
            ghost ids: seq<Id>)
      requires Valid() && smooth
      modifies `db, `written, `step, `smooth
      ensures Valid() && (ok <==> smooth)
      ensures ok ==>
                |secretIds| == |bundle.secrets| && SecretsFit(bundle.secrets, secretIds) && |ids| == |bundle.objectives|
      ensures ok ==> objectives == Remap(ObjectiveKeys(bundle.objectives), ids)
      ensures ok ==> written == old(written) + AllSecretRows(engagementId, bundle.secrets, secretIds)
                                + ObjectiveRows(engagementId, bundle.objectives, ids)
    {
      hide Valid, Remap;
      objectives, ids := map[], [];
      ok, secretIds := ImportSecrets(bundle.secrets);
      if ok {
        ok, objectives, ids := ImportObjectives(bundle.objectives);
      }
    }

    /** Findings, resolved when they were. */
    method ImportFindings(findings: seq<Finding>, artifacts: map<Id, Id>) returns (ok: bool, remap: map<Id, Id>,
            ghost ids: seq<Id>)
      requires Valid() && smooth
      modifies `db, `written, `step, `smooth
      ensures Valid() && (ok <==> smooth)
      ensures ok ==> |ids| == |findings| && remap == Remap(FindingKeys(findings), ids)
      ensures ok ==> written == old(written) + FindingRows(engagementId, findings, ids, artifacts)
    {
      hide Valid, Remap;
      RemapNothing(FindingKeys(findings));
      remap, ok, ids := map[], true, [];
      var i := 0;
      while i < |findings|
        invariant i == |ids| <= |findings| && Valid() && ok && smooth && remap == Remap(FindingKeys(findings), ids)
        invariant written == old(written) + FindingRows(engagementId, findings, ids, artifacts)
      {
        var f := findings[i];
        var made, id := Create(Findings, NO_REFS.(evidence := RemapStored(f.evidence, artifacts)), f.title,
                               FindingState(f));
        if !made { return false, remap, ids; }
        RemapGrows(FindingKeys(findings), ids, id);
        FindingsGrow(engagementId, findings, ids, artifacts, id);
        remap := remap[f.id := id];
        ids := ids + [id];
        i := i + 1;
      }
    }

    /** Attempts, each under the new row of its lead; fails when a lead is not carried. */
    method ImportAttempts(attempts: seq<Attempt>, maps: Maps) returns (ok: bool, ghost ids: seq<Id>)
      requires Valid() && smooth
      modifies `db, `written, `step, `smooth
      ensures Valid() && (ok <==> smooth && (forall a :: a in attempts ==> a.leadId in maps.leads))
      ensures ok ==> |ids| == |attempts| && written == old(written) + AttemptRows(engagementId, attempts, ids, maps)
    {
      hide Valid;
      ok, ids := true, [];
      var i := 0;
      while i < |attempts|
        invariant i == |ids| <= |attempts| && Valid() && ok && smooth
        invariant forall j :: 0 <= j < i ==> attempts[j].leadId in maps.leads
        invariant written == old(written) + AttemptRows(engagementId, attempts, ids, maps)
      {
        var a := attempts[i];
        if a.leadId !in maps.leads {
          assert a in attempts;
          return false, ids;
        }
        var made, id := Create(Attempts, AttemptRow(engagementId, a, "", maps).refs, a.summary, "");
        if !made { return false, ids; }
        AttemptsGrow(engagementId, attempts, ids, maps, id);
        ids := ids + [id];
        i := i + 1;
      }
    }

    method CreateExcerpt(e: Excerpt, artifacts: map<Id, Id>) returns (ok: bool, id: Id)
      requires Valid() && smooth
      modifies `db, `written, `step, `smooth
      ensures Valid() && (ok <==> smooth)
      ensures ok ==> written == old(written) + [ExcerptRow(engagementId, runId, e, id, artifacts)]
    {
      hide Valid;
      id := newIds(step);
      NewIdUnused();
      PlannedApart();
      ok := Insert(ExcerptRow(engagementId, runId, e, id, artifacts));
    }

    /** Excerpts, each of the new artifact of its evidence; fails when that is not carried. */
    method ImportExcerpts(excerpts: seq<Excerpt>, artifacts: map<Id, Id>) returns (ok: bool, ghost ids: seq<Id>)
      requires Valid() && smooth
      modifies `db, `written, `step, `smooth
      ensures Valid() && (ok <==> smooth && (forall e :: e in excerpts ==> e.artifactId in artifacts))
      ensures ok ==>
                && |ids| == |excerpts|
                && written == old(written) + ExcerptRows(engagementId, runId, excerpts, ids, artifacts)
    {
      hide Valid;
      ok, ids := true, [];
      var i := 0;
      while i < |excerpts|
        invariant i == |ids| <= |excerpts| && Valid() && ok && smooth
        invariant forall j :: 0 <= j < i ==> excerpts[j].artifactId in artifacts
        invariant written == old(written) + ExcerptRows(engagementId, runId, excerpts, ids, artifacts)
      {
        var e := excerpts[i];
        if e.artifactId !in artifacts {
          assert e in excerpts;
          return false, ids;
        }
        var id: Id;
        ok, id := CreateExcerpt(e, artifacts);
        if !ok { return; }
        ExcerptsGrow(engagementId, runId, excerpts, ids, artifacts, id);
        ids := ids + [id];
        i := i + 1;
      }
    }

    /** Attachments in order; with parents first no parent is ever missing. */
    method ImportAttachments(attachments: seq<Attachment>) returns (ok: bool, ghost ids: seq<Id>)
      requires Valid() && smooth && ParentsFirst(attachments)
      modifies `db, `written, `step, `smooth
      ensures Valid() && (ok <==> smooth)
      ensures ok ==> |ids| == |attachments| && written == old(written) + AttachmentRows(engagementId, attachments, ids)
    {
      hide Valid, Remap;
      RemapNothing(AttachmentKeys(attachments));
      var remap: map<Id, Id> := map[];
      ok, ids := true, [];
      var i := 0;
      while i < |attachments|
        invariant i == |ids| <= |attachments| && Valid() && ok && smooth
        invariant remap == Remap(AttachmentKeys(attachments), ids)
        invariant written == old(written) + RowsAsMade(engagementId, attachments, ids)
      {
        var a := attachments[i];
        ParentMapped(attachments, ids);
        var parent := Lookup(remap, a.parent);
        if a.parent.Some? && parent.None? { return false, ids; }
        var made, id := Create(Attachments, NO_REFS.(link := parent), a.digest, "");
        if !made { return false, ids; }
        RemapGrows(AttachmentKeys(attachments), ids, id);
        RowsAsMadeGrow(engagementId, attachments, ids, id);
        remap := remap[a.id := id];
        ids := ids + [id];
        i := i + 1;
      }
      MadeInOrder(engagementId, attachments, ids);
    }

    /** The notes, and the action, run and artifacts that hold the evidence. */
    method ImportRoots(bundle: Bundle) returns (ok: bool, artifacts: map<Id, Id>, ghost noteId: Id)
      requires Valid() && smooth && |bundle.evidence| == |artifactIds| && projected == {}
      requires written == [EngagementRow(engagementId, bundle.name)]
      modifies `db, `written, `projected, `ledger, `step, `smooth
      ensures Valid()
      ensures ok ==> artifacts == Remap(EvidenceKeys(bundle.evidence), artifactIds)
      ensures ok ==> written == RootRows(bundle, Start(noteId)) + ArtifactRows(bundle.evidence, artifactIds, runId)
      ensures ok ==> projected == AllDiscovered(found, artifactIds)
      ensures ok <==> smooth && NoRepeats(EvidenceKeys(bundle.evidence))
    {
      hide Valid, Remap;
      artifacts := map[];
      ok, noteId := Create(Notes, NO_REFS, bundle.notes, "");
      if !ok { return; }
      ok := CreateRun();
      if !ok { return; }
      assert written == RootRows(bundle, Start(noteId));
      ok, artifacts := ImportEvidence(bundle.evidence);
    }

    /** The plan when the evidence is in. */
    ghost function Start(noteId: Id): Plan {
      Plan(engagementId, actionId, runId, artifactIds, noteId, [], [], [], [], [], [], [])
    }

    /** Everything after the engagement is there. */
    method ImportRecords(bundle: Bundle) returns (ok: bool, ghost plan: Plan)
      requires Valid() && smooth && |bundle.evidence| == |artifactIds| && projected == {}
      requires written == [EngagementRow(engagementId, bundle.name)]
      modifies `db, `written, `projected, `ledger, `step, `smooth
      ensures Valid()
      ensures ok ==> PlanFits(bundle, plan) && PlannedAs(plan)
      ensures ok ==> written == RowsOf(bundle, plan) && projected == AllDiscovered(found, artifactIds)
      ensures ok <==> smooth && Importable(bundle)
    {
      hide Valid, Remap;
      RemapNothing(ObjectiveKeys(bundle.objectives));
      var artifacts, leads, objectives: map<Id, Id> := map[], map[], map[];
      ghost var noteId, leadIds := "", [];
      ghost var secretIds: seq<SecretIds>, objectiveIds: seq<Id> := [], [];
      plan := Start("");
      ok, artifacts, noteId := ImportRoots(bundle);
      if !ok { return; }
      ok, leads, leadIds := ImportLeads(bundle.leads);
      if !ok { return; }
      if bundle.privateCopy {
        ok, objectives, secretIds, objectiveIds := ImportPrivate(bundle);
        if !ok { return; }
      }
      plan := Start(noteId).(leadIds := leadIds, secretIds := secretIds, objectiveIds := objectiveIds);
      ok, plan := ImportLinked(bundle, artifacts, leads, objectives, plan);
    }

    predicate PlannedAs(plan: Plan) {
      plan.engagementId == engagementId && plan.actionId == actionId
      && plan.runId == runId && plan.artifactIds == artifactIds
    }

    /** What refers to evidence, leads and objectives, and the attachments. */
    method ImportLinked(bundle: Bundle, artifacts: map<Id, Id>, leads: map<Id, Id>, objectives: map<Id, Id>,
            ghost start: Plan)
      returns (ok: bool, ghost plan: Plan)
      requires Valid() && smooth && PlanStarted(bundle, start) && PlannedAs(start)
      requires written == FirstRows(bundle, start)
      requires artifacts == Remap(EvidenceKeys(bundle.evidence), start.artifactIds)
      requires leads == Remap(LeadKeys(bundle.leads), start.leadIds)
      requires objectives == Remap(ObjectiveKeys(bundle.objectives), start.objectiveIds)
      modifies `db, `written, `step, `smooth
      ensures Valid()
      ensures ok ==> PlanFits(bundle, plan) && PlannedAs(plan) && written == RowsOf(bundle, plan)
      ensures ok <==> smooth && Linked(bundle)
    {
      hide OrderOf, FirstRows, Valid, Remap;
      KeysMapped(bundle, start);
      OrderedExactly(bundle.attachments);
      plan := start;
      var findings: map<Id, Id>;
      ghost var findingIds, attemptIds, excerptIds, attachmentIds: seq<Id>;
      ok, findings, findingIds := ImportFindings(bundle.findings, artifacts);
      if !ok { return; }
      var maps := Maps(artifacts, leads, findings, objectives);
      ok, attemptIds := ImportAttempts(bundle.attempts, maps);
      if !ok { return; }
      ok, excerptIds := ImportExcerpts(bundle.excerpts, artifacts);
      if !ok { return; }
      var order := OrderAttachments(bundle.attachments);
      if !order.Ordered? { return false, plan; }
      ok, attachmentIds := ImportAttachments(order.attachments);
      plan := start.(findingIds := findingIds, attemptIds := attemptIds, excerptIds := excerptIds,
                     attachmentIds := attachmentIds);
      if ok {
        PlanCompleted(bundle, start, plan);
      }
    }

    /** The import of a bundle that was checked: everything, or nothing. */
    method Import(bundle: Bundle) returns (result: Result, ghost plan: Plan)
      requires Valid() && smooth && |bundle.evidence| == |artifactIds| && written == [] && projected == {}
      modifies this
      ensures Watched() && result != DigestMismatch
      ensures result != Imported ==> db == base
      ensures result == Imported ==> ImportedAs(base, db, bundle, plan, found) && PlannedAs(plan)
      ensures result == Imported <==> Importable(bundle) && smooth
    {
      hide Valid, Importable, RowsOf;
      plan := Start("");
      var ok := InsertEngagement(bundle.name);
      if !ok {
        Holdings();
        return Rejected, plan;
      }
      ok, plan := ImportRecords(bundle);
      Holdings();
      if !ok {
        Compensate();
        return Undone, plan;
      }
      return Imported, plan;
    }

    method InsertEngagement(name: string) returns (ok: bool)
      requires Valid() && smooth && written == []
      modifies `db, `written, `step, `smooth
      ensures Valid() && (ok <==> smooth) && written == (if ok then [EngagementRow(engagementId, name)] else [])
    {
      ok := Insert(EngagementRow(engagementId, name));
    }

    /** Deletes, table by table and in reverse order of dependency, every row the ledger accounts for. */
    method Compensate()
      requires Valid()
      modifies `db
      ensures db == base
    {
      ghost var all := db;
      DeleteEvidence();
      DeleteRecords();
      DeletePrivate();
      DeleteRoots();
      assert db == set r | r in all && !Matches(ledger, r);
      DeletingRestores(base, all, ledger);
    }

    method DeleteEvidence()
      modifies `db
      ensures db == set r | r in old(db) && !(IsEvidence(r.table) && Matches(ledger, r))
    {
      var l := ledger;
      db := set r | r in db && !(r.table.NmapServices? && Matches(l, r));
      db := set r | r in db && !(r.table.HttpProbeResults? && Matches(l, r));
      db := set r | r in db && !(r.table.FfufResults? && Matches(l, r));
      db := set r | r in db && !(r.table.Artifacts? && Matches(l, r));
      db := set r | r in db && !(r.table.Excerpts? && Matches(l, r));
    }

    method DeleteRecords()
      modifies `db
      ensures db == set r | r in old(db) && !(IsRecord(r.table) && Matches(ledger, r))
    {
      var l := ledger;
      db := set r | r in db && !(r.table.Attachments? && r.refs.link.Some? && Matches(l, r)); // cut from others
      db := set r | r in db && !(r.table.Attachments? && Matches(l, r));
      db := set r | r in db && !(r.table.Attempts? && Matches(l, r));
      db := set r | r in db && !(r.table.Leads? && Matches(l, r));
      db := set r | r in db && !(r.table.Findings? && Matches(l, r));
    }

    method DeletePrivate()
      modifies `db
      ensures db == set r | r in old(db) && !(IsPrivate(r.table) && Matches(ledger, r))
    {
      var l := ledger;
      db := set r | r in db && !(r.table.Verifications? && Matches(l, r));
      db := set r | r in db && !(r.table.Secrets? && Matches(l, r));
      db := set r | r in db && !(r.table.Objectives? && Matches(l, r));
      db := set r | r in db && !(r.table.Notes? && Matches(l, r));
    }

    method DeleteRoots()
      modifies `db
      ensures db == set r | r in old(db) && !(IsRoot(r.table) && Matches(ledger, r))
    {
      var l := ledger;
      db := set r | r in db && !(r.table.Runs? && Matches(l, r));
      db := set r | r in db && !(r.table.Actions? && Matches(l, r));
      db := set r | r in db && !(r.table.Engagements? && Matches(l, r));
    }

    predicate IsRoot(table: Table) {
      table.Runs? || table.Actions? || table.Engagements?
    }

    predicate IsPrivate(table: Table) {
      table.Verifications? || table.Secrets? || table.Objectives? || table.Notes?
    }

    predicate IsEvidence(table: Table) {
      OfArtifact(table) || table.Artifacts? || table.Excerpts?
    }

    predicate IsRecord(table: Table) {
      table.Attachments? || table.Attempts? || table.Leads? || table.Findings?
    }
  }

  /** Everything added by an import: a row for every record of the bundle, and what is found again in its evidence. */
  ghost predicate ImportedAs(db: Database, after: Database, bundle: Bundle, plan: Plan, found: Discoveries) {
    && PlanFits(bundle, plan) && Keyed(RowsOf(bundle, plan))
    && after == db + Elements(RowsOf(bundle, plan)) + AllDiscovered(found, plan.artifactIds)
  }

  /**
   * The whole import. A bundle whose bytes are not what it declares changes nothing at
   * all; a failure at any later step leaves the database exactly as it was. A success adds
   * exactly the rows of the bundle's records, each with an id of its own in its table, and
   * what is found again in the evidence. It succeeds exactly when the bundle is intact and
   * can be imported and none of the operations it came to, the first `steps`, failed.
   */
  method ImportWorkspaceBundle(p: Platform, bundle: Bundle, db: Database, fails: nat -> bool, newIds: nat -> Id,
          found: Discoveries, engagementId: Id, actionId: Id, runId: Id, artifactIds: seq<Id>)
    returns (result: Result, after: Database, ghost plan: Plan, ghost steps: nat)
    requires Fresh(db, Ledger(engagementId, Some(actionId), Some(runId), artifactIds))
    requires |artifactIds| == |bundle.evidence|
    requires IdsOk(db, newIds, engagementId, actionId, runId, artifactIds)
    ensures result == DigestMismatch <==> !AllIntact(p, bundle)
    ensures result != Imported ==> after == db
    ensures result == Imported ==> Importable(bundle) && PlanFits(bundle, plan) && Keyed(RowsOf(bundle, plan))
    ensures result == Imported ==>
              forall r :: r in after <==>
                r in db || Written(bundle, plan, r) || r in AllDiscovered(found, plan.artifactIds)
    ensures result == Imported ==>
              plan.engagementId == engagementId && plan.actionId == actionId
              && plan.runId == runId && plan.artifactIds == artifactIds
    ensures result == Imported <==>
            AllIntact(p, bundle) && Importable(bundle) && forall n: nat :: n < steps ==> !fails(n)
  {
    plan := Plan(engagementId, actionId, runId, artifactIds, "", [], [], [], [], [], [], []);
    var intact := VerifyBundle(p, bundle);
    if !intact {
      return DigestMismatch, db, plan, 0;
    }
    var importer := new Importer(db, fails, newIds, found, engagementId, actionId, runId, artifactIds);
    result, plan := importer.Import(bundle);
    after, steps := importer.db, importer.step;
    if result == Imported {
      WrittenAre(db, after, bundle, plan, found);
    }
  }

  /** The rows that were added, column by column. */
  lemma WrittenAre(db: Database, after: Database, bundle: Bundle, plan: Plan, found: Discoveries)
    requires ImportedAs(db, after, bundle, plan, found)
    ensures forall r :: r in after <==>
              r in db || Written(bundle, plan, r) || r in AllDiscovered(found, plan.artifactIds)
  {
    hide RowsOf, Written, Keyed;
    forall r
      ensures r in RowsOf(bundle, plan) <==> Written(bundle, plan, r)
    {
      RowsExactly(bundle, plan, r);
    }
  }
}
