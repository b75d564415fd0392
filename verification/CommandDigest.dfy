/** The text whose SHA-256 is a command's digest, as the runner and the control plane build it. */
module CommandDigest {
  import opened Unicode
  import opened JsonText
  import opened JsonReader
  import opened DigestProjection
  import opened ObjectGraph
  import S = CanonicalSerializer

  /** A command as one side sees it: who, where, what, and its path, query and body values. */
  datatype Command = Command(actorId: Text, route: Text, operation: Text, path: Json, query: Json, body: Json)

  datatype BodyProjection = ObjectBody(schema: Schema) | RulesBody(schema: Schema)

  datatype Projection = Projection(path: Schema, query: Schema, body: BodyProjection)

  const EMPTY := Schema({}, {})
  const LEASE_PATH := Schema({Name("leaseId")}, {})
  const ENGAGEMENT_PATH := Schema({Name("engagementId")}, {})
  const ACTION_PATH := Schema({Name("engagementId"), Name("actionId")}, {})

  const APPEND_STARTED := Projection(LEASE_PATH, EMPTY,
    ObjectBody(Schema({Name("runId"), Name("sessionId"), Name("fence"), Name("sequence"), Name("payload")}, {})))
  const COMPLETE := Projection(LEASE_PATH, EMPTY,
    ObjectBody(Schema({Name("runId"), Name("sessionId"), Name("fence"), Name("sequence"),
                       Name("terminalKind"), Name("reason")}, {})))
  const ARTIFACT_GRANT := Projection(EMPTY, EMPTY,
    ObjectBody(Schema({Name("runId"), Name("leaseId"), Name("sessionId"), Name("fence"),
                       Name("eventSequence"), Name("artifactSlot"),
                       KIND, Name("declaredSizeBytes"), Name("declaredDigest"), Name("originalFileName"),
                       Name("declaredContentType")}, {})))
  const CREATE_ENGAGEMENT := Projection(EMPTY, EMPTY,
    ObjectBody(Schema({Name("name"), KIND, Name("description"), Name("authorizationContext"),
                       Name("autoContinueWarnings"), Name("deadlineAt")},
                      {Name("description"), Name("authorizationContext")})))
  const APPEND_SCOPE := Projection(ENGAGEMENT_PATH, EMPTY, RulesBody(Schema({Name("expectedRevision"), RULES}, {})))
  const ADD_SCOPE_AND_RUN := Projection(ACTION_PATH, EMPTY,
    RulesBody(Schema({Name("expectedEngagementRevision"), Name("expectedActionRevision"), RULES}, {})))

  /** A body with rules declares them and gives them no default. */
  predicate Usable(p: Projection) {
    p.body.RulesBody? ==> RULES in p.body.schema.fields && RULES !in p.body.schema.nullable
  }

  const COMMANDS := [APPEND_STARTED, COMPLETE, ARTIFACT_GRANT, CREATE_ENGAGEMENT, APPEND_SCOPE, ADD_SCOPE_AND_RUN]

  /** So do the bodies of the runner's commands and of the ones that set up an engagement. */
  lemma CommandsUsable()
    ensures forall p :: p in COMMANDS ==> Usable(p)
  {
    RulesDeclared(Name("expectedRevision"), RULES);
    RulesDeclared(Name("expectedEngagementRevision"), Name("expectedActionRevision"));
  }

  lemma RulesDeclared(a: Text, b: Text)
    ensures RULES in {a, b, RULES} && RULES !in {}
  {
  }

  function ProjectBody(p: BodyProjection, v: Json): Json {
    match p
    case ObjectBody(schema) => ProjectObject(schema, v)
    case RulesBody(schema) => ProjectRulesBody(schema, v)
  }

  function BodyShape(p: BodyProjection): Shape {
    match p
    case ObjectBody(schema) => Plain(schema)
    case RulesBody(schema) => Refined(Plain(schema), RULES, Items(Rule))
  }

  function Projected(p: Projection, c: Command): Command {
    c.(path := ProjectObject(p.path, c.path), query := ProjectObject(p.query, c.query),
       body := ProjectBody(p.body, c.body))
  }

  const ACTOR_ID := Name("actorId")
  const BODY := Name("body")
  const PROFILE := Name("canonicalizationProfile")
  const OPERATION := Name("operation")
  const PATH := Name("path")
  const QUERY := Name("query")
  const ROUTE := Name("route")
  const PROFILE_NAME := Name("command-json-v1")

  function Envelope(c: Command): Json {
    Obj(map[ACTOR_ID := Str(c.actorId), BODY := c.body, PROFILE := Str(PROFILE_NAME), OPERATION := Str(c.operation),
            PATH := c.path, QUERY := c.query, ROUTE := Str(c.route)])
  }

  datatype Prepared = Invalid | Prepared(text: Text)

  /** The canonical text of a value that has one. */
  ghost function CanonicalText(v: Json): Prepared {
    if S.Canonicalizable(v) then Prepared(Canonical(v)) else Invalid
  }

  /** The digest input the runner computes, if there is one. */
  ghost function RunnerText(p: Projection, c: Command): Prepared {
    CanonicalText(Envelope(Projected(p, c)))
  }

  predicate Printable(s: Text, lowest: Unit) {
    forall i :: 0 <= i < |s| ==> lowest <= s[i] <= 0x7e
  }

  predicate ValidKey(key: Text) {
    22 <= |key| <= 128 && Printable(key, 0x20)
  }

  predicate ValidRoute(route: Text) {
    |route| <= 2048 && Name("/api/v1/") <= route && Printable(route, 0x21) && 0x3f !in route && 0x23 !in route
  }

  predicate ValidOperation(operation: Text) {
    && 1 <= |operation| <= 64 && 0x61 <= operation[0] <= 0x7a
    && forall i :: 0 <= i < |operation| ==>
         0x61 <= operation[i] <= 0x7a || 0x30 <= operation[i] <= 0x39 || operation[i] == 0x5f
  }

  /** The digest input of a command that arrives under a key, its values already projected. */
  ghost function PreparedText(key: Text, c: Command): Prepared {
    if !ValidKey(key) || !ValidRoute(c.route) || !ValidOperation(c.operation) then Invalid
    else CanonicalText(Envelope(c))
  }

  /** The digest input the control plane computes for a command that arrives under a key. */
  ghost function ServerText(p: Projection, key: Text, c: Command): Prepared {
    PreparedText(key, Projected(p, c))
  }

  /** What is accepted, in literal terms: the key, the route, the operation and the size of the envelope. */
  lemma PreparedExactly(key: Text, c: Command)
    ensures PreparedText(key, c).Prepared? <==>
            && 22 <= |key| <= 128 && (forall u :: u in key ==> 0x20 <= u <= 0x7e)
            && Name("/api/v1/") <= c.route && |c.route| <= 2048
            && (forall u :: u in c.route ==> 0x21 <= u <= 0x7e && u != 0x23 && u != 0x3f)
            && 1 <= |c.operation| <= 64 && 0x61 <= c.operation[0] <= 0x7a
            && (forall u :: u in c.operation ==> 0x61 <= u <= 0x7a || 0x30 <= u <= 0x39 || u == 0x5f)
            && Within(Envelope(c), 32) && Paired(Envelope(c)) && Utf8Length(Canonical(Envelope(c))) <= 1048576
  {
    hide Envelope, Canonical;
    KeyIs(key);
    RouteIs(c.route);
    OperationIs(c.operation);
  }

  lemma KeyIs(key: Text)
    ensures ValidKey(key) <==> 22 <= |key| <= 128 && forall u :: u in key ==> 0x20 <= u <= 0x7e
  {
    assert forall i :: 0 <= i < |key| ==> key[i] in key;
  }

  lemma RouteIs(route: Text)
    ensures ValidRoute(route) <==>
            && Name("/api/v1/") <= route && |route| <= 2048
            && forall u :: u in route ==> 0x21 <= u <= 0x7e && u != 0x23 && u != 0x3f
  {
    assert forall i :: 0 <= i < |route| ==> route[i] in route;
  }

  lemma OperationIs(operation: Text)
    ensures ValidOperation(operation) <==>
            && 1 <= |operation| <= 64 && 0x61 <= operation[0] <= 0x7a
            && forall u :: u in operation ==> 0x61 <= u <= 0x7a || 0x30 <= u <= 0x39 || u == 0x5f
  {
    assert forall i :: 0 <= i < |operation| ==> operation[i] in operation;
  }

  /** The envelope's seven members. */
  lemma EnvelopeIs(c: Command)
    ensures var m := Envelope(c).members;
            && m.Keys == {Name("actorId"), Name("route"), Name("operation"), Name("path"), Name("query"),
                          Name("body"), Name("canonicalizationProfile")}
            && m[Name("actorId")] == Str(c.actorId) && m[Name("route")] == Str(c.route)
            && m[Name("operation")] == Str(c.operation) && m[Name("path")] == c.path && m[Name("query")] == c.query
            && m[Name("body")] == c.body && m[Name("canonicalizationProfile")] == Str(Name("command-json-v1"))
  {
    NamesDiffer();
  }

  /** The envelope's seven names are different. */
  lemma NamesDiffer()
    ensures ACTOR_ID !in {BODY, PROFILE, OPERATION, PATH, QUERY, ROUTE}
    ensures PROFILE !in {BODY, OPERATION, PATH, QUERY, ROUTE}
    ensures OPERATION !in {BODY, PATH, QUERY, ROUTE} && BODY !in {PATH, QUERY, ROUTE} && PATH !in {QUERY, ROUTE}
    ensures QUERY != ROUTE
  {
    assert |ACTOR_ID| == 7 && |BODY| == 4 && |PROFILE| == 23 && |OPERATION| == 9 && |PATH| == 4 && |QUERY| == 5;
    assert |ROUTE| == 5;
    assert BODY[0] == 0x62 && PATH[0] == 0x70 && QUERY[0] == 0x71 && ROUTE[0] == 0x72;
  }

  lemma EnvelopeInjective(c: Command, d: Command)
    requires Envelope(c) == Envelope(d)
    ensures c == d
  {
    NamesDiffer();
    var m, n := Envelope(c).members, Envelope(d).members;
    assert m[ACTOR_ID] == n[ACTOR_ID] && m[BODY] == n[BODY] && m[OPERATION] == n[OPERATION];
    assert m[PATH] == n[PATH] && m[QUERY] == n[QUERY] && m[ROUTE] == n[ROUTE];
  }

  lemma ProjectBodyIs(p: BodyProjection, v: Json)
    requires p.RulesBody? ==> RULES in p.schema.fields && RULES !in p.schema.nullable
    ensures ProjectBody(p, v) == Restrict(BodyShape(p), v)
  {
    match p
    case ObjectBody(schema) => ProjectObjectIs(schema, v);
    case RulesBody(schema) => RulesBodyIs(schema, v);
  }

  /** The same command: the same actor, route and operation, and no difference in anything declared. */
  ghost predicate SameCommand(p: Projection, c: Command, d: Command) {
    && c.actorId == d.actorId && c.route == d.route && c.operation == d.operation
    && Same(Plain(p.path), c.path, d.path) && Same(Plain(p.query), c.query, d.query)
    && Same(BodyShape(p.body), c.body, d.body)
  }

  lemma ProjectedSame(p: Projection, c: Command, d: Command)
    requires Usable(p)
    ensures Projected(p, c) == Projected(p, d) <==> SameCommand(p, c, d)
  {
    ProjectObjectIs(p.path, c.path);
    ProjectObjectIs(p.path, d.path);
    RestrictKernel(Plain(p.path), c.path, d.path);
    ProjectObjectIs(p.query, c.query);
    ProjectObjectIs(p.query, d.query);
    RestrictKernel(Plain(p.query), c.query, d.query);
    ProjectBodyIs(p.body, c.body);
    ProjectBodyIs(p.body, d.body);
    RestrictKernel(BodyShape(p.body), c.body, d.body);
  }

  const ENVELOPE_NAMES := [ACTOR_ID, BODY, PROFILE, OPERATION, PATH, QUERY, ROUTE]

  /** A value of paired text with at most `depth` containers inside one another. */
  predicate Fits(v: Json, depth: nat) {
    Within(v, depth) && Paired(v)
  }

  /**
   * What the sender of a command can check: its texts and the declared part of its values are
   * free of unpaired surrogates, those values hold at most 31 containers inside one another,
   * and the envelope's text is at most 1,048,576 bytes.
   */
  ghost predicate Sendable(p: Projection, c: Command) {
    var sent := Projected(p, c);
    && !Unpaired(c.actorId) && !Unpaired(c.route) && !Unpaired(c.operation)
    && Fits(sent.path, 31) && Fits(sent.query, 31) && Fits(sent.body, 31)
    && Utf8Length(Canonical(Envelope(sent))) <= 1048576
  }

  /** Names and the profile take up no level of their own and are always paired. */
  lemma EnvelopeFits(m: map<Text, Json>, a: Text, b: Text, f: Text, o: Text, p: Text, q: Text, r: Text, profile: Text,
          depth: nat)
    requires m.Keys == {a, b, f, o, p, q, r} && m[f] == Str(profile)
    requires AsciiText(a) && AsciiText(b) && AsciiText(f) && AsciiText(o) && AsciiText(p) && AsciiText(q)
    requires AsciiText(r) && AsciiText(profile)
    ensures Fits(Obj(m), depth + 1) <==>
            Fits(m[a], depth) && Fits(m[b], depth) && Fits(m[o], depth)
            && Fits(m[p], depth) && Fits(m[q], depth) && Fits(m[r], depth)
  {
    forall k | k in m.Keys || k == profile
      ensures !Unpaired(k)
    {
      AsciiPaired(k);
    }
    assert Fits(m[f], depth);
    assert Within(Obj(m), depth + 1) <==> forall k :: k in m.Keys ==> Within(m[k], depth);
    assert Paired(Obj(m)) <==> forall k :: k in m.Keys ==> Paired(m[k]);
  }

  lemma NamesAscii()
    ensures AsciiText(ACTOR_ID) && AsciiText(BODY) && AsciiText(OPERATION)
  {
  }

  lemma MoreNamesAscii()
    ensures AsciiText(PATH) && AsciiText(QUERY) && AsciiText(ROUTE)
  {
  }

  lemma ProfileAscii()
    ensures AsciiText(PROFILE) && AsciiText(PROFILE_NAME)
  {
  }

  lemma EnvelopeMembers(c: Command)
    ensures var m := Envelope(c).members;
            && m.Keys == {ACTOR_ID, BODY, PROFILE, OPERATION, PATH, QUERY, ROUTE}
            && m[ACTOR_ID] == Str(c.actorId) && m[BODY] == c.body && m[PROFILE] == Str(PROFILE_NAME)
            && m[OPERATION] == Str(c.operation) && m[PATH] == c.path && m[QUERY] == c.query && m[ROUTE] == Str(c.route)
  {
    NamesDiffer();
  }

  /** The envelope takes up one level. */
  lemma EnvelopeFitsExactly(c: Command, depth: nat)
    ensures Fits(Envelope(c), depth + 1) <==>
            && !Unpaired(c.actorId) && !Unpaired(c.route) && !Unpaired(c.operation)
            && Fits(c.path, depth) && Fits(c.query, depth) && Fits(c.body, depth)
  {
    EnvelopeMembers(c);
    NamesAscii();
    MoreNamesAscii();
    ProfileAscii();
    EnvelopeFits(Envelope(c).members, ACTOR_ID, BODY, PROFILE, OPERATION, PATH, QUERY, ROUTE, PROFILE_NAME, depth);
  }

  lemma SendableExactly(p: Projection, c: Command)
    ensures RunnerText(p, c).Prepared? <==> Sendable(p, c)
  {
    EnvelopeFitsExactly(Projected(p, c), 31);
  }

  /**
   * The control plane computes the digest input the runner computed exactly when it can accept
   * the command's key, route and operation, it received the same command up to what the
   * projection ignores, and the command is one the runner could send.
   */
  lemma DigestsAgree(p: Projection, key: Text, sent: Command, received: Command)
    requires Usable(p)
    ensures ServerText(p, key, received).Prepared? && ServerText(p, key, received) == RunnerText(p, sent) <==>
            && ValidKey(key) && ValidRoute(received.route) && ValidOperation(received.operation)
            && SameCommand(p, sent, received) && Sendable(p, sent)
  {
    SendableExactly(p, sent);
    ProjectedSame(p, sent, received);
    CanonicalInjective(Envelope(Projected(p, sent)), Envelope(Projected(p, received)));
    if Envelope(Projected(p, sent)) == Envelope(Projected(p, received)) {
      EnvelopeInjective(Projected(p, sent), Projected(p, received));
    }
  }

  /** Arrays inside one another. */
  function Nested(n: nat): Json {
    if n == 0 then Null else Arr([Nested(n - 1)])
  }

  lemma {:induction false} NestedDepth(n: nat, depth: nat)
    ensures Within(Nested(n), depth) <==> n <= depth
  {
    if n > 0 && depth > 0 {
      NestedDepth(n - 1, depth - 1);
      assert Nested(n).items[0] == Nested(n - 1);
    }
  }

  const PAYLOAD := Name("payload")

  /** A payload of any form is received, but one nested more than 30 deep has no digest on either side. */
  lemma DeepPayloadRefused(key: Text, c: Command, n: nat)
    requires c.body.Obj? && PAYLOAD in c.body.members && c.body.members[PAYLOAD] == Nested(n) && n > 30
    ensures RunnerText(APPEND_STARTED, c) == Invalid && ServerText(APPEND_STARTED, key, c) == Invalid
  {
    hide CanonicalText;
    hide Nested;
    hide Envelope;
    var body := Projected(APPEND_STARTED, c).body;
    assert PAYLOAD in body.members && body.members[PAYLOAD] == Nested(n);
    NestedDepth(n, 30);
    SendableExactly(APPEND_STARTED, c);
  }

  const DESCRIPTION := Name("description")

  /** Nor has a description with half a surrogate pair. */
  lemma LoneSurrogateRefused(key: Text, c: Command, description: Text)
    requires c.body.Obj? && DESCRIPTION in c.body.members && c.body.members[DESCRIPTION] == Str(description)
    requires Unpaired(description)
    ensures RunnerText(CREATE_ENGAGEMENT, c) == Invalid && ServerText(CREATE_ENGAGEMENT, key, c) == Invalid
  {
    var body := Projected(CREATE_ENGAGEMENT, c).body;
    assert DESCRIPTION in body.members && body.members[DESCRIPTION] == Str(description);
    assert !Paired(body);
    SendableExactly(CREATE_ENGAGEMENT, c);
  }

  /** Projecting what was projected changes nothing, so a command may pass through any number of projections. */
  lemma ProjectedTwice(p: Projection, c: Command)
    requires Usable(p)
    ensures Projected(p, Projected(p, c)) == Projected(p, c)
  {
    ProjectObjectIs(p.path, c.path);
    RestrictSame(Plain(p.path), c.path);
    ProjectObjectIs(p.query, c.query);
    RestrictSame(Plain(p.query), c.query);
    ProjectBodyIs(p.body, c.body);
    RestrictSame(BodyShape(p.body), c.body);
    ProjectedSame(p, Projected(p, c), c);
  }

  // ---- What counts of each command, field by field ----

  /** The same under a name, where nothing is the same as null. */
  predicate AgreeOrNull(name: Text, v: Json, w: Json)
    requires v.Obj? && w.Obj?
  {
    (if name in v.members then v.members[name] else Null) == (if name in w.members then w.members[name] else Null)
  }

  lemma PathsCount(v: Json, w: Json)
    requires v.Obj? && w.Obj?
    ensures Same(Plain(APPEND_STARTED.path), v, w) <==> Agree({Name("leaseId")}, v, w)
    ensures Same(Plain(COMPLETE.path), v, w) <==> Agree({Name("leaseId")}, v, w)
    ensures Same(Plain(APPEND_SCOPE.path), v, w) <==> Agree({Name("engagementId")}, v, w)
    ensures Same(Plain(ADD_SCOPE_AND_RUN.path), v, w) <==> Agree({Name("engagementId"), Name("actionId")}, v, w)
    ensures Same(Plain(ARTIFACT_GRANT.path), v, w) && Same(Plain(CREATE_ENGAGEMENT.path), v, w)
    ensures forall p :: p in COMMANDS ==> Same(Plain(p.query), v, w)
  {
    PlainAgree(LEASE_PATH, v, w);
    PlainAgree(ENGAGEMENT_PATH, v, w);
    PlainAgree(ACTION_PATH, v, w);
    PlainAgree(EMPTY, v, w);
  }

  lemma RunnerBodiesCount(v: Json, w: Json)
    requires v.Obj? && w.Obj?
    ensures Same(BodyShape(APPEND_STARTED.body), v, w) <==>
            Agree({Name("runId"), Name("sessionId"), Name("fence"), Name("sequence"), Name("payload")}, v, w)
    ensures Same(BodyShape(COMPLETE.body), v, w) <==>
            Agree({Name("runId"), Name("sessionId"), Name("fence"), Name("sequence"), Name("terminalKind"),
                   Name("reason")}, v, w)
    ensures Same(BodyShape(ARTIFACT_GRANT.body), v, w) <==>
            Agree({Name("runId"), Name("leaseId"), Name("sessionId"), Name("fence"), Name("eventSequence"),
                   Name("artifactSlot"), Name("kind"), Name("declaredSizeBytes"), Name("declaredDigest"),
                   Name("originalFileName"), Name("declaredContentType")}, v, w)
  {
    PlainAgree(APPEND_STARTED.body.schema, v, w);
    PlainAgree(COMPLETE.body.schema, v, w);
    PlainAgree(ARTIFACT_GRANT.body.schema, v, w);
  }

  lemma EngagementBodiesCount(v: Json, w: Json)
    requires v.Obj? && w.Obj?
    ensures Same(BodyShape(CREATE_ENGAGEMENT.body), v, w) <==>
            && Agree({Name("name"), Name("kind"), Name("autoContinueWarnings"), Name("deadlineAt")}, v, w)
            && AgreeOrNull(Name("description"), v, w) && AgreeOrNull(Name("authorizationContext"), v, w)
    ensures Same(BodyShape(APPEND_SCOPE.body), v, w) <==>
            Agree({Name("expectedRevision")}, v, w) && AgreeAt(Name("rules"), Items(Rule), v, w)
    ensures Same(BodyShape(ADD_SCOPE_AND_RUN.body), v, w) <==>
            && Agree({Name("expectedEngagementRevision"), Name("expectedActionRevision")}, v, w)
            && AgreeAt(Name("rules"), Items(Rule), v, w)
  {
    CreateCounts(v, w);
    RulesCount(APPEND_SCOPE.body.schema, {Name("expectedRevision")}, v, w);
    RulesCount(ADD_SCOPE_AND_RUN.body.schema, {Name("expectedEngagementRevision"), Name("expectedActionRevision")},
               v, w);
  }

  lemma RulesCount(schema: Schema, plain: set<Text>, v: Json, w: Json)
    requires v.Obj? && w.Obj? && schema.nullable == {} && schema.fields == plain + {RULES} && RULES !in plain
    ensures Same(Refined(Plain(schema), RULES, Items(Rule)), v, w) <==>
            Agree(plain, v, w) && AgreeAt(Name("rules"), Items(Rule), v, w)
  {
    var shape := Refined(Plain(schema), RULES, Items(Rule));
    assert shape.fields.Keys == plain + {RULES};
    assert forall k :: k in plain ==> shape.fields[k] == Whole;
  }

  lemma CreateCounts(v: Json, w: Json)
    requires v.Obj? && w.Obj?
    ensures Same(BodyShape(CREATE_ENGAGEMENT.body), v, w) <==>
            && Agree({Name("name"), Name("kind"), Name("autoContinueWarnings"), Name("deadlineAt")}, v, w)
            && AgreeOrNull(Name("description"), v, w) && AgreeOrNull(Name("authorizationContext"), v, w)
  {
    assert |Name("name")| == |KIND| == 4 && |Name("autoContinueWarnings")| == 20 && |Name("deadlineAt")| == 10;
    assert |Name("description")| == 11 && |Name("authorizationContext")| == 20;
    assert Name("authorizationContext")[3] == 0x68 && Name("autoContinueWarnings")[3] == 0x6f;
  }
}
