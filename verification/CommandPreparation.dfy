/** Preparing a command: the envelope as an object, and its canonical text. */
module CommandPreparation {
  import opened Unicode
  import opened JsonText
  import opened ObjectGraph
  import opened CommandDigest
  import S = CanonicalSerializer

  /** The object a command's values are put into. */
  function EnvelopeNode(actorId: Text, route: Text, operation: Text, path: Ref, query: Ref, body: Ref): Node {
    ObjectNode(true, false, ENVELOPE_NAMES,
               map[ACTOR_ID := Data(StrRef(actorId)), BODY := Data(body), PROFILE := Data(StrRef(PROFILE_NAME)),
                   OPERATION := Data(StrRef(operation)), PATH := Data(path),
                   QUERY := Data(query), ROUTE := Data(StrRef(route))])
  }

  /** The command whose path, query and body are these plain values. */
  ghost predicate Given(g: Graph, path: Ref, query: Ref, body: Ref, c: Command, n: nat) {
    Builds(g, path, c.path, n) && Builds(g, query, c.query, n) && Builds(g, body, c.body, n)
  }

  /** The slots hold what the members are, name by name. */
  lemma EnvelopeSlots(path: Ref, query: Ref, body: Ref, c: Command)
    ensures var slots := EnvelopeNode(c.actorId, c.route, c.operation, path, query, body).slots;
            && slots.Keys == {ACTOR_ID, BODY, PROFILE, OPERATION, PATH, QUERY, ROUTE}
            && slots[ACTOR_ID] == Data(StrRef(c.actorId)) && slots[BODY] == Data(body)
            && slots[PROFILE] == Data(StrRef(PROFILE_NAME))
            && slots[OPERATION] == Data(StrRef(c.operation)) && slots[PATH] == Data(path) && slots[QUERY] == Data(query)
            && slots[ROUTE] == Data(StrRef(c.route))
    ensures Distinct(ENVELOPE_NAMES)
    ensures forall k :: k in ENVELOPE_NAMES <==> k in {ACTOR_ID, BODY, PROFILE, OPERATION, PATH, QUERY, ROUTE}
  {
    NamesDiffer();
  }

  /** The envelope is an object the engine could have made. */
  lemma EnvelopeOk(g: Graph, path: Ref, query: Ref, body: Ref, c: Command)
    requires Resolves(g, path) && Resolves(g, query) && Resolves(g, body)
    ensures NodeOk(g, EnvelopeNode(c.actorId, c.route, c.operation, path, query, body))
  {
    hide Distinct;
    EnvelopeSlots(path, query, body, c);
  }

  /** The envelope is a plain object that stands for the command's envelope. */
  lemma EnvelopeBuilt(g: Graph, id: nat, path: Ref, query: Ref, body: Ref, c: Command, n: nat)
    requires GraphOk(g) && id !in g && Resolves(g, path) && Resolves(g, query) && Resolves(g, body)
    requires Given(g, path, query, body, c, n)
    ensures var h := g[id := EnvelopeNode(c.actorId, c.route, c.operation, path, query, body)];
            GraphOk(h) && Builds(h, ObjectRef(id), Envelope(c), n + 1)
  {
    hide EnvelopeNode, Envelope, NodeBuilds, GraphOk, NodeOk;
    var node := EnvelopeNode(c.actorId, c.route, c.operation, path, query, body);
    EnvelopeOk(g, path, query, body, c);
    ObjectAdded(g, id, node);
    BuildsStay(g, id, node, path, c.path, n);
    BuildsStay(g, id, node, query, c.query, n);
    BuildsStay(g, id, node, body, c.body, n);
    EnvelopeNodeBuilt(g[id := node], path, query, body, c, n);
  }

  lemma ObjectAdded(g: Graph, id: nat, node: Node)
    requires GraphOk(g) && id !in g && NodeOk(g, node)
    ensures GraphOk(g[id := node])
  {
    forall k | k in g
      ensures NodeOk(g[id := node], g[k])
    {
      assert NodeOk(g, g[k]);
    }
  }

  lemma EnvelopeNodeBuilt(g: Graph, path: Ref, query: Ref, body: Ref, c: Command, n: nat)
    requires Given(g, path, query, body, c, n)
    ensures NodeBuilds(g, EnvelopeNode(c.actorId, c.route, c.operation, path, query, body), Envelope(c), n)
  {
    var node := EnvelopeNode(c.actorId, c.route, c.operation, path, query, body);
    EnvelopeSlots(path, query, body, c);
    EnvelopeMembers(c);
    SlotsBuilt(g, ENVELOPE_NAMES, node.slots, Envelope(c).members, path, query, body, c, n,
               ACTOR_ID, BODY, PROFILE, OPERATION, PATH, QUERY, ROUTE, PROFILE_NAME);
  }

  /** The same for any seven names. */
  lemma SlotsBuilt(g: Graph, keys: seq<Text>, slots: map<Text, Slot>, m: map<Text, Json>, path: Ref, query: Ref,
          body: Ref,
          c: Command, n: nat, a: Text, b: Text, f: Text, o: Text, p: Text, q: Text, r: Text, profile: Text)
    requires Given(g, path, query, body, c, n)
    requires m.Keys == slots.Keys == {a, b, f, o, p, q, r} && forall k :: k in keys <==> k in m.Keys
    requires m[a] == Str(c.actorId) && m[o] == Str(c.operation) && m[r] == Str(c.route) && m[f] == Str(profile)
    requires m[p] == c.path && m[q] == c.query && m[b] == c.body
    requires slots[a] == Data(StrRef(c.actorId)) && slots[o] == Data(StrRef(c.operation))
    requires slots[r] == Data(StrRef(c.route))
    requires slots[f] == Data(StrRef(profile)) && slots[p] == Data(path) && slots[q] == Data(query)
    requires slots[b] == Data(body)
    ensures NodeBuilds(g, ObjectNode(true, false, keys, slots), Obj(m), n)
  {
  }

  predicate Above(n: nat, ids: set<nat>) {
    forall id :: id in ids ==> id < n
  }

  lemma {:induction false} SomeAbove(ids: set<nat>)
    ensures exists n :: Above(n, ids)
    decreases |ids|
  {
    if ids == {} {
      assert Above(0, ids);
    } else {
      var id :| id in ids;
      SomeAbove(ids - {id});
      var n :| Above(n, ids - {id});
      forall other | other in ids
        ensures other < n + id + 1
      {
        assert other == id || other in ids - {id};
      }
      assert Above(n + id + 1, ids);
    }
  }

  /** The text a command's digest is taken of, or a refusal. */
  method PrepareActorCommand(g: Graph, actorId: Text, key: Text, route: Text, operation: Text,
                             path: Ref, query: Ref, body: Ref, ghost c: Command, ghost n: nat)
    returns (prepared: Prepared)
    requires GraphOk(g) && Resolves(g, path) && Resolves(g, query) && Resolves(g, body)
    requires c.actorId == actorId && c.route == route && c.operation == operation && Given(g, path, query, body, c, n)
    ensures prepared == PreparedText(key, c)
  {
    if !ValidKey(key) || !ValidRoute(route) || !ValidOperation(operation) {
      return Invalid;
    }
    prepared := CanonicalizeEnvelope(g, actorId, route, operation, path, query, body, c, n);
  }

  /** The envelope built as one more object, and its canonical text if it has one. */
  method CanonicalizeEnvelope(g: Graph, actorId: Text, route: Text, operation: Text,
                              path: Ref, query: Ref, body: Ref, ghost c: Command, ghost n: nat)
    returns (prepared: Prepared)
    requires GraphOk(g) && Resolves(g, path) && Resolves(g, query) && Resolves(g, body)
    requires c.actorId == actorId && c.route == route && c.operation == operation && Given(g, path, query, body, c, n)
    ensures prepared == CanonicalText(Envelope(c))
  {
    SomeAbove(g.Keys);
    var id :| Above(id, g.Keys);
    var envelope := g[id := EnvelopeNode(actorId, route, operation, path, query, body)];
    EnvelopeBuilt(g, id, path, query, body, c, n);
    S.PlainExactly(envelope, ObjectRef(id), Envelope(c), n + 1);
    var canonical := S.CanonicalizeJson(envelope, ObjectRef(id));
    prepared := if canonical.Ok? then Prepared(canonical.canonicalJson) else Invalid;
  }
}
