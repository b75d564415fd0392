/**
 * What a command's digest depends on: the declared fields of its path, query and body,
 * at every level, with defaults filled in.
 */
module DigestProjection {
  import opened Unicode
  import opened JsonText

  // ---- The projections as the program computes them ----

  /** Declared fields, and those of them that default to null. */
  datatype Schema = Schema(fields: set<Text>, nullable: set<Text>)

  function ProjectObject(schema: Schema, v: Json): Json {
    if !v.Obj? then v
    else Obj(map k | k in schema.fields && (k in v.members || k in schema.nullable)
             :: if k in v.members then v.members[k] else Null)
  }

  function ProjectArray(v: Json, item: Json -> Json): Json {
    if !v.Arr? then v else Arr(seq(|v.items|, i requires 0 <= i < |v.items| => item(v.items[i])))
  }

  function WithProjectedField(v: Json, key: Text, project: Json -> Json): Json {
    if v.Obj? && key in v.members then Obj(v.members[key := project(v.members[key])]) else v
  }

  const HOSTNAME := Name("hostname")
  const ADDRESS := Name("address")
  const ZONE := Name("zone")
  const HOST := Name("host")
  const KIND := Name("kind")
  const TARGET := Name("target")
  const ORIGIN := Name("origin")
  const PORT_RANGES := Name("portRanges")
  const RULES := Name("rules")

  const PORT_RANGE := Schema({Name("from"), Name("to")}, {})
  const IP_TARGET := Schema({KIND, Name("normalizationProfile"), Name("family"), ADDRESS, ZONE}, {})
  const CIDR_TARGET := Schema({KIND, Name("normalizationProfile"), Name("family"), Name("network"),
                              Name("prefixLength"), Name("hostBitsMasked")}, {})
  const HOSTNAME_TARGET := Schema({KIND, Name("normalizationProfile"), HOSTNAME}, {})
  const HOSTNAME_HOST := Schema({HOSTNAME}, {})
  const ADDRESS_HOST := Schema({ADDRESS, ZONE}, {})
  const UNION_HOST := Schema({HOSTNAME, ADDRESS, ZONE}, {})
  const URL_ORIGIN := Schema({Name("scheme"), HOST, Name("effectivePort")}, {})
  const COMMON_RULE := Schema({Name("id"), KIND, PORT_RANGES}, {})
  const TARGET_RULE := Schema({Name("id"), KIND, TARGET, PORT_RANGES}, {})
  const DOMAIN_RULE := Schema({Name("id"), KIND, TARGET, Name("includeSubdomains"), PORT_RANGES}, {})
  const ORIGIN_RULE := Schema({Name("id"), KIND, ORIGIN, PORT_RANGES}, {})

  function ProjectUrlHost(v: Json): Json {
    if !v.Obj? then v
    else
      var hasHostname, hasAddress, hasZone := HOSTNAME in v.members, ADDRESS in v.members, ZONE in v.members;
      if hasHostname && !hasAddress && !hasZone then ProjectObject(HOSTNAME_HOST, v)
      else if (hasAddress || hasZone) && !hasHostname then ProjectObject(ADDRESS_HOST, v)
      else ProjectObject(UNION_HOST, v)
  }

  function ProjectUrlOrigin(v: Json): Json {
    WithProjectedField(ProjectObject(URL_ORIGIN, v), HOST, ProjectUrlHost)
  }

  function ProjectPortRanges(v: Json): Json {
    ProjectArray(v, item => ProjectObject(PORT_RANGE, item))
  }

  function ProjectScopeRule(v: Json, schema: Schema, nestedKey: Text, nested: Json -> Json): Json {
    WithProjectedField(WithProjectedField(ProjectObject(schema, v), nestedKey, nested), PORT_RANGES, ProjectPortRanges)
  }

  /** The `kind` of a rule, when it has one. */
  function KindOf(v: Json): Json {
    if v.Obj? && KIND in v.members then v.members[KIND] else Null
  }

  const IP := Str(Name("ip"))
  const CIDR := Str(Name("cidr"))
  const DOMAIN := Str(Name("domain"))
  const URL := Str(Name("url-origin"))

  function ProjectSavedScopeRule(v: Json): Json {
    if !v.Obj? then v
    else
      var kind := KindOf(v);
      if kind == IP then ProjectScopeRule(v, TARGET_RULE, TARGET, target => ProjectObject(IP_TARGET, target))
      else if kind == CIDR then ProjectScopeRule(v, TARGET_RULE, TARGET, target => ProjectObject(CIDR_TARGET, target))
      else if kind == DOMAIN then ProjectScopeRule(v, DOMAIN_RULE, TARGET,
                                     target => ProjectObject(HOSTNAME_TARGET, target))
      else if kind == URL then ProjectScopeRule(v, ORIGIN_RULE, ORIGIN, ProjectUrlOrigin)
      else WithProjectedField(ProjectObject(COMMON_RULE, v), PORT_RANGES, ProjectPortRanges)
  }

  function ProjectRulesField(v: Json): Json {
    ProjectArray(v, ProjectSavedScopeRule)
  }

  function ProjectRulesBody(schema: Schema, v: Json): Json {
    WithProjectedField(ProjectObject(schema, v), RULES, ProjectRulesField)
  }

  // ---- What they mean: a shape, and the part of a value that fits it ----

  /**
   * What counts of a value: all of it, the declared fields of an object, the items of an
   * array, or a scope rule by its kind.
   */
  datatype Shape =
    | Whole
    | Fields(fields: map<Text, Shape>, nullable: set<Text>)
    | Items(item: Shape)
    | Rule

  function Plain(schema: Schema): Shape {
    Fields(map k | k in schema.fields :: Whole, schema.nullable)
  }

  function Refined(shape: Shape, key: Text, inner: Shape): Shape
    requires shape.Fields?
  {
    Fields(shape.fields[key := inner], shape.nullable)
  }

  const HOST_SHAPE := Plain(UNION_HOST)
  const ORIGIN_SHAPE := Refined(Plain(URL_ORIGIN), HOST, HOST_SHAPE)
  const PORTS_SHAPE := Items(Plain(PORT_RANGE))

  function RuleShape(v: Json): (s: Shape)
    ensures s.Fields?
  {
    var kind := KindOf(v);
    if kind == IP then Refined(Refined(Plain(TARGET_RULE), TARGET, Plain(IP_TARGET)), PORT_RANGES, PORTS_SHAPE)
    else if kind == CIDR then Refined(Refined(Plain(TARGET_RULE), TARGET, Plain(CIDR_TARGET)), PORT_RANGES, PORTS_SHAPE)
    else if kind == DOMAIN then Refined(Refined(Plain(DOMAIN_RULE), TARGET, Plain(HOSTNAME_TARGET)),
                                     PORT_RANGES, PORTS_SHAPE)
    else if kind == URL then Refined(Refined(Plain(ORIGIN_RULE), ORIGIN, ORIGIN_SHAPE), PORT_RANGES, PORTS_SHAPE)
    else Refined(Plain(COMMON_RULE), PORT_RANGES, PORTS_SHAPE)
  }

  /** The part of a value a shape lets through. */
  function Restrict(shape: Shape, v: Json): Json
    decreases v, if shape.Rule? then 1 else 0
  {
    match shape
    case Whole => v
    case Fields(fields, nullable) =>
      if !v.Obj? then v
      else Obj(map k | k in fields && (k in v.members || k in nullable) ::
                 if k in v.members then Restrict(fields[k], v.members[k]) else Null)
    case Items(item) =>
      if !v.Arr? then v else Arr(seq(|v.items|, i requires 0 <= i < |v.items| => Restrict(item, v.items[i])))
    case Rule => Restrict(RuleShape(v), v)
  }

  /**
   * Two values that do not differ in anything a shape counts: unknown fields and spelled-out
   * nulls make no difference.
   */
  ghost predicate Same(shape: Shape, v: Json, w: Json)
    decreases v, if shape.Rule? then 1 else 0
  {
    match shape
    case Whole => v == w
    case Fields(fields, nullable) =>
      if v.Obj? && w.Obj? then
        forall k :: k in fields ==>
          if k in v.members && k in w.members then Same(fields[k], v.members[k], w.members[k])
          else if k in v.members then k in nullable && v.members[k] == Null
          else if k in w.members then k in nullable && w.members[k] == Null
          else true
      else v == w
    case Items(item) =>
      if v.Arr? && w.Arr? then |v.items| == |w.items|
                                     && forall i :: 0 <= i < |v.items| ==> Same(item, v.items[i], w.items[i])
      else v == w
    case Rule => Same(RuleShape(v), v, w)
  }

  // ---- The meaning is the right one ----

  lemma RestrictNull(shape: Shape, v: Json)
    ensures Restrict(shape, v) == Null <==> v == Null
  {
    if shape.Rule? {
      assert Restrict(shape, v) == Restrict(RuleShape(v), v);
    }
  }

  lemma RestrictKinds(shape: Shape, v: Json)
    ensures Restrict(shape, v).Obj? == v.Obj? && Restrict(shape, v).Arr? == v.Arr?
    ensures !v.Obj? && !v.Arr? ==> Restrict(shape, v) == v
  {
  }

  /** The shape of a rule hangs on its kind alone, and keeps it. */
  lemma RuleShapeByKind(v: Json)
    ensures RuleShape(v).nullable == {}
    ensures KIND in RuleShape(v).fields && RuleShape(v).fields[KIND] == Whole
    ensures forall w :: KindOf(w) == KindOf(v) ==> RuleShape(w) == RuleShape(v)
  {
    assert |KIND| == 4 && |TARGET| == 6 && |ORIGIN| == 6 && |PORT_RANGES| == 10;
  }

  lemma KindKept(shape: Shape, v: Json)
    requires shape.Fields? && KIND in shape.fields && shape.fields[KIND] == Whole && KIND !in shape.nullable
    ensures KindOf(Restrict(shape, v)) == KindOf(v)
  {
  }

  lemma FieldsKernel(fields: map<Text, Shape>, nullable: set<Text>, v: Json, w: Json)
    requires v.Obj? && w.Obj?
    requires forall k :: k in fields && k in v.members && k in w.members ==>
               (Restrict(fields[k], v.members[k]) == Restrict(fields[k], w.members[k])
                <==> Same(fields[k], v.members[k], w.members[k]))
    ensures Restrict(Fields(fields, nullable), v) == Restrict(Fields(fields, nullable), w) <==>
            Same(Fields(fields, nullable), v, w)
  {
    var r, t := Restrict(Fields(fields, nullable), v), Restrict(Fields(fields, nullable), w);
    forall k | k in fields
      ensures k in v.members ==> (Restrict(fields[k], v.members[k]) == Null <==> v.members[k] == Null)
      ensures k in w.members ==> (Restrict(fields[k], w.members[k]) == Null <==> w.members[k] == Null)
    {
      if k in v.members {
        RestrictNull(fields[k], v.members[k]);
      }
      if k in w.members {
        RestrictNull(fields[k], w.members[k]);
      }
    }
    if r == t {
      assert forall k :: k in fields ==> (k in r.members <==> k in t.members);
      assert forall k :: k in r.members ==> r.members[k] == t.members[k];
    }
    if Same(Fields(fields, nullable), v, w) {
      assert r.members == t.members;
    }
  }

  lemma ItemsKernel(item: Shape, v: Json, w: Json)
    requires v.Arr? && w.Arr?
    requires forall i :: 0 <= i < |v.items| && i < |w.items| ==>
               (Restrict(item, v.items[i]) == Restrict(item, w.items[i]) <==> Same(item, v.items[i], w.items[i]))
    ensures Restrict(Items(item), v) == Restrict(Items(item), w) <==> Same(Items(item), v, w)
  {
    hide RuleShape;
    var r, t := Restrict(Items(item), v), Restrict(Items(item), w);
    assert |r.items| == |v.items| && |t.items| == |w.items|;
    forall i | 0 <= i < |v.items| && i < |w.items|
      ensures r.items[i] == t.items[i] <==> Same(item, v.items[i], w.items[i])
    {
      ItemAt(item, v, i);
      ItemAt(item, w, i);
    }
    if |v.items| == |w.items| && forall i :: 0 <= i < |v.items| ==> Same(item, v.items[i], w.items[i]) {
      assert r.items == t.items;
    }
  }

  lemma ItemAt(item: Shape, v: Json, i: nat)
    requires v.Arr? && i < |v.items|
    ensures Restrict(Items(item), v).items[i] == Restrict(item, v.items[i])
  {
  }

  /** Values that are not both objects (or both arrays) are projected to themselves or to different kinds of value. */
  lemma LooseKernel(shape: Shape, v: Json, w: Json)
    requires shape.Fields? ==> !(v.Obj? && w.Obj?)
    requires shape.Items? ==> !(v.Arr? && w.Arr?)
    requires !shape.Rule?
    ensures Restrict(shape, v) == Restrict(shape, w) <==> Same(shape, v, w)
  {
  }

  lemma RuleKernel(v: Json, w: Json)
    requires v.Obj? && w.Obj? && KindOf(v) != KindOf(w)
    ensures Restrict(Rule, v) != Restrict(Rule, w) && !Same(Rule, v, w)
  {
    RuleShapeByKind(v);
    RuleShapeByKind(w);
    KindKept(RuleShape(v), v);
    KindKept(RuleShape(w), w);
    DifferentKinds(RuleShape(v), v, w);
  }

  lemma DifferentKinds(shape: Shape, v: Json, w: Json)
    requires v.Obj? && w.Obj? && KindOf(v) != KindOf(w)
    requires shape.Fields? && KIND in shape.fields && shape.fields[KIND] == Whole && KIND !in shape.nullable
    ensures !Same(shape, v, w)
  {
  }

  /** Two values have the same projection exactly when they differ in nothing that is declared. */
  lemma {:induction false} RestrictKernel(shape: Shape, v: Json, w: Json)
    ensures Restrict(shape, v) == Restrict(shape, w) <==> Same(shape, v, w)
    decreases v, if shape.Rule? then 1 else 0
  {
    match shape
    case Whole =>
    case Fields(fields, nullable) =>
      if v.Obj? && w.Obj? {
        forall k | k in fields && k in v.members && k in w.members
          ensures Restrict(fields[k], v.members[k]) == Restrict(fields[k], w.members[k]) <==>
                  Same(fields[k], v.members[k], w.members[k])
        {
          RestrictKernel(fields[k], v.members[k], w.members[k]);
        }
        FieldsKernel(fields, nullable, v, w);
      } else {
        LooseKernel(shape, v, w);
      }
    case Items(item) =>
      if v.Arr? && w.Arr? {
        forall i | 0 <= i < |v.items| && i < |w.items|
          ensures Restrict(item, v.items[i]) == Restrict(item, w.items[i]) <==> Same(item, v.items[i], w.items[i])
        {
          RestrictKernel(item, v.items[i], w.items[i]);
        }
        ItemsKernel(item, v, w);
      } else {
        LooseKernel(shape, v, w);
      }
    case Rule =>
      if v.Obj? && w.Obj? && KindOf(v) != KindOf(w) {
        RuleKernel(v, w);
      } else {
        RestrictKernel(RuleShape(v), v, w);
        RuleShapeByKind(v);
        RestrictKinds(RuleShape(w), w);
      }
  }

  /** Projecting leaves out nothing that counts. */
  lemma {:induction false} RestrictSame(shape: Shape, v: Json)
    ensures Same(shape, Restrict(shape, v), v)
    decreases v, if shape.Rule? then 1 else 0
  {
    match shape
    case Whole =>
    case Fields(fields, nullable) =>
      if v.Obj? {
        forall k | k in fields && k in v.members
          ensures Same(fields[k], Restrict(fields[k], v.members[k]), v.members[k])
        {
          RestrictSame(fields[k], v.members[k]);
        }
      }
    case Items(item) =>
      if v.Arr? {
        forall i | 0 <= i < |v.items|
          ensures Same(item, Restrict(item, v.items[i]), v.items[i])
        {
          RestrictSame(item, v.items[i]);
        }
      }
    case Rule =>
      RuleShapeByKind(v);
      KindKept(RuleShape(v), v);
      RestrictSame(RuleShape(v), v);
      assert RuleShape(Restrict(Rule, v)) == RuleShape(v);
  }

  /** Projecting twice is projecting once, at every level. */
  lemma RestrictIdempotent(shape: Shape, v: Json)
    ensures Restrict(shape, Restrict(shape, v)) == Restrict(shape, v)
  {
    RestrictSame(shape, v);
    RestrictKernel(shape, Restrict(shape, v), v);
  }

  // ---- The program's projections are the shapes' ----

  lemma ProjectObjectIs(schema: Schema, v: Json)
    ensures ProjectObject(schema, v) == Restrict(Plain(schema), v)
  {
  }

  /** Projecting one field of what a shape lets through refines the shape at that field. */
  lemma FieldIs(shape: Shape, key: Text, inner: Shape, project: Json -> Json, v: Json)
    requires shape.Fields? && key in shape.fields && shape.fields[key] == Whole && key !in shape.nullable
    requires forall x :: project(x) == Restrict(inner, x)
    ensures WithProjectedField(Restrict(shape, v), key, project) == Restrict(Refined(shape, key, inner), v)
  {
    if v.Obj? {
      var plain := Restrict(shape, v);
      var r := WithProjectedField(plain, key, project);
      var t := Restrict(Refined(shape, key, inner), v);
      FieldAt(shape, v, key);
      if key in v.members {
        assert Restrict(Whole, v.members[key]) == v.members[key];
      }
      forall k | k in t.members
        ensures k in r.members && r.members[k] == t.members[k]
      {
        FieldAt(shape, v, k);
        FieldAt(Refined(shape, key, inner), v, k);
      }
      forall k | k in r.members
        ensures k in t.members
      {
        FieldAt(Refined(shape, key, inner), v, k);
      }
      assert r.members == t.members;
    }
  }

  lemma FieldAt(shape: Shape, v: Json, k: Text)
    requires shape.Fields? && v.Obj?
    ensures k in Restrict(shape, v).members <==> k in shape.fields && (k in v.members || k in shape.nullable)
    ensures k in Restrict(shape, v).members ==>
              Restrict(shape, v).members[k] == if k in v.members then Restrict(shape.fields[k], v.members[k]) else Null
  {
  }

  lemma ItemsIs(item: Shape, project: Json -> Json, v: Json)
    requires forall x :: project(x) == Restrict(item, x)
    ensures ProjectArray(v, project) == Restrict(Items(item), v)
  {
  }

  /** The three ways of projecting a host come to the same. */
  lemma UrlHostIs(v: Json)
    ensures ProjectUrlHost(v) == Restrict(HOST_SHAPE, v)
  {
  }

  lemma UrlOriginIs(v: Json)
    ensures ProjectUrlOrigin(v) == Restrict(ORIGIN_SHAPE, v)
  {
    forall x
      ensures ProjectUrlHost(x) == Restrict(HOST_SHAPE, x)
    {
      UrlHostIs(x);
    }
    ProjectObjectIs(URL_ORIGIN, v);
    FieldIs(Plain(URL_ORIGIN), HOST, HOST_SHAPE, ProjectUrlHost, v);
  }

  lemma PortRangesIs(v: Json)
    ensures ProjectPortRanges(v) == Restrict(PORTS_SHAPE, v)
  {
    var project := item => ProjectObject(PORT_RANGE, item);
    forall x
      ensures project(x) == Restrict(Plain(PORT_RANGE), x)
    {
      ProjectObjectIs(PORT_RANGE, x);
    }
    ItemsIs(Plain(PORT_RANGE), project, v);
  }

  lemma ScopeRuleIs(v: Json, schema: Schema, nestedKey: Text, inner: Shape, nested: Json -> Json)
    requires schema.nullable == {} && nestedKey in schema.fields && PORT_RANGES in schema.fields
    requires nestedKey != PORT_RANGES
    requires forall x :: nested(x) == Restrict(inner, x)
    ensures ProjectScopeRule(v, schema, nestedKey, nested) ==
            Restrict(Refined(Refined(Plain(schema), nestedKey, inner), PORT_RANGES, PORTS_SHAPE), v)
  {
    ProjectObjectIs(schema, v);
    FieldIs(Plain(schema), nestedKey, inner, nested, v);
    forall x
      ensures ProjectPortRanges(x) == Restrict(PORTS_SHAPE, x)
    {
      PortRangesIs(x);
    }
    FieldIs(Refined(Plain(schema), nestedKey, inner), PORT_RANGES, PORTS_SHAPE, ProjectPortRanges, v);
  }

  /** The kinds a rule can have are different, and so are its field names. */
  lemma RuleNames()
    ensures IP != CIDR && IP != DOMAIN && IP != URL && CIDR != DOMAIN && CIDR != URL && DOMAIN != URL
    ensures TARGET != PORT_RANGES && ORIGIN != PORT_RANGES
  {
  }

  lemma CommonRuleIs(v: Json)
    ensures WithProjectedField(ProjectObject(COMMON_RULE, v), PORT_RANGES, ProjectPortRanges) ==
            Restrict(Refined(Plain(COMMON_RULE), PORT_RANGES, PORTS_SHAPE), v)
  {
    ProjectObjectIs(COMMON_RULE, v);
    forall x
      ensures ProjectPortRanges(x) == Restrict(PORTS_SHAPE, x)
    {
      PortRangesIs(x);
    }
    FieldIs(Plain(COMMON_RULE), PORT_RANGES, PORTS_SHAPE, ProjectPortRanges, v);
  }

  lemma TargetRuleIs(v: Json, schema: Schema, target: Schema)
    requires schema == TARGET_RULE || schema == DOMAIN_RULE
    ensures ProjectScopeRule(v, schema, TARGET, t => ProjectObject(target, t)) ==
            Restrict(Refined(Refined(Plain(schema), TARGET, Plain(target)), PORT_RANGES, PORTS_SHAPE), v)
  {
    RuleNames();
    var nested := t => ProjectObject(target, t);
    forall x
      ensures nested(x) == Restrict(Plain(target), x)
    {
      ProjectObjectIs(target, x);
    }
    ScopeRuleIs(v, schema, TARGET, Plain(target), nested);
    assert ProjectScopeRule(v, schema, TARGET, t => ProjectObject(target, t)) ==
           ProjectScopeRule(v, schema, TARGET, nested);
  }

  lemma OriginRuleIs(v: Json)
    ensures ProjectScopeRule(v, ORIGIN_RULE, ORIGIN, ProjectUrlOrigin) ==
            Restrict(Refined(Refined(Plain(ORIGIN_RULE), ORIGIN, ORIGIN_SHAPE), PORT_RANGES, PORTS_SHAPE), v)
  {
    RuleNames();
    forall x
      ensures ProjectUrlOrigin(x) == Restrict(ORIGIN_SHAPE, x)
    {
      UrlOriginIs(x);
    }
    ScopeRuleIs(v, ORIGIN_RULE, ORIGIN, ORIGIN_SHAPE, ProjectUrlOrigin);
  }

  lemma SavedScopeRuleIs(v: Json)
    ensures ProjectSavedScopeRule(v) == Restrict(Rule, v)
  {
    RestrictKinds(RuleShape(v), v);
    if v.Obj? {
      var kind := KindOf(v);
      if kind == IP {
        TargetRuleIs(v, TARGET_RULE, IP_TARGET);
      } else if kind == CIDR {
        TargetRuleIs(v, TARGET_RULE, CIDR_TARGET);
      } else if kind == DOMAIN {
        TargetRuleIs(v, DOMAIN_RULE, HOSTNAME_TARGET);
      } else if kind == URL {
        OriginRuleIs(v);
      } else {
        CommonRuleIs(v);
      }
    }
  }

  /** A body with scope rules: the declared fields, each rule by its own shape. */
  lemma RulesBodyIs(schema: Schema, v: Json)
    requires RULES in schema.fields && RULES !in schema.nullable
    ensures ProjectRulesBody(schema, v) == Restrict(Refined(Plain(schema), RULES, Items(Rule)), v)
  {
    forall x
      ensures ProjectRulesField(x) == Restrict(Items(Rule), x)
    {
      forall y
        ensures ProjectSavedScopeRule(y) == Restrict(Rule, y)
      {
        SavedScopeRuleIs(y);
      }
      ItemsIs(Rule, ProjectSavedScopeRule, x);
    }
    ProjectObjectIs(schema, v);
    FieldIs(Plain(schema), RULES, Items(Rule), ProjectRulesField, v);
  }

  // ---- What counts of a rule, field by field ----

  /** Both values are objects and have the same under these names: the same value, or nothing. */
  ghost predicate Agree(names: set<Text>, v: Json, w: Json) {
    && v.Obj? && w.Obj?
    && forall k :: k in names ==>
         (k in v.members <==> k in w.members) && (k in v.members ==> v.members[k] == w.members[k])
  }

  /** Both have nothing under a name, or both have something that is the same as far as the shape goes. */
  ghost predicate AgreeAt(name: Text, shape: Shape, v: Json, w: Json) {
    && v.Obj? && w.Obj? && (name in v.members <==> name in w.members)
    && (name in v.members ==> Same(shape, v.members[name], w.members[name]))
  }

  lemma PlainAgree(schema: Schema, v: Json, w: Json)
    requires schema.nullable == {} && v.Obj? && w.Obj?
    ensures Same(Plain(schema), v, w) <==> Agree(schema.fields, v, w)
  {
  }

  /** An address counts with its family, kind, profile and zone. */
  lemma AddressCounts(v: Json, w: Json)
    requires v.Obj? && w.Obj?
    ensures Same(Plain(IP_TARGET), v, w) <==>
            Agree({Name("kind"), Name("normalizationProfile"), Name("family"), Name("address"), Name("zone")}, v, w)
    ensures Same(Plain(CIDR_TARGET), v, w) <==>
            Agree({Name("kind"), Name("normalizationProfile"), Name("family"), Name("network"), Name("prefixLength"),
                   Name("hostBitsMasked")}, v, w)
    ensures Same(Plain(HOSTNAME_TARGET), v, w) <==>
            Agree({Name("kind"), Name("normalizationProfile"), Name("hostname")}, v, w)
    ensures Same(HOST_SHAPE, v, w) <==> Agree({Name("hostname"), Name("address"), Name("zone")}, v, w)
  {
    PlainAgree(IP_TARGET, v, w);
    PlainAgree(CIDR_TARGET, v, w);
    PlainAgree(HOSTNAME_TARGET, v, w);
    PlainAgree(UNION_HOST, v, w);
  }

  /** The three parts of a rule: its plain fields, what it applies to, and its port ranges. */
  ghost predicate RuleAgrees(plain: set<Text>, nested: Text, inner: Shape, v: Json, w: Json) {
    && Agree(plain, v, w) && AgreeAt(nested, inner, v, w)
    && AgreeAt(Name("portRanges"), Items(Plain(PORT_RANGE)), v, w)
  }

  lemma RefinedAgree(schema: Schema, nested: Text, inner: Shape, plain: set<Text>, v: Json, w: Json)
    requires schema.nullable == {} && v.Obj? && w.Obj? && nested != PORT_RANGES
    requires schema.fields == plain + {nested, PORT_RANGES} && nested !in plain && PORT_RANGES !in plain
    ensures Same(Refined(Refined(Plain(schema), nested, inner), PORT_RANGES, PORTS_SHAPE), v, w) <==>
            RuleAgrees(plain, nested, inner, v, w)
  {
    var shape := Refined(Refined(Plain(schema), nested, inner), PORT_RANGES, PORTS_SHAPE);
    assert shape.fields.Keys == plain + {nested, PORT_RANGES};
    assert forall k :: k in plain ==> shape.fields[k] == Whole;
  }

  /** A rule's kind decides what it applies to, and all of that counts. */
  lemma RuleCounts(kind: string, v: Json, w: Json)
    requires v.Obj? && w.Obj? && Name("kind") in v.members && Name("kind") in w.members
    requires v.members[Name("kind")] == w.members[Name("kind")] == Str(Name(kind))
    ensures kind == "ip" ==>
              (Same(Rule, v, w) <==>
               RuleAgrees({Name("id"), Name("kind")}, Name("target"), Plain(IP_TARGET), v, w))
    ensures kind == "cidr" ==>
              (Same(Rule, v, w) <==>
               RuleAgrees({Name("id"), Name("kind")}, Name("target"), Plain(CIDR_TARGET), v, w))
    ensures kind == "domain" ==>
              (Same(Rule, v, w) <==>
               RuleAgrees({Name("id"), Name("kind"), Name("includeSubdomains")}, Name("target"),
                          Plain(HOSTNAME_TARGET), v, w))
    ensures kind == "url-origin" ==>
              (Same(Rule, v, w) <==>
               RuleAgrees({Name("id"), Name("kind")}, Name("origin"), ORIGIN_SHAPE, v, w))
  {
    hide Same, RuleAgrees, Refined, Plain;
    RuleNames();
    PartNames();
    assert Same(Rule, v, w) <==> Same(RuleShape(v), v, w) by {
      RuleSame(v, w);
    }
    RefinedAgree(TARGET_RULE, TARGET, Plain(IP_TARGET), {Name("id"), KIND}, v, w);
    RefinedAgree(TARGET_RULE, TARGET, Plain(CIDR_TARGET), {Name("id"), KIND}, v, w);
    RefinedAgree(DOMAIN_RULE, TARGET, Plain(HOSTNAME_TARGET), {Name("id"), KIND, Name("includeSubdomains")}, v, w);
    RefinedAgree(ORIGIN_RULE, ORIGIN, ORIGIN_SHAPE, {Name("id"), KIND}, v, w);
  }

  lemma RuleSame(v: Json, w: Json)
    ensures Same(Rule, v, w) <==> Same(RuleShape(v), v, w)
  {
  }

  lemma PartNames()
    ensures TARGET !in {Name("id"), KIND, Name("includeSubdomains"), PORT_RANGES}
    ensures ORIGIN !in {Name("id"), KIND, PORT_RANGES}
    ensures PORT_RANGES !in {Name("id"), KIND, Name("includeSubdomains")}
  {
    assert |TARGET| == |ORIGIN| == 6 && |PORT_RANGES| == 10 && |KIND| == 4 && |Name("id")| == 2;
    assert |Name("includeSubdomains")| == 17;
  }

  /** Of a port range count both ends, of an origin its scheme, port and host. */
  lemma PartsCount(v: Json, w: Json)
    requires v.Obj? && w.Obj?
    ensures Same(Plain(PORT_RANGE), v, w) <==> Agree({Name("from"), Name("to")}, v, w)
    ensures Same(ORIGIN_SHAPE, v, w) <==>
            Agree({Name("scheme"), Name("effectivePort")}, v, w) && AgreeAt(Name("host"), HOST_SHAPE, v, w)
  {
    PlainAgree(PORT_RANGE, v, w);
    assert |Name("scheme")| == 6 && |Name("effectivePort")| == 13 && |HOST| == 4;
    assert ORIGIN_SHAPE.fields.Keys == {Name("scheme"), HOST, Name("effectivePort")};
    assert ORIGIN_SHAPE.fields[Name("scheme")] == Whole == ORIGIN_SHAPE.fields[Name("effectivePort")];
    assert ORIGIN_SHAPE.fields[HOST] == HOST_SHAPE;
  }
}
