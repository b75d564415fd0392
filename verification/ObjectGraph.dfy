/** JavaScript values as a graph of objects, shared or cyclic, and the JSON values they stand for. */
module ObjectGraph {
  import opened Unicode
  import opened JsonText

  /** A value: a primitive, an object of the graph, or something JSON has no form for. */
  datatype Ref =
    | NullRef
    | BoolRef(b: bool)
    | NumRef(n: SafeInteger)
    | NonFinite
    | StrRef(s: Text)
    | ObjectRef(id: nat)
    | OtherRef

  /** An own property: an enumerable data property, or one that is not. */
  datatype Slot = Data(value: Ref) | NotData

  datatype Node =
    | ArrayNode(length: nat, elements: map<nat, Slot>, otherKeys: nat) // own keys besides indices and length
    | ObjectNode(plain: bool, symbols: bool, keys: seq<Text>, slots: map<Text, Slot>)

  type Graph = map<nat, Node>

  predicate Resolves(g: Graph, r: Ref) {
    r.ObjectRef? ==> r.id in g
  }

  predicate SlotResolves(g: Graph, slot: Slot) {
    slot.Data? ==> Resolves(g, slot.value)
  }

  /** What the engine guarantees of its objects. */
  ghost predicate NodeOk(g: Graph, node: Node) {
    match node
    case ArrayNode(length, elements, _) => forall i :: i in elements ==> i < length && SlotResolves(g, elements[i])
    case ObjectNode(_, _, keys, slots) =>
      && Distinct(keys) && (forall k :: k in keys <==> k in slots)
      && forall k :: k in slots ==> SlotResolves(g, slots[k])
  }

  ghost predicate GraphOk(g: Graph) {
    forall id :: id in g ==> NodeOk(g, g[id])
  }

  /** `r` unfolds to the JSON value `v` with at most `depth` containers inside one another. */
  ghost predicate Denotes(g: Graph, r: Ref, v: Json, depth: nat)
    decreases depth, 0
  {
    match r
    case NullRef => v == Null
    case BoolRef(b) => v == Bool(b)
    case NumRef(n) => v == Num(n)
    case StrRef(s) => v == Str(s) && !Unpaired(s)
    case ObjectRef(id) => id in g && depth > 0 && NodeDenotes(g, g[id], v, depth - 1)
    case _ => false
  }

  ghost predicate NodeDenotes(g: Graph, node: Node, v: Json, depth: nat)
    decreases depth, 2
  {
    match node
    case ArrayNode(length, elements, otherKeys) =>
      && v.Arr? && |v.items| == length && otherKeys == 0
      && forall i :: 0 <= i < length ==> i in elements && SlotDenotes(g, elements[i], v.items[i], depth)
    case ObjectNode(plain, symbols, keys, slots) =>
      && v.Obj? && plain && !symbols && (forall k :: k in keys <==> k in v.members)
      && forall k :: k in v.members ==> !Unpaired(k) && k in slots && SlotDenotes(g, slots[k], v.members[k], depth)
  }

  ghost predicate SlotDenotes(g: Graph, slot: Slot, v: Json, depth: nat)
    decreases depth, 1
  {
    slot.Data? && Denotes(g, slot.value, v, depth)
  }

  // ---- A plain value, such as one parsed from JSON text, and when it can be written ----

  /** `r` is built like the JSON value `v`, which may be deep and may hold unpaired surrogates. */
  ghost predicate Builds(g: Graph, r: Ref, v: Json, depth: nat)
    decreases depth, 0
  {
    match r
    case NullRef => v == Null
    case BoolRef(b) => v == Bool(b)
    case NumRef(n) => v == Num(n)
    case StrRef(s) => v == Str(s)
    case ObjectRef(id) => id in g && depth > 0 && NodeBuilds(g, g[id], v, depth - 1)
    case _ => false
  }

  ghost predicate NodeBuilds(g: Graph, node: Node, v: Json, depth: nat)
    decreases depth, 2
  {
    match node
    case ArrayNode(length, elements, otherKeys) =>
      && v.Arr? && |v.items| == length && otherKeys == 0
      && forall i :: 0 <= i < length ==> i in elements && SlotBuilds(g, elements[i], v.items[i], depth)
    case ObjectNode(plain, symbols, keys, slots) =>
      && v.Obj? && plain && !symbols && (forall k :: k in keys <==> k in v.members)
      && forall k :: k in v.members ==> k in slots && SlotBuilds(g, slots[k], v.members[k], depth)
  }

  ghost predicate SlotBuilds(g: Graph, slot: Slot, v: Json, depth: nat)
    decreases depth, 1
  {
    slot.Data? && Builds(g, slot.value, v, depth)
  }

  /** At most `depth` containers inside one another. */
  predicate Within(v: Json, depth: nat)
    decreases v
  {
    match v
    case Arr(items) => depth > 0 && forall i :: 0 <= i < |items| ==> Within(items[i], depth - 1)
    case Obj(members) => depth > 0 && forall k :: k in members ==> Within(members[k], depth - 1)
    case _ => true
  }

  /** No string and no key holds an unpaired surrogate. */
  predicate Paired(v: Json) {
    match v
    case Str(s) => !Unpaired(s)
    case Arr(items) => forall i :: 0 <= i < |items| ==> Paired(items[i])
    case Obj(members) => forall k :: k in members ==> !Unpaired(k) && Paired(members[k])
    case _ => true
  }

  /** A plain value unfolds exactly when it is not too deep and all its text is paired. */
  lemma {:induction false} BuiltDenotes(g: Graph, r: Ref, v: Json, m: nat, n: nat)
    requires Builds(g, r, v, m)
    ensures Denotes(g, r, v, n) <==> Within(v, n) && Paired(v)
    decreases v
  {
    if r.ObjectRef? && n > 0 {
      match g[r.id]
      case ArrayNode(length, elements, _) =>
        forall i | 0 <= i < length
          ensures SlotDenotes(g, elements[i], v.items[i], n - 1) <==> Within(v.items[i], n - 1) && Paired(v.items[i])
        {
          assert SlotBuilds(g, elements[i], v.items[i], m - 1);
          BuiltDenotes(g, elements[i].value, v.items[i], m - 1, n - 1);
        }
      case ObjectNode(_, _, _, slots) =>
        forall k | k in v.members
          ensures SlotDenotes(g, slots[k], v.members[k], n - 1) <==> Within(v.members[k], n - 1) && Paired(v.members[k])
        {
          assert SlotBuilds(g, slots[k], v.members[k], m - 1);
          BuiltDenotes(g, slots[k].value, v.members[k], m - 1, n - 1);
        }
    }
  }

  /** What a plain value unfolds to is that value. */
  lemma {:induction false} BuiltOnly(g: Graph, r: Ref, v: Json, m: nat, w: Json, n: nat)
    requires Builds(g, r, v, m) && Denotes(g, r, w, n)
    ensures v == w
    decreases n
  {
    if r.ObjectRef? {
      match g[r.id]
      case ArrayNode(length, elements, _) =>
        forall i | 0 <= i < length
          ensures v.items[i] == w.items[i]
        {
          assert SlotBuilds(g, elements[i], v.items[i], m - 1) && SlotDenotes(g, elements[i], w.items[i], n - 1);
          BuiltOnly(g, elements[i].value, v.items[i], m - 1, w.items[i], n - 1);
        }
      case ObjectNode(_, _, keys, slots) =>
        forall k | k in v.members
          ensures k in w.members && v.members[k] == w.members[k]
        {
          assert k in keys && k in w.members;
          assert SlotBuilds(g, slots[k], v.members[k], m - 1) && SlotDenotes(g, slots[k], w.members[k], n - 1);
          BuiltOnly(g, slots[k].value, v.members[k], m - 1, w.members[k], n - 1);
        }
        assert v.members == w.members;
    }
  }

  /** A further object leaves what the others stand for. */
  lemma {:induction false} BuildsStay(g: Graph, id: nat, node: Node, r: Ref, v: Json, n: nat)
    requires id !in g && Builds(g, r, v, n)
    ensures Builds(g[id := node], r, v, n)
    decreases n
  {
    if r.ObjectRef? {
      match g[r.id]
      case ArrayNode(length, elements, _) =>
        forall i | 0 <= i < length
          ensures SlotBuilds(g[id := node], elements[i], v.items[i], n - 1)
        {
          assert SlotBuilds(g, elements[i], v.items[i], n - 1);
          BuildsStay(g, id, node, elements[i].value, v.items[i], n - 1);
        }
      case ObjectNode(_, _, _, slots) =>
        forall k | k in v.members
          ensures SlotBuilds(g[id := node], slots[k], v.members[k], n - 1)
        {
          assert SlotBuilds(g, slots[k], v.members[k], n - 1);
          BuildsStay(g, id, node, slots[k].value, v.members[k], n - 1);
        }
    }
  }

  // ---- A reference stands for one value at most, and none when it is on a cycle ----

  lemma {:induction false} DenotesOne(g: Graph, r: Ref, v: Json, n: nat, w: Json, m: nat)
    requires Denotes(g, r, v, n) && Denotes(g, r, w, m)
    ensures v == w
    decreases n
  {
    if r.ObjectRef? {
      match g[r.id]
      case ArrayNode(length, elements, _) =>
        forall i | 0 <= i < length
          ensures v.items[i] == w.items[i]
        {
          assert SlotDenotes(g, elements[i], v.items[i], n - 1) && SlotDenotes(g, elements[i], w.items[i], m - 1);
          DenotesOne(g, elements[i].value, v.items[i], n - 1, w.items[i], m - 1);
        }
      case ObjectNode(_, _, keys, slots) =>
        forall k | k in v.members
          ensures k in w.members && v.members[k] == w.members[k]
        {
          assert k in keys && k in w.members;
          assert SlotDenotes(g, slots[k], v.members[k], n - 1) && SlotDenotes(g, slots[k], w.members[k], m - 1);
          DenotesOne(g, slots[k].value, v.members[k], n - 1, w.members[k], m - 1);
        }
        assert v.members == w.members;
    }
  }

  ghost predicate Edge(g: Graph, id: nat, r: Ref) {
    id in g &&
      match g[id]
      case ArrayNode(_, elements, _) => exists i :: i in elements && elements[i] == Data(r)
      case ObjectNode(_, _, _, slots) => exists k :: k in slots && slots[k] == Data(r)
  }

  /** `stack` is a chain of objects each holding the next, the last one holding `r`. */
  ghost predicate IsPath(g: Graph, stack: seq<nat>, r: Ref) {
    && (forall i :: 0 < i < |stack| ==> Edge(g, stack[i - 1], ObjectRef(stack[i])))
    && (stack != [] ==> Edge(g, stack[|stack| - 1], r))
  }

  lemma EdgeDenotes(g: Graph, id: nat, r: Ref, v: Json, n: nat) returns (w: Json)
    requires GraphOk(g) && Edge(g, id, r) && Denotes(g, ObjectRef(id), v, n)
    ensures n > 0 && Denotes(g, r, w, n - 1) && (ShortArrays(v) ==> ShortArrays(w))
  {
    hide Distinct;
    hide Unpaired;
    assert NodeOk(g, g[id]);
    match g[id]
    case ArrayNode(_, elements, _) =>
      var i :| i in elements && elements[i] == Data(r);
      assert SlotDenotes(g, elements[i], v.items[i], n - 1);
      w := v.items[i];
    case ObjectNode(_, _, keys, slots) =>
      var k :| k in slots && slots[k] == Data(r);
      assert k in keys && k in v.members;
      assert SlotDenotes(g, slots[k], v.members[k], n - 1);
      w := v.members[k];
  }

  lemma {:induction false} PathDenotes(g: Graph, stack: seq<nat>, r: Ref, v: Json, n: nat) returns (w: Json, m: nat)
    requires GraphOk(g) && stack != [] && IsPath(g, stack, r) && Denotes(g, ObjectRef(stack[0]), v, n)
    ensures n == m + |stack| && Denotes(g, r, w, m) && (ShortArrays(v) ==> ShortArrays(w))
    decreases |stack|
  {
    if |stack| == 1 {
      w := EdgeDenotes(g, stack[0], r, v, n);
      m := n - 1;
    } else {
      var u := EdgeDenotes(g, stack[0], ObjectRef(stack[1]), v, n);
      w, m := PathDenotes(g, stack[1..], r, u, n - 1);
    }
  }

  /** An object that can be reached from itself stands for nothing, at any depth. */
  lemma {:induction false} CycleDenotesNothing(g: Graph, stack: seq<nat>, v: Json, n: nat)
    requires GraphOk(g) && stack != [] && IsPath(g, stack, ObjectRef(stack[0]))
    ensures !Denotes(g, ObjectRef(stack[0]), v, n)
    decreases n
  {
    if Denotes(g, ObjectRef(stack[0]), v, n) {
      var w, m := PathDenotes(g, stack, ObjectRef(stack[0]), v, n);
      CycleDenotesNothing(g, stack, w, m);
    }
  }

  lemma SuffixIsPath(g: Graph, stack: seq<nat>, i: nat, r: Ref)
    requires i < |stack| && IsPath(g, stack, r)
    ensures IsPath(g, stack[i..], r)
  {
  }

  // ---- Arrays whose indices are all there ----

  lemma {:induction false} IndicesCount(elements: map<nat, Slot>, n: nat)
    requires forall i: nat :: i in elements <==> i < n
    ensures |elements| == n
    decreases n
  {
    if n == 0 {
      assert elements.Keys == {};
    } else {
      var rest := elements - {n - 1};
      IndicesCount(rest, n - 1);
      assert elements.Keys == rest.Keys + {n - 1};
    }
  }

  // ---- Long arrays ----

  const MAX_BYTES := 1048576
  const MAX_ITEMS := 524287

  /** No array in `v` has more items than the length check lets through. */
  predicate ShortArrays(v: Json) {
    match v
    case Arr(items) => |items| <= MAX_ITEMS && forall i :: 0 <= i < |items| ==> ShortArrays(items[i])
    case Obj(members) => forall k :: k in members ==> ShortArrays(members[k])
    case _ => true
  }

  /** The length of joined texts: all of them and the commas. */
  lemma {:induction false} JoinLength(texts: seq<Text>, i: nat)
    requires i < |texts| && forall k :: 0 <= k < |texts| ==> texts[k] != []
    ensures |Join(texts)| >= 2 * |texts| - 2 + |texts[i]|
  {
    if |texts| > 1 {
      if i > 0 {
        JoinLength(texts[1..], i - 1);
      } else {
        JoinLength(texts[1..], 0);
        assert texts[1..][0] == texts[1];
      }
    }
  }

  lemma {:induction false} DigitsNotEmpty(v: Json)
    ensures |Canonical(v)| >= 1
  {
  }

  /** The length check rejects only values whose text would be too long anyway. */
  lemma {:induction false} LongArraysAreLong(v: Json)
    requires !ShortArrays(v)
    ensures |Canonical(v)| > MAX_BYTES
    decreases v
  {
    hide Join, Canonical, Ascending;
    match v
    case Arr(items) =>
      CanonicalArray(items);
      var texts := ItemTexts(items);
      forall k | 0 <= k < |texts|
        ensures texts[k] != []
      {
        DigitsNotEmpty(items[k]);
      }
      if |items| > MAX_ITEMS {
        JoinLength(texts, 0);
      } else {
        var i :| 0 <= i < |items| && !ShortArrays(items[i]);
        LongArraysAreLong(items[i]);
        assert texts[i] == Canonical(items[i]);
        JoinLength(texts, i);
      }
    case Obj(members) =>
      var keys := KeysOf(members.Keys);
      var k :| k in members && !ShortArrays(members[k]);
      LongArraysAreLong(members[k]);
      CanonicalObject(members);
      var texts := MemberTexts(keys, members);
      assert k in keys;
      var i :| 0 <= i < |keys| && keys[i] == k;
      assert texts[i] == Member(k, Canonical(members[k]));
      assert forall j :: 0 <= j < |texts| ==> texts[j][0] == QUOTE;
      JoinLength(texts, i);
  }
}
