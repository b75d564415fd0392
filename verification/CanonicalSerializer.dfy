/** The canonical serializer: recursion over an object graph with a set of the objects being written. */
module CanonicalSerializer {
  import opened Unicode
  import opened JsonText
  import opened ObjectGraph
  import opened Wrappers

  const MAX_DEPTH := 32

  datatype FailureCode = DepthExceeded | SizeExceeded | ValueUnsupported
  datatype CanonicalResult = Ok(canonicalJson: Text) | Err(code: FailureCode)

  /** `text` is the canonical text of what `r` stands for within the given depth, with no overlong array. */
  ghost predicate Prints(g: Graph, r: Ref, depth: nat, text: Text) {
    exists v :: PrintsAs(g, r, depth, v, text)
  }

  ghost predicate PrintsAs(g: Graph, r: Ref, depth: nat, v: Json, text: Text) {
    Denotes(g, r, v, depth) && ShortArrays(v) && text == Canonical(v)
  }

  /** `r` stands for nothing within the given depth, or only for something with an overlong array. */
  ghost predicate Unprintable(g: Graph, r: Ref, depth: nat) {
    forall v :: Denotes(g, r, v, depth) ==> !ShortArrays(v)
  }

  ghost predicate NodePrints(g: Graph, node: Node, depth: nat, text: Text) {
    exists v :: NodePrintsAs(g, node, depth, v, text)
  }

  ghost predicate NodePrintsAs(g: Graph, node: Node, depth: nat, v: Json, text: Text) {
    NodeDenotes(g, node, v, depth) && ShortArrays(v) && text == Canonical(v)
  }

  ghost predicate NodeUnprintable(g: Graph, node: Node, depth: nat) {
    forall v :: NodeDenotes(g, node, v, depth) ==> !ShortArrays(v)
  }

  /** An object with room for `depth` containers inside it. */
  lemma NodeIsObject(g: Graph, id: nat, depth: nat, text: Option<Text>)
    requires id in g
    requires text.Some? ==> NodePrints(g, g[id], depth, text.value)
    requires text.None? ==> NodeUnprintable(g, g[id], depth)
    ensures text.Some? ==> Prints(g, ObjectRef(id), depth + 1, text.value)
    ensures text.None? ==> Unprintable(g, ObjectRef(id), depth + 1)
  {
    if text.Some? {
      var v :| NodePrintsAs(g, g[id], depth, v, text.value);
      assert PrintsAs(g, ObjectRef(id), depth + 1, v, text.value);
    } else {
      forall v | Denotes(g, ObjectRef(id), v, depth + 1)
        ensures !ShortArrays(v)
      {
        assert NodeDenotes(g, g[id], v, depth);
      }
    }
  }

  // ---- Why serializing fails ----

  /** `path` leads from the root value down to `t`, container by container. */
  ghost predicate Leads(g: Graph, root: Ref, path: seq<nat>, t: Ref) {
    && IsPath(g, path, t)
    && (if path == [] then t == root else root == ObjectRef(path[0]))
  }

  /** An object that is no plain container of data. */
  predicate BadNode(node: Node) {
    match node
    case ArrayNode(length, elements, otherKeys) =>
      |elements| + otherKeys != length || exists i :: 0 <= i < length && (i !in elements || elements[i].NotData?)
    case ObjectNode(plain, symbols, keys, slots) =>
      !plain || symbols || (exists k :: k in slots && slots[k].NotData?) || exists k :: k in keys && Unpaired(k)
  }

  /** What is wrong with a value reached by `path`. */
  predicate Fault(g: Graph, path: seq<nat>, t: Ref, code: FailureCode) {
    match code
    case ValueUnsupported =>
      t.NonFinite? || t.OtherRef? || (t.StrRef? && Unpaired(t.s))
      || (t.ObjectRef? && (t.id in path || (t.id in g && BadNode(g[t.id]))))
    case DepthExceeded => t.ObjectRef? && t.id !in path && |path| == 32
    case SizeExceeded => t.ObjectRef? && t.id in g && g[t.id].ArrayNode? && g[t.id].length > MAX_ITEMS
  }

  /** Some value below the root has the fault the code names. */
  ghost predicate Explained(g: Graph, root: Ref, code: FailureCode) {
    exists path, t :: Leads(g, root, path, t) && Fault(g, path, t, code)
  }

  /** The keys in ascending code-unit order. */
  method SortKeys(keys: seq<Text>) returns (sorted: seq<Text>)
    ensures sorted == Sorted(keys)
    ensures Distinct(keys) ==> Ascending(sorted) && forall k :: k in sorted <==> k in keys
  {
    sorted := [];
    var i := |keys|;
    while i > 0
      invariant 0 <= i <= |keys| && sorted == Sorted(keys[i..])
    {
      i := i - 1;
      assert keys[i..][1..] == keys[i + 1..];
      sorted := InsertKey(keys[i], sorted);
    }
    assert keys[0..] == keys;
    if Distinct(keys) {
      SortedAscends(keys);
    }
  }

  method InsertKey(key: Text, keys: seq<Text>) returns (r: seq<Text>)
    ensures r == Insert(key, keys)
  {
    hide Less;
    var i := 0;
    assert keys[0..] == keys && keys[..0] == [];
    while i < |keys| && !Less(key, keys[i])
      invariant i <= |keys|
      invariant Insert(key, keys) == keys[..i] + Insert(key, keys[i..])
    {
      assert keys[i..][1..] == keys[i + 1..];
      assert keys[..i] + ([keys[i]] + Insert(key, keys[i + 1..])) == keys[..i + 1] + Insert(key, keys[i + 1..]);
      i := i + 1;
    }
    r := keys[..i] + [key] + keys[i..];
    assert keys[..i] + ([key] + keys[i..]) == r;
  }

  /** A slot that stands for nothing makes its array stand for nothing. */
  lemma ElementFails(g: Graph, node: Node, index: nat, depth: nat)
    requires node.ArrayNode? && index < node.length
    requires index !in node.elements || node.elements[index].NotData? ||
             Unprintable(g, node.elements[index].value, depth)
    ensures NodeUnprintable(g, node, depth)
  {
  }

  lemma MemberFails(g: Graph, node: Node, key: Text, depth: nat)
    requires node.ObjectNode? && key in node.keys && key in node.slots
    requires Unpaired(key) || node.slots[key].NotData? || Unprintable(g, node.slots[key].value, depth)
    ensures NodeUnprintable(g, node, depth)
  {
  }

  /** An array whose own keys are not exactly its indices and length stands for nothing. */
  lemma MissingElements(g: Graph, node: Node, v: Json, depth: nat)
    requires node.ArrayNode? && NodeOk(g, node) && NodeDenotes(g, node, v, depth)
    ensures |node.elements| + node.otherKeys == node.length
  {
    forall i: nat
      ensures i in node.elements <==> i < node.length
    {
      if i < node.length {
        assert SlotDenotes(g, node.elements[i], v.items[i], depth);
      }
    }
    IndicesCount(node.elements, node.length);
  }

  lemma OtherKeysFail(g: Graph, node: Node, depth: nat)
    requires node.ArrayNode? && NodeOk(g, node)
    ensures |node.elements| + node.otherKeys != node.length ==> NodeUnprintable(g, node, depth)
  {
    forall v | NodeDenotes(g, node, v, depth)
      ensures |node.elements| + node.otherKeys == node.length
    {
      MissingElements(g, node, v, depth);
    }
  }

  lemma AllElements(g: Graph, node: Node)
    requires node.ArrayNode? && NodeOk(g, node) && |node.elements| + node.otherKeys == node.length
    requires forall i :: 0 <= i < node.length ==> i in node.elements
    ensures node.otherKeys == 0
  {
    assert forall i: nat :: i in node.elements <==> i < node.length;
    IndicesCount(node.elements, node.length);
  }

  /** What the elements of an array stand for, one by one. */
  ghost predicate ElementsDenote(g: Graph, node: Node, items: seq<Json>, texts: seq<Text>, depth: nat)
    requires node.ArrayNode? && |items| <= node.length
  {
    && |texts| == |items|
    && forall i :: 0 <= i < |items| ==>
         i in node.elements && node.elements[i].Data? && PrintsAs(g, node.elements[i].value, depth, items[i], texts[i])
  }

  lemma ArrayPrints(g: Graph, node: Node, items: seq<Json>, texts: seq<Text>, depth: nat)
    requires node.ArrayNode? && NodeOk(g, node) && |node.elements| + node.otherKeys == node.length <= MAX_ITEMS
    requires |items| == node.length && ElementsDenote(g, node, items, texts, depth)
    ensures NodeDenotes(g, node, Arr(items), depth) && ShortArrays(Arr(items))
    ensures [LBRACKET] + Join(texts) + [RBRACKET] == Canonical(Arr(items))
  {
    AllElements(g, node);
    CanonicalArray(items);
    assert texts == ItemTexts(items);
    forall i | 0 <= i < node.length
      ensures SlotDenotes(g, node.elements[i], items[i], depth)
    {
      assert PrintsAs(g, node.elements[i].value, depth, items[i], texts[i]);
    }
  }

  /** What the members under the first keys stand for. */
  ghost predicate MembersDenote(g: Graph, node: Node, keys: seq<Text>, values: seq<Json>, texts: seq<Text>, depth: nat)
    requires node.ObjectNode? && |values| <= |keys|
  {
    && |texts| == |values|
    && forall i :: 0 <= i < |values| ==> MemberDenotes(g, node, keys[i], values[i], texts[i], depth)
  }

  lemma MembersGrow(g: Graph, node: Node, keys: seq<Text>, values: seq<Json>, texts: seq<Text>, v: Json, text: Text,
          depth: nat)
    requires node.ObjectNode? && |values| < |keys| && MembersDenote(g, node, keys, values, texts, depth)
    requires MemberDenotes(g, node, keys[|values|], v, text, depth)
    ensures MembersDenote(g, node, keys, values + [v], texts + [text], depth)
  {
  }

  ghost predicate MemberDenotes(g: Graph, node: Node, key: Text, v: Json, text: Text, depth: nat)
    requires node.ObjectNode?
  {
    && key in node.slots && node.slots[key].Data? && !Unpaired(key)
    && Denotes(g, node.slots[key].value, v, depth) && ShortArrays(v) && text == Member(key, Canonical(v))
  }

  ghost function Members(keys: seq<Text>, values: seq<Json>): (m: map<Text, Json>)
    requires |keys| == |values|
    ensures forall k :: k in m <==> k in keys
  {
    map k | k in keys :: values[IndexOf(keys, k)]
  }

  ghost function IndexOf(keys: seq<Text>, key: Text): (i: nat)
    requires key in keys
    ensures i < |keys| && keys[i] == key
  {
    var i :| 0 <= i < |keys| && keys[i] == key;
    i
  }

  lemma MembersAt(keys: seq<Text>, values: seq<Json>, i: nat)
    requires Ascending(keys) && |keys| == |values| && i < |keys|
    ensures keys[i] in Members(keys, values) && Members(keys, values)[keys[i]] == values[i]
  {
    AscendingDistinct(keys);
  }

  lemma MembersText(g: Graph, node: Node, keys: seq<Text>, values: seq<Json>, texts: seq<Text>, depth: nat)
    requires Ascending(keys) && node.ObjectNode?
    requires |values| == |keys| && MembersDenote(g, node, keys, values, texts, depth)
    ensures [LBRACE] + Join(texts) + [RBRACE] == Canonical(Obj(Members(keys, values)))
  {
    var members := Members(keys, values);
    AscendingUnique(keys, KeysOf(members.Keys));
    CanonicalObject(members);
    forall i | 0 <= i < |keys|
      ensures texts[i] == MemberTexts(keys, members)[i]
    {
      MembersAt(keys, values, i);
      assert MemberDenotes(g, node, keys[i], values[i], texts[i], depth);
    }
    assert texts == MemberTexts(keys, members);
  }

  lemma ObjectPrints(g: Graph, node: Node, values: seq<Json>, texts: seq<Text>, depth: nat)
    requires node.ObjectNode? && NodeOk(g, node) && node.plain && !node.symbols
    requires |values| == |Sorted(node.keys)| && MembersDenote(g, node, Sorted(node.keys), values, texts, depth)
    ensures NodePrintsAs(g, node, depth, Obj(Members(Sorted(node.keys), values)), [LBRACE] + Join(texts) + [RBRACE])
  {
    hide Sorted, IndexOf, Canonical;
    var keys := Sorted(node.keys);
    var members := Members(keys, values);
    SortedAscends(node.keys);
    MembersText(g, node, keys, values, texts, depth);
    forall k | k in members
      ensures !Unpaired(k) && k in node.slots && SlotDenotes(g, node.slots[k], members[k], depth)
      ensures ShortArrays(members[k])
    {
      var i := IndexOf(keys, k);
      MembersAt(keys, values, i);
      assert MemberDenotes(g, node, keys[i], values[i], texts[i], depth);
    }
    assert forall k :: k in node.keys <==> k in members;
  }

  class Serializer {
    var active: set<nat>
    var failure: Option<FailureCode>

    constructor ()
      ensures active == {} && failure == None
    {
      active, failure := {}, None;
    }

    /** The objects being written are those on the way down to `value`. */
    ghost predicate On(g: Graph, root: Ref, stack: seq<nat>, value: Ref)
      reads this
    {
      && Leads(g, root, stack, value) && GraphOk(g) && Resolves(g, value) && |stack| <= MAX_DEPTH
      && failure == None && (forall id :: id in active <==> id in stack)
    }

    method Serialize(g: Graph, value: Ref, depth: nat, ghost root: Ref, ghost stack: seq<nat>)
        returns (text: Option<Text>)
      requires depth == |stack| && On(g, root, stack, value)
      modifies this
      ensures active == old(active) && (text.Some? <==> failure == None)
      ensures text.Some? ==> Prints(g, value, MAX_DEPTH - depth, text.value)
      ensures text.None? ==> Unprintable(g, value, MAX_DEPTH - depth) && Explained(g, root, failure.value)
      decreases MAX_DEPTH - depth, 1
    {
      text := None;
      match value {
        case NullRef => text := Some(NULL); assert PrintsAs(g, value, MAX_DEPTH - depth, Null, NULL);
        case BoolRef(b) =>
          text := Some(if b then TRUE else FALSE);
          assert PrintsAs(g, value, MAX_DEPTH - depth, Bool(b), text.value);
        case NumRef(n) =>
          text := Some(Decimal(n));
          assert PrintsAs(g, value, MAX_DEPTH - depth, Num(n), text.value);
        case StrRef(s) =>
          var unpaired := HasUnpairedSurrogate(s);
          if unpaired {
            failure := Some(ValueUnsupported);
            assert Fault(g, stack, value, ValueUnsupported);
          } else {
            text := Some(Quoted(s));
            assert PrintsAs(g, value, MAX_DEPTH - depth, Str(s), text.value);
          }
        case ObjectRef(id) =>
          if depth >= MAX_DEPTH || id in active {
            failure := Some(if id in active then ValueUnsupported else DepthExceeded);
            OnCycleOrTooDeep(g, stack, id, depth);
            assert Fault(g, stack, value, failure.value);
          } else {
            active := active + {id};
            assert (stack + [id])[..depth] == stack;
            text := SerializeNode(g, id, depth, root, stack + [id]);
            NodeIsObject(g, id, MAX_DEPTH - depth - 1, text);
            active := active - {id};
          }
        case _ =>
          failure := Some(ValueUnsupported);
          assert Fault(g, stack, value, ValueUnsupported);
      }
    }

    lemma OnCycleOrTooDeep(g: Graph, stack: seq<nat>, id: nat, depth: nat)
      requires GraphOk(g) && IsPath(g, stack, ObjectRef(id)) && depth <= MAX_DEPTH
      requires id in stack || depth == MAX_DEPTH
      ensures Unprintable(g, ObjectRef(id), MAX_DEPTH - depth)
    {
      if id in stack {
        var i :| 0 <= i < |stack| && stack[i] == id;
        SuffixIsPath(g, stack, i, ObjectRef(id));
        var left := MAX_DEPTH - depth;
        forall v
          ensures !Denotes(g, ObjectRef(id), v, left)
        {
          CycleDenotesNothing(g, stack[i..], v, left);
        }
      }
    }

    /** The object `id` is the last of those being written. */
    ghost predicate Inside(g: Graph, root: Ref, stack: seq<nat>, id: nat)
      reads this
    {
      && GraphOk(g) && id in g && 0 < |stack| <= MAX_DEPTH && stack[|stack| - 1] == id
      && failure == None && (forall i :: i in active <==> i in stack)
      && Leads(g, root, stack[..|stack| - 1], ObjectRef(id))
    }

    /** The value in a slot of the last object comes after it on the way down. */
    lemma Below(g: Graph, root: Ref, stack: seq<nat>, id: nat, value: Ref)
      requires Inside(g, root, stack, id) && Edge(g, id, value) && Resolves(g, value)
      ensures On(g, root, stack, value)
    {
    }

    method SerializeNode(g: Graph, id: nat, depth: nat, ghost root: Ref, ghost stack: seq<nat>)
        returns (text: Option<Text>)
      requires |stack| == depth + 1 && Inside(g, root, stack, id)
      modifies this
      ensures active == old(active) && (text.Some? <==> failure == None)
      ensures text.Some? ==> NodePrints(g, g[id], MAX_DEPTH - depth - 1, text.value)
      ensures text.None? ==> NodeUnprintable(g, g[id], MAX_DEPTH - depth - 1) && Explained(g, root, failure.value)
      decreases MAX_DEPTH - depth, 0, 2
    {
      text := None;
      assert NodeOk(g, g[id]);
      match g[id] {
        case ArrayNode(length, elements, otherKeys) =>
          if |elements| + otherKeys + 1 != length + 1 {
            failure := Some(ValueUnsupported);
            OtherKeysFail(g, g[id], MAX_DEPTH - depth - 1);
            assert Fault(g, stack[..depth], ObjectRef(id), ValueUnsupported);
          } else if length > (MAX_BYTES - 1) / 2 {
            failure := Some(SizeExceeded);
            assert Fault(g, stack[..depth], ObjectRef(id), SizeExceeded);
          } else {
            text := SerializeElements(g, id, depth, root, stack);
          }
        case ObjectNode(plain, symbols, keys, slots) =>
          if !plain || symbols || exists k :: k in slots && slots[k].NotData? {
            failure := Some(ValueUnsupported);
            BadSlots(g, g[id], MAX_DEPTH - depth - 1);
            assert Fault(g, stack[..depth], ObjectRef(id), ValueUnsupported);
          } else {
            text := SerializeMembers(g, id, depth, root, stack);
          }
      }
    }

    method SerializeElements(g: Graph, id: nat, depth: nat, ghost root: Ref, ghost stack: seq<nat>)
        returns (text: Option<Text>)
      requires |stack| == depth + 1 && Inside(g, root, stack, id)
      requires g[id].ArrayNode? && |g[id].elements| + g[id].otherKeys == g[id].length <= MAX_ITEMS
      modifies this
      ensures active == old(active) && (text.Some? <==> failure == None)
      ensures text.Some? ==> NodePrints(g, g[id], MAX_DEPTH - depth - 1, text.value)
      ensures text.None? ==> NodeUnprintable(g, g[id], MAX_DEPTH - depth - 1) && Explained(g, root, failure.value)
      decreases MAX_DEPTH - depth, 0, 0
    {
      hide PrintsAs, Leads;
      var node := g[id];
      ghost var left := MAX_DEPTH - depth - 1;
      var entries: seq<Text> := [];
      ghost var items: seq<Json> := [];
      var index := 0;
      assert NodeOk(g, node);
      while index < node.length
        invariant index == |items| <= node.length
        invariant Inside(g, root, stack, id) && active == old(active)
        invariant ElementsDenote(g, node, items, entries, left)
      {
        if index !in node.elements || node.elements[index].NotData? {
          failure := Some(ValueUnsupported);
          ElementFails(g, node, index, left);
          assert Fault(g, stack[..depth], ObjectRef(id), ValueUnsupported);
          return None;
        }
        var value := node.elements[index].value;
        assert Edge(g, id, value);
        Below(g, root, stack, id, value);
        var entry := Serialize(g, value, depth + 1, root, stack);
        if entry == None {
          ElementFails(g, node, index, left);
          return None;
        }
        ghost var v :| PrintsAs(g, value, left, v, entry.value);
        entries := entries + [entry.value];
        items := items + [v];
        index := index + 1;
      }
      ArrayPrints(g, node, items, entries, left);
      text := Some([LBRACKET] + Join(entries) + [RBRACKET]);
      assert NodePrintsAs(g, node, left, Arr(items), text.value);
    }

    /** One member of the last object: its key and the text of its value. */
    method SerializeMember(g: Graph, id: nat, key: Text, depth: nat, ghost root: Ref, ghost stack: seq<nat>)
        returns (entry: Option<Text>, ghost v: Json)
      requires |stack| == depth + 1 && Inside(g, root, stack, id)
      requires g[id].ObjectNode? && key in g[id].keys && key in g[id].slots && g[id].slots[key].Data?
      modifies this
      ensures active == old(active) && (entry.Some? <==> failure == None)
      ensures entry.Some? ==> MemberDenotes(g, g[id], key, v, entry.value, MAX_DEPTH - depth - 1)
      ensures entry.None? ==> NodeUnprintable(g, g[id], MAX_DEPTH - depth - 1) && Explained(g, root, failure.value)
      decreases MAX_DEPTH - depth, 0, 0
    {
      ghost var left := MAX_DEPTH - depth - 1;
      v := Null;
      var unpaired := HasUnpairedSurrogate(key);
      if unpaired {
        failure := Some(ValueUnsupported);
        MemberFails(g, g[id], key, left);
        assert Fault(g, stack[..depth], ObjectRef(id), ValueUnsupported);
        return None, v;
      }
      var value := g[id].slots[key].value;
      assert NodeOk(g, g[id]) && Edge(g, id, value);
      Below(g, root, stack, id, value);
      entry := Serialize(g, value, depth + 1, root, stack);
      if entry == None {
        MemberFails(g, g[id], key, left);
      } else {
        v :| PrintsAs(g, value, left, v, entry.value);
        entry := Some(Member(key, entry.value));
      }
    }

    method SerializeMembers(g: Graph, id: nat, depth: nat, ghost root: Ref, ghost stack: seq<nat>)
        returns (text: Option<Text>)
      requires |stack| == depth + 1 && Inside(g, root, stack, id)
      requires g[id].ObjectNode? && g[id].plain && !g[id].symbols
      requires forall k :: k in g[id].slots ==> g[id].slots[k].Data?
      modifies this
      ensures active == old(active) && (text.Some? <==> failure == None)
      ensures text.Some? ==> NodePrints(g, g[id], MAX_DEPTH - depth - 1, text.value)
      ensures text.None? ==> NodeUnprintable(g, g[id], MAX_DEPTH - depth - 1) && Explained(g, root, failure.value)
      decreases MAX_DEPTH - depth, 0, 1
    {
      var node := g[id];
      ghost var left := MAX_DEPTH - depth - 1;
      var entries: seq<Text> := [];
      ghost var values: seq<Json> := [];
      assert NodeOk(g, node);
      var keys := SortKeys(node.keys);
      SortedAscends(node.keys);
      var i := 0;
      while i < |keys|
        invariant i == |values| <= |keys|
        invariant Inside(g, root, stack, id) && active == old(active)
        invariant MembersDenote(g, node, keys, values, entries, left)
      {
        assert keys[i] in keys;
        var entry, v := SerializeMember(g, id, keys[i], depth, root, stack);
        if entry == None {
          return None;
        }
        MembersGrow(g, node, keys, values, entries, v, entry.value, left);
        entries := entries + [entry.value];
        values := values + [v];
        i := i + 1;
      }
      ObjectPrints(g, node, values, entries, left);
      text := Some([LBRACE] + Join(entries) + [RBRACE]);
    }
  }

  lemma BadSlots(g: Graph, node: Node, depth: nat)
    requires node.ObjectNode? && NodeOk(g, node)
    requires !node.plain || node.symbols || exists k :: k in node.slots && node.slots[k].NotData?
    ensures NodeUnprintable(g, node, depth)
  {
  }

  /** A value with a fault stands for nothing within the depth left to it, or holds an array that is too long. */
  lemma FaultDenotes(g: Graph, path: seq<nat>, t: Ref, code: FailureCode, v: Json, depth: nat)
    requires GraphOk(g) && IsPath(g, path, t) && Fault(g, path, t, code) && depth + |path| == 32
    requires Denotes(g, t, v, depth)
    ensures !ShortArrays(v)
  {
    match code
    case ValueUnsupported =>
      if t.ObjectRef? && t.id in path {
        var i :| 0 <= i < |path| && path[i] == t.id;
        SuffixIsPath(g, path, i, t);
        CycleDenotesNothing(g, path[i..], v, depth);
      } else if t.ObjectRef? {
        GoodNode(g, g[t.id], v, depth - 1);
      }
    case DepthExceeded =>
    case SizeExceeded =>
      assert v.Arr? && |v.items| == g[t.id].length;
  }

  lemma GoodNode(g: Graph, node: Node, v: Json, depth: nat)
    requires NodeOk(g, node) && NodeDenotes(g, node, v, depth)
    ensures !BadNode(node)
  {
    match node
    case ArrayNode(length, elements, _) =>
      MissingElements(g, node, v, depth);
      assert forall i :: 0 <= i < length ==> SlotDenotes(g, elements[i], v.items[i], depth);
    case ObjectNode(_, _, keys, slots) =>
      assert forall k :: k in slots ==> k in keys && SlotDenotes(g, slots[k], v.members[k], depth);
  }

  /** Where there is a fault there is no canonical text: every reason given for a failure is a good one. */
  lemma FaultRefuses(g: Graph, value: Ref, code: FailureCode)
    requires GraphOk(g) && Explained(g, value, code)
    ensures forall v :: Unfolds(g, value, v) ==> Utf8Length(Canonical(v)) > 1048576
  {
    var path, t :| Leads(g, value, path, t) && Fault(g, path, t, code);
    forall v | Unfolds(g, value, v)
      ensures Utf8Length(Canonical(v)) > 1048576
    {
      if path == [] {
        FaultDenotes(g, path, t, code, v, 32);
      } else {
        var w, m := PathDenotes(g, path, t, v, 32);
        FaultDenotes(g, path, t, code, w, m);
      }
      LongArraysAreLong(v);
      UnitsFit(Canonical(v));
    }
  }

  /** `v` is the tree a value unfolds to, at most 32 containers deep. */
  ghost predicate Unfolds(g: Graph, value: Ref, v: Json) {
    Denotes(g, value, v, 32)
  }

  /**
   * Succeeds exactly on values that unfold to a tree at most 32 containers deep whose
   * canonical text is at most 1,048,576 bytes, and then returns that text.
   */
  method CanonicalizeJson(g: Graph, value: Ref) returns (result: CanonicalResult)
    requires GraphOk(g) && Resolves(g, value)
    ensures result.Ok? <==> exists v :: Unfolds(g, value, v) && Utf8Length(Canonical(v)) <= 1048576
    ensures result.Ok? ==> exists v :: Unfolds(g, value, v) && result.canonicalJson == Canonical(v)
    ensures result.Err? ==>
              Explained(g, value, result.code) || (result.code == SizeExceeded && exists v :: Unfolds(g, value, v))
  {
    var state := new Serializer();
    var text := state.Serialize(g, value, 0, value, []);
    if text == None {
      NothingFits(g, value);
      return Err(state.failure.value);
    }
    ghost var v := OnlyTree(g, value, text.value);
    var bytes := Utf8ByteLength(text.value);
    if bytes > MAX_BYTES {
      return Err(SizeExceeded);
    }
    result := Ok(text.value);
  }

  lemma NothingFits(g: Graph, value: Ref)
    requires Unprintable(g, value, MAX_DEPTH)
    ensures forall v :: Unfolds(g, value, v) ==> Utf8Length(Canonical(v)) > MAX_BYTES
  {
    forall v | Unfolds(g, value, v)
      ensures Utf8Length(Canonical(v)) > MAX_BYTES
    {
      LongArraysAreLong(v);
      UnitsFit(Canonical(v));
    }
  }

  lemma OnlyTree(g: Graph, value: Ref, text: Text) returns (v: Json)
    requires Prints(g, value, MAX_DEPTH, text)
    ensures Unfolds(g, value, v) && text == Canonical(v) && forall w :: Unfolds(g, value, w) ==> w == v
  {
    v :| PrintsAs(g, value, MAX_DEPTH, v, text);
    forall w | Unfolds(g, value, w)
      ensures w == v
    {
      DenotesOne(g, value, v, MAX_DEPTH, w, MAX_DEPTH);
    }
  }

  /** What a caller can check of a JSON value before the call. */
  ghost predicate Canonicalizable(v: Json) {
    Within(v, 32) && Paired(v) && Utf8Length(Canonical(v)) <= 1048576
  }

  /** For a plain value, such as a parsed request, that check is exactly when it has a canonical text. */
  lemma PlainExactly(g: Graph, value: Ref, v: Json, n: nat)
    requires Builds(g, value, v, n)
    ensures (exists w :: Unfolds(g, value, w) && Utf8Length(Canonical(w)) <= 1048576) <==> Canonicalizable(v)
    ensures forall w :: Unfolds(g, value, w) ==> w == v
  {
    BuiltDenotes(g, value, v, n, MAX_DEPTH);
    forall w | Unfolds(g, value, w)
      ensures w == v
    {
      BuiltOnly(g, value, v, n, w, MAX_DEPTH);
    }
    if Canonicalizable(v) {
      assert Unfolds(g, value, v);
    }
  }
}
