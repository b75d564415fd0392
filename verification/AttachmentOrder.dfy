/** Ordering a bundle's attachments so that every parent comes before its children. */
module AttachmentOrder {
  import opened BundleImport
  import opened Wrappers

  datatype Ordered = Ordered(attachments: seq<Attachment>) | UnknownParent | Cycle

  function Ids(all: seq<Attachment>): set<Id> {
    set a | a in all :: a.id
  }

  predicate ParentKnown(a: Attachment, ids: set<Id>) {
    a.parent.Some? ==> a.parent.value in ids
  }

  predicate ParentsKnown(all: seq<Attachment>) {
    forall a :: a in all ==> ParentKnown(a, Ids(all))
  }

  /** Every parent stands before its children, and nothing with the parent's id comes after them. */
  predicate ParentsFirst(ordered: seq<Attachment>) {
    && (forall i :: 0 <= i < |ordered| ==> ParentKnown(ordered[i], Ids(ordered[..i])))
    && forall i, j :: 0 <= i < |ordered| && 0 <= j < |ordered| && ordered[i].parent == Some(ordered[j].id) ==> j < i
  }

  // ---- The loop ----

  function Ready(remaining: seq<Attachment>, placed: set<Id>): seq<Attachment> {
    if remaining == [] then []
    else (if ParentKnown(remaining[0], placed) then [remaining[0]] else []) + Ready(remaining[1..], placed)
  }

  function Without(remaining: seq<Attachment>, ids: set<Id>): seq<Attachment> {
    if remaining == [] then []
    else (if remaining[0].id in ids then [] else [remaining[0]]) + Without(remaining[1..], ids)
  }

  lemma {:induction false} ReadyIs(remaining: seq<Attachment>, placed: set<Id>)
    ensures forall a :: a in Ready(remaining, placed) <==> a in remaining && ParentKnown(a, placed)
  {
    if remaining != [] {
      ReadyIs(remaining[1..], placed);
    }
  }

  lemma {:induction false} WithoutIs(remaining: seq<Attachment>, ids: set<Id>)
    ensures |Without(remaining, ids)| <= |remaining|
    ensures (exists a :: a in remaining && a.id in ids) ==> |Without(remaining, ids)| < |remaining|
    ensures forall a :: a in Without(remaining, ids) <==> a in remaining && a.id !in ids
  {
    if remaining != [] {
      WithoutIs(remaining[1..], ids);
    }
  }

  /** One round after the other: what is ready is placed, and what has its id is no longer considered. */
  function Arrange(ordered: seq<Attachment>, remaining: seq<Attachment>): Ordered
    decreases |remaining|
  {
    if remaining == [] then Ordered(ordered)
    else
      var ready := Ready(remaining, Ids(ordered));
      var left := Without(remaining, Ids(ready));
      if ready == [] then Cycle
      else if |left| < |remaining| then Arrange(ordered + ready, left)
      else Cycle
  }

  function OrderOf(all: seq<Attachment>): Ordered {
    if !ParentsKnown(all) then UnknownParent else Arrange([], all)
  }

  /** Rounds that place nothing are a cycle. */
  lemma {:induction false} ArrangeCode(ordered: seq<Attachment>, remaining: seq<Attachment>)
    ensures !Arrange(ordered, remaining).UnknownParent?
    decreases |remaining|
  {
    if remaining != [] {
      var ready := Ready(remaining, Ids(ordered));
      var left := Without(remaining, Ids(ready));
      if |left| < |remaining| {
        ArrangeCode(ordered + ready, left);
      }
    }
  }

  lemma RoundsShrink(remaining: seq<Attachment>, placed: set<Id>)
    requires Ready(remaining, placed) != []
    ensures |Without(remaining, Ids(Ready(remaining, placed)))| < |remaining|
  {
    var ready := Ready(remaining, placed);
    ReadyIs(remaining, placed);
    WithoutIs(remaining, Ids(ready));
    assert ready[0] in remaining && ready[0].id in Ids(ready);
  }

  method OrderAttachments(all: seq<Attachment>) returns (r: Ordered)
    ensures r == OrderOf(all)
  {
    for i := 0 to |all|
      invariant forall j :: 0 <= j < i ==> ParentKnown(all[j], Ids(all))
    {
      if !ParentKnown(all[i], Ids(all)) {
        assert all[i] in all;
        return UnknownParent;
      }
    }
    var ordered: seq<Attachment> := [];
    var remaining := all;
    while |remaining| > 0
      invariant Arrange(ordered, remaining) == Arrange([], all)
      decreases |remaining|
    {
      var ready := Ready(remaining, Ids(ordered));
      if |ready| == 0 {
        return Cycle;
      }
      RoundsShrink(remaining, Ids(ordered));
      remaining := Without(remaining, Ids(ready));
      ordered := ordered + ready;
    }
    r := Ordered(ordered);
  }

  // ---- What it depends on ----

  /** Some numbering of the ids gives each id a bearer with no parent, or with a parent below it. */
  ghost predicate Grounded(all: seq<Attachment>) {
    exists rank: map<Id, nat> :: Ranks(rank, all)
  }

  ghost predicate Ranks(rank: map<Id, nat>, all: seq<Attachment>) {
    forall id :: id in Ids(all) ==> exists a :: a in all && a.id == id && Stands(rank, a)
  }

  predicate Stands(rank: map<Id, nat>, a: Attachment) {
    a.id in rank && (a.parent.Some? ==> a.parent.value in rank && rank[a.parent.value] < rank[a.id])
  }

  /**
   * An attachment without a parent has depth 0, any other is one deeper than the least deep
   * bearer of its parent's id.
   */
  predicate DepthAtMost(all: seq<Attachment>, a: Attachment, depth: nat)
    decreases depth
  {
    a.parent.None? || (depth > 0 && exists b :: b in all && b.id == a.parent.value && DepthAtMost(all, b, depth - 1))
  }

  /** No attachment with the same id is less deep. */
  ghost predicate LeastDeep(all: seq<Attachment>, a: Attachment) {
    forall b, depth: nat :: b in all && b.id == a.id && DepthAtMost(all, b, depth) ==> DepthAtMost(all, a, depth)
  }

  /** Attachments with the same id have the same depth. */
  ghost predicate EvenDepths(all: seq<Attachment>) {
    forall a :: a in all ==> LeastDeep(all, a)
  }

  lemma {:induction false} DepthGrows(all: seq<Attachment>, a: Attachment, m: nat, n: nat)
    requires m <= n && DepthAtMost(all, a, m)
    ensures DepthAtMost(all, a, n)
    decreases m
  {
    if a.parent.Some? {
      var b :| b in all && b.id == a.parent.value && DepthAtMost(all, b, m - 1);
      DepthGrows(all, b, m - 1, n - 1);
    }
  }

  /** The ids of attachments less than `n` deep. */
  predicate Shallow(all: seq<Attachment>, id: Id, n: nat) {
    n > 0 && exists a :: a in all && a.id == id && DepthAtMost(all, a, n - 1)
  }

  /**
   * After `n` rounds the ids less than `n` deep are placed, each by all its least deep
   * bearers, and all attachments with other ids remain.
   */
  ghost predicate Rounds(all: seq<Attachment>, ordered: seq<Attachment>, remaining: seq<Attachment>, n: nat) {
    && ParentsFirst(ordered)
    && (forall id :: id in Ids(ordered) <==> Shallow(all, id, n))
    && (forall a :: a in ordered <==> a in all && a.id in Ids(ordered) && LeastDeep(all, a))
    && (forall a :: a in remaining <==> a in all && a.id !in Ids(ordered))
  }

  /** What is ready in a round are the attachments of that depth. */
  lemma ReadyDepth(all: seq<Attachment>, ordered: seq<Attachment>, remaining: seq<Attachment>, n: nat)
    requires Rounds(all, ordered, remaining, n)
    ensures forall a :: a in Ready(remaining, Ids(ordered)) <==> a in remaining && DepthAtMost(all, a, n)
  {
    ReadyIs(remaining, Ids(ordered));
    forall a | a in remaining
      ensures ParentKnown(a, Ids(ordered)) <==> DepthAtMost(all, a, n)
    {
      assert a.parent.Some? ==> (a.parent.value in Ids(ordered) <==> Shallow(all, a.parent.value, n));
    }
  }

  /** Among what remains, an attachment of this round's depth is least deep, and one with its id is so only with it. */
  lemma ReadyLeast(all: seq<Attachment>, ordered: seq<Attachment>, remaining: seq<Attachment>, n: nat, a: Attachment,
          b: Attachment)
    requires Rounds(all, ordered, remaining, n) && a in remaining && b in remaining && a.id == b.id
    requires DepthAtMost(all, b, n)
    ensures LeastDeep(all, a) <==> DepthAtMost(all, a, n)
  {
    assert !Shallow(all, a.id, n);
    if DepthAtMost(all, a, n) {
      forall c, depth: nat | c in all && c.id == a.id && DepthAtMost(all, c, depth)
        ensures DepthAtMost(all, a, depth)
      {
        if depth < n {
          DepthGrows(all, c, depth, n - 1);
          assert false;
        } else {
          DepthGrows(all, a, n, depth);
        }
      }
    }
  }

  /** The ready ones go behind what is placed. */
  lemma PlacedFirst(ordered: seq<Attachment>, ready: seq<Attachment>)
    requires ParentsFirst(ordered) && forall a :: a in ready ==> ParentKnown(a, Ids(ordered)) && a.id !in Ids(ordered)
    ensures ParentsFirst(ordered + ready)
  {
    var all := ordered + ready;
    assert forall j :: |ordered| <= j < |all| ==> all[j] in ready;
    forall i, j | 0 <= i < |all| && 0 <= j < |all| && all[i].parent == Some(all[j].id)
      ensures j < i
    {
      if i < |ordered| {
        assert ParentKnown(ordered[i], Ids(ordered[..i])) && Ids(ordered[..i]) <= Ids(ordered);
      }
      assert all[j].id in Ids(ordered);
      assert j < |ordered|;
    }
    forall i | 0 <= i < |all|
      ensures ParentKnown(all[i], Ids(all[..i]))
    {
      if i < |ordered| {
        assert all[..i] == ordered[..i];
      } else {
        assert all[i] in ready;
        assert all[..i] == ordered + ready[..i - |ordered|];
        assert Ids(ordered) <= Ids(all[..i]);
      }
    }
  }

  lemma ShallowNext(all: seq<Attachment>, ordered: seq<Attachment>, remaining: seq<Attachment>, n: nat, id: Id)
    requires Rounds(all, ordered, remaining, n)
    ensures Shallow(all, id, n + 1) <==> id in Ids(ordered) || id in Ids(Ready(remaining, Ids(ordered)))
  {
    ReadyDepth(all, ordered, remaining, n);
    if Shallow(all, id, n + 1) && id !in Ids(ordered) {
      var a :| a in all && a.id == id && DepthAtMost(all, a, n);
      assert a in Ready(remaining, Ids(ordered));
    }
    if id in Ids(ordered) {
      var a :| a in all && a.id == id && DepthAtMost(all, a, n - 1);
      DepthGrows(all, a, n - 1, n);
    }
  }

  /** What a round places are the least deep bearers of the new ids. */
  lemma PlacedLeast(all: seq<Attachment>, ordered: seq<Attachment>, remaining: seq<Attachment>, n: nat, a: Attachment)
    requires Rounds(all, ordered, remaining, n)
    ensures var ready := Ready(remaining, Ids(ordered));
            a in ordered + ready <==> a in all && a.id in Ids(ordered) + Ids(ready) && LeastDeep(all, a)
  {
    var ready := Ready(remaining, Ids(ordered));
    ReadyDepth(all, ordered, remaining, n);
    if a in ready {
      ReadyLeast(all, ordered, remaining, n, a, a);
    } else if a in all && a.id in Ids(ready) && a.id !in Ids(ordered) {
      var b :| b in ready && b.id == a.id;
      ReadyLeast(all, ordered, remaining, n, a, b);
    }
  }

  lemma NextRound(all: seq<Attachment>, ordered: seq<Attachment>, remaining: seq<Attachment>, n: nat)
    requires Rounds(all, ordered, remaining, n)
    ensures var ready := Ready(remaining, Ids(ordered));
            Rounds(all, ordered + ready, Without(remaining, Ids(ready)), n + 1)
  {
    hide Ready, Shallow, ParentsFirst;
    var ready := Ready(remaining, Ids(ordered));
    ReadyIs(remaining, Ids(ordered));
    WithoutIs(remaining, Ids(ready));
    PlacedFirst(ordered, ready);
    assert Ids(ordered + ready) == Ids(ordered) + Ids(ready);
    forall id
      ensures id in Ids(ordered) + Ids(ready) <==> Shallow(all, id, n + 1)
    {
      ShallowNext(all, ordered, remaining, n, id);
    }
    forall a
      ensures a in ordered + ready <==> a in all && a.id in Ids(ordered) + Ids(ready) && LeastDeep(all, a)
    {
      PlacedLeast(all, ordered, remaining, n, a);
    }
  }

  // ---- When an order is found ----

  /** While an id is left, one that has a standing bearer is ready. */
  lemma {:induction false} LeastReady(rank: map<Id, nat>, all: seq<Attachment>, ordered: seq<Attachment>,
          remaining: seq<Attachment>, n: nat, best: Attachment)
    requires Ranks(rank, all) && ParentsKnown(all) && Rounds(all, ordered, remaining, n)
    requires best in remaining && Stands(rank, best)
    ensures Ready(remaining, Ids(ordered)) != []
    decreases rank[best.id]
  {
    ReadyIs(remaining, Ids(ordered));
    if ParentKnown(best, Ids(ordered)) {
      assert best in Ready(remaining, Ids(ordered));
    } else {
      var parent := best.parent.value;
      assert parent in Ids(all);
      var next :| next in all && next.id == parent && Stands(rank, next);
      LeastReady(rank, all, ordered, remaining, n, next);
    }
  }

  lemma {:induction false} ArrangeEnds(rank: map<Id, nat>, all: seq<Attachment>, ordered: seq<Attachment>,
          remaining: seq<Attachment>, n: nat)
    requires Ranks(rank, all) && ParentsKnown(all) && Rounds(all, ordered, remaining, n)
    ensures Arrange(ordered, remaining).Ordered?
    decreases |remaining|
  {
    if remaining != [] {
      assert remaining[0] in remaining && remaining[0].id in Ids(all);
      var best :| best in all && best.id == remaining[0].id && Stands(rank, best);
      LeastReady(rank, all, ordered, remaining, n, best);
      RoundsShrink(remaining, Ids(ordered));
      NextRound(all, ordered, remaining, n);
      ArrangeEnds(rank, all, ordered + Ready(remaining, Ids(ordered)),
                  Without(remaining, Ids(Ready(remaining, Ids(ordered)))), n + 1);
    }
  }

  /** An order found is the state after some rounds with nothing left. */
  lemma {:induction false} ArrangeRounds(all: seq<Attachment>, ordered: seq<Attachment>, remaining: seq<Attachment>,
          n: nat)
    returns (last: nat)
    requires Rounds(all, ordered, remaining, n) && Arrange(ordered, remaining).Ordered?
    ensures Rounds(all, Arrange(ordered, remaining).attachments, [], last)
    decreases |remaining|
  {
    last := n;
    if remaining != [] {
      NextRound(all, ordered, remaining, n);
      var ready := Ready(remaining, Ids(ordered));
      last := ArrangeRounds(all, ordered + ready, Without(remaining, Ids(ready)), n + 1);
    }
  }

  function FirstAt(ordered: seq<Attachment>, id: Id): (i: nat)
    ensures i <= |ordered|
    ensures forall j :: 0 <= j < i ==> ordered[j].id != id
    ensures i < |ordered| ==> ordered[i].id == id
  {
    if ordered == [] || ordered[0].id == id then 0 else 1 + FirstAt(ordered[1..], id)
  }

  /** Positions in an order with parents first are a numbering. */
  lemma OrderRanks(all: seq<Attachment>, ordered: seq<Attachment>)
    requires ParentsFirst(ordered) && Ids(ordered) == Ids(all) && forall a :: a in ordered ==> a in all
    ensures Grounded(all)
  {
    var rank: map<Id, nat> := map id | id in Ids(ordered) :: FirstAt(ordered, id);
    forall id | id in Ids(all)
      ensures exists a :: a in all && a.id == id && Stands(rank, a)
    {
      var i := FirstAt(ordered, id);
      assert i < |ordered|;
      var a := ordered[i];
      assert a in ordered;
      if a.parent.Some? {
        var before := ordered[..i];
        assert ParentKnown(a, Ids(before));
        var p :| p in before && p.id == a.parent.value;
        var j :| 0 <= j < i && before[j] == p;
        assert ordered[j] == p && p in ordered;
      }
      assert Stands(rank, a);
    }
    assert Ranks(rank, all);
  }

  lemma RoundsStart(all: seq<Attachment>)
    ensures Rounds(all, [], all, 0)
  {
  }

  // ---- What is lost ----

  lemma OneMore(kept: multiset<Attachment>, all: multiset<Attachment>, a: Attachment)
    requires kept <= all
    ensures kept <= multiset{a} + all && kept != multiset{a} + all
    ensures kept + multiset{a} <= multiset{a} + all && (kept + multiset{a} == multiset{a} + all <==> kept == all)
  {
    assert kept[a] < (multiset{a} + all)[a];
    if kept + multiset{a} == multiset{a} + all {
      assert kept == kept + multiset{a} - multiset{a};
    }
  }

  /** What is placed and what is left are all that remained exactly when every bearer of a placed id is ready. */
  lemma {:induction false} Split(remaining: seq<Attachment>, placed: set<Id>, ids: set<Id>)
    requires forall a :: a in remaining && ParentKnown(a, placed) ==> a.id in ids
    ensures var kept := multiset(Ready(remaining, placed)) + multiset(Without(remaining, ids));
            && kept <= multiset(remaining)
            && (kept == multiset(remaining) <==> forall a :: a in remaining && a.id in ids ==> ParentKnown(a, placed))
  {
    if remaining != [] {
      var a, rest := remaining[0], remaining[1..];
      assert remaining == [a] + rest;
      Split(rest, placed, ids);
      var kept := multiset(Ready(rest, placed)) + multiset(Without(rest, ids));
      OneMore(kept, multiset(rest), a);
      assert multiset(remaining) == multiset{a} + multiset(rest);
      FirstSplit(remaining, placed, ids);
    }
  }

  lemma FirstSplit(remaining: seq<Attachment>, placed: set<Id>, ids: set<Id>)
    requires remaining != [] && (ParentKnown(remaining[0], placed) ==> remaining[0].id in ids)
    ensures var a, rest := remaining[0], remaining[1..];
            var kept := multiset(Ready(rest, placed)) + multiset(Without(rest, ids));
            multiset(Ready(remaining, placed)) + multiset(Without(remaining, ids)) ==
            if a.id in ids && !ParentKnown(a, placed) then kept else kept + multiset{a}
  {
  }

  /** A round keeps everything exactly when the attachments it takes out of what remains are all least deep. */
  lemma RoundKeeps(all: seq<Attachment>, ordered: seq<Attachment>, remaining: seq<Attachment>, n: nat)
    requires Rounds(all, ordered, remaining, n)
    ensures var ready := Ready(remaining, Ids(ordered));
            var kept := multiset(ready) + multiset(Without(remaining, Ids(ready)));
            && kept <= multiset(remaining)
            && (kept == multiset(remaining) <==> forall a :: a in remaining && a.id in Ids(ready) ==> LeastDeep(all, a))
  {
    var ready := Ready(remaining, Ids(ordered));
    ReadyIs(remaining, Ids(ordered));
    ReadyDepth(all, ordered, remaining, n);
    Split(remaining, Ids(ordered), Ids(ready));
    forall a | a in remaining && a.id in Ids(ready)
      ensures ParentKnown(a, Ids(ordered)) <==> LeastDeep(all, a)
    {
      var b :| b in ready && b.id == a.id;
      ReadyLeast(all, ordered, remaining, n, a, b);
    }
  }

  /** Two steps that each keep part of what they got keep all exactly when both do. */
  lemma BothKeep(found: multiset<Attachment>, placed: multiset<Attachment>, kept: multiset<Attachment>,
          owed: multiset<Attachment>)
    requires found <= placed + kept && kept <= owed
    ensures found <= placed + owed
    ensures found == placed + owed <==> found == placed + kept && kept == owed
  {
    if found == placed + owed {
      forall a
        ensures kept[a] == owed[a]
      {
        assert found[a] <= (placed + kept)[a];
      }
    }
  }

  /** What is found are some of the attachments owed, and all of them exactly when those that remain are least deep. */
  ghost predicate Keeps(all: seq<Attachment>, found: seq<Attachment>, ordered: seq<Attachment>,
          remaining: seq<Attachment>) {
    var owed := multiset(ordered) + multiset(remaining);
    multiset(found) <= owed && (multiset(found) == owed <==> forall a :: a in remaining ==> LeastDeep(all, a))
  }

  lemma RoundAndRest(all: seq<Attachment>, found: seq<Attachment>, ordered: seq<Attachment>,
          remaining: seq<Attachment>, n: nat)
    requires Rounds(all, ordered, remaining, n)
    requires var ready := Ready(remaining, Ids(ordered));
             Keeps(all, found, ordered + ready, Without(remaining, Ids(ready)))
    ensures Keeps(all, found, ordered, remaining)
  {
    var ready := Ready(remaining, Ids(ordered));
    var left := Without(remaining, Ids(ready));
    RoundKeeps(all, ordered, remaining, n);
    WithoutIs(remaining, Ids(ready));
    Halves(all, remaining, left, Ids(ready));
    assert multiset(ordered + ready) + multiset(left) == multiset(ordered) + (multiset(ready) + multiset(left));
    BothKeep(multiset(found), multiset(ordered), multiset(ready) + multiset(left), multiset(remaining));
  }

  lemma {:induction false} ArrangeKeeps(all: seq<Attachment>, ordered: seq<Attachment>, remaining: seq<Attachment>,
          n: nat)
    requires Rounds(all, ordered, remaining, n) && Arrange(ordered, remaining).Ordered?
    ensures Keeps(all, Arrange(ordered, remaining).attachments, ordered, remaining)
    decreases |remaining|
  {
    if remaining != [] {
      var ready := Ready(remaining, Ids(ordered));
      NextRound(all, ordered, remaining, n);
      ArrangeKeeps(all, ordered + ready, Without(remaining, Ids(ready)), n + 1);
      RoundAndRest(all, Arrange(ordered, remaining).attachments, ordered, remaining, n);
    }
  }

  lemma Halves(all: seq<Attachment>, remaining: seq<Attachment>, left: seq<Attachment>, ids: set<Id>)
    requires forall a :: a in left <==> a in remaining && a.id !in ids
    ensures (forall a :: a in remaining ==> LeastDeep(all, a)) <==>
            (forall a :: a in left ==> LeastDeep(all, a))
            && forall a :: a in remaining && a.id in ids ==> LeastDeep(all, a)
  {
  }

  /**
   * For every bundle: an order is found exactly when all parents are carried and every id has
   * a bearer whose chain of parents ends. Parents then come first, the attachments in it are
   * those for which no other with the same id is less deep, and every attachment is in it as
   * often as in the bundle exactly when attachments with the same id have the same depth.
   */
  lemma OrderedExactly(all: seq<Attachment>)
    ensures OrderOf(all).Ordered? <==> ParentsKnown(all) && Grounded(all)
    ensures OrderOf(all).UnknownParent? <==> exists a :: a in all && a.parent.Some? && a.parent.value !in Ids(all)
    ensures OrderOf(all).Ordered? ==>
              var ordered := OrderOf(all).attachments;
              && ParentsFirst(ordered) && Ids(ordered) == Ids(all) && multiset(ordered) <= multiset(all)
              && (forall a :: a in ordered <==> a in all && LeastDeep(all, a))
              && (multiset(ordered) == multiset(all) <==> EvenDepths(all))
  {
    RoundsStart(all);
    ArrangeCode([], all);
    if ParentsKnown(all) && Grounded(all) {
      var rank :| Ranks(rank, all);
      ArrangeEnds(rank, all, [], all, 0);
    }
    if OrderOf(all).Ordered? {
      var ordered := OrderOf(all).attachments;
      var last := ArrangeRounds(all, [], all, 0);
      NothingLeft(all, ordered, last);
      OrderRanks(all, ordered);
      ArrangeKeeps(all, [], all, 0);
      assert multiset([]) + multiset(all) == multiset(all);
    }
  }

  lemma NothingLeft(all: seq<Attachment>, ordered: seq<Attachment>, n: nat)
    requires Rounds(all, ordered, [], n)
    ensures Ids(ordered) == Ids(all) && forall a :: a in ordered <==> a in all && LeastDeep(all, a)
  {
    forall a | a in all
      ensures a.id in Ids(ordered)
    {
      assert a !in [];
    }
  }

  // ---- Repeated ids ----

  predicate DistinctIds(all: seq<Attachment>) {
    forall i, j :: 0 <= i < j < |all| ==> all[i].id != all[j].id
  }

  /** Distinct ids lose nothing. */
  lemma DistinctKept(all: seq<Attachment>)
    requires DistinctIds(all)
    ensures EvenDepths(all)
  {
    forall a, b | a in all && b in all && a.id == b.id
      ensures a == b
    {
      var i :| 0 <= i < |all| && all[i] == a;
      var j :| 0 <= j < |all| && all[j] == b;
      assert i == j;
    }
  }

  /**
   * The schema does not refuse repeated ids, and a child that shares its id with a parentless
   * attachment is dropped without an error.
   */
  lemma RepeatedIdDropped(root: Attachment, child: Attachment, other: Attachment)
    requires root.id == child.id && root.parent == None && other.parent == None && child.parent == Some(other.id)
    ensures OrderOf([root, child, other]).Ordered? && child !in OrderOf([root, child, other]).attachments
  {
    var all := [root, child, other];
    var rank: map<Id, nat> := map[root.id := 0, other.id := 0];
    forall id | id in Ids(all)
      ensures exists a :: a in all && a.id == id && Stands(rank, a)
    {
      if id == root.id {
        assert root in all && Stands(rank, root);
      } else {
        assert other in all && Stands(rank, other);
      }
    }
    assert Ranks(rank, all);
    assert all[0] in all && all[1] in all && all[2] in all;
    assert other.id in Ids(all);
    assert DepthAtMost(all, root, 0) && !DepthAtMost(all, child, 0);
    assert !LeastDeep(all, child);
    OrderedExactly(all);
  }
}
