/** Paging through the runs of an engagement, newest first, by a cursor on the last run shown. */
module RunHistoryPaging {
  import opened Unicode
  import J = JsonText
  import C = RunHistoryCursor
  import opened Wrappers

  /** What a run is ordered by, and what names it. */
  datatype Key = Key(createdAt: Text, id: Text)

  /** The runs of the engagement as one request finds them: any state under each key. */
  type Runs<S> = map<Key, S>

  /** Created earlier, or at the same time with the lesser id, as texts. */
  predicate Older(a: Key, b: Key) {
    J.Less(a.createdAt, b.createdAt) || (a.createdAt == b.createdAt && J.Less(a.id, b.id))
  }

  /** `list` runs from the latest creation time to the earliest, and through greater ids first at the same time. */
  ghost predicate LatestFirst(list: seq<Key>) {
    forall i, j :: 0 <= i < j < |list| ==>
      J.Precedes(list[j].createdAt, list[i].createdAt)
      || (list[j].createdAt == list[i].createdAt && J.Precedes(list[j].id, list[i].id))
  }

  lemma LatestIs(list: seq<Key>)
    ensures LatestFirst(list) <==> Descends(list)
  {
    hide J.Less, J.Precedes;
    J.LessEverywhere();
  }

  predicate Descends(list: seq<Key>) {
    forall i, j :: 0 <= i < j < |list| ==> Older(list[j], list[i])
  }

  lemma OlderTotal(a: Key, b: Key)
    ensures Older(a, b) || a == b || Older(b, a)
  {
    J.LessTotal(a.createdAt, b.createdAt);
    J.LessTotal(a.id, b.id);
  }

  lemma OlderStrict(a: Key, b: Key)
    requires Older(a, b)
    ensures a != b && !Older(b, a)
  {
    if J.Less(a.createdAt, b.createdAt) {
      J.LessStrict(a.createdAt, b.createdAt);
    } else {
      J.LessStrict(a.id, b.id);
    }
    if J.Less(b.createdAt, a.createdAt) {
      J.LessStrict(b.createdAt, a.createdAt);
    }
  }

  lemma OlderTransitive(a: Key, b: Key, c: Key)
    requires Older(a, b) && Older(b, c)
    ensures Older(a, c)
  {
    if J.Less(a.createdAt, b.createdAt) && J.Less(b.createdAt, c.createdAt) {
      J.LessTransitive(a.createdAt, b.createdAt, c.createdAt);
    } else if a.createdAt == b.createdAt == c.createdAt {
      J.LessTransitive(a.id, b.id, c.id);
    }
  }

  lemma {:induction false} NewestExists(keys: set<Key>)
    requires keys != {}
    ensures exists k :: k in keys && forall other :: other in keys && other != k ==> Older(other, k)
    decreases |keys|
  {
    var key :| key in keys;
    var rest := keys - {key};
    if rest == {} {
      assert keys == {key};
    } else {
      NewestExists(rest);
      var best :| best in rest && forall other :: other in rest && other != best ==> Older(other, best);
      OlderTotal(key, best);
      if Older(best, key) {
        forall other | other in keys && other != key
          ensures Older(other, key)
        {
          if other != best {
            OlderTransitive(other, best, key);
          }
        }
      } else {
        assert forall other :: other in keys && other != best ==> other in rest || other == key;
      }
    }
  }

  ghost function Newest(keys: set<Key>): (k: Key)
    requires keys != {}
    ensures k in keys && forall other :: other in keys && other != k ==> Older(other, k)
  {
    NewestExists(keys);
    var k :| k in keys && forall other :: other in keys && other != k ==> Older(other, k);
    k
  }

  /** Keys from the newest to the oldest. */
  ghost function NewestFirst(keys: set<Key>): (r: seq<Key>)
    ensures |r| == |keys|
    decreases |keys|
  {
    if keys == {} then [] else [Newest(keys)] + NewestFirst(keys - {Newest(keys)})
  }

  /** Every key once, the latest first. */
  lemma NewestFirstLists(keys: set<Key>)
    ensures forall k :: k in NewestFirst(keys) <==> k in keys
    ensures LatestFirst(NewestFirst(keys))
  {
    NewestFirstDescends(keys);
    LatestIs(NewestFirst(keys));
  }

  lemma {:induction false} NewestFirstDescends(keys: set<Key>)
    ensures forall k :: k in NewestFirst(keys) <==> k in keys
    ensures Descends(NewestFirst(keys))
    decreases |keys|
  {
    if keys != {} {
      var first := Newest(keys);
      var rest := keys - {first};
      NewestFirstDescends(rest);
      var list := NewestFirst(rest);
      assert NewestFirst(keys) == [first] + list;
      forall j | 0 <= j < |list|
        ensures Older(list[j], first)
      {
        assert list[j] in rest;
      }
    }
  }

  /** The keys older than a bound, all of them when there is none. */
  ghost function Below(keys: set<Key>, before: Option<Key>): set<Key> {
    set k | k in keys && (before.Some? ==> Older(k, before.value))
  }

  /** The newest key, and the others behind it. */
  lemma NewestAhead(keys: set<Key>)
    requires keys != {}
    ensures var first := Newest(keys);
            first in keys && NewestFirst(keys) == [first] + NewestFirst(keys - {first})
            && NewestFirst(keys)[1..] == NewestFirst(keys - {first})
  {
  }

  /** Without the newest key, what is below an older one is the same. */
  lemma BelowRest(keys: set<Key>, last: Key)
    requires keys != {} && last in keys && last != Newest(keys)
    ensures Below(keys, Some(last)) == Below(keys - {Newest(keys)}, Some(last))
  {
    OlderStrict(last, Newest(keys));
  }

  /** What is left after the first `n` keys are the keys older than the last of them. */
  lemma {:induction false} AfterFirst(keys: set<Key>, n: nat)
    requires 0 < n <= |keys|
    ensures NewestFirst(keys)[n..] == NewestFirst(Below(keys, Some(NewestFirst(keys)[n - 1])))
    decreases |keys|
  {
    hide NewestFirst, Newest, Below;
    NewestAhead(keys);
    if n == 1 {
      BelowNewest(keys);
    } else {
      var rest := keys - {Newest(keys)};
      AfterFirst(rest, n - 1);
      var list, last := NewestFirst(rest), NewestFirst(rest)[n - 2];
      NewestFirstDescends(rest);
      assert last in list;
      BelowRest(keys, last);
      assert NewestFirst(keys)[n..] == list[n - 1..] && NewestFirst(keys)[n - 1] == last;
    }
  }

  lemma BelowNewest(keys: set<Key>)
    requires keys != {}
    ensures Below(keys, Some(Newest(keys))) == keys - {Newest(keys)}
  {
    var first := Newest(keys);
    forall k | k in keys
      ensures Older(k, first) <==> k != first
    {
      if k == first && Older(k, first) {
        OlderStrict(k, first);
      }
    }
  }

  // ---- One page ----

  /** The query: newest first, older than the cursor, one more than the limit. */
  ghost function ListRuns<S>(runs: Runs<S>, before: Option<Key>, limit: nat): seq<Key> {
    var all := NewestFirst(Below(runs.Keys, before));
    if |all| <= limit + 1 then all else all[..limit + 1]
  }

  datatype Page = Page(runs: seq<Key>, nextCursor: Option<Text>)

  /** How a run's key is written as a cursor. */
  type Encoder = Key -> Text

  /** How a cursor is read; the request is refused when it is not well formed. */
  type Decoder = Text -> Option<Key>

  ghost function PageOf<S>(encode: Encoder, runs: Runs<S>, before: Option<Key>, limit: nat): Page
    requires limit > 0
  {
    var listed := ListRuns(runs, before, limit);
    var hasMore := |listed| > limit;
    var page := if hasMore then listed[..limit] else listed;
    Page(page, if hasMore then Some(encode(page[limit - 1])) else None)
  }

  /**
   * A page holds the first of the runs older than the cursor, at most `limit` of them, and
   * names its last one for the next page exactly when there are more.
   */
  lemma PageIs<S>(encode: Encoder, runs: Runs<S>, before: Option<Key>, limit: nat)
    requires limit > 0
    ensures var all := NewestFirst(Below(runs.Keys, before));
            PageOf(encode, runs, before, limit) ==
            if |all| <= limit then Page(all, None) else Page(all[..limit], Some(encode(all[limit - 1])))
    ensures forall k ::
              k in Below(runs.Keys, before) <==>
              k in runs.Keys
              && (before.None?
                  || J.Precedes(k.createdAt, before.value.createdAt)
                  || (k.createdAt == before.value.createdAt && J.Precedes(k.id, before.value.id)))
  {
    hide J.Less, J.Precedes, NewestFirst;
    J.LessEverywhere();
    var all := NewestFirst(Below(runs.Keys, before));
    if |all| > limit {
      assert all[..limit + 1][..limit] == all[..limit];
    }
  }

  // ---- Following the cursors ----

  /** What a caller collects over requests that find the runs as in `snapshots`, and whether it reached the end. */
  ghost function Follow<S>(encode: Encoder, decode: Decoder, snapshots: seq<Runs<S>>, before: Option<Key>,
          limit: nat): (seq<Key>, bool)
    requires limit > 0
    decreases |snapshots|
  {
    if snapshots == [] then ([], false)
    else
      var page := PageOf(encode, snapshots[0], before, limit);
      if page.nextCursor == None then (page.runs, true)
      else
        var key := decode(page.nextCursor.value);
        if key == None then (page.runs, false)
        else
          var more := Follow(encode, decode, snapshots[1..], key, limit);
          (page.runs + more.0, more.1)
  }

  /** Runs are never removed, and a run added after the start is newer than all that were there. */
  predicate OnlyNewer<S>(start: set<Key>, runs: Runs<S>) {
    start <= runs.Keys && forall k, s :: k in runs.Keys && k !in start && s in start ==> Older(s, k)
  }

  predicate Inverse(encode: Encoder, decode: Decoder, k: Key) {
    decode(encode(k)) == Some(k)
  }

  /** A cursor leads where it was made, if it is accepted at all. */
  predicate Honest(encode: Encoder, decode: Decoder, k: Key) {
    decode(encode(k)) == None || Inverse(encode, decode, k)
  }

  /** Room for `n` pages. */
  function Capacity(n: nat, limit: nat): nat {
    if n == 0 then 0 else limit + Capacity(n - 1, limit)
  }

  /** Below a run that was there at the start, later runs do not show. */
  lemma NewerHidden<S>(start: set<Key>, runs: Runs<S>, bound: Key)
    requires OnlyNewer(start, runs) && bound in start
    ensures Below(runs.Keys, Some(bound)) == Below(start, Some(bound))
  {
    forall k | k in runs.Keys && k !in start
      ensures !Older(k, bound)
    {
      OlderStrict(bound, k);
    }
  }

  /** A page with a cursor that decodes is followed by what the cursor leads to. */
  lemma FollowOn<S>(encode: Encoder, decode: Decoder, snapshots: seq<Runs<S>>, before: Option<Key>, limit: nat,
          all: seq<Key>)
    requires limit > 0 && snapshots != []
    requires all == NewestFirst(Below(snapshots[0].Keys, before)) && |all| > limit
    requires Inverse(encode, decode, all[limit - 1])
    ensures var more := Follow(encode, decode, snapshots[1..], Some(all[limit - 1]), limit);
            Follow(encode, decode, snapshots, before, limit) == (all[..limit] + more.0, more.1)
  {
    assert ListRuns(snapshots[0], before, limit)[..limit] == all[..limit];
  }

  lemma LastPage<S>(encode: Encoder, decode: Decoder, snapshots: seq<Runs<S>>, before: Option<Key>, limit: nat,
          all: seq<Key>)
    requires limit > 0 && snapshots != [] && all == NewestFirst(Below(snapshots[0].Keys, before)) && |all| <= limit
    ensures Follow(encode, decode, snapshots, before, limit) == (all, true)
  {
  }

  lemma LastIsThere(start: set<Key>, before: Option<Key>, limit: nat)
    requires 0 < limit <= |Below(start, before)|
    ensures NewestFirst(Below(start, before))[limit - 1] in Below(start, before)
  {
    NewestFirstDescends(Below(start, before));
  }

  lemma BelowBelow(start: set<Key>, before: Option<Key>, last: Key)
    requires last in Below(start, before)
    ensures Below(Below(start, before), Some(last)) == Below(start, Some(last))
  {
    forall k | k in start && Older(k, last)
      ensures k in Below(start, before)
    {
      if before.Some? {
        OlderTransitive(k, last, before.value);
      }
    }
  }

  lemma Rejoined(all: seq<Key>, n: nat)
    requires n <= |all|
    ensures all[..n] + all[n..] == all
  {
  }

  /** The rest of the list after a page. */
  lemma AfterPage(start: set<Key>, before: Option<Key>, limit: nat, all: seq<Key>)
    requires 0 < limit < |all| && all == NewestFirst(Below(start, before))
    ensures all[limit - 1] in start && all[limit..] == NewestFirst(Below(start, Some(all[limit - 1])))
    ensures |Below(start, Some(all[limit - 1]))| == |all| - limit
  {
    LastIsThere(start, before, limit);
    AfterFirst(Below(start, before), limit);
    BelowBelow(start, before, all[limit - 1]);
  }

  ghost predicate AllNewer<S>(start: set<Key>, snapshots: seq<Runs<S>>) {
    forall r :: r in snapshots ==> OnlyNewer(start, r)
  }

  lemma SameBelow<S>(start: set<Key>, snapshots: seq<Runs<S>>, before: Option<Key>)
    requires snapshots != [] && AllNewer(start, snapshots)
    requires if before.Some? then before.value in start else snapshots[0].Keys == start
    ensures Below(snapshots[0].Keys, before) == Below(start, before) && AllNewer(start, snapshots[1..])
  {
    assert snapshots[0] in snapshots;
    if before.Some? {
      NewerHidden(start, snapshots[0], before.value);
    }
  }

  lemma RefusedEnds<S>(encode: Encoder, decode: Decoder, snapshots: seq<Runs<S>>, before: Option<Key>, limit: nat,
          all: seq<Key>)
    requires limit > 0 && snapshots != []
    requires all == NewestFirst(Below(snapshots[0].Keys, before)) && |all| > limit
    requires decode(encode(all[limit - 1])) == None
    ensures !Follow(encode, decode, snapshots, before, limit).1
  {
  }

  /** Every page but the last ends with a run whose cursor leads back to it. */
  ghost predicate PagesLead(encode: Encoder, decode: Decoder, all: seq<Key>, limit: nat)
    requires limit > 0
  {
    |all| <= limit || (Inverse(encode, decode, all[limit - 1]) && PagesLead(encode, decode, all[limit..], limit))
  }

  /**
   * Following the cursors from a run that was there at the start lists all older ones, in
   * order, and ends, exactly when every page leads on.
   */
  lemma {:induction false} FollowExactly<S>(encode: Encoder, decode: Decoder, start: set<Key>, snapshots: seq<Runs<S>>,
          before: Option<Key>, limit: nat)
    requires limit > 0 && forall k :: Honest(encode, decode, k)
    requires AllNewer(start, snapshots)
    requires before.Some? ==> before.value in start
    requires before.None? ==> snapshots != [] && snapshots[0].Keys == start
    requires Capacity(|snapshots|, limit) > |Below(start, before)|
    ensures Follow(encode, decode, snapshots, before, limit).1 <==>
            PagesLead(encode, decode, NewestFirst(Below(start, before)), limit)
    ensures Follow(encode, decode, snapshots, before, limit).1 ==>
              Follow(encode, decode, snapshots, before, limit).0 == NewestFirst(Below(start, before))
    decreases |snapshots|
  {
    hide NewestFirst, Follow, Older;
    var all := NewestFirst(Below(start, before));
    SameBelow(start, snapshots, before);
    if |all| <= limit {
      LastPage(encode, decode, snapshots, before, limit, all);
    } else {
      AfterPage(start, before, limit, all);
      assert Honest(encode, decode, all[limit - 1]);
      if Inverse(encode, decode, all[limit - 1]) {
        FollowExactly(encode, decode, start, snapshots[1..], Some(all[limit - 1]), limit);
        FollowOn(encode, decode, snapshots, before, limit, all);
        Rejoined(all, limit);
      } else {
        RefusedEnds(encode, decode, snapshots, before, limit, all);
      }
    }
  }

  /** The runs that end a page other than the last. */
  predicate EndsPage(all: seq<Key>, limit: nat, n: nat, k: Key) {
    0 < n && 0 < limit && 0 < Capacity(n, limit) < |all| && all[Capacity(n, limit) - 1] == k
  }

  lemma {:induction false} PagesLeadExactly(encode: Encoder, decode: Decoder, all: seq<Key>, limit: nat)
    requires limit > 0
    ensures PagesLead(encode, decode, all, limit) <==>
            forall n, k :: EndsPage(all, limit, n, k) ==> Inverse(encode, decode, k)
    decreases |all|
  {
    if |all| <= limit {
      forall n: nat | n > 0
        ensures Capacity(n, limit) >= limit
      {
      }
    } else {
      var rest := all[limit..];
      PagesLeadExactly(encode, decode, rest, limit);
      assert Capacity(1, limit) == limit;
      assert EndsPage(all, limit, 1, all[limit - 1]);
      forall n: nat, k | n > 1
        ensures EndsPage(all, limit, n, k) <==> EndsPage(rest, limit, n - 1, k)
      {
        assert Capacity(n, limit) == limit + Capacity(n - 1, limit);
        assert Capacity(n - 1, limit) == limit + Capacity(n - 2, limit);
      }
      forall n: nat, k | EndsPage(rest, limit, n, k)
        ensures EndsPage(all, limit, n + 1, k)
      {
        assert Capacity(n + 1, limit) == limit + Capacity(n, limit);
      }
    }
  }

  /** What a complete walk owes: every run that was there, in order, nothing at or above the bound. */
  predicate Complete(start: set<Key>, before: Option<Key>, listed: seq<Key>) {
    && Descends(listed)
    && (forall k :: k in start && (before.Some? ==> Older(k, before.value)) ==> k in listed)
    && (before.Some? ==> forall k :: k in listed ==> Older(k, before.value))
  }

  lemma FirstPageOf(keys: set<Key>, before: Option<Key>, limit: nat, page: seq<Key>)
    requires 0 < limit < |Below(keys, before)| && page == NewestFirst(Below(keys, before))[..limit]
    ensures Descends(page)
    ensures forall k ::
              k in page ==>
                && k in keys
                && (before.Some? ==> Older(k, before.value))
                && (k == page[limit - 1] || Older(page[limit - 1], k))
    ensures forall k ::
              k in keys && (before.Some? ==> Older(k, before.value)) ==> k in page || Older(k, page[limit - 1])
  {
    hide NewestFirst, Older;
    var below := Below(keys, before);
    var all := NewestFirst(below);
    NewestFirstDescends(below);
    forall k | k in page
      ensures k in below && (k == page[limit - 1] || Older(page[limit - 1], k))
    {
      var i :| 0 <= i < limit && page[i] == k;
      assert all[i] in all;
    }
    forall k | k in below
      ensures k in page || Older(k, page[limit - 1])
    {
      var i :| 0 <= i < |all| && all[i] == k;
      assert i < limit ==> page[i] == k;
    }
  }

  lemma PagesJoin(start: set<Key>, keys: set<Key>, before: Option<Key>, limit: nat, page: seq<Key>, more: seq<Key>)
    requires start <= keys && 0 < limit < |Below(keys, before)| && page == NewestFirst(Below(keys, before))[..limit]
    requires Complete(start, Some(page[limit - 1]), more)
    ensures Complete(start, before, page + more)
  {
    FirstPageOf(keys, before, limit, page);
    var last := page[limit - 1];
    var listed := page + more;
    forall i, j | 0 <= i < j < |listed|
      ensures Older(listed[j], listed[i])
    {
      if j >= limit {
        assert listed[j] == more[j - limit] && Older(listed[j], last);
        if i < limit - 1 {
          OlderTransitive(listed[j], last, listed[i]);
        }
      }
    }
    forall k | k in more && before.Some?
      ensures Older(k, before.value)
    {
      assert last in page;
      OlderTransitive(k, last, before.value);
    }
  }

  /**
   * Whatever runs are added between the requests, a walk that reaches the end missed no run
   * that was there all along.
   */
  lemma {:induction false} NothingMissed<S>(encode: Encoder, decode: Decoder, start: set<Key>,
          snapshots: seq<Runs<S>>, before: Option<Key>, limit: nat)
    requires limit > 0 && forall k :: Honest(encode, decode, k)
    requires forall r :: r in snapshots ==> start <= r.Keys
    requires Follow(encode, decode, snapshots, before, limit).1
    ensures Complete(start, before, Follow(encode, decode, snapshots, before, limit).0)
    decreases |snapshots|
  {
    var all := NewestFirst(Below(snapshots[0].Keys, before));
    assert snapshots[0] in snapshots;
    if |all| > limit {
      assert Honest(encode, decode, all[limit - 1]);
      if decode(encode(all[limit - 1])) == None {
        RefusedEnds(encode, decode, snapshots, before, limit, all);
      }
      FollowOn(encode, decode, snapshots, before, limit, all);
      NothingMissed(encode, decode, start, snapshots[1..], Some(all[limit - 1]), limit);
      PagesJoin(start, snapshots[0].Keys, before, limit, all[..limit],
                Follow(encode, decode, snapshots[1..], Some(all[limit - 1]), limit).0);
    } else {
      LastPage(encode, decode, snapshots, before, limit, all);
      NewestFirstDescends(Below(snapshots[0].Keys, before));
    }
  }

  // ---- With the real cursors ----

  function CursorTo(engagementId: Text, k: Key): Text {
    C.EncodeCursor(C.Cursor(engagementId, k.createdAt, k.id))
  }

  function KeyFrom(p: C.Platform, engagementId: Text, cursor: Text): Option<Key> {
    match C.DecodeCursor(p, cursor, engagementId)
    case Some(c) => Some(Key(c.createdAt, c.id))
    case None => None
  }

  /** The run's ids and time are well formed and its cursor is not too long. */
  predicate CursorFits(p: C.Platform, engagementId: Text, k: Key) {
    && 1 <= |engagementId| <= 255 && p.validTime(k.createdAt) && 1 <= |k.id| <= 255
    && |CursorTo(engagementId, k)| <= 1024
  }

  lemma CursorsInvert(p: C.Platform, engagementId: Text, k: Key)
    requires C.PlatformOk(p)
    ensures KeyFrom(p, engagementId, CursorTo(engagementId, k)) ==
            if CursorFits(p, engagementId, k) then Some(k) else None
  {
    C.CursorRoundTrip(p, C.Cursor(engagementId, k.createdAt, k.id));
  }

  /**
   * However runs change state and newer ones arrive in between, following `nextCursor` ends,
   * within one request more than there are full pages of the runs present at the start,
   * exactly when every run that ends a page has a cursor that fits. It then has listed each
   * of them exactly once, newest first.
   */
  lemma EveryRunOnce<S>(p: C.Platform, engagementId: Text, snapshots: seq<Runs<S>>, limit: nat)
    requires C.PlatformOk(p) && limit > 0 && snapshots != []
    requires forall r :: r in snapshots ==> OnlyNewer(snapshots[0].Keys, r)
    requires Capacity(|snapshots|, limit) > |snapshots[0].Keys|
    ensures var (listed, ended) :=
              Follow(k => CursorTo(engagementId, k), t => KeyFrom(p, engagementId, t), snapshots, None, limit);
            && (ended <==> forall n, k ::
                    EndsPage(NewestFirst(snapshots[0].Keys), limit, n, k) ==> CursorFits(p, engagementId, k))
            && (ended ==>
                  && |listed| == |snapshots[0].Keys| && (forall k :: k in listed <==> k in snapshots[0].Keys)
                  && LatestFirst(listed))
  {
    var start := snapshots[0].Keys;
    var encode: Encoder, decode: Decoder := k => CursorTo(engagementId, k), t => KeyFrom(p, engagementId, t);
    forall k
      ensures Honest(encode, decode, k) && (Inverse(encode, decode, k) <==> CursorFits(p, engagementId, k))
    {
      CursorsInvert(p, engagementId, k);
    }
    assert Below(start, None) == start;
    FollowExactly(encode, decode, start, snapshots, None, limit);
    PagesLeadExactly(encode, decode, NewestFirst(start), limit);
    NewestFirstLists(start);
  }

  /**
   * With runs added anywhere between the requests, a walk that reaches the end has listed
   * every run that was there throughout, each newer than the next.
   */
  lemma NoRunMissed<S>(p: C.Platform, engagementId: Text, start: set<Key>, snapshots: seq<Runs<S>>, limit: nat)
    requires C.PlatformOk(p) && limit > 0
    requires forall r :: r in snapshots ==> start <= r.Keys
    ensures var (listed, ended) :=
              Follow(k => CursorTo(engagementId, k), t => KeyFrom(p, engagementId, t), snapshots, None, limit);
            ended ==> LatestFirst(listed) && forall k :: k in start ==> k in listed
  {
    var encode: Encoder, decode: Decoder := k => CursorTo(engagementId, k), t => KeyFrom(p, engagementId, t);
    forall k
      ensures Honest(encode, decode, k)
    {
      CursorsInvert(p, engagementId, k);
    }
    if Follow(encode, decode, snapshots, None, limit).1 {
      NothingMissed(encode, decode, start, snapshots, None, limit);
      LatestIs(Follow(encode, decode, snapshots, None, limit).0);
    }
  }
}
