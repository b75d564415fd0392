/** Searching the preserved output of a run: at most eight artifacts, within a budget of bytes. */
module OutputSearch {
  import opened Bytes
  import opened Unicode
  import opened Utf8Text

  const SCAN_MAX_BYTES := 262144
  const MAX_CANDIDATES := 8

  /**
   * What a verified download brings: its size, the chunks that arrive, and whether the stream
   * breaks off after them.
   */
  datatype Download = Missing | Ready(size: nat, chunks: seq<seq<Byte>>, breaks: bool)

  datatype Artifact = Artifact(id: string, download: Download)

  /** A complete stream brings exactly the verified size. */
  predicate DownloadOk(d: Download) {
    d.Ready? ==> |Flatten(d.chunks)| <= d.size && (!d.breaks ==> |Flatten(d.chunks)| == d.size)
  }

  datatype Hit = Hit(at: nat, length: nat)

  type Finder = (seq<Scalar>, nat) -> seq<Hit>

  /** Hits in order, not overlapping, inside the text, and not too many. */
  predicate HitsOk(hits: seq<Hit>, size: nat, max: nat) {
    && |hits| <= max
    && (forall i :: 0 <= i < |hits| ==> hits[i].at + hits[i].length <= size)
    && forall i, j :: 0 <= i < j < |hits| ==> hits[i].at + hits[i].length <= hits[j].at
  }

  ghost predicate Orderly(find: Finder) {
    forall text, max :: HitsOk(find(text, max), |text|, max)
  }

  datatype Match = Match(artifactId: string, byteOffset: nat, byteLength: nat)

  /** The match of a hit in a text, by the UTF-8 length of what comes before it and of itself. */
  function MatchAt(id: string, text: seq<Scalar>, hit: Hit): Match
    requires hit.at + hit.length <= |text|
  {
    Match(id, |Utf8All(text[..hit.at])|, |Utf8All(text[hit.at..hit.at + hit.length])|)
  }

  lemma {:induction false} Utf8Append(a: seq<Scalar>, b: seq<Scalar>)
    ensures Utf8All(a + b) == Utf8All(a) + Utf8All(b)
  {
    if a == [] {
      assert a + b == b;
    } else {
      assert (a + b)[1..] == a[1..] + b;
      Utf8Append(a[1..], b);
    }
  }

  lemma Halves(points: seq<Scalar>, from: nat, to: nat)
    requires from <= to <= |points|
    ensures points[..from] + points[from..to] == points[..to]
    ensures points[..to] + points[to..] == points
  {
  }

  lemma EncodedPrefix(points: seq<Scalar>, from: nat, to: nat)
    requires from <= to <= |points|
    ensures Utf8All(points[..to]) == Utf8All(points[..from]) + Utf8All(points[from..to])
  {
    Halves(points, from, to);
    Utf8Append(points[..from], points[from..to]);
  }

  lemma EncodedHalves(points: seq<Scalar>, at: nat)
    requires at <= |points|
    ensures Utf8All(points) == Utf8All(points[..at]) + Utf8All(points[at..])
  {
    Halves(points, at, at);
    Utf8Append(points[..at], points[at..]);
  }

  /** The matches found so far are those of the first hits. */
  predicate MatchesOf(id: string, points: seq<Scalar>, hits: seq<Hit>, matches: seq<Match>) {
    && |matches| <= |hits| && HitsOk(hits, |points|, |hits|)
    && forall i :: 0 <= i < |matches| ==> IsMatch(id, points, hits[i], matches[i])
  }

  predicate IsMatch(id: string, points: seq<Scalar>, hit: Hit, m: Match) {
    hit.at + hit.length <= |points| && m == MatchAt(id, points, hit)
  }

  lemma MatchFound(id: string, points: seq<Scalar>, hits: seq<Hit>, matches: seq<Match>, m: Match)
    requires MatchesOf(id, points, hits, matches) && |matches| < |hits| && IsMatch(id, points, hits[|matches|], m)
    ensures MatchesOf(id, points, hits, matches + [m])
  {
  }

  /** The offset advances by the length of the text between one hit and the next. */
  method LocateHits(id: string, points: seq<Scalar>, hits: seq<Hit>) returns (matches: seq<Match>)
    requires HitsOk(hits, |points|, |hits|)
    ensures |matches| == |hits|
    ensures forall i :: 0 <= i < |hits| ==> matches[i] == MatchAt(id, points, hits[i])
  {
    matches := [];
    var charOffset, byteOffset := 0, 0;
    var i := 0;
    while i < |hits|
      invariant i <= |hits| && |matches| == i && MatchesOf(id, points, hits, matches)
      invariant charOffset == (if i == 0 then 0 else hits[i - 1].at)
      invariant charOffset <= |points| && byteOffset == |Utf8All(points[..charOffset])|
    {
      var hit := hits[i];
      var m := MatchFrom(id, points, hit, charOffset, byteOffset);
      MatchFound(id, points, hits, matches, m);
      charOffset, byteOffset := hit.at, m.byteOffset;
      matches := matches + [m];
      i := i + 1;
    }
    assert forall j :: 0 <= j < |hits| ==> IsMatch(id, points, hits[j], matches[j]);
  }

  method MatchFrom(id: string, points: seq<Scalar>, hit: Hit, charOffset: nat, byteOffset: nat) returns (m: Match)
    requires charOffset <= hit.at && hit.at + hit.length <= |points| && byteOffset == |Utf8All(points[..charOffset])|
    ensures m == MatchAt(id, points, hit)
  {
    EncodedPrefix(points, charOffset, hit.at);
    m := Match(id, byteOffset + |Utf8All(points[charOffset..hit.at])|, |Utf8All(points[hit.at..hit.at + hit.length])|);
  }

  /** Takes chunks until the budget is spent; fails when the stream breaks off before that. */
  method ReadPrefix(chunks: seq<seq<Byte>>, breaks: bool, budget: nat) returns (ok: bool, raw: seq<Byte>)
    requires budget > 0
    ensures ok <==> !breaks || |Flatten(chunks)| >= budget
    ensures ok ==> raw == Take(Flatten(chunks), budget)
  {
    raw := [];
    var i := 0;
    assert chunks[0..] == chunks;
    while i < |chunks|
      invariant i <= |chunks| && |raw| < budget
      invariant Flatten(chunks) == raw + Flatten(chunks[i..])
    {
      var room := budget - |raw|;
      var slice := if room < |chunks[i]| then chunks[i][..room] else chunks[i];
      assert chunks[i..][1..] == chunks[i + 1..];
      Rejoin(raw, chunks[i], Flatten(chunks[i + 1..]), |slice|);
      raw := raw + slice;
      if |raw| >= budget {
        return true, raw;
      }
      i := i + 1;
    }
    ok := !breaks;
  }

  lemma Rejoin(raw: seq<Byte>, chunk: seq<Byte>, rest: seq<Byte>, n: nat)
    requires n <= |chunk|
    ensures raw + (chunk + rest) == (raw + chunk[..n]) + (chunk[n..] + rest)
    ensures n == |chunk| ==> chunk[..n] == chunk && chunk[n..] + rest == rest
  {
  }

  /** What became of the candidates so far: the bytes searched in each. */
  function Total(scanned: seq<nat>): nat {
    if scanned == [] then 0 else Total(scanned[..|scanned| - 1]) + scanned[|scanned| - 1]
  }

  lemma TotalGrows(scanned: seq<nat>, n: nat)
    ensures Total(scanned + [n]) == Total(scanned) + n
  {
  }

  /** Nothing of the artifact was missed: reported unavailable, or searched to its last byte. */
  predicate Covered(a: Artifact, unavailable: seq<string>, searched: nat) {
    a.id in unavailable || (a.download.Ready? && searched == a.download.size)
  }

  /** The artifact is gone, or its download breaks off before the bytes to search are there. */
  predicate IsUnavailable(a: Artifact, left: int) {
    || a.download.Missing?
    || (a.download.breaks && |Flatten(a.download.chunks)| < a.download.size && |Flatten(a.download.chunks)| < left)
  }

  function IdIfUnavailable(a: Artifact, left: int): seq<string> {
    if IsUnavailable(a, left) then [a.id] else []
  }

  /** The ids of the unavailable ones among the candidates gone through, in order. */
  function UnavailableIds(candidates: seq<Artifact>, scanned: seq<nat>): seq<string>
    requires |scanned| <= |candidates|
  {
    if scanned == [] then []
    else
      var n := |scanned| - 1;
      var before := scanned[..n];
      UnavailableIds(candidates, before) + IdIfUnavailable(candidates[n], 262144 - Total(before))
  }

  /** Candidate `k` was searched, but not to its last byte. */
  predicate Missed(candidates: seq<Artifact>, scanned: seq<nat>, k: nat)
    requires |scanned| <= |candidates|
  {
    && k < |scanned| && !IsUnavailable(candidates[k], 262144 - Total(scanned[..k]))
    && scanned[k] != candidates[k].download.size
  }

  predicate AnyMissed(candidates: seq<Artifact>, scanned: seq<nat>)
    requires |scanned| <= |candidates|
  {
    exists k :: 0 <= k < |scanned| && Missed(candidates, scanned, k)
  }

  lemma NoneScanned(candidates: seq<Artifact>)
    ensures UnavailableIds(candidates, []) == [] && !AnyMissed(candidates, [])
  {
  }

  /** What one more candidate adds to either. */
  lemma {:induction false} UnavailableOn(candidates: seq<Artifact>, scanned: seq<nat>, n: nat)
    requires |scanned| < |candidates|
    ensures UnavailableIds(candidates, scanned + [n]) ==
            UnavailableIds(candidates, scanned) + IdIfUnavailable(candidates[|scanned|], 262144 - Total(scanned))
  {
    var more := scanned + [n];
    assert more[..|more| - 1] == scanned;
  }

  lemma {:induction false} MissedOn(candidates: seq<Artifact>, scanned: seq<nat>, n: nat)
    requires |scanned| < |candidates|
    ensures AnyMissed(candidates, scanned + [n]) <==>
              || AnyMissed(candidates, scanned)
              || (!IsUnavailable(candidates[|scanned|], 262144 - Total(scanned))
                  && n != candidates[|scanned|].download.size)
  {
    var more, k := scanned + [n], |scanned|;
    forall j | 0 <= j < k
      ensures Missed(candidates, more, j) <==> Missed(candidates, scanned, j)
    {
      assert more[..j] == scanned[..j];
    }
    assert more[..k] == scanned;
    assert Missed(candidates, more, k) <==>
      !IsUnavailable(candidates[k], 262144 - Total(scanned)) && n != candidates[k].download.size;
  }

  lemma {:induction false} SameScanned(candidates: seq<Artifact>, eligible: seq<Artifact>, scanned: seq<nat>)
    requires |scanned| <= |candidates| && candidates <= eligible
    ensures UnavailableIds(eligible, scanned) == UnavailableIds(candidates, scanned)
    ensures AnyMissed(eligible, scanned) <==> AnyMissed(candidates, scanned)
  {
    if scanned != [] {
      SameScanned(candidates, eligible, scanned[..|scanned| - 1]);
    }
    assert forall k :: 0 <= k < |scanned| ==> (Missed(eligible, scanned, k) <==> Missed(candidates, scanned, k));
  }

  /** The text that was searched in an artifact of which `n` bytes were. */
  function SearchedText(a: Artifact, n: nat): seq<Scalar>
    requires a.download.Ready? && n <= |Flatten(a.download.chunks)| && Valid(Flatten(a.download.chunks)[..n])
  {
    Shown(Points(Flatten(a.download.chunks)[..n]))
  }

  /** Match `m` is a hit in what was searched of candidate `k`. */
  ghost predicate Located(candidates: seq<Artifact>, scanned: seq<nat>, m: Match, k: nat, hit: Hit) {
    && k < |candidates| && k < |scanned| && candidates[k].download.Ready?
    && scanned[k] <= |Flatten(candidates[k].download.chunks)|
    && Valid(Flatten(candidates[k].download.chunks)[..scanned[k]])
    && hit.at + hit.length <= |SearchedText(candidates[k], scanned[k])|
    && m == MatchAt(candidates[k].id, SearchedText(candidates[k], scanned[k]), hit)
  }

  ghost predicate IsLocated(candidates: seq<Artifact>, scanned: seq<nat>, m: Match) {
    exists k, hit :: Located(candidates, scanned, m, k, hit)
  }

  /** The matches of hits in a text, in their order. */
  function MatchesAt(id: string, text: seq<Scalar>, hits: seq<Hit>): seq<Match>
    requires HitsOk(hits, |text|, |hits|)
  {
    seq(|hits|, i requires 0 <= i < |hits| => MatchAt(id, text, hits[i]))
  }

  /** What an artifact of which `n` bytes were searched contributes: every hit found, up to `max`, in order. */
  function Found(a: Artifact, n: nat, max: nat, find: Finder): seq<Match> {
    if a.download.Ready? && 0 < n <= |Flatten(a.download.chunks)| && Valid(Flatten(a.download.chunks)[..n]) then
      var hits := find(SearchedText(a, n), max);
      if HitsOk(hits, |SearchedText(a, n)|, |hits|) then MatchesAt(a.id, SearchedText(a, n), hits) else []
    else []
  }

  /** What an artifact adds to the matches before it, as much as there is room left for. */
  function Added(before: seq<Match>, a: Artifact, n: nat, limit: nat, find: Finder): (r: seq<Match>)
    ensures |before| <= limit ==> r == before + Found(a, n, limit - |before|, find)
  {
    if |before| <= limit then before + Found(a, n, limit - |before|, find) else before
  }

  /** What the artifacts gone through contribute, one after the other. */
  function Reported(candidates: seq<Artifact>, scanned: seq<nat>, limit: nat, find: Finder): seq<Match>
    requires |scanned| <= |candidates|
  {
    if scanned == [] then []
    else
      var n := |scanned| - 1;
      Added(Reported(candidates, scanned[..n], limit, find), candidates[n], scanned[n], limit, find)
  }

  lemma NoneReported(candidates: seq<Artifact>, limit: nat, find: Finder)
    ensures Reported(candidates, [], limit, find) == []
  {
  }

  lemma ReportedOn(candidates: seq<Artifact>, scanned: seq<nat>, n: nat, limit: nat, find: Finder)
    requires |scanned| < |candidates|
    ensures Reported(candidates, scanned + [n], limit, find) ==
            Added(Reported(candidates, scanned, limit, find), candidates[|scanned|], n, limit, find)
  {
    var more := scanned + [n];
    assert more[..|more| - 1] == scanned && more[|more| - 1] == n;
  }

  lemma {:induction false} ReportedOf(candidates: seq<Artifact>, eligible: seq<Artifact>, scanned: seq<nat>,
          limit: nat, find: Finder)
    requires |scanned| <= |candidates| && candidates <= eligible
    ensures Reported(eligible, scanned, limit, find) == Reported(candidates, scanned, limit, find)
  {
    if scanned != [] {
      ReportedOf(candidates, eligible, scanned[..|scanned| - 1], limit, find);
    }
  }

  /** The bytes an artifact may be searched for. */
  function Budget(size: nat, left: nat): nat {
    if size < left then size else left
  }

  datatype Scan = Unavailable | Exhausted | Searched(bytes: nat, complete: bool, matches: seq<Match>)

  function BytesOf(scan: Scan): nat {
    if scan.Searched? then scan.bytes else 0
  }

  function MatchesIn(scan: Scan): seq<Match> {
    if scan.Searched? then scan.matches else []
  }

  /** One candidate, with `left` bytes of the budget and room for `max` matches. */
  method ScanCandidate(a: Artifact, left: nat, max: nat, find: Finder) returns (scan: Scan)
    requires DownloadOk(a.download) && Orderly(find)
    ensures scan.Unavailable? <==> IsUnavailable(a, left)
    ensures scan.Exhausted? <==> left == 0 && a.download.Ready? && a.download.size > 0
    ensures scan.Searched? ==>
              && a.download.Ready? && scan.bytes <= left && |scan.matches| <= max
              && scan.bytes <= |Flatten(a.download.chunks)| && Valid(Flatten(a.download.chunks)[..scan.bytes])
              && Flatten(a.download.chunks)[..scan.bytes] ==
                 Trimmed(Take(Flatten(a.download.chunks), Budget(a.download.size, left)))
              && (scan.complete <==> scan.bytes == a.download.size)
    ensures !scan.Exhausted? ==> MatchesIn(scan) == Found(a, BytesOf(scan), max, find)
  {
    if a.download.Missing? {
      return Unavailable;
    }
    var content := Flatten(a.download.chunks);
    if a.download.size == 0 {
      assert content == [];
      return Searched(0, true, []);
    }
    var budget := Budget(a.download.size, left);
    if budget == 0 {
      return Exhausted;
    }
    var ok, raw := ReadPrefix(a.download.chunks, a.download.breaks, budget);
    if !ok {
      return Unavailable;
    }
    var prefix := CompleteUtf8Prefix(raw);
    assert prefix == content[..|prefix|];
    var complete := |raw| == a.download.size && |prefix| == |raw|;
    if |prefix| == 0 {
      return Searched(0, complete, []);
    }
    var text := Shown(Points(prefix));
    var hits := find(text, max);
    assert HitsOk(find(text, max), |text|, max);
    var matches := LocateHits(a.id, text, hits);
    assert matches == MatchesAt(a.id, text, hits);
    scan := Searched(|prefix|, complete, matches);
  }

  /** What is found in an artifact is located in what was searched of it. */
  lemma FoundLocated(a: Artifact, n: nat, max: nat, find: Finder)
    ensures forall m :: m in Found(a, n, max, find) ==> exists hit :: Located([a], [n], m, 0, hit)
  {
    forall m | m in Found(a, n, max, find)
      ensures exists hit :: Located([a], [n], m, 0, hit)
    {
      var text := SearchedText(a, n);
      var hits := find(text, max);
      var j :| 0 <= j < |hits| && MatchAt(a.id, text, hits[j]) == m;
      assert Located([a], [n], m, 0, hits[j]);
    }
  }

  datatype SearchResult = SearchResult(matches: seq<Match>, searchedBytes: nat, scanCapped: bool,
          unavailable: seq<string>)

  /** Every candidate gone through so far was covered, unless the scan says it was capped. */
  ghost predicate AllCovered(candidates: seq<Artifact>, scanned: seq<nat>, unavailable: seq<string>) {
    && |scanned| <= |candidates|
    && forall k :: 0 <= k < |scanned| ==> Covered(candidates[k], unavailable, scanned[k])
  }

  ghost predicate AllLocated(candidates: seq<Artifact>, scanned: seq<nat>, matches: seq<Match>) {
    forall m :: m in matches ==> IsLocated(candidates, scanned, m)
  }

  lemma CoveredOn(candidates: seq<Artifact>, scanned: seq<nat>, n: nat, unavailable: seq<string>, more: seq<string>)
    requires |scanned| < |candidates| && AllCovered(candidates, scanned, unavailable)
    requires Covered(candidates[|scanned|], unavailable + more, n)
    ensures AllCovered(candidates, scanned + [n], unavailable + more)
  {
  }

  /** Everything reported is located. */
  lemma {:induction false} ReportedLocated(candidates: seq<Artifact>, scanned: seq<nat>, limit: nat, find: Finder)
    requires |scanned| <= |candidates|
    ensures AllLocated(candidates, scanned, Reported(candidates, scanned, limit, find))
  {
    if scanned != [] {
      var n := |scanned| - 1;
      var before := Reported(candidates, scanned[..n], limit, find);
      ReportedLocated(candidates, scanned[..n], limit, find);
      if |before| <= limit {
        FoundLocated(candidates[n], scanned[n], limit - |before|, find);
      }
      forall m | m in Reported(candidates, scanned, limit, find)
        ensures IsLocated(candidates, scanned, m)
      {
        AddedLocated(candidates, scanned, before, limit, find, m);
      }
    }
  }

  lemma AddedLocated(candidates: seq<Artifact>, scanned: seq<nat>, before: seq<Match>, limit: nat, find: Finder,
          m: Match)
    requires 0 < |scanned| <= |candidates| && AllLocated(candidates, scanned[..|scanned| - 1], before)
    requires m in Added(before, candidates[|scanned| - 1], scanned[|scanned| - 1], limit, find)
    ensures IsLocated(candidates, scanned, m)
  {
    var n := |scanned| - 1;
    if m in before {
      assert IsLocated(candidates, scanned[..n], m);
      var k, hit :| Located(candidates, scanned[..n], m, k, hit);
      assert Located(candidates, scanned, m, k, hit);
    } else {
      FoundLocated(candidates[n], scanned[n], limit - |before|, find);
      var hit :| Located([candidates[n]], [scanned[n]], m, 0, hit);
      assert Located(candidates, scanned, m, n, hit);
    }
  }

  /**
   * Searches the eligible artifacts, at most eight of them and within the budget, and
   * reports every hit found in what was searched, in order. When the result is neither
   * capped nor full, nothing was missed; every match is located in the searched text.
   */
  method SearchOutput(eligible: seq<Artifact>, limit: nat, find: Finder) returns (r: SearchResult,
          ghost scanned: seq<nat>)
    requires Orderly(find) && forall a :: a in eligible ==> DownloadOk(a.download)
    ensures r.searchedBytes == Total(scanned) <= 262144
    ensures |scanned| <= |eligible| && |scanned| <= 8
    ensures r.unavailable == UnavailableIds(eligible, scanned)
    ensures r.scanCapped <==>
              || |eligible| > 8 || AnyMissed(eligible, scanned) || (|scanned| < |eligible| && |r.matches| < limit)
    ensures r.matches == Reported(eligible, scanned, limit, find) && |r.matches| <= limit
    ensures !r.scanCapped && |r.matches| < limit ==>
              && |scanned| == |eligible|
              && forall k :: 0 <= k < |eligible| ==>
                   eligible[k].id in r.unavailable
                   || (eligible[k].download.Ready? && scanned[k] == eligible[k].download.size)
    ensures AllLocated(eligible, scanned, r.matches)
  {
    hide Found, Reported, IsUnavailable, UnavailableIds, AnyMissed;
    var candidates := if |eligible| <= MAX_CANDIDATES then eligible else eligible[..MAX_CANDIDATES];
    var matches: seq<Match>, searchedBytes: nat, unavailable: seq<string> := [], 0, [];
    var scanCapped := |eligible| > |candidates|;
    scanned := [];
    NoneReported(candidates, limit, find);
    NoneScanned(candidates);
    var i := 0;
    while i < |candidates| && |matches| < limit
      invariant i <= |candidates| && |scanned| == i && |matches| <= limit
      invariant searchedBytes == Total(scanned) <= SCAN_MAX_BYTES
      invariant scanCapped <==> |eligible| > 8 || AnyMissed(candidates, scanned)
      invariant unavailable == UnavailableIds(candidates, scanned)
      invariant !scanCapped ==> AllCovered(candidates, scanned, unavailable)
      invariant matches == Reported(candidates, scanned, limit, find)
    {
      assert candidates[i] in eligible;
      var scan := ScanCandidate(candidates[i], SCAN_MAX_BYTES - searchedBytes, limit - |matches|, find);
      if scan.Exhausted? {
        scanCapped := true;
        break;
      }
      Recorded(candidates, scanned, scan, limit, find, unavailable);
      UnavailableOn(candidates, scanned, BytesOf(scan));
      MissedOn(candidates, scanned, BytesOf(scan));
      if scan.Unavailable? {
        unavailable := unavailable + [candidates[i].id];
      } else {
        if !scan.complete {
          scanCapped := true;
        }
        searchedBytes := searchedBytes + scan.bytes;
        matches := matches + scan.matches;
      }
      scanned := scanned + [BytesOf(scan)];
      i := i + 1;
    }
    SameScanned(candidates, eligible, scanned);
    ReportedOf(candidates, eligible, scanned, limit, find);
    ReportedLocated(eligible, scanned, limit, find);
    r := SearchResult(matches, searchedBytes, scanCapped, unavailable);
  }

  /** What one candidate that was not out of budget adds to the bytes, the coverage and the matches. */
  lemma Recorded(candidates: seq<Artifact>, scanned: seq<nat>, scan: Scan, limit: nat, find: Finder,
          unavailable: seq<string>)
    requires |scanned| < |candidates| && |Reported(candidates, scanned, limit, find)| <= limit && !scan.Exhausted?
    requires var before := Reported(candidates, scanned, limit, find);
             MatchesIn(scan) == Found(candidates[|scanned|], BytesOf(scan), limit - |before|, find)
    requires scan.Searched? && scan.complete ==>
               candidates[|scanned|].download.Ready? && scan.bytes == candidates[|scanned|].download.size
    ensures Total(scanned + [BytesOf(scan)]) == Total(scanned) + BytesOf(scan)
    ensures Reported(candidates, scanned + [BytesOf(scan)], limit, find) ==
            Reported(candidates, scanned, limit, find) + MatchesIn(scan)
    ensures var more := if scan.Unavailable? then unavailable + [candidates[|scanned|].id] else unavailable;
            AllCovered(candidates, scanned, unavailable) && (scan.Searched? ==> scan.complete)
            ==> AllCovered(candidates, scanned + [BytesOf(scan)], more)
  {
    hide Found;
    TotalGrows(scanned, BytesOf(scan));
    ReportedOn(candidates, scanned, BytesOf(scan), limit, find);
    if AllCovered(candidates, scanned, unavailable) && (scan.Searched? ==> scan.complete) {
      var more := if scan.Unavailable? then [candidates[|scanned|].id] else [];
      CoveredOn(candidates, scanned, BytesOf(scan), unavailable, more);
      assert unavailable + [] == unavailable;
    }
  }

  // ---- What a byte offset means ----

  /** How far the reported offsets are off: the three bytes of a leading byte order mark the decoder dropped. */
  function BomLength(points: seq<Scalar>): nat {
    if points != [] && points[0] == 0xfeff then 3 else 0
  }

  lemma ShownBytes(points: seq<Scalar>)
    ensures |Utf8All(points)| >= BomLength(points)
    ensures Utf8All(points)[BomLength(points)..] == Utf8All(Shown(points))
  {
  }

  /** `found` stands at offset `from` of `all`. */
  predicate StandsAt(all: seq<Byte>, from: nat, found: seq<Byte>) {
    from + |found| <= |all| && all[from..from + |found|] == found
  }

  lemma StandsBetween(all: seq<Byte>, upTo: seq<Byte>, before: seq<Byte>, found: seq<Byte>, after: seq<Byte>)
    requires all == upTo + after && upTo == before + found
    ensures StandsAt(all, |before|, found)
  {
  }

  lemma StandsLater(all: seq<Byte>, skip: nat, shown: seq<Byte>, from: nat, found: seq<Byte>)
    requires skip <= |all| && all[skip..] == shown && StandsAt(shown, from, found)
    ensures StandsAt(all, skip + from, found)
  {
    assert all[skip + from..skip + from + |found|] == shown[from..from + |found|];
  }

  lemma TextStands(text: seq<Scalar>, at: nat, to: nat)
    requires at <= to <= |text|
    ensures StandsAt(Utf8All(text), |Utf8All(text[..at])|, Utf8All(text[at..to]))
  {
    EncodedHalves(text, to);
    EncodedPrefix(text, at, to);
    StandsBetween(Utf8All(text), Utf8All(text[..to]), Utf8All(text[..at]), Utf8All(text[at..to]), Utf8All(text[to..]));
  }

  /** The bytes at a match's offset, counted after a byte order mark, are the encoding of the matched text. */
  lemma OffsetIs(id: string, points: seq<Scalar>, hit: Hit)
    requires hit.at + hit.length <= |Shown(points)|
    ensures var m, found := MatchAt(id, Shown(points), hit), Shown(points)[hit.at..hit.at + hit.length];
            StandsAt(Utf8All(points), BomLength(points) + m.byteOffset, Utf8All(found))
            && m.byteLength == |Utf8All(found)|
  {
    var text, to := Shown(points), hit.at + hit.length;
    TextStands(text, hit.at, to);
    ShownBytes(points);
    StandsLater(Utf8All(points), BomLength(points), Utf8All(text), |Utf8All(text[..hit.at])|,
                Utf8All(text[hit.at..to]));
  }

  /**
   * Exactly when a reported offset is the hit's position in the artifact: the searched
   * text has no leading byte order mark.
   */
  lemma OffsetExactly(id: string, points: seq<Scalar>, hit: Hit)
    requires hit.at + hit.length <= |Shown(points)|
    ensures var skipped := |points| - |Shown(points)|;
            MatchAt(id, Shown(points), hit).byteOffset == |Utf8All(points[..skipped + hit.at])| <==>
            points == [] || points[0] != 0xfeff
  {
    var text := Shown(points);
    var skipped := |points| - |text|;
    if skipped == 1 {
      assert points[..1 + hit.at] == [BOM] + text[..hit.at];
      Utf8Cons(BOM, text[..hit.at]);
    }
  }
}
