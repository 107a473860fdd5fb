/**
 * The visual-search endpoints: `visual_search`, which ranks the active products against an
 * uploaded image, and `extract_product_features`, which indexes the products that still lack a
 * descriptor.
 *
 * Scores are abstract ordered values (`real`); the cosine, the byte decoding of stored
 * descriptors, base64 decoding, image decoding and the 4-decimal rounding are parameters.
 */
module ProductViews {
  import opened Wrappers
  import opened VisualSearch
  import opened Indexing

  /** Scores must exceed this to count as a match. */
  const Threshold: real := 0.3
  /** At most this many matches are returned. */
  const TopN: nat := 10

  /** The foreign calls of `visual_search`. */
  datatype Env = Env(
    vision: Vision,
    cosine: Cosine,
    imdecode: seq<Byte> -> Option<Image>,     // None when the bytes are not a decodable image
    b64decode: string -> Option<seq<Byte>>,   // None when decoding raises
    fromFloat32: seq<Byte> -> Option<seq<real>>, // None when the length is not a multiple of 4 (raises)
    round4: real -> real)                     // rounding to 4 decimals

  /** An active product as the ranking sees it. */
  datatype Candidate = Candidate(id: nat, vector: Option<seq<Byte>>)

  /** One entry of the response's `results`. */
  datatype Match = Match(id: nat, score: real)

  // ---------------------------------------------------------------------------------------------
  // The base64 prefix of a data URL.

  const Marker: string := "base64,"

  /** `pat` occurs in `s` at position `i`. */
  predicate OccursAt(s: string, pat: string, i: nat)
  {
    i + |pat| <= |s| && s[i..i + |pat|] == pat
  }

  /** The first occurrence of `pat` in `s` at or after `from`. */
  function FirstFrom(s: string, pat: string, from: nat): (r: Option<nat>)
    requires |pat| > 0
    ensures r.Some? ==> from <= r.value && OccursAt(s, pat, r.value)
    ensures forall j :: from <= j && (r.None? || j < r.value) ==> !OccursAt(s, pat, j)
    decreases |s| - from
  {
    if from + |pat| > |s| then None
    else if s[from..from + |pat|] == pat then Some(from)
    else FirstFrom(s, pat, from + 1)
  }

  /** An occurrence with none before it (from `from` on) is the first one. */
  lemma {:induction false} FirstFromIs(s: string, pat: string, from: nat, i: nat)
    requires |pat| > 0 && from <= i && OccursAt(s, pat, i)
    requires forall j :: from <= j < i ==> !OccursAt(s, pat, j)
    ensures FirstFrom(s, pat, from) == Some(i)
    decreases i - from
  {
    if from < i {
      assert !OccursAt(s, pat, from);
      FirstFromIs(s, pat, from + 1, i);
    }
  }

  /**
   * What is base64-decoded: the whole string when it has no marker, otherwise the second field
   * of splitting it at every marker, which runs from the end of the first marker to the start
   * of the next one (or to the end). Either way the decoded text holds no marker.
   */
  function Payload(s: string): (r: string)
    ensures (forall j :: !OccursAt(s, Marker, j)) ==> r == s
    ensures forall j :: !OccursAt(r, Marker, j)
  {
    match FirstFrom(s, Marker, 0)
    case None => s
    case Some(i) =>
      assert OccursAt(s, Marker, i);
      match FirstFrom(s, Marker, i + |Marker|)
      case None =>
        NoMarkerInSlice(s, i + |Marker|, |s|);
        s[i + |Marker|..|s|]
      case Some(j) =>
        NoMarkerInSlice(s, i + |Marker|, j);
        s[i + |Marker|..j]
  }

  /** A slice of `s` in which no marker starts holds no marker. */
  lemma NoMarkerInSlice(s: string, lo: nat, hi: nat)
    requires lo <= hi <= |s|
    requires forall k :: lo <= k < hi ==> !OccursAt(s, Marker, k)
    ensures forall j :: !OccursAt(s[lo..hi], Marker, j)
  {
    var t := s[lo..hi];
    forall j: nat ensures !OccursAt(t, Marker, j) {
      if j + |Marker| <= |t| {
        var u, v := t[j..j + |Marker|], s[lo + j..lo + j + |Marker|];
        forall d | 0 <= d < |u| ensures u[d] == v[d] {
          assert u[d] == t[j + d] == s[lo + j + d];
        }
        assert u == v;
        assert !OccursAt(s, Marker, lo + j);
      }
    }
  }

  /**
   * A data URL `header + "base64," + body` whose header does not itself hold the marker and whose
   * body has no ',' (true of every base64 body) decodes exactly the body.
   */
  lemma PayloadOfDataUrl(header: string, body: string)
    requires forall j :: !OccursAt(header, Marker, j)
    requires ',' !in body
    ensures Payload(header + Marker + body) == body
  {
    var s := header + Marker + body;
    var i := |header|;
    assert s[i..i + |Marker|] == Marker;
    NoMarkerInHeader(header, s);
    FirstFromIs(s, Marker, 0, i);
    forall j | i + |Marker| <= j ensures !OccursAt(s, Marker, j) {
      if j + |Marker| <= |s| {
        assert s[j..j + |Marker|][6] == s[j + 6] == body[j + 6 - i - |Marker|];
      }
    }
    assert s[i + |Marker|..] == body;
  }

  /** A WebP data URL, whose header holds a 'b', decodes exactly its body. */
  lemma WebpDataUrl(body: string)
    requires ',' !in body
    ensures Payload("data:image/webp;" + Marker + body) == body
  {
    var header := "data:image/webp;";
    forall j: nat ensures !OccursAt(header, Marker, j) {
      if j + |Marker| <= |header| {
        assert header[j..j + |Marker|][6] == header[j + 6];
      }
    }
    PayloadOfDataUrl(header, body);
  }

  /**
   * When `s` starts with a header free of the marker followed by the marker, the first marker
   * of `s` is not inside the header: one that started there and reached into the marker would
   * need its ',' at a position holding one of "base64".
   */
  lemma NoMarkerInHeader(header: string, s: string)
    requires forall j :: !OccursAt(header, Marker, j)
    requires |header| + |Marker| <= |s| && s[..|header|] == header && s[|header|..|header| + |Marker|] == Marker
    ensures forall j :: 0 <= j < |header| ==> !OccursAt(s, Marker, j)
  {
    var i := |header|;
    forall j | 0 <= j < i ensures !OccursAt(s, Marker, j) {
      if j + |Marker| <= i {
        assert header[j..j + |Marker|] == s[j..j + |Marker|] by {
          assert s[..i][j..j + |Marker|] == s[j..j + |Marker|];
        }
        assert !OccursAt(header, Marker, j);
      } else {
        var d := j + 6 - i;
        assert 0 <= d < 6;
        assert s[j + 6] == s[i..i + |Marker|][d] == Marker[d];
        assert Marker[d] != ',';
        assert s[j..j + |Marker|][6] == s[j + 6];
      }
    }
  }

  /** Only the segment up to a second marker is decoded: what follows it is ignored. */
  lemma PayloadStopsAtSecondMarker(header: string, body: string, rest: string)
    requires forall j :: !OccursAt(header, Marker, j)
    requires ',' !in body
    ensures Payload(header + Marker + body + Marker + rest) == body
  {
    var s := header + Marker + body + Marker + rest;
    var i := |header|;
    var k := i + |Marker| + |body|;
    assert s[i..i + |Marker|] == Marker;
    assert s[..i] == header;
    NoMarkerInHeader(header, s);
    FirstFromIs(s, Marker, 0, i);
    assert s[k..k + |Marker|] == Marker;
    NoMarkerInBody(body, s, i + |Marker|);
    FirstFromIs(s, Marker, i + |Marker|, k);
    assert s[i + |Marker|..k] == body;
  }

  /** A body without ',' that is followed by the marker holds no start of a marker. */
  lemma NoMarkerInBody(body: string, s: string, at: nat)
    requires ',' !in body && at + |body| + |Marker| <= |s|
    requires s[at..at + |body|] == body && s[at + |body|..at + |body| + |Marker|] == Marker
    ensures forall j :: at <= j < at + |body| ==> !OccursAt(s, Marker, j)
  {
    var k := at + |body|;
    assert forall d :: 1 <= d < |Marker| ==> Marker[d] != 'b';
    forall j | at <= j < k ensures !OccursAt(s, Marker, j) {
      if j + 6 < k {
        assert s[j..j + |Marker|][6] == s[j + 6] == s[at..k][j + 6 - at];
      } else {
        assert s[k] == s[k..k + |Marker|][0] == 'b';
        assert s[j..j + |Marker|][k - j] == s[k];
      }
    }
  }

  // ---------------------------------------------------------------------------------------------
  // Matching.

  /**
   * The match a candidate yields: none without a stored descriptor, none when decoding it raises
   * (the candidate is skipped), none unless the raw score exceeds `Threshold`; the reported score
   * is the rounded one.
   */
  function MatchOf(env: Env, query: seq<real>, c: Candidate): (r: Option<Match>)
    ensures r.Some? ==> r.value.id == c.id && HasVector(c.vector)
    ensures r.Some? ==>
      && env.fromFloat32(c.vector.value).Some?
      && r.value.score == env.round4(CalculateSimilarity(Some(query), env.fromFloat32(c.vector.value), env.cosine))
    ensures r.Some? <==>
      && HasVector(c.vector)
      && env.fromFloat32(c.vector.value).Some?
      && CalculateSimilarity(Some(query), env.fromFloat32(c.vector.value), env.cosine) > Threshold
  {
    if !HasVector(c.vector) then None
    else
      match env.fromFloat32(c.vector.value)
      case None => None
      case Some(f) =>
        var similarity := CalculateSimilarity(Some(query), Some(f), env.cosine);
        if similarity > Threshold then Some(Match(c.id, env.round4(similarity))) else None
  }

  /** The matches of the candidates, in the candidates' order. */
  function Matches(env: Env, query: seq<real>, cs: seq<Candidate>): (r: seq<Match>)
    ensures |r| <= |cs|
  {
    if cs == [] then []
    else
      var init := Matches(env, query, cs[..|cs| - 1]);
      match MatchOf(env, query, cs[|cs| - 1])
      case None => init
      case Some(m) => init + [m]
  }

  lemma {:induction false} MatchesAppend(env: Env, query: seq<real>, a: seq<Candidate>, b: seq<Candidate>)
    ensures Matches(env, query, a + b) == Matches(env, query, a) + Matches(env, query, b)
    decreases |b|
  {
    if b == [] {
      assert a + b == a;
    } else {
      var init := b[..|b| - 1];
      MatchesAppend(env, query, a, init);
      assert (a + b)[..|a + b| - 1] == a + init;
    }
  }

  /** Every match comes from some candidate, and every candidate that yields a match is listed. */
  lemma {:induction false} MatchesSpec(env: Env, query: seq<real>, cs: seq<Candidate>)
    ensures forall m :: m in Matches(env, query, cs) <==> exists i :: 0 <= i < |cs| && MatchOf(env, query, cs[i]) == Some(m)
    decreases |cs|
  {
    if cs != [] {
      var init := cs[..|cs| - 1];
      MatchesSpec(env, query, init);
      forall m ensures m in Matches(env, query, cs) <==> exists i :: 0 <= i < |cs| && MatchOf(env, query, cs[i]) == Some(m) {
        if exists i :: 0 <= i < |cs| && MatchOf(env, query, cs[i]) == Some(m) {
          var i :| 0 <= i < |cs| && MatchOf(env, query, cs[i]) == Some(m);
          if i < |cs| - 1 {
            assert init[i] == cs[i];
          }
        }
        if m in Matches(env, query, init) {
          var i :| 0 <= i < |init| && MatchOf(env, query, init[i]) == Some(m);
          assert cs[i] == init[i];
        }
      }
    }
  }

  /** A candidate that yields no match (no descriptor, a decoding that raises, a low score) does not disturb the rest. */
  lemma SkippedCandidate(env: Env, query: seq<real>, before: seq<Candidate>, c: Candidate, after: seq<Candidate>)
    requires MatchOf(env, query, c).None?
    ensures Matches(env, query, before + [c] + after) == Matches(env, query, before + after)
  {
    MatchesAppend(env, query, before + [c], after);
    MatchesAppend(env, query, before, [c]);
    MatchesAppend(env, query, before, after);
    assert [c][..0] == [];
  }

  /** The loop of `visual_search` collecting the matches. */
  method CollectMatches(env: Env, query: seq<real>, cs: seq<Candidate>) returns (results: seq<Match>)
    ensures results == Matches(env, query, cs)
  {
    results := [];
    for i := 0 to |cs|
      invariant results == Matches(env, query, cs[..i])
    {
      assert cs[..i + 1][..i] == cs[..i];
      var c := cs[i];
      if HasVector(c.vector) {
        var features := env.fromFloat32(c.vector.value);
        if features.Some? {
          var similarity := CalculateSimilarity(Some(query), features, env.cosine);
          if similarity > Threshold {
            results := results + [Match(c.id, env.round4(similarity))];
          }
        }
      }
    }
    assert cs[..|cs|] == cs;
  }

  // ---------------------------------------------------------------------------------------------
  // Sorting by score, descending and stable.

  predicate Descending(s: seq<Match>)
  {
    forall i, j :: 0 <= i < j < |s| ==> s[i].score >= s[j].score
  }

  /** The entries of `s` with score `v`, in order. */
  function WithScore(s: seq<Match>, v: real): seq<Match>
  {
    if s == [] then [] else (if s[0].score == v then [s[0]] else []) + WithScore(s[1..], v)
  }

  lemma {:induction false} WithScoreAppend(a: seq<Match>, b: seq<Match>, v: real)
    ensures WithScore(a + b, v) == WithScore(a, v) + WithScore(b, v)
    decreases |a|
  {
    if a == [] {
      assert a + b == b;
    } else {
      WithScoreAppend(a[1..], b, v);
      assert (a + b)[1..] == a[1..] + b;
    }
  }

  /** `m` placed after every entry whose score is at least its own. */
  function Insert(s: seq<Match>, m: Match): (r: seq<Match>)
    ensures |r| == |s| + 1
    ensures forall x :: x in r <==> x in s || x == m
  {
    if s == [] then [m]
    else if s[0].score < m.score then [m] + s
    else [s[0]] + Insert(s[1..], m)
  }

  lemma {:induction false} InsertDescending(s: seq<Match>, m: Match)
    requires Descending(s)
    ensures Descending(Insert(s, m))
    decreases |s|
  {
    if s != [] && s[0].score >= m.score {
      var rest := Insert(s[1..], m);
      InsertDescending(s[1..], m);
      var r := [s[0]] + rest;
      forall i, j | 0 <= i < j < |r| ensures r[i].score >= r[j].score {
        if i == 0 {
          assert rest[j - 1] in rest;
          if rest[j - 1] != m {
            var k :| 0 <= k < |s[1..]| && s[1..][k] == rest[j - 1];
            assert s[0].score >= s[k + 1].score;
          }
        } else {
          assert r[i] == rest[i - 1] && r[j] == rest[j - 1];
        }
      }
    }
  }

  lemma {:induction false} InsertMultiset(s: seq<Match>, m: Match)
    ensures multiset(Insert(s, m)) == multiset(s) + multiset{m}
    decreases |s|
  {
    if s != [] && s[0].score >= m.score {
      InsertMultiset(s[1..], m);
      assert s == [s[0]] + s[1..];
    }
  }

  lemma {:induction false} InsertKeepsTies(s: seq<Match>, m: Match, v: real)
    requires Descending(s)
    ensures WithScore(Insert(s, m), v) == WithScore(s, v) + WithScore([m], v)
    decreases |s|
  {
    if s == [] {
    } else if s[0].score < m.score {
      var r := [m] + s;
      assert r[1..] == s;
      if m.score == v {
        AllBelow(s, v);
      }
    } else {
      InsertKeepsTies(s[1..], m, v);
      var r := [s[0]] + Insert(s[1..], m);
      assert r[1..] == Insert(s[1..], m);
    }
  }

  /** In a descending sequence whose first score is below `v`, no entry has score `v`. */
  lemma {:induction false} AllBelow(s: seq<Match>, v: real)
    requires Descending(s) && (s == [] || s[0].score < v)
    ensures WithScore(s, v) == []
    decreases |s|
  {
    if s != [] {
      if |s| > 1 {
        assert s[1].score <= s[0].score;
      }
      AllBelow(s[1..], v);
    }
  }

  /** The sort: `results.sort(key=score, reverse=True)`, as a stable insertion sort. */
  function SortDesc(s: seq<Match>): (r: seq<Match>)
    ensures |r| == |s|
  {
    if s == [] then [] else Insert(SortDesc(s[..|s| - 1]), s[|s| - 1])
  }

  /**
   * The sorted results are in descending score order, are a permutation of the matches, and
   * keep matches with equal scores in their original order.
   */
  lemma {:induction false} SortDescSpec(s: seq<Match>)
    ensures Descending(SortDesc(s))
    ensures multiset(SortDesc(s)) == multiset(s)
    ensures forall v :: WithScore(SortDesc(s), v) == WithScore(s, v)
    decreases |s|
  {
    if s != [] {
      var init, last := s[..|s| - 1], s[|s| - 1];
      SortDescSpec(init);
      InsertDescending(SortDesc(init), last);
      InsertMultiset(SortDesc(init), last);
      assert s == init + [last];
      forall v ensures WithScore(SortDesc(s), v) == WithScore(s, v) {
        WithScoreAppend(init, [last], v);
        InsertKeepsTies(SortDesc(init), last, v);
      }
    }
  }

  // ---------------------------------------------------------------------------------------------
  // The endpoint.

  /** What the request carries: an uploaded file (checked first) and/or an `image_data` form field. */
  datatype Request = Request(file: Option<seq<Byte>>, imageData: Option<string>)

  datatype SearchError =
    | NoImageProvided   // 400
    | InvalidImageFormat // 400: the bytes did not decode to an image
    | CouldNotProcess   // 400: the engine returned None
    | DecodingFailed    // 500: base64 decoding raised

  datatype SearchReply = Found(matchesFound: nat, results: seq<Match>) | Failed(status: nat, error: SearchError)

  /**
   * The query image, or the failure reply, from the request's input guards. An uploaded file
   * takes precedence over `image_data`; only a base64 payload that does not decode gives 500, and
   * the query image is always what the image decoder made of the file or of the decoded payload.
   */
  function QueryImage(env: Env, req: Request): (r: Result)
    ensures r == Refuse(400, NoImageProvided) <==> req.file.None? && req.imageData.None?
    ensures r.Refuse? ==> r.status == 400 || r.status == 500
    ensures r.Refuse? && r.status == 500 <==>
      req.file.None? && req.imageData.Some? && env.b64decode(Payload(req.imageData.value)).None?
    ensures r.Refuse? ==> (r.status == 500 <==> r.error == DecodingFailed)
    ensures req.file.Some? ==> r.Decoded? || r == Refuse(400, InvalidImageFormat)
    ensures r.Decoded? ==>
      if req.file.Some? then env.imdecode(req.file.value) == Some(r.image)
      else
        && req.imageData.Some?
        && env.b64decode(Payload(req.imageData.value)).Some?
        && env.imdecode(env.b64decode(Payload(req.imageData.value)).value) == Some(r.image)
    ensures r.Decoded? <==>
      if req.file.Some? then env.imdecode(req.file.value).Some?
      else
        && req.imageData.Some?
        && env.b64decode(Payload(req.imageData.value)).Some?
        && env.imdecode(env.b64decode(Payload(req.imageData.value)).value).Some?
    ensures r.Refuse? ==> r.error != CouldNotProcess
  {
    match req.file
    case Some(bytes) =>
      (match env.imdecode(bytes) case None => Refuse(400, InvalidImageFormat) case Some(im) => Decoded(im))
    case None =>
      match req.imageData
      case None => Refuse(400, NoImageProvided)
      case Some(text) =>
        match env.b64decode(Payload(text))
        case None => Refuse(500, DecodingFailed)
        case Some(bytes) =>
          match env.imdecode(bytes) case None => Refuse(400, InvalidImageFormat) case Some(im) => Decoded(im)
  }

  datatype Result = Decoded(image: Image) | Refuse(status: nat, error: SearchError)

  /** The first `TopN` entries, or all of them. */
  function Top(s: seq<Match>): (r: seq<Match>)
    ensures |r| <= TopN && |r| <= |s| && r == s[..|r|]
    ensures |s| <= TopN ==> r == s
    ensures |r| == if |s| <= TopN then |s| else TopN
  {
    if |s| <= TopN then s else s[..TopN]
  }

  /**
   * `visual_search`: refuses a request with no image (400), an image that does not decode (400),
   * a base64 payload that does not decode (500) and an image the engine cannot describe (400);
   * otherwise counts every match above the threshold and returns the best ten, highest score
   * first, ties in the products' order.
   */
  method HandleVisualSearch(env: Env, req: Request, products: seq<Candidate>) returns (reply: SearchReply)
    ensures QueryImage(env, req).Refuse? ==> reply == Failed(QueryImage(env, req).status, QueryImage(env, req).error)
    ensures reply.Failed? && reply.status == 500 ==> reply.error == DecodingFailed && req.file.None?
    ensures req.file.None? && req.imageData.None? ==> reply == Failed(400, NoImageProvided)
    ensures QueryImage(env, req).Decoded? && ExtractFeatures(env.vision, Some(QueryImage(env, req).image)).None? ==>
              reply == Failed(400, CouldNotProcess)
    ensures reply.Found? <==> QueryImage(env, req).Decoded? && ExtractFeatures(env.vision, Some(QueryImage(env, req).image)).Some?
    ensures reply.Found? ==>
      var all := Matches(env, ExtractFeatures(env.vision, Some(QueryImage(env, req).image)).value, products);
      && reply.matchesFound == |all|
      && reply.results == Top(SortDesc(all))
      && |reply.results| <= TopN && |reply.results| <= reply.matchesFound
      && Descending(reply.results)
  {
    var image: Option<Image>;
    if req.file.Some? {
      image := env.imdecode(req.file.value);
    } else if req.imageData.Some? {
      var data := req.imageData.value;
      var bytes := env.b64decode(Payload(data));
      if bytes.None? {
        return Failed(500, DecodingFailed);
      }
      image := env.imdecode(bytes.value);
    } else {
      return Failed(400, NoImageProvided);
    }
    if image.None? {
      return Failed(400, InvalidImageFormat);
    }
    var query := ExtractFeatures(env.vision, image);
    if query.None? {
      return Failed(400, CouldNotProcess);
    }
    var results := CollectMatches(env, query.value, products);
    SortDescSpec(results);
    var sorted := SortDesc(results);
    reply := Found(|results|, Top(sorted));
    assert reply.results == sorted[..|reply.results|];
  }

  /**
   * Every returned result is a match of some product: that product has a stored descriptor and
   * its raw score exceeds the threshold.
   */
  lemma ResultsAreMatches(env: Env, query: seq<real>, products: seq<Candidate>, m: Match)
    requires m in Top(SortDesc(Matches(env, query, products)))
    ensures exists i :: 0 <= i < |products| && MatchOf(env, query, products[i]) == Some(m) && HasVector(products[i].vector)
  {
    var all := Matches(env, query, products);
    var sorted := SortDesc(all);
    var k :| 0 <= k < |Top(sorted)| && Top(sorted)[k] == m;
    assert sorted[k] == m;
    assert m in all by {
      SortDescSpec(all);
      assert m in multiset(sorted);
    }
    MatchesSpec(env, query, products);
    var i :| 0 <= i < |products| && MatchOf(env, query, products[i]) == Some(m);
    assert HasVector(products[i].vector);
  }

  // ---------------------------------------------------------------------------------------------
  // extract_product_features

  /**
   * `extract_product_features`: one pass of the indexing step over the active products; the
   * counters are the numbers of processed and of failed products, and only processed products
   * receive a descriptor.
   */
  method ExtractProductFeatures(io: Io, products: seq<IndexedProduct>) returns (processed: nat, errors: nat)
    requires forall i, j :: 0 <= i < j < |products| ==> products[i] != products[j]
    modifies products
    ensures var t := Count(Outcomes(io, old(Rows(products))));
      processed == t.processed && errors == t.errors
    ensures processed + errors == EligibleCount(old(Rows(products))) <= |products|
    ensures forall i :: 0 <= i < |products| ==>
      && products[i].image == old(products[i].image)
      && products[i].featureVector == Written(io, old(Row(products[i].image, products[i].featureVector)))
  {
    ghost var rows := Rows(products);
    ghost var outcomes: seq<Outcome> := [];
    processed, errors := 0, 0;
    for i := 0 to |products|
      invariant |outcomes| == i
      invariant forall j :: 0 <= j < |products| ==> products[j].image == rows[j].image
      invariant forall j :: 0 <= j < |products| ==>
        products[j].featureVector == if j < i then Written(io, rows[j]) else rows[j].vector
      invariant forall j :: 0 <= j < i ==> outcomes[j] == Classify(io, rows[j])
      invariant var t := Count(outcomes); processed == t.processed && errors == t.errors
    {
      var product := products[i];
      assert forall j :: 0 <= j < |products| && j != i ==> products[j] != product;
      var outcome := IndexOne(io, product);
      assert (outcomes + [outcome])[..i] == outcomes;
      outcomes := outcomes + [outcome];
      if outcome == Processed {
        processed := processed + 1;
      } else if IsError(outcome) {
        errors := errors + 1;
      }
    }
    assert outcomes == Outcomes(io, rows);
    CountPartition(io, rows);
  }
}
