/**
 * Downloading and ranking for one site (main.py:69-75, 95-112): which candidates become
 * favicon records, the `(0, 0)` fallback when an image does not decode, and the stable sort
 * by descending pixel area. The HTTP client and the image decoder are parameters.
 */
module Ranking {
  import opened Wrappers

  newtype byte = x: int | 0 <= x < 256

  /** `image.size`: width and height in pixels. */
  datatype Resolution = Resolution(width: nat, height: nat)

  /** One entry of `favicon_data`: `(favicon_url, image_data, resolution)`. */
  datatype FaviconRecord = FaviconRecord(url: string, data: seq<byte>, resolution: Resolution)

  /**
   * What `requests.get(url, stream=True, timeout=5)` and reading `response.content` come to:
   * a `RequestException`, or a completed response with its status code and body.
   */
  datatype Response = Raised | Completed(status: int, content: seq<byte>)

  /** The HTTP client, as a function from URL to outcome. */
  type Fetch = string -> Response

  /** `Image.open(BytesIO(data)).size`, or `None` where PIL raises. */
  type Decoder = seq<byte> -> Option<Resolution>

  /** `get_image_resolution`: the decoded size, or `(0, 0)` when decoding fails. */
  function GetImageResolution(data: seq<byte>, decode: Decoder): (r: Resolution)
    ensures decode(data).Some? ==> r == decode(data).value
    ensures decode(data).None? ==> r == Resolution(0, 0)
  {
    match decode(data)
    case Some(size) => size
    case None => Resolution(0, 0)
  }

  /** Only status 200 counts as a download; any other status or an exception does not. */
  predicate Succeeded(resp: Response) {
    resp.Completed? && resp.status == 200
  }

  /** The tuple `(favicon_url, image_data, resolution)` built for a candidate's response. */
  function Record(u: string, get: Fetch, decode: Decoder): FaviconRecord
    requires get(u).Completed?
  {
    FaviconRecord(u, get(u).content, GetImageResolution(get(u).content, decode))
  }

  /** The record one candidate adds to `favicon_data`, if any. */
  function Keep(u: string, get: Fetch, decode: Decoder): seq<FaviconRecord> {
    if Succeeded(get(u)) then [Record(u, get, decode)] else []
  }

  /**
   * `favicon_data` after visiting the candidates in `order`: one record per candidate whose
   * request completed with status 200, holding its body and its (possibly `(0, 0)`) size.
   */
  function Successes(order: seq<string>, get: Fetch, decode: Decoder): (r: seq<FaviconRecord>)
    ensures |r| <= |order|
    ensures forall k :: 0 <= k < |r| ==>
              r[k].url in order && Succeeded(get(r[k].url)) && r[k].data == get(r[k].url).content
              && r[k].resolution == GetImageResolution(r[k].data, decode)
  {
    if order == [] then []
    else Successes(order[..|order| - 1], get, decode) + Keep(order[|order| - 1], get, decode)
  }

  /** `order` lists every element of `s` exactly once: one possible iteration order of a set. */
  ghost predicate IsEnumeration(order: seq<string>, s: set<string>) {
    (forall i, j :: 0 <= i < j < |order| ==> order[i] != order[j])
    && (forall u :: u in order <==> u in s)
  }

  /**
   * The download loop `for favicon_url in favicon_urls`: Python leaves the iteration order of
   * a set unspecified, so each step takes any candidate not yet visited. `visited` is the
   * order that was taken.
   */
  method CollectFavicons(candidates: set<string>, get: Fetch, decode: Decoder)
    returns (visited: seq<string>, faviconData: seq<FaviconRecord>)
    ensures IsEnumeration(visited, candidates)
    ensures faviconData == Successes(visited, get, decode)
  {
    visited, faviconData := [], [];
    var remaining := candidates;
    while remaining != {}
      invariant remaining <= candidates
      invariant forall u :: u in visited <==> u in candidates && u !in remaining
      invariant forall i, j :: 0 <= i < j < |visited| ==> visited[i] != visited[j]
      invariant faviconData == Successes(visited, get, decode)
      decreases remaining
    {
      var faviconUrl :| faviconUrl in remaining;
      SuccessesSnoc(visited, faviconUrl, get, decode);
      var response := get(faviconUrl);
      if response.Completed? && response.status == 200 {
        var imageData := response.content;
        var resolution := GetImageResolution(imageData, decode);
        faviconData := faviconData + [FaviconRecord(faviconUrl, imageData, resolution)];
      }
      visited := visited + [faviconUrl];
      remaining := remaining - {faviconUrl};
    }
  }

  /** Visiting one more candidate appends its record, if it has one. */
  lemma {:induction false} SuccessesSnoc(order: seq<string>, u: string, get: Fetch, decode: Decoder)
    ensures Successes(order + [u], get, decode) == Successes(order, get, decode) + Keep(u, get, decode)
  {
    assert (order + [u])[..|order|] == order;
  }

  /** Every candidate that answered 200 has a record: nothing successful is dropped. */
  lemma {:induction false} SuccessesComplete(order: seq<string>, get: Fetch, decode: Decoder, u: string)
    requires u in order && Succeeded(get(u))
    ensures exists k :: 0 <= k < |Successes(order, get, decode)| && Successes(order, get, decode)[k].url == u
  {
    var last := order[|order| - 1];
    var r := Successes(order, get, decode);
    if u == last {
      assert r[|r| - 1].url == u;
    } else {
      assert u in order[..|order| - 1] by {
        var i :| 0 <= i < |order| && order[i] == u;
        assert i < |order| - 1;
        assert order[..|order| - 1][i] == u;
      }
      SuccessesComplete(order[..|order| - 1], get, decode, u);
      var k :| 0 <= k < |Successes(order[..|order| - 1], get, decode)|
             && Successes(order[..|order| - 1], get, decode)[k].url == u;
      assert r[k].url == u;
    }
  }

  /** Records come out in visiting order: earlier candidates' records precede later ones'. */
  lemma {:induction false} SuccessesConcat(a: seq<string>, b: seq<string>, get: Fetch, decode: Decoder)
    ensures Successes(a + b, get, decode) == Successes(a, get, decode) + Successes(b, get, decode)
    decreases |b|
  {
    if b != [] {
      var b' := b[..|b| - 1];
      assert (a + b)[..|a + b| - 1] == a + b';
      SuccessesConcat(a, b', get, decode);
    } else {
      assert a + b == a;
    }
  }

  /** A set is visited without repeats, so no two records share a URL: one record per candidate at most. */
  lemma {:induction false} SuccessesDistinctUrls(order: seq<string>, get: Fetch, decode: Decoder)
    requires forall i, j :: 0 <= i < j < |order| ==> order[i] != order[j]
    ensures forall i, j :: 0 <= i < j < |Successes(order, get, decode)| ==>
              Successes(order, get, decode)[i].url != Successes(order, get, decode)[j].url
  {
    if order != [] {
      var init, last := order[..|order| - 1], order[|order| - 1];
      forall m | 0 <= m < |init|
        ensures init[m] != last
      {
        assert init[m] == order[m];
      }
      SuccessesDistinctUrls(init, get, decode);
      var p := Successes(init, get, decode);
      var r := Successes(order, get, decode);
      forall i, j | 0 <= i < j < |r|
        ensures r[i].url != r[j].url
      {
        if j >= |p| {
          assert r[j].url == last && r[i] == p[i];
        }
      }
    }
  }

  /** Records with pairwise different URLs, all taken from `urls`, are no more than `urls`. */
  lemma {:induction false} DistinctUrlsBound(recs: seq<FaviconRecord>, urls: set<string>)
    requires forall k :: 0 <= k < |recs| ==> recs[k].url in urls
    requires forall i, j :: 0 <= i < j < |recs| ==> recs[i].url != recs[j].url
    ensures |recs| <= |urls|
    decreases |recs|
  {
    if recs != [] {
      var init, last := recs[..|recs| - 1], recs[|recs| - 1];
      forall k | 0 <= k < |init|
        ensures init[k].url in urls - {last.url}
      {
        assert init[k] == recs[k];
      }
      DistinctUrlsBound(init, urls - {last.url});
    }
  }

  /** A list of records with pairwise different URLs, drawn from two records and holding both, is those two. */
  lemma {:induction false} OnlyTwo(recs: seq<FaviconRecord>, x: FaviconRecord, y: FaviconRecord)
    requires x.url != y.url && x in recs && y in recs
    requires forall k :: 0 <= k < |recs| ==> recs[k] == x || recs[k] == y
    requires forall i, j :: 0 <= i < j < |recs| ==> recs[i].url != recs[j].url
    ensures recs == [x, y] || recs == [y, x]
  {
    DistinctUrlsBound(recs, {x.url, y.url});
    assert |recs| == 2 by {
      var i :| 0 <= i < |recs| && recs[i] == x;
      var j :| 0 <= j < |recs| && recs[j] == y;
      assert i != j;
    }
    if recs[0] == x {
      assert recs == [x, y];
    } else {
      assert recs == [y, x];
    }
  }

  /**
   * When exactly two visited candidates answer 200, `favicon_data` holds their two records,
   * in the order they were visited.
   */
  lemma {:induction false} TwoSuccesses(order: seq<string>, get: Fetch, decode: Decoder, a: string, f: string)
    requires forall i, j :: 0 <= i < j < |order| ==> order[i] != order[j]
    requires a != f && a in order && f in order && Succeeded(get(a)) && Succeeded(get(f))
    requires forall u :: u in order && Succeeded(get(u)) ==> u == a || u == f
    ensures Successes(order, get, decode) == [Record(a, get, decode), Record(f, get, decode)]
         || Successes(order, get, decode) == [Record(f, get, decode), Record(a, get, decode)]
  {
    var recs := Successes(order, get, decode);
    var ra, rf := Record(a, get, decode), Record(f, get, decode);
    forall k | 0 <= k < |recs|
      ensures recs[k] == ra || recs[k] == rf
    {
    }
    SuccessesDistinctUrls(order, get, decode);
    SuccessesComplete(order, get, decode, a);
    SuccessesComplete(order, get, decode, f);
    var ka :| 0 <= ka < |recs| && recs[ka].url == a;
    var kf :| 0 <= kf < |recs| && recs[kf].url == f;
    assert recs[ka] == ra && recs[kf] == rf;
    OnlyTwo(recs, ra, rf);
  }

  /** Nothing is recorded exactly when no candidate answered 200. */
  lemma {:induction false} SuccessesEmpty(order: seq<string>, get: Fetch, decode: Decoder)
    ensures Successes(order, get, decode) == [] <==> forall u :: u in order ==> !Succeeded(get(u))
  {
    if exists u :: u in order && Succeeded(get(u)) {
      var u :| u in order && Succeeded(get(u));
      SuccessesComplete(order, get, decode, u);
    } else if order != [] {
      var init := order[..|order| - 1];
      assert forall u :: u in init ==> u in order;
      SuccessesEmpty(init, get, decode);
    }
  }

  /** The sort key: `x[2][0] * x[2][1]`. */
  function Area(r: FaviconRecord): nat {
    r.resolution.width * r.resolution.height
  }

  /** Pixel area never increases along `s`. */
  predicate NonIncreasing(s: seq<FaviconRecord>) {
    forall i, j :: 0 <= i < j < |s| ==> Area(s[i]) >= Area(s[j])
  }

  /** The records of `s` with area `k`, in their order in `s`. */
  function WithArea(s: seq<FaviconRecord>, k: nat): seq<FaviconRecord> {
    if s == [] then []
    else WithArea(s[..|s| - 1], k) + (if Area(s[|s| - 1]) == k then [s[|s| - 1]] else [])
  }

  /** `t` keeps the relative order that `s` gives to records of equal area. */
  ghost predicate SameTieOrder(t: seq<FaviconRecord>, s: seq<FaviconRecord>) {
    forall k: nat :: WithArea(t, k) == WithArea(s, k)
  }

  /**
   * Places `x` after every record of `sorted` whose area is at least its own: walking from
   * the end, it passes only records of strictly smaller area.
   */
  function InsertByArea(sorted: seq<FaviconRecord>, x: FaviconRecord): seq<FaviconRecord>
    decreases |sorted|
  {
    if sorted == [] || Area(sorted[|sorted| - 1]) >= Area(x) then sorted + [x]
    else InsertByArea(sorted[..|sorted| - 1], x) + [sorted[|sorted| - 1]]
  }

  /** `favicon_data` after `sort(key=area, reverse=True)`: a stable sort, largest area first. */
  function RankOrder(s: seq<FaviconRecord>): seq<FaviconRecord> {
    if s == [] then [] else InsertByArea(RankOrder(s[..|s| - 1]), s[|s| - 1])
  }

  lemma {:induction false} InsertByAreaPermutes(sorted: seq<FaviconRecord>, x: FaviconRecord)
    ensures multiset(InsertByArea(sorted, x)) == multiset(sorted) + multiset{x}
    decreases |sorted|
  {
    if !(sorted == [] || Area(sorted[|sorted| - 1]) >= Area(x)) {
      var init := sorted[..|sorted| - 1];
      InsertByAreaPermutes(init, x);
      assert sorted == init + [sorted[|sorted| - 1]];
    }
  }

  /** InsertByArea adds `x` and nothing else. */
  lemma {:induction false} InsertByAreaMembers(sorted: seq<FaviconRecord>, x: FaviconRecord, y: FaviconRecord)
    requires y in InsertByArea(sorted, x)
    ensures y == x || y in sorted
    decreases |sorted|
  {
    if !(sorted == [] || Area(sorted[|sorted| - 1]) >= Area(x)) {
      var init, last := sorted[..|sorted| - 1], sorted[|sorted| - 1];
      if y != last {
        assert y in InsertByArea(init, x);
        InsertByAreaMembers(init, x, y);
        if y in init {
          var m :| 0 <= m < |init| && init[m] == y;
          assert sorted[m] == y;
        }
      }
    }
  }

  lemma {:induction false} InsertByAreaSorted(sorted: seq<FaviconRecord>, x: FaviconRecord)
    requires NonIncreasing(sorted)
    ensures NonIncreasing(InsertByArea(sorted, x))
    decreases |sorted|
  {
    if !(sorted == [] || Area(sorted[|sorted| - 1]) >= Area(x)) {
      var init, last := sorted[..|sorted| - 1], sorted[|sorted| - 1];
      InsertByAreaSorted(init, x);
      var r := InsertByArea(init, x);
      assert InsertByArea(sorted, x) == r + [last];
      forall i | 0 <= i < |r|
        ensures Area(r[i]) >= Area(last)
      {
        InsertByAreaMembers(init, x, r[i]);
        if r[i] != x {
          var m :| 0 <= m < |init| && init[m] == r[i];
          assert sorted[m] == r[i];
        }
      }
    }
  }

  lemma {:induction false} WithAreaConcat(a: seq<FaviconRecord>, b: seq<FaviconRecord>, k: nat)
    ensures WithArea(a + b, k) == WithArea(a, k) + WithArea(b, k)
    decreases |b|
  {
    if b == [] {
      assert a + b == a;
    } else {
      assert (a + b)[..|a + b| - 1] == a + b[..|b| - 1];
      WithAreaConcat(a, b[..|b| - 1], k);
    }
  }

  /** The area-`k` group of a one-record list. */
  lemma {:induction false} WithAreaSingle(y: FaviconRecord, k: nat)
    ensures WithArea([y], k) == if Area(y) == k then [y] else []
  {
    assert [y][..0] == [];
  }

  lemma {:induction false} InsertByAreaKeepsTies(sorted: seq<FaviconRecord>, x: FaviconRecord, k: nat)
    ensures WithArea(InsertByArea(sorted, x), k) == WithArea(sorted, k) + WithArea([x], k)
    decreases |sorted|
  {
    if sorted == [] || Area(sorted[|sorted| - 1]) >= Area(x) {
      WithAreaConcat(sorted, [x], k);
    } else {
      var init, last := sorted[..|sorted| - 1], sorted[|sorted| - 1];
      var ix := InsertByArea(init, x);
      assert InsertByArea(sorted, x) == ix + [last];
      WithAreaConcat(ix, [last], k);
      InsertByAreaKeepsTies(init, x, k);
      WithAreaLast(sorted, k);
      WithAreaSingle(x, k);
      WithAreaSingle(last, k);
      TiesCommute(WithArea(init, k), WithArea([x], k), WithArea([last], k));
    }
  }

  /** Two groups of which one is empty can be appended in either order. */
  lemma {:induction false} TiesCommute(w: seq<FaviconRecord>, a: seq<FaviconRecord>, b: seq<FaviconRecord>)
    requires a == [] || b == []
    ensures w + a + b == w + b + a
  {
    if a == [] {
      assert w + a == w;
    } else {
      assert w + b == w;
    }
  }

  lemma {:induction false} MultisetOfLast(s: seq<FaviconRecord>)
    requires s != []
    ensures multiset(s) == multiset(s[..|s| - 1]) + multiset{s[|s| - 1]}
  {
    assert s == s[..|s| - 1] + [s[|s| - 1]];
  }

  /** The ranked list is a permutation of `favicon_data`. */
  lemma {:induction false} RankOrderPermutes(s: seq<FaviconRecord>)
    ensures multiset(RankOrder(s)) == multiset(s)
  {
    if s != [] {
      RankOrderPermutes(s[..|s| - 1]);
      InsertByAreaPermutes(RankOrder(s[..|s| - 1]), s[|s| - 1]);
      MultisetOfLast(s);
    }
  }

  /** Along the ranked list, `w * h` never increases. */
  lemma {:induction false} RankOrderSorted(s: seq<FaviconRecord>)
    ensures NonIncreasing(RankOrder(s))
  {
    if s != [] {
      RankOrderSorted(s[..|s| - 1]);
      InsertByAreaSorted(RankOrder(s[..|s| - 1]), s[|s| - 1]);
    }
  }

  /** Records of equal area keep their relative order: the sort is stable. */
  lemma {:induction false} RankOrderStable(s: seq<FaviconRecord>)
    ensures SameTieOrder(RankOrder(s), s)
  {
    forall k: nat
      ensures WithArea(RankOrder(s), k) == WithArea(s, k)
    {
      RankOrderStableAt(s, k);
    }
  }

  lemma {:induction false} RankOrderStableAt(s: seq<FaviconRecord>, k: nat)
    ensures WithArea(RankOrder(s), k) == WithArea(s, k)
  {
    if s != [] {
      var init, last := s[..|s| - 1], s[|s| - 1];
      RankOrderStableAt(init, k);
      InsertByAreaKeepsTies(RankOrder(init), last, k);
      assert WithArea([last], k) == [] + (if Area(last) == k then [last] else []);
    }
  }

  lemma {:induction false} InWithArea(s: seq<FaviconRecord>, k: nat, y: FaviconRecord)
    ensures y in WithArea(s, k) <==> y in s && Area(y) == k
  {
    if s != [] {
      InWithArea(s[..|s| - 1], k, y);
      assert s == s[..|s| - 1] + [s[|s| - 1]];
    }
  }

  /** Two lists with the same area groups are empty together. */
  lemma {:induction false} SameGroupsBothEmpty(t: seq<FaviconRecord>, u: seq<FaviconRecord>)
    requires forall k: nat :: WithArea(t, k) == WithArea(u, k)
    ensures t == [] <==> u == []
  {
    if t != [] {
      InWithArea(t, Area(t[0]), t[0]);
      InWithArea(u, Area(t[0]), t[0]);
    }
    if u != [] {
      InWithArea(t, Area(u[0]), u[0]);
      InWithArea(u, Area(u[0]), u[0]);
    }
  }

  /** The records of `s` with area `k`: those of its prefix, then its last one if it qualifies. */
  lemma {:induction false} WithAreaLast(s: seq<FaviconRecord>, k: nat)
    requires s != []
    ensures WithArea(s, k) == WithArea(s[..|s| - 1], k) + (if Area(s[|s| - 1]) == k then [s[|s| - 1]] else [])
  {
  }

  /** Non-increasing lists with the same area groups end with records of the same area. */
  lemma {:induction false} SortedGroupsSameLastArea(t: seq<FaviconRecord>, u: seq<FaviconRecord>)
    requires t != [] && u != []
    requires NonIncreasing(t) && NonIncreasing(u)
    requires forall k: nat :: WithArea(t, k) == WithArea(u, k)
    ensures Area(t[|t| - 1]) == Area(u[|u| - 1])
  {
    var tl, ul := t[|t| - 1], u[|u| - 1];
    InWithArea(t, Area(tl), tl);
    InWithArea(u, Area(tl), tl);
    var p :| 0 <= p < |u| && u[p] == tl;
    InWithArea(u, Area(ul), ul);
    InWithArea(t, Area(ul), ul);
    var q :| 0 <= q < |t| && t[q] == ul;
    assert Area(u[p]) >= Area(ul);
    assert Area(t[q]) >= Area(tl);
  }

  /** Non-increasing lists with the same area groups end with the same record. */
  lemma {:induction false} SortedGroupsSameLast(t: seq<FaviconRecord>, u: seq<FaviconRecord>)
    requires t != [] && u != []
    requires NonIncreasing(t) && NonIncreasing(u)
    requires forall k: nat :: WithArea(t, k) == WithArea(u, k)
    ensures t[|t| - 1] == u[|u| - 1]
  {
    SortedGroupsSameLastArea(t, u);
    var tl, ul := t[|t| - 1], u[|u| - 1];
    var m := Area(tl);
    var w := WithArea(t, m);
    WithAreaLast(t, m);
    WithAreaLast(u, m);
    assert w[|w| - 1] == tl;
    assert w == WithArea(u, m);
  }

  /** One area group, with the same last record dropped from both lists. */
  lemma {:induction false} SameGroupWithoutLast(t: seq<FaviconRecord>, u: seq<FaviconRecord>, t': seq<FaviconRecord>, u': seq<FaviconRecord>, k: nat)
    requires t != [] && u != [] && t[|t| - 1] == u[|u| - 1]
    requires t' == t[..|t| - 1] && u' == u[..|u| - 1]
    requires WithArea(t, k) == WithArea(u, k)
    ensures WithArea(t', k) == WithArea(u', k)
  {
    WithAreaLast(t, k);
    WithAreaLast(u, k);
    var a, b := WithArea(t', k), WithArea(u', k);
    var tail := if Area(t[|t| - 1]) == k then [t[|t| - 1]] else [];
    assert a + tail == b + tail;
    assert a == (a + tail)[..|a|];
    assert b == (b + tail)[..|b|];
  }

  /** Dropping the same last record from both lists keeps their area groups equal. */
  lemma {:induction false} SameGroupsWithoutLast(t: seq<FaviconRecord>, u: seq<FaviconRecord>, t': seq<FaviconRecord>, u': seq<FaviconRecord>)
    requires t != [] && u != [] && t[|t| - 1] == u[|u| - 1]
    requires t' == t[..|t| - 1] && u' == u[..|u| - 1]
    requires forall k: nat :: WithArea(t, k) == WithArea(u, k)
    ensures forall k: nat :: WithArea(t', k) == WithArea(u', k)
  {
    forall k: nat
      ensures WithArea(t', k) == WithArea(u', k)
    {
      SameGroupWithoutLast(t, u, t', u', k);
    }
  }

  /**
   * A stable descending order is unique: two non-increasing lists that agree on the order of
   * every group of equal area are the same list.
   */
  lemma {:induction false} SortedTieOrderUnique(t: seq<FaviconRecord>, u: seq<FaviconRecord>)
    requires NonIncreasing(t) && NonIncreasing(u)
    requires forall k: nat :: WithArea(t, k) == WithArea(u, k)
    ensures t == u
    decreases |t|
  {
    SameGroupsBothEmpty(t, u);
    if t != [] {
      SortedGroupsSameLast(t, u);
      var t', u' := t[..|t| - 1], u[..|u| - 1];
      SameGroupsWithoutLast(t, u, t', u');
      SortedTieOrderUnique(t', u');
      assert t == t[..|t| - 1] + [t[|t| - 1]];
      assert u == u[..|u| - 1] + [u[|u| - 1]];
    }
  }

  /**
   * Whatever stable sort runs (CPython uses Timsort), its result is RankOrder: any
   * non-increasing list that keeps the input's order among ties equals it.
   */
  lemma {:induction false} RankOrderIsTheStableSort(s: seq<FaviconRecord>, t: seq<FaviconRecord>)
    requires NonIncreasing(t) && SameTieOrder(t, s)
    ensures t == RankOrder(s)
  {
    RankOrderSorted(s);
    RankOrderStable(s);
    SortedTieOrderUnique(t, RankOrder(s));
  }

  /** Ranking two records is one insertion step into the first. */
  lemma {:induction false} RankOrderPair(x: FaviconRecord, y: FaviconRecord)
    ensures RankOrder([x, y]) == InsertByArea([x], y)
  {
    assert [x][..0] == [];
    assert RankOrder([x]) == [x];
    assert [x, y][..1] == [x];
  }

  /** Two records of different area rank larger first, whichever was downloaded first. */
  lemma {:induction false} RankTwo(x: FaviconRecord, y: FaviconRecord)
    requires Area(x) > Area(y)
    ensures RankOrder([x, y]) == [x, y] && RankOrder([y, x]) == [x, y]
  {
    RankOrderPair(x, y);
    RankOrderPair(y, x);
    assert [y][..0] == [];
    assert InsertByArea([y], x) == InsertByArea([], x) + [y];
  }

  /** Resolutions 16x16, 32x32, 0x0, 64x64 rank as 64x64, 32x32, 16x16, 0x0. */
  lemma {:induction false} RankOrderExample(a: FaviconRecord, b: FaviconRecord, c: FaviconRecord, d: FaviconRecord)
    requires a.resolution == Resolution(16, 16) && b.resolution == Resolution(32, 32)
    requires c.resolution == Resolution(0, 0) && d.resolution == Resolution(64, 64)
    ensures RankOrder([a, b, c, d]) == [d, b, a, c]
  {
    assert [a, b, c, d][..3] == [a, b, c];
    assert [a, b, c][..2] == [a, b];
    assert [a, b][..1] == [a];
    assert RankOrder([a]) == [a];
    assert RankOrder([a, b]) == [b, a] by {
      assert InsertByArea([a], b) == InsertByArea([], b) + [a];
    }
    assert RankOrder([a, b, c]) == [b, a, c];
    assert InsertByArea([b, a, c], d) == [d, b, a, c] by {
      assert [b, a, c][..2] == [b, a];
      assert [b, a][..1] == [b];
      assert InsertByArea([b], d) == [d, b] by {
        assert InsertByArea([b], d) == InsertByArea([], d) + [b];
      }
      assert InsertByArea([b, a], d) == [d, b, a];
    }
  }

  /**
   * Where InsertByArea puts `x`: at the slot `j` such that every record after it has strictly
   * smaller area and the record just before it (if any) has at least its area.
   */
  lemma {:induction false} InsertByAreaAt(sorted: seq<FaviconRecord>, x: FaviconRecord, j: nat)
    requires j <= |sorted|
    requires j == 0 || Area(sorted[j - 1]) >= Area(x)
    requires forall k :: j <= k < |sorted| ==> Area(sorted[k]) < Area(x)
    ensures InsertByArea(sorted, x) == sorted[..j] + [x] + sorted[j..]
    decreases |sorted|
  {
    if j < |sorted| {
      var init, last := sorted[..|sorted| - 1], sorted[|sorted| - 1];
      InsertByAreaAt(init, x, j);
      assert init[..j] == sorted[..j];
      assert sorted[j..] == init[j..] + [last];
    }
  }

  /** The array prefix after the shifting loop: the records before `j`, then `x`, then the shifted ones. */
  lemma {:induction false} ShiftedPrefix(r: seq<FaviconRecord>, sorted: seq<FaviconRecord>, x: FaviconRecord, j: nat)
    requires |r| == |sorted| + 1 && j <= |sorted| && r[j] == x
    requires forall k :: 0 <= k < j ==> r[k] == sorted[k]
    requires forall k :: j < k < |r| ==> r[k] == sorted[k - 1]
    ensures r == sorted[..j] + [x] + sorted[j..]
  {
  }

  /**
   * The shifting loop of one insertion step: the records of `a[..i]` with area strictly smaller
   * than that of `x`, from the end, each move one place right; `j` is the slot left free.
   */
  method ShiftSmaller(a: array<FaviconRecord>, i: nat, x: FaviconRecord) returns (j: nat)
    requires i < a.Length
    modifies a
    ensures j <= i
    ensures forall k :: 0 <= k < j ==> a[k] == old(a[k])
    ensures forall k :: j < k <= i ==> a[k] == old(a[k - 1])
    ensures forall k :: i < k < a.Length ==> a[k] == old(a[k])
    ensures j == 0 || Area(old(a[j - 1])) >= Area(x)
    ensures forall k :: j <= k < i ==> Area(old(a[k])) < Area(x)
  {
    ghost var sorted := a[..i];
    j := i;
    while j > 0 && Area(a[j - 1]) < Area(x)
      invariant 0 <= j <= i
      invariant forall k :: 0 <= k < j ==> a[k] == sorted[k]
      invariant forall k :: j < k <= i ==> a[k] == sorted[k - 1]
      invariant forall k :: i < k < a.Length ==> a[k] == old(a[k])
      invariant forall k :: j <= k < i ==> Area(sorted[k]) < Area(x)
    {
      var moved := a[j - 1];
      assert moved == sorted[j - 1];
      a[j] := moved;
      j := j - 1;
    }
    assert j == 0 || a[j - 1] == sorted[j - 1];
  }

  /**
   * One step of the insertion sort: the record at `i` moves left past the records of strictly
   * smaller area in the already ranked prefix `a[..i]`.
   */
  method InsertAt(a: array<FaviconRecord>, i: nat)
    requires i < a.Length
    modifies a
    ensures a[..i + 1] == InsertByArea(old(a[..i]), old(a[i]))
    ensures forall k :: i < k < a.Length ==> a[k] == old(a[k])
  {
    var x := a[i];
    ghost var sorted := a[..i];
    var j := ShiftSmaller(a, i, x);
    InsertByAreaAt(sorted, x, j);
    a[j] := x;
    ShiftedPrefix(a[..i + 1], sorted, x, j);
  }

  /**
   * `favicon_data.sort(key=lambda x: x[2][0] * x[2][1], reverse=True)`, in place: an insertion
   * sort, which like CPython's sort is stable.
   */
  method RankByArea(a: array<FaviconRecord>)
    modifies a
    ensures a[..] == RankOrder(old(a[..]))
    ensures NonIncreasing(a[..]) && multiset(a[..]) == multiset(old(a[..]))
    ensures SameTieOrder(a[..], old(a[..]))
  {
    ghost var s0 := a[..];
    for i := 0 to a.Length
      invariant a[..i] == RankOrder(s0[..i])
      invariant forall k :: i <= k < a.Length ==> a[k] == s0[k]
    {
      ghost var ranked := a[..i];
      InsertAt(a, i);
      assert s0[..i + 1][..i] == s0[..i];
      assert a[..i + 1] == InsertByArea(ranked, s0[i]);
    }
    assert a[..] == a[..a.Length];
    assert s0 == s0[..a.Length];
    RankOrderSorted(s0);
    RankOrderPermutes(s0);
    RankOrderStable(s0);
  }
}
