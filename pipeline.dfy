/**
 * One run of the script (main.py:9-18, 78-135): the URL list, the `https://` prefix, the
 * per-domain output directory, and `download_favicons`, which gathers the candidates,
 * downloads them, ranks the records and saves them. Everything outside the process (the URL
 * parser, the HTTP client, the HTML parser, the image decoder) comes in as a `World`.
 */
module Pipeline {
  import opened Wrappers
  import opened PyStr
  import opened Discovery
  import opened Ranking
  import opened Output

  /** `base_output_dir`. */
  const BaseOutputDir := "favicons"

  /** What the script learns from the outside world, as functions of the URL asked for. */
  datatype World = World(
    netloc: string -> string,               // urlparse(url).netloc
    join: UrlJoin,                          // urljoin(base, url)
    fetchHtml: string -> Option<Document>,  // fetch_html, then BeautifulSoup; None on failure
    get: Fetch,                             // requests.get(url, stream=True, timeout=5)
    decode: Decoder)                        // Image.open(BytesIO(data)).size

  /** `netloc.replace("www.", "")`. */
  function DomainName(netloc: string): (d: string)
    ensures |d| <= |netloc|
  {
    RemoveAll(netloc, "www.")
  }

  /** A host without "www." names its own directory. */
  lemma {:induction false} DomainNameWithoutWww(netloc: string)
    requires !Contains(netloc, "www.")
    ensures DomainName(netloc) == netloc
  {
    RemoveAllAbsent(netloc, "www.");
  }

  /** A leading "www." is dropped. */
  lemma {:induction false} DomainNameLeadingWww(rest: string)
    ensures DomainName("www." + rest) == DomainName(rest)
  {
    RemoveAllLeftmost([], "www.", rest);
    assert [] + "www." + rest == "www." + rest;
  }

  /** Removal is not limited to the start of the host: an inner "www." goes too. */
  lemma {:induction false} DomainNameInnerWww()
    ensures DomainName("cdn.www.io") == "cdn.io"
  {
    var s := "cdn.www.io";
    assert s == "cdn." + "www." + "io";
    forall i | 0 <= i < 4
      ensures !("www." <= s[i..])
    {
      assert s[i] != 'w' && s[i..][0] == s[i];
    }
    RemoveAllLeftmost("cdn.", "www.", "io");
    RemoveAllAbsent("io", "www.");
  }

  /** The candidate set of `download_favicons(url)`: extracted links, if the page was fetched, and the four fallbacks. */
  function Candidates(url: string, w: World): set<string> {
    (if w.fetchHtml(url).Some? then ExtractedLinks(w.fetchHtml(url).value, url, w.join) else {})
    + (set p | p in CheckCommonFavicons(url, w.join))
  }

  /** The four fallback URLs are always candidates, whether or not the page could be fetched. */
  lemma {:induction false} FallbacksAlwaysCandidates(url: string, w: World)
    ensures forall k :: 0 <= k < |CommonFaviconPaths| ==> w.join(url, CommonFaviconPaths[k]) in Candidates(url, w)
  {
    var common := CheckCommonFavicons(url, w.join);
    forall k | 0 <= k < |CommonFaviconPaths|
      ensures w.join(url, CommonFaviconPaths[k]) in Candidates(url, w)
    {
      assert common[k] in common;
    }
  }

  /** When the page cannot be fetched, only the four fallbacks are probed. */
  lemma {:induction false} FetchFailureLeavesFallbacks(url: string, w: World)
    requires w.fetchHtml(url).None?
    ensures Candidates(url, w) == set k | 0 <= k < |CommonFaviconPaths| :: w.join(url, CommonFaviconPaths[k])
  {
    var common := CheckCommonFavicons(url, w.join);
    forall u | u in Candidates(url, w)
      ensures exists k :: 0 <= k < |CommonFaviconPaths| && u == w.join(url, CommonFaviconPaths[k])
    {
      var k :| 0 <= k < |common| && common[k] == u;
    }
  }

  /** What the script does for one site. */
  datatype SiteOutput = SiteOutput(outputDir: string, visited: seq<string>, files: seq<SavedFile>)

  /** The contract of `download_favicons(url)`, given the order in which the candidate set was iterated. */
  ghost predicate DownloadSpec(url: string, w: World, out: SiteOutput) {
    && out.outputDir == PathJoin(BaseOutputDir, DomainName(w.netloc(url)))
    && IsEnumeration(out.visited, Candidates(url, w))
    && out.files == SavedFiles(out.outputDir, RankOrder(Successes(out.visited, w.get, w.decode)))
  }

  /**
   * `download_favicons(url)`: the output directory is made before anything is fetched; the
   * candidates are the extracted links (when the page came back) plus the four fallbacks;
   * each candidate answering 200 becomes a record; with no record nothing is written,
   * otherwise the records are sorted by area and saved in rank order.
   */
  method DownloadFavicons(url: string, w: World) returns (out: SiteOutput)
    ensures DownloadSpec(url, w, out)
  {
    var domainName := DomainName(w.netloc(url));
    var outputDir := PathJoin(BaseOutputDir, domainName);
    var html := w.fetchHtml(url);
    var faviconUrls: set<string> := {};
    if html.Some? {
      var links := ExtractFaviconLinks(html.value, url, w.join);
      faviconUrls := faviconUrls + links;
    }
    var common := CheckCommonFavicons(url, w.join);
    faviconUrls := faviconUrls + set p | p in common;
    assert faviconUrls == Candidates(url, w);
    var visited, faviconData := CollectFavicons(faviconUrls, w.get, w.decode);
    if faviconData == [] {
      assert SavedFiles(outputDir, RankOrder(faviconData)) == [];
      return SiteOutput(outputDir, visited, []);
    }
    var files := SortAndSave(outputDir, faviconData);
    out := SiteOutput(outputDir, visited, files);
  }

  /** The tail of `download_favicons` once records exist: sort them in place, then save them in rank order. */
  method SortAndSave(outputDir: string, faviconData: seq<FaviconRecord>) returns (files: seq<SavedFile>)
    ensures files == SavedFiles(outputDir, RankOrder(faviconData))
  {
    var a := new FaviconRecord[|faviconData|](k requires 0 <= k < |faviconData| => faviconData[k]);
    assert a[..] == faviconData;
    RankByArea(a);
    files := SaveFavicons(outputDir, a[..]);
  }

  /**
   * What a site's output amounts to: no file at all exactly when no candidate answered 200,
   * never more files than candidates, and never two files at one path.
   */
  lemma {:induction false} SiteOutputFacts(url: string, w: World, out: SiteOutput)
    requires DownloadSpec(url, w, out)
    ensures out.files == [] <==> forall u :: u in Candidates(url, w) ==> !Succeeded(w.get(u))
    ensures |out.files| <= |out.visited|
    ensures forall i, j :: 0 <= i < j < |out.files| ==> out.files[i].path != out.files[j].path
  {
    var recs := Successes(out.visited, w.get, w.decode);
    RankOrderPermutes(recs);
    assert |RankOrder(recs)| == |recs| by {
      assert |multiset(RankOrder(recs))| == |multiset(recs)|;
    }
    SuccessesEmpty(out.visited, w.get, w.decode);
    SavedFilesDistinct(out.outputDir, RankOrder(recs));
  }

  /**
   * The page does not come back and, of the four fallbacks, only `/apple-touch-icon.png`
   * and `/favicon.ico` answer 200: whatever order the set is visited in, exactly their two
   * records are kept.
   */
  lemma {:induction false} FallbackRecords(url: string, site: string, w: World, visited: seq<string>,
                                           big: seq<byte>, small: seq<byte>)
    requires w.fetchHtml(url).None?
    requires forall k :: 0 <= k < |CommonFaviconPaths| ==> w.join(url, CommonFaviconPaths[k]) == site + CommonFaviconPaths[k]
    requires w.get(site + "/apple-touch-icon.png") == Completed(200, big) && w.decode(big) == Some(Resolution(180, 180))
    requires w.get(site + "/favicon.ico") == Completed(200, small) && w.decode(small) == Some(Resolution(32, 32))
    requires !Succeeded(w.get(site + "/favicon.png")) && !Succeeded(w.get(site + "/apple-touch-icon-precomposed.png"))
    requires IsEnumeration(visited, Candidates(url, w))
    ensures var rA := FaviconRecord(site + "/apple-touch-icon.png", big, Resolution(180, 180));
            var rF := FaviconRecord(site + "/favicon.ico", small, Resolution(32, 32));
            Successes(visited, w.get, w.decode) == [rA, rF] || Successes(visited, w.get, w.decode) == [rF, rA]
  {
    var a, f := site + "/apple-touch-icon.png", site + "/favicon.ico";
    FetchFailureLeavesFallbacks(url, w);
    assert a == w.join(url, CommonFaviconPaths[2]) && f == w.join(url, CommonFaviconPaths[0]);
    assert |a| != |f|;
    forall u | u in visited && Succeeded(w.get(u))
      ensures u == a || u == f
    {
      var m :| 0 <= m < |CommonFaviconPaths| && u == w.join(url, CommonFaviconPaths[m]);
      assert u == site + CommonFaviconPaths[m];
    }
    TwoSuccesses(visited, w.get, w.decode, a, f);
    assert Record(a, w.get, w.decode) == FaviconRecord(a, big, Resolution(180, 180));
    assert Record(f, w.get, w.decode) == FaviconRecord(f, small, Resolution(32, 32));
  }

  /**
   * The whole path for such a site: two files, `1_180x180.png` holding the apple-touch icon
   * and `2_32x32.ico` holding `favicon.ico`, both in the site's directory.
   */
  lemma {:induction false} FallbackOnlySite(url: string, site: string, w: World, out: SiteOutput,
                                            big: seq<byte>, small: seq<byte>)
    requires w.fetchHtml(url).None?
    requires forall k :: 0 <= k < |CommonFaviconPaths| ==> w.join(url, CommonFaviconPaths[k]) == site + CommonFaviconPaths[k]
    requires w.get(site + "/apple-touch-icon.png") == Completed(200, big) && w.decode(big) == Some(Resolution(180, 180))
    requires w.get(site + "/favicon.ico") == Completed(200, small) && w.decode(small) == Some(Resolution(32, 32))
    requires !Succeeded(w.get(site + "/favicon.png")) && !Succeeded(w.get(site + "/apple-touch-icon-precomposed.png"))
    requires DownloadSpec(url, w, out)
    ensures out.outputDir == PathJoin("favicons", DomainName(w.netloc(url)))
    ensures out.files == [SavedFile(PathJoin(out.outputDir, "1_180x180.png"), big),
                          SavedFile(PathJoin(out.outputDir, "2_32x32.ico"), small)]
  {
    var rA := FaviconRecord(site + "/apple-touch-icon.png", big, Resolution(180, 180));
    var rF := FaviconRecord(site + "/favicon.ico", small, Resolution(32, 32));
    FallbackRecords(url, site, w, out.visited, big, small);
    RankTwo(rA, rF);
    FallbackPairFiles(out.outputDir, site, rA, rF);
  }

  /** `"https://" + url` unless the text "http" already occurs anywhere in it. */
  function WithScheme(url: string): (r: string)
    ensures Contains(r, "http")
    ensures Contains(url, "http") ==> r == url
    ensures !Contains(url, "http") ==> r == "https://" + url
  {
    if Contains(url, "http") then url
    else
      var r := "https://" + url;
      ContainsPrefix(r, "http");
      r
  }

  /** Prefixing twice is prefixing once. */
  lemma {:induction false} WithSchemeIdempotent(url: string)
    ensures WithScheme(WithScheme(url)) == WithScheme(url)
  {
  }

  /** `[line.strip() for line in lines if line.strip()]`. */
  function StrippedLines(lines: seq<string>): (urls: seq<string>)
    ensures |urls| <= |lines|
  {
    if lines == [] then []
    else
      var line := lines[|lines| - 1];
      StrippedLines(lines[..|lines| - 1]) + (if Strip(line) != [] then [Strip(line)] else [])
  }

  /** Every URL is non-empty and already stripped: stripping it again changes nothing. */
  lemma {:induction false} StrippedLinesClean(lines: seq<string>)
    ensures forall k :: 0 <= k < |StrippedLines(lines)| ==>
              StrippedLines(lines)[k] != [] && Strip(StrippedLines(lines)[k]) == StrippedLines(lines)[k]
  {
    if lines != [] {
      var line := lines[|lines| - 1];
      StrippedLinesClean(lines[..|lines| - 1]);
      StripIdempotent(line);
      StrippedLinesLast(lines);
    }
  }

  /** The URLs of some lines: those of all but the last line, then the last one stripped if it is not blank. */
  lemma {:induction false} StrippedLinesLast(lines: seq<string>)
    requires lines != []
    ensures StrippedLines(lines) == StrippedLines(lines[..|lines| - 1])
              + (if Strip(lines[|lines| - 1]) != [] then [Strip(lines[|lines| - 1])] else [])
  {
  }

  /** The list keeps file order: the lines of a later part of the file come after those of an earlier part. */
  lemma {:induction false} StrippedLinesConcat(a: seq<string>, b: seq<string>)
    ensures StrippedLines(a + b) == StrippedLines(a) + StrippedLines(b)
    decreases |b|
  {
    if b == [] {
      assert a + b == a;
    } else {
      var b', line := b[..|b| - 1], b[|b| - 1];
      assert b == b' + [line];
      assert a + b == (a + b') + [line];
      StrippedLinesConcat(a, b');
      StrippedLinesSnoc(a + b', line);
      StrippedLinesSnoc(b', line);
      AppendAssoc(StrippedLines(a), StrippedLines(b'), if Strip(line) != [] then [Strip(line)] else []);
    }
  }

  lemma {:induction false} AppendAssoc(p: seq<string>, q: seq<string>, r: seq<string>)
    ensures p + q + r == p + (q + r)
  {
  }

  /** One more line adds its stripped text at the end, unless it is blank. */
  lemma {:induction false} StrippedLinesSnoc(lines: seq<string>, line: string)
    ensures StrippedLines(lines + [line]) == StrippedLines(lines) + (if Strip(line) != [] then [Strip(line)] else [])
  {
    StrippedLinesLast(lines + [line]);
    assert (lines + [line])[..|lines|] == lines;
  }

  /** Every line with something other than whitespace on it becomes a URL, and nothing else does. */
  lemma {:induction false} StrippedLinesExactly(lines: seq<string>, u: string)
    ensures u in StrippedLines(lines) <==> u != [] && exists i :: 0 <= i < |lines| && Strip(lines[i]) == u
  {
    if lines != [] {
      var init, line := lines[..|lines| - 1], lines[|lines| - 1];
      assert lines == init + [line];
      StrippedLinesSnoc(init, line);
      StrippedLinesExactly(init, u);
      if u in StrippedLines(lines) {
        if u in StrippedLines(init) {
          var i :| 0 <= i < |init| && Strip(init[i]) == u;
          assert lines[i] == init[i];
        } else {
          assert Strip(lines[|lines| - 1]) == u;
        }
      }
      if u != [] && exists i :: 0 <= i < |lines| && Strip(lines[i]) == u {
        var i :| 0 <= i < |lines| && Strip(lines[i]) == u;
        if i < |init| {
          assert init[i] == lines[i];
        }
      }
    }
  }

  /** The whole script: the outcome of the `assert len(urls) > 0`, or one output per URL. */
  datatype RunOutcome = EmptyUrlList | Finished(sites: seq<SiteOutput>)

  /** The closing loop `for url in urls`: each URL, in order, gets its scheme and is processed once. */
  method ProcessAll(urls: seq<string>, w: World) returns (sites: seq<SiteOutput>)
    ensures |sites| == |urls|
    ensures forall i :: 0 <= i < |urls| ==> DownloadSpec(WithScheme(urls[i]), w, sites[i])
  {
    sites := [];
    for i := 0 to |urls|
      invariant |sites| == i
      invariant forall k :: 0 <= k < i ==> DownloadSpec(WithScheme(urls[k]), w, sites[k])
    {
      var url := WithScheme(urls[i]);
      var out := DownloadFavicons(url, w);
      sites := sites + [out];
    }
  }

  /**
   * The script for the lines of `urls.txt`: it stops on an empty URL list; otherwise every
   * URL, in file order, gets its scheme and is processed once.
   */
  method Run(lines: seq<string>, w: World) returns (outcome: RunOutcome)
    ensures outcome.EmptyUrlList? <==> StrippedLines(lines) == []
    ensures outcome.Finished? ==> |outcome.sites| == |StrippedLines(lines)|
    ensures outcome.Finished? ==>
              forall i :: 0 <= i < |outcome.sites| ==>
                DownloadSpec(WithScheme(StrippedLines(lines)[i]), w, outcome.sites[i])
  {
    var urls := StrippedLines(lines);
    if |urls| == 0 {
      return EmptyUrlList;
    }
    var sites := ProcessAll(urls, w);
    outcome := Finished(sites);
  }
}
