/**
 * Candidate discovery for one site (main.py:20-66): the image-extension test, the scan of
 * `link`/`meta`/`img` elements in `extract_favicon_links`, and the fixed fallback paths of
 * `check_common_favicons`. `urljoin` is a parameter: its code is not part of this model.
 */
module Discovery {
  import opened Wrappers
  import opened PyStr

  /** VALID_IMAGE_EXTENSIONS. */
  const ValidImageExtensions: seq<string> := [".ico", ".png", ".jpg", ".jpeg", ".webp"]

  /** COMMON_FAVICON_PATHS. */
  const CommonFaviconPaths: seq<string> :=
    ["/favicon.ico", "/favicon.png", "/apple-touch-icon.png", "/apple-touch-icon-precomposed.png"]

  /** `urllib.parse.urljoin(base, url)`, supplied by the caller. */
  type UrlJoin = (string, string) -> string

  /**
   * `any(ext in s.lower() for ext in VALID_IMAGE_EXTENSIONS)`: a case-insensitive substring
   * test, not a suffix test.
   */
  predicate HasImageExtension(s: string) {
    exists ext :: ext in ValidImageExtensions && Contains(Lower(s), ext)
  }

  lemma {:induction false} LowerConcat(a: string, b: string)
    ensures Lower(a + b) == Lower(a) + Lower(b)
  {
  }

  /** The test only sees the lowered text, so it cannot tell `s` from `s.lower()`. */
  lemma {:induction false} HasImageExtensionIgnoresCase(s: string)
    ensures HasImageExtension(Lower(s)) == HasImageExtension(s)
  {
    LowerIdempotent(s);
  }

  /** A qualifying string still qualifies inside any longer string. */
  lemma {:induction false} HasImageExtensionInside(p: string, s: string, q: string)
    requires HasImageExtension(s)
    ensures HasImageExtension(p + s + q)
  {
    var ext :| ext in ValidImageExtensions && Contains(Lower(s), ext);
    LowerConcat(p, s);
    LowerConcat(p + s, q);
    ContainsInside(Lower(p), Lower(s), Lower(q), ext);
  }

  /** Upper case and a trailing query string still match. */
  lemma {:induction false} UpperCaseQueryMatches()
    ensures HasImageExtension("ICON.PNG?v=2")
  {
    assert Lower("ICON.PNG?v=2") == "icon" + ".png" + "?v=2";
    ContainsPrefix(".png", ".png");
    ContainsInside("icon", ".png", "?v=2", ".png");
  }

  /** The test is not a suffix test: `.pngx` matches. */
  lemma {:induction false} LongerSuffixMatches()
    ensures HasImageExtension("/foo.pngx")
  {
    assert Lower("/foo.pngx") == "/foo" + ".png" + "x";
    ContainsPrefix(".png", ".png");
    ContainsInside("/foo", ".png", "x", ".png");
  }

  /** A `.svg` icon is not a candidate. */
  lemma {:induction false} SvgDoesNotMatch()
    ensures !HasImageExtension("icon.svg")
  {
    var t := "icon.svg";
    assert Lower(t) == t;
    forall ext | ext in ValidImageExtensions
      ensures !Contains(t, ext)
    {
      assert |ext| >= 2 && ext[0] == '.' && ext[1] != 's';
      ContainsNeedsPair(t, ext);
    }
  }

  /** One element of the parsed page: its tag name and its attributes. */
  datatype Tag = Tag(name: string, attrs: map<string, string>)

  /** The page as BeautifulSoup would list its elements, in document order. */
  type Document = seq<Tag>

  /** `tag.get(key)`. */
  function Get(t: Tag, key: string): Option<string> {
    if key in t.attrs then Some(t.attrs[key]) else None
  }

  /** `tag.get("href") or tag.get("content")`: an absent or empty `href` falls back on `content`. */
  function LinkValue(t: Tag): Option<string> {
    var href := Get(t, "href");
    if href.Some? && href.value != [] then href else Get(t, "content")
  }

  /** The value a `link` or `meta` element contributes, if it passes the extension test. */
  function LinkCandidate(t: Tag): Option<string> {
    if (t.name == "link" || t.name == "meta") && LinkValue(t).Some?
      && LinkValue(t).value != [] && HasImageExtension(LinkValue(t).value)
    then LinkValue(t)
    else None
  }

  /** The `src` an `img` element contributes, if it passes the extension test. */
  function ImgCandidate(t: Tag): Option<string> {
    if t.name == "img" && "src" in t.attrs && HasImageExtension(t.attrs["src"])
    then Some(t.attrs["src"])
    else None
  }

  /** The joined values `pick` finds among the first `n` elements of `doc`. */
  function Found(doc: Document, n: nat, base: string, join: UrlJoin, pick: Tag -> Option<string>): set<string>
    requires n <= |doc|
  {
    if n == 0 then {}
    else
      Found(doc, n - 1, base, join, pick)
      + (if pick(doc[n - 1]).Some? then {join(base, pick(doc[n - 1]).value)} else {})
  }

  /** A URL is found exactly when some element among the first `n` yields it. */
  lemma {:induction false} FoundExactly(doc: Document, n: nat, base: string, join: UrlJoin,
                                        pick: Tag -> Option<string>, u: string)
    requires n <= |doc|
    ensures u in Found(doc, n, base, join, pick) <==>
            exists i :: 0 <= i < n && pick(doc[i]).Some? && u == join(base, pick(doc[i]).value)
  {
    if n > 0 {
      FoundExactly(doc, n - 1, base, join, pick, u);
    }
  }

  /** What `extract_favicon_links(html, base_url)` returns for the parsed page `doc`. */
  function ExtractedLinks(doc: Document, base: string, join: UrlJoin): set<string> {
    Found(doc, |doc|, base, join, LinkCandidate) + Found(doc, |doc|, base, join, ImgCandidate)
  }

  /**
   * The extracted set holds exactly the joined values of the qualifying `link`/`meta` values
   * and the qualifying `img` sources.
   */
  lemma {:induction false} ExtractedLinksExactly(doc: Document, base: string, join: UrlJoin, u: string)
    ensures u in ExtractedLinks(doc, base, join) <==>
            exists i :: 0 <= i < |doc| &&
              ((LinkCandidate(doc[i]).Some? && u == join(base, LinkCandidate(doc[i]).value)) ||
               (ImgCandidate(doc[i]).Some? && u == join(base, ImgCandidate(doc[i]).value)))
  {
    FoundExactly(doc, |doc|, base, join, LinkCandidate, u);
    FoundExactly(doc, |doc|, base, join, ImgCandidate, u);
  }

  /**
   * `extract_favicon_links`: one pass over the `link`/`meta` elements, then the `img` pass,
   * repeated once per name in `["head", "header"]`; the repeat adds nothing to the set.
   */
  method ExtractFaviconLinks(doc: Document, baseUrl: string, join: UrlJoin) returns (favicons: set<string>)
    ensures favicons == ExtractedLinks(doc, baseUrl, join)
  {
    favicons := {};
    for i := 0 to |doc|
      invariant favicons == Found(doc, i, baseUrl, join, LinkCandidate)
    {
      var tag := doc[i];
      if tag.name == "link" || tag.name == "meta" {
        var href := LinkValue(tag);
        if href.Some? && href.value != [] && HasImageExtension(href.value) {
          favicons := favicons + {join(baseUrl, href.value)};
        }
      }
    }
    ghost var links := favicons;
    ghost var images := Found(doc, |doc|, baseUrl, join, ImgCandidate);
    var sections := ["head", "header"];
    for s := 0 to |sections|
      invariant favicons == links + (if s == 0 then {} else images)
    {
      favicons := AddImageSources(doc, baseUrl, join, favicons);
    }
  }

  /** The inner `img` pass of `extract_favicon_links`: every qualifying `src`, joined, joins the set. */
  method AddImageSources(doc: Document, baseUrl: string, join: UrlJoin, acc: set<string>)
    returns (favicons: set<string>)
    ensures favicons == acc + Found(doc, |doc|, baseUrl, join, ImgCandidate)
  {
    favicons := acc;
    for i := 0 to |doc|
      invariant favicons == acc + Found(doc, i, baseUrl, join, ImgCandidate)
    {
      var img := doc[i];
      if img.name == "img" && "src" in img.attrs {
        var imgUrl := img.attrs["src"];
        if HasImageExtension(imgUrl) {
          favicons := favicons + {join(baseUrl, imgUrl)};
        }
      }
    }
  }

  /** `check_common_favicons(base_url)`: one joined URL per fallback path, in that order. */
  function CheckCommonFavicons(baseUrl: string, join: UrlJoin): (urls: seq<string>)
    ensures |urls| == |CommonFaviconPaths| == 4
    ensures forall k :: 0 <= k < 4 ==> urls[k] == join(baseUrl, CommonFaviconPaths[k])
  {
    seq(|CommonFaviconPaths|, k requires 0 <= k < |CommonFaviconPaths| => join(baseUrl, CommonFaviconPaths[k]))
  }
}
