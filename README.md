# favicon_thief, modelled in Dafny

favicon_thief is a one-file Python script (`main.py`). It reads site URLs from
`urls.txt`. For each site it gathers favicon candidates:

- the `link`/`meta`/`img` URLs on the home page whose text contains an image extension;
- four fixed fallback paths.

It then downloads every candidate and keeps those that answered HTTP 200. It sorts them by
pixel area, largest first, and writes each one to `favicons/<domain>/<rank>_<w>x<h><ext>`.

This project models that decision logic and proves what it guarantees. Everything outside the
process comes in as plain function values: the URL parser, the HTTP client, the HTML parser,
the image decoder and `urljoin`. The files are:

- `wrappers.dfy`: `Option`.
- `pystr.dfy`: the parts of Python's `str`, `int` and `os.path` that the script relies on:
  - `lower`, the `sub in s` test, `strip`, `replace(pat, "")`;
  - `str(n)`, `rfind`;
  - POSIX `splitext` and two-argument `join`.
- `discovery.dfy`: the image-extension test, `extract_favicon_links` and `check_common_favicons`.
- `ranking.dfy`:
  - the download loop over the candidate set;
  - `get_image_resolution`;
  - the stable descending sort, as an in-place insertion sort on an array.
- `output.dfy`: the extension choice, the file name and the save loop. The loop yields the list
  of (path, bytes) pairs it writes.
- `pipeline.dfy`: the URL list, the `https://` prefix, the domain directory,
  `download_favicons` and the loop over all sites.

Behaviour of `main.py` worth noting, which the model follows as written:

- The domain name drops every occurrence of `www.` (`str.replace`, main.py:81), not only a
  leading one. See `Pipeline.DomainNameInnerWww`.
- The per-domain directory is created (main.py:83) before anything is fetched. So it exists
  even for a site where no candidate answered 200. Only the files are missing then.
- The docstring and comment at main.py:44 and main.py:54 speak of `<head>` and `<header>`, but
  the `img` pass (main.py:55-59) scans every `img` element of the page. It runs twice, once per
  section name; the second pass adds nothing.
- The extension test (main.py:51, 58) is a substring test on the lowered text. So `/foo.pngx`
  qualifies (`Discovery.LongerSuffixMatches`).
- The extension for the saved file comes from `splitext` of the whole URL (main.py:116), query
  string included. So `.../i.ico?v=2` is saved as `.png` (`Output.QueryStringDefaultsToPng`).

## Model

| member | source | states |
|---|---|---|
| PyStr.LowerIdempotent | main.py:51 | lowering an already lowered string changes nothing |
| PyStr.ContainsInside | main.py:51 | a substring found in `s` is still found once text is added on both sides of `s` |
| PyStr.StripShape | main.py:12 | `strip()` returns a slice of the line with only whitespace cut from either end; the result is empty or neither starts nor ends with whitespace |
| PyStr.StripPadded | main.py:12 | stripping any whitespace padding around text whose ends are not whitespace gives back exactly that text |
| PyStr.StripIdempotent | main.py:12 | stripping twice is stripping once |
| PyStr.RemoveAllAbsent | main.py:81 | `replace("www.", "")` leaves text without `www.` unchanged |
| PyStr.RemoveAllLeftmost | main.py:81 | the scan is left to right: text before the first occurrence is kept, that occurrence is dropped, and the scan continues after it |
| PyStr.DecimalDigits | main.py:120 | `str(n)` consists of digits only and has no leading zero unless it is `0` |
| PyStr.DecimalRoundTrip | main.py:120 | reading `str(n)` back as a number gives `n` |
| PyStr.DecimalInjective | main.py:120 | different numbers print differently |
| PyStr.SplitExtShape | main.py:116 | the `splitext` suffix is empty or a dot-led tail of the path that holds no other dot and no `/` |
| PyStr.SplitExtOfName | main.py:116 | for a path ending in `/name.ext`, with `name` not starting with a dot and `ext` free of dots and slashes, the suffix is `.ext` |
| PyStr.PathJoinShape | main.py:121 | `os.path.join(a, b)` returns `b` when `b` is absolute; otherwise it starts with `a`, ends with `b` and puts at most one character between them, which is `/` |
| PyStr.PathJoinInjective | main.py:121 | joining different relative names onto one directory gives different paths |
| Discovery.HasImageExtensionIgnoresCase | main.py:51 | the extension test cannot tell a string from its lowered form |
| Discovery.HasImageExtensionInside | main.py:58 | a string that passes the extension test still passes inside any longer string |
| Discovery.UpperCaseQueryMatches | main.py:51 | `ICON.PNG?v=2` passes: case is ignored and a query string does not matter |
| Discovery.LongerSuffixMatches | main.py:58 | `/foo.pngx` passes: the test is not a suffix test |
| Discovery.SvgDoesNotMatch | main.py:29 | `icon.svg` fails the test: `.svg` is not among the accepted extensions |
| Discovery.FoundExactly | main.py:49-52 | a URL is in a pass's result exactly when some element among those scanned yields it after joining |
| Discovery.ExtractedLinksExactly | main.py:43-61 | a URL is extracted exactly when it is the joined `href`-or-`content` of a qualifying `link`/`meta` element or the joined `src` of a qualifying `img` element |
| Discovery.ExtractFaviconLinks | main.py:43-61 | the loops return exactly that set, although the `img` pass runs twice |
| Discovery.AddImageSources | main.py:56-59 | one `img` pass adds exactly the joined qualifying `src` values to the set it starts from |
| Discovery.CheckCommonFavicons | main.py:64-66 | four URLs: the base joined with each fallback path, in the order listed |
| Ranking.GetImageResolution | main.py:69-75 | the decoded size, or `(0, 0)` when decoding fails |
| Ranking.Successes | main.py:97-105 | never more records than visited candidates; every record is for a visited URL that answered 200, and holds that response's body and the resolution decoded from it |
| Ranking.CollectFavicons | main.py:96-105 | each candidate is visited exactly once, in some order, and the records are those of the candidates that answered 200, in visiting order |
| Ranking.SuccessesComplete | main.py:100-103 | every visited candidate that answered 200 has a record |
| Ranking.SuccessesConcat | main.py:97-103 | records keep the visiting order: those of earlier candidates come before those of later ones |
| Ranking.SuccessesEmpty | main.py:107 | `favicon_data` is empty exactly when no visited candidate answered 200 |
| Ranking.SuccessesDistinctUrls | main.py:97-103 | a set is iterated without repeats, so no two records share a URL |
| Ranking.TwoSuccesses | main.py:96-105 | when exactly two visited candidates answer 200, `favicon_data` is their two records, in one visiting order or the other |
| Ranking.InsertByAreaPermutes | main.py:112 | one insertion step adds the record and loses or duplicates nothing |
| Ranking.InsertByAreaMembers | main.py:112 | one insertion step adds nothing but the inserted record |
| Ranking.InsertByAreaSorted | main.py:112 | one insertion step keeps a list sorted by non-increasing area |
| Ranking.InsertByAreaKeepsTies | main.py:112 | one insertion step puts the record after every record of equal area |
| Ranking.InsertByAreaAt | main.py:112 | the record is inserted at the slot after which every record has strictly smaller area and before which the record has at least its area |
| Ranking.RankOrderPermutes | main.py:112 | the ranked list is a permutation of `favicon_data` |
| Ranking.RankOrderSorted | main.py:112 | along the ranked list, `width * height` never increases |
| Ranking.RankOrderStable | main.py:112 | records of equal area keep their relative order: the sort is stable |
| Ranking.RankOrderStableAt | main.py:112 | for each area, the records of that area appear in the same order before and after sorting |
| Ranking.SortedTieOrderUnique | main.py:112 | two non-increasing lists that agree on the order within every group of equal area are equal |
| Ranking.RankOrderIsTheStableSort | main.py:112 | any non-increasing list that keeps the input's order among ties equals the ranked list, so Timsort's result is this one |
| Ranking.RankOrderExample | main.py:112 | sizes 16x16, 32x32, 0x0, 64x64 rank as 64x64, 32x32, 16x16, 0x0 |
| Ranking.RankTwo | main.py:112 | of two records with different areas, the larger ranks first whichever was downloaded first |
| Ranking.ShiftSmaller | main.py:112 | the shifting loop moves the records of strictly smaller area one slot right, leaves the rest of the array alone, and stops at a record of at least the inserted area |
| Ranking.InsertAt | main.py:112 | one in-place insertion step turns the prefix `a[..i+1]` into the insertion of `a[i]` into the ranked `a[..i]`, and leaves the rest of the array alone |
| Ranking.RankByArea | main.py:112 | the in-place sort leaves the array sorted by non-increasing area, a permutation of its old contents, stable among ties and equal to the ranked list |
| Output.ChooseExtension | main.py:116-118 | the chosen extension is always one of `.ico .png .jpg .jpeg .webp` |
| Output.ChooseExtensionOfName | main.py:116-118 | for a URL ending in `/name.ext`, the extension is the lowered `.ext` when it is valid and `.png` otherwise |
| Output.UpperCaseExtensionLowered | main.py:116 | `.../favicon.ICO` is saved with `.ico` |
| Output.QueryStringDefaultsToPng | main.py:116-118 | `.../i.ico?v=2` is saved with `.png` |
| Output.BareSiteDefaultsToPng | main.py:116-118 | a bare `https://<host>.com` candidate has `splitext` suffix `.com` and is saved with `.png` |
| Output.AppleTouchIconIsPng | main.py:116-118 | the `/apple-touch-icon.png` fallback is saved with `.png` |
| Output.FaviconIcoIsIco | main.py:116-118 | the `/favicon.ico` fallback is saved with `.ico` |
| Output.DecimalExamples | main.py:120 | `str` of 1, 2, 32 and 180 |
| Output.FirstFileNameExample | main.py:120 | a 180x180 apple-touch icon ranked first is named `1_180x180.png` |
| Output.SecondFileNameExample | main.py:120 | a 32x32 `favicon.ico` ranked second is named `2_32x32.ico` |
| Output.FallbackPairFiles | main.py:115-124 | ranked 180x180 apple-touch icon then 32x32 `favicon.ico`, the save loop writes `1_180x180.png` and `2_32x32.ico` under the output directory, with their bytes |
| Output.FileNameIsRelative | main.py:120-121 | a file name is non-empty and starts with a digit, never with `/`, so joining keeps the directory |
| Output.FileNamesDistinct | main.py:120 | different ranks give different file names, whatever the records |
| Output.SavedFilePathsDiffer | main.py:115-124 | two files written for one site never share a path |
| Output.SavedFilesDistinct | main.py:115-124 | all paths written for one site are pairwise different, so no write overwrites another from the same site |
| Output.SaveFavicons | main.py:115-124 | the loop writes one file per ranked record, in rank order, at the computed path, with the record's bytes; no two paths coincide |
| Pipeline.DomainName | main.py:81 | the domain is never longer than the host |
| Pipeline.DomainNameWithoutWww | main.py:81 | a host without `www.` is its own domain name |
| Pipeline.DomainNameLeadingWww | main.py:81 | a leading `www.` is dropped |
| Pipeline.DomainNameInnerWww | main.py:81 | an inner `www.` is dropped too: `cdn.www.io` gives `cdn.io` |
| Pipeline.FallbacksAlwaysCandidates | main.py:89-93 | the four fallback URLs are candidates whether or not the page was fetched |
| Pipeline.FetchFailureLeavesFallbacks | main.py:86-93 | when the page cannot be fetched, the candidates are exactly the four fallbacks |
| Pipeline.DownloadFavicons | main.py:78-124 | the output directory is `favicons` joined with the domain; each candidate is visited once; the saved files are those of the records of the 200 answers, ranked by area |
| Pipeline.SortAndSave | main.py:111-124 | sorting in place and then saving writes the files of the ranked records |
| Pipeline.SiteOutputFacts | main.py:96-124 | a site gets no file exactly when no candidate answered 200; it gets at most one file per candidate; no two of its files share a path |
| Pipeline.FallbackRecords | main.py:86-105 | when the page fetch fails and only the apple-touch and `favicon.ico` fallbacks answer 200, `favicon_data` holds exactly their two records, in either visiting order |
| Pipeline.FallbackOnlySite | main.py:78-124 | for that site, `download_favicons` writes exactly `1_180x180.png` with the apple-touch icon and `2_32x32.ico` with `favicon.ico`, in `favicons/<domain>` |
| Pipeline.WithScheme | main.py:131-132 | the URL used contains `http`; it is the line unchanged if the line contained `http` anywhere, else `https://` plus the line |
| Pipeline.WithSchemeIdempotent | main.py:131-132 | adding the scheme twice is adding it once |
| Pipeline.StrippedLines | main.py:12 | there are never more URLs than lines |
| Pipeline.StrippedLinesClean | main.py:12 | every URL is non-empty and already stripped |
| Pipeline.StrippedLinesConcat | main.py:12 | URLs keep file order: later lines' URLs come after earlier lines' |
| Pipeline.StrippedLinesExactly | main.py:12 | a text is a URL exactly when it is non-empty and is the stripped form of some line |
| Pipeline.ProcessAll | main.py:130-133 | each URL, in order, gets its scheme and is processed once, as `download_favicons` specifies |
| Pipeline.Run | main.py:12-133 | the script stops exactly when the URL list is empty; otherwise it produces one site output per URL, in file order, each as `download_favicons` specifies |

## Left out

- The network, the HTML parser, `urlparse`/`urljoin` and PIL are parameters (`Pipeline.World`); their code is not part of this model. `fetch_html` (main.py:32-40) returns `None` exactly when `requests` raises a `RequestException`: a connection failure, the 5-second timeout, or an error status on the final response, which `raise_for_status` turns into an exception. That outcome is the `fetchHtml` parameter's `None`. Redirects are followed inside `requests` and are not modelled, and neither is the User-Agent header; so is an empty page text, which `if html:` treats like a failed fetch.
- BeautifulSoup's document is modelled as the list of elements in document order, each with its tag name and attributes; HTML parsing is not modelled.
- Printing (errors, "No favicons found", "Saved: ...", the final message) is left out: it changes no state the script reads.
- Filesystem effects are modelled as values: the output directory each site gets and the list of (path, bytes) writes. `os.makedirs` itself, the top-level `favicons` directory (main.py:18), file contents already on disk, and overwriting across sites or runs are not modelled.
- Two URLs with the same domain write into the same directory, and the second site's files overwrite the first's of equal name; the model keeps each site's writes separate and says nothing about this.
- Python set iteration order is unspecified; the download loop picks any unvisited candidate, and every property is stated for whatever order was taken.
- A request that raises `requests.RequestException`, including the failures `requests` reports while reading the body at main.py:101 (`ChunkedEncodingError`, `ContentDecodingError`, `ConnectionError`), is the `Raised` response, and the candidate is skipped. Any other exception in the download loop would end the script; that is not modelled.
- `World.fetchHtml` and `World.get` are functions of the URL alone, so they give one answer for the whole run. A URL fetched twice cannot get two different outcomes, for example a line repeated in `urls.txt` or an icon URL shared by two sites.
- The `assert len(urls) > 0` failure is modelled as the `EmptyUrlList` outcome, not as an exception.
- Reading `urls.txt` is not modelled: the lines are an input.
- PyStr.Lower: lowers ASCII letters only; Python's `str.lower` also maps non-ASCII letters.
- Image sizes are natural numbers; PIL never reports negative sizes, and the sort key `width * height` is computed on unbounded integers as in Python.
- CPython's Timsort is not modelled step by step; the in-place sort is an insertion sort, and `Ranking.RankOrderIsTheStableSort` shows that every stable descending sort gives the same list.
