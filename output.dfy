/**
 * Saving one site's ranked favicons (main.py:114-126): the extension chosen for each file,
 * the `{rank}_{width}x{height}{ext}` name, and the loop that writes one file per record.
 * Writing is modelled as the list of (path, bytes) pairs written, in order.
 */
module Output {
  import opened PyStr
  import opened Discovery
  import opened Ranking

  /** One `open(file_path, "wb").write(image_data)`. */
  datatype SavedFile = SavedFile(path: string, data: seq<byte>)

  /**
   * `os.path.splitext(url)[-1].lower()`, replaced by `.png` when it is not one of
   * VALID_IMAGE_EXTENSIONS. The suffix is taken from the whole URL, query string included.
   */
  function ChooseExtension(url: string): (ext: string)
    ensures ext in ValidImageExtensions
  {
    var ext := Lower(SplitExt(url));
    if ext in ValidImageExtensions then ext else ".png"
  }

  /** The lowered suffix is kept exactly when it is an image extension; otherwise `.png`. */
  lemma {:induction false} ChooseExtensionCases(url: string)
    ensures Lower(SplitExt(url)) in ValidImageExtensions ==> ChooseExtension(url) == Lower(SplitExt(url))
    ensures Lower(SplitExt(url)) !in ValidImageExtensions ==> ChooseExtension(url) == ".png"
  {
  }

  /**
   * The extension chosen for a URL whose last path component is `name.ext`: the lowered
   * `.ext` when that is an image extension, `.png` otherwise.
   */
  lemma {:induction false} ChooseExtensionOfName(url: string, dir: string, name: string, ext: string)
    requires url == dir + "/" + name + "." + ext
    requires name != [] && name[0] != '.' && '/' !in name
    requires '/' !in ext && '.' !in ext
    ensures Lower("." + ext) in ValidImageExtensions ==> ChooseExtension(url) == Lower("." + ext)
    ensures Lower("." + ext) !in ValidImageExtensions ==> ChooseExtension(url) == ".png"
  {
    SplitExtOfName(dir, name, ext);
    ChooseExtensionCases(url);
  }

  lemma {:induction false} UpperCaseIcoName(site: string)
    ensures site + "/favicon.ICO" == site + "/" + "favicon" + "." + "ICO"
    ensures "favicon"[0] != '.' && '/' !in "favicon" && '/' !in "ICO" && '.' !in "ICO"
    ensures Lower("." + "ICO") == ".ico"
  {
    assert "." + "ICO" == ".ICO";
    assert LowerChar('I') == 'i' && LowerChar('C') == 'c' && LowerChar('O') == 'o';
  }

  /** An upper-case extension is lowered, whatever site the icon is on. */
  lemma {:induction false} UpperCaseExtensionLowered(site: string)
    ensures ChooseExtension(site + "/favicon.ICO") == ".ico"
  {
    UpperCaseIcoName(site);
    ChooseExtensionOfName(site + "/favicon.ICO", site, "favicon", "ICO");
  }

  lemma {:induction false} QueryStringName(site: string)
    ensures site + "/i.ico?v=2" == site + "/" + "i" + "." + "ico?v=2"
    ensures "i"[0] != '.' && '/' !in "i" && '/' !in "ico?v=2" && '.' !in "ico?v=2"
    ensures |Lower("." + "ico?v=2")| == 8
  {
  }

  /** A query string after the extension makes the `.png` default apply. */
  lemma {:induction false} QueryStringDefaultsToPng(site: string)
    ensures ChooseExtension(site + "/i.ico?v=2") == ".png"
  {
    QueryStringName(site);
    ChooseExtensionOfName(site + "/i.ico?v=2", site, "i", "ico?v=2");
  }

  lemma {:induction false} BareSiteName(host: string)
    ensures "https://" + host + ".com" == "https:/" + "/" + host + "." + "com"
    ensures '/' !in "com" && '.' !in "com"
    ensures Lower("." + "com") == ".com"
  {
    assert "." + "com" == ".com";
  }

  /** A bare site URL `https://<host>.com` yields `.com` as its suffix, which is not an image extension. */
  lemma {:induction false} BareSiteDefaultsToPng(host: string)
    requires host != [] && host[0] != '.' && '/' !in host
    ensures SplitExt("https://" + host + ".com") == ".com"
    ensures ChooseExtension("https://" + host + ".com") == ".png"
  {
    BareSiteName(host);
    SplitExtOfName("https:/", host, "com");
    ChooseExtensionOfName("https://" + host + ".com", "https:/", host, "com");
  }

  /** The part of a file name after the rank: `{width}x{height}{ext}`. */
  function Descriptor(r: FaviconRecord): string {
    Decimal(r.resolution.width) + "x" + Decimal(r.resolution.height) + ChooseExtension(r.url)
  }

  /** `f"{idx + 1}_{resolution[0]}x{resolution[1]}{ext}"` for the record at 1-based `rank`. */
  function FileName(rank: nat, r: FaviconRecord): string {
    Decimal(rank) + "_" + Descriptor(r)
  }

  /** Text that ends at the first occurrence of `c` is determined by that occurrence. */
  lemma {:induction false} SeparatedPrefix(p1: string, r1: string, p2: string, r2: string, c: char)
    requires c !in p1 && c !in p2
    requires p1 + [c] + r1 == p2 + [c] + r2
    ensures p1 == p2
  {
    var s := p1 + [c] + r1;
    assert s[|p1|] == c && s[|p2|] == c;
    assert forall k :: 0 <= k < |p1| ==> s[k] == p1[k] != c;
    assert forall k :: 0 <= k < |p2| ==> s[k] == p2[k] != c;
    assert |p1| == |p2|;
    assert p1 == s[..|p1|] && p2 == s[..|p2|];
  }

  /** A file name starts with a digit, so joining it onto a directory keeps the directory. */
  lemma {:induction false} FileNameIsRelative(rank: nat, r: FaviconRecord)
    ensures FileName(rank, r) != [] && IsDigit(FileName(rank, r)[0]) && FileName(rank, r)[0] != '/'
  {
    DecimalDigits(rank);
    assert FileName(rank, r)[0] == Decimal(rank)[0];
  }

  /** The rank prefix keeps names apart: different ranks give different file names. */
  lemma {:induction false} FileNamesDistinct(i: nat, x: FaviconRecord, j: nat, y: FaviconRecord)
    requires i != j
    ensures FileName(i, x) != FileName(j, y)
  {
    if FileName(i, x) == FileName(j, y) {
      DecimalDigits(i);
      DecimalDigits(j);
      assert '_' !in Decimal(i) && '_' !in Decimal(j);
      SeparatedPrefix(Decimal(i), Descriptor(x), Decimal(j), Descriptor(y), '_');
      DecimalInjective(i, j);
    }
  }

  lemma {:induction false} AppleTouchIconName(site: string)
    ensures site + "/apple-touch-icon.png" == site + "/" + "apple-touch-icon" + "." + "png"
    ensures "apple-touch-icon"[0] != '.' && '/' !in "apple-touch-icon" && '/' !in "png" && '.' !in "png"
    ensures Lower("." + "png") == ".png"
  {
    assert "." + "png" == ".png";
  }

  lemma {:induction false} AppleTouchIconIsPng(site: string)
    ensures ChooseExtension(site + "/apple-touch-icon.png") == ".png"
  {
    AppleTouchIconName(site);
    ChooseExtensionOfName(site + "/apple-touch-icon.png", site, "apple-touch-icon", "png");
  }

  lemma {:induction false} FaviconIcoName(site: string)
    ensures site + "/favicon.ico" == site + "/" + "favicon" + "." + "ico"
    ensures "favicon"[0] != '.' && '/' !in "favicon" && '/' !in "ico" && '.' !in "ico"
    ensures Lower("." + "ico") == ".ico"
  {
    assert "." + "ico" == ".ico";
  }

  lemma {:induction false} FaviconIcoIsIco(site: string)
    ensures ChooseExtension(site + "/favicon.ico") == ".ico"
  {
    FaviconIcoName(site);
    ChooseExtensionOfName(site + "/favicon.ico", site, "favicon", "ico");
  }

  lemma {:induction false} DecimalExamples()
    ensures Decimal(1) == "1" && Decimal(2) == "2" && Decimal(32) == "32" && Decimal(180) == "180"
  {
    assert Decimal(18) == "18";
  }

  /** A file name assembled from the printed rank, the printed width and height, and the extension. */
  lemma {:induction false} FileNameFromParts(rank: nat, r: FaviconRecord, digits: string, w: string, h: string, e: string)
    requires Decimal(rank) == digits
    requires Decimal(r.resolution.width) == w && Decimal(r.resolution.height) == h
    requires ChooseExtension(r.url) == e
    ensures FileName(rank, r) == digits + "_" + (w + "x" + h + e)
  {
  }

  /** A 180x180 `.png` fallback ranked first is saved as `1_180x180.png`. */
  lemma {:induction false} FirstFileNameExample(site: string, big: FaviconRecord)
    requires big.resolution == Resolution(180, 180) && big.url == site + "/apple-touch-icon.png"
    ensures FileName(1, big) == "1_180x180.png"
  {
    AppleTouchIconIsPng(site);
    DecimalExamples();
    FileNameFromParts(1, big, "1", "180", "180", ".png");
    ExampleNamesSpelled();
  }

  /** A 32x32 `.ico` fallback ranked second is saved as `2_32x32.ico`. */
  lemma {:induction false} SecondFileNameExample(site: string, small: FaviconRecord)
    requires small.resolution == Resolution(32, 32) && small.url == site + "/favicon.ico"
    ensures FileName(2, small) == "2_32x32.ico"
  {
    FaviconIcoIsIco(site);
    DecimalExamples();
    FileNameFromParts(2, small, "2", "32", "32", ".ico");
    ExampleNamesSpelled();
  }

  lemma {:induction false} ExampleNamesSpelled()
    ensures "1" + "_" + ("180" + "x" + "180" + ".png") == "1_180x180.png"
    ensures "2" + "_" + ("32" + "x" + "32" + ".ico") == "2_32x32.ico"
  {
  }

  /** What the save loop writes for the ranked records under `outputDir`, in rank order. */
  function SavedFiles(outputDir: string, ranked: seq<FaviconRecord>): seq<SavedFile> {
    seq(|ranked|, i requires 0 <= i < |ranked| =>
      SavedFile(PathJoin(outputDir, FileName(i + 1, ranked[i])), ranked[i].data))
  }

  /** The two fallback icons, ranked 180x180 then 32x32, are saved as `1_180x180.png` and `2_32x32.ico`. */
  lemma {:induction false} FallbackPairFiles(outputDir: string, site: string, big: FaviconRecord, small: FaviconRecord)
    requires big.resolution == Resolution(180, 180) && big.url == site + "/apple-touch-icon.png"
    requires small.resolution == Resolution(32, 32) && small.url == site + "/favicon.ico"
    ensures SavedFiles(outputDir, [big, small]) == [SavedFile(PathJoin(outputDir, "1_180x180.png"), big.data),
                                                    SavedFile(PathJoin(outputDir, "2_32x32.ico"), small.data)]
  {
    SavedFilesPair(outputDir, big, small);
    FirstFileNameExample(site, big);
    SecondFileNameExample(site, small);
  }

  /** Two ranked records are saved under ranks 1 and 2, in that order. */
  lemma {:induction false} SavedFilesPair(outputDir: string, x: FaviconRecord, y: FaviconRecord)
    ensures SavedFiles(outputDir, [x, y]) == [SavedFile(PathJoin(outputDir, FileName(1, x)), x.data),
                                              SavedFile(PathJoin(outputDir, FileName(2, y)), y.data)]
  {
    var fs := SavedFiles(outputDir, [x, y]);
    SavedFileAt(outputDir, [x, y], 0);
    SavedFileAt(outputDir, [x, y], 1);
    assert |fs| == 2;
  }

  /** Two saved files of different rank have different paths. */
  lemma {:induction false} SavedFilePathsDiffer(outputDir: string, ranked: seq<FaviconRecord>, i: nat, j: nat)
    requires i < j < |ranked|
    ensures SavedFiles(outputDir, ranked)[i].path != SavedFiles(outputDir, ranked)[j].path
  {
    var ri, rj := i + 1, j + 1;
    var x, y := ranked[i], ranked[j];
    var f, g := FileName(ri, x), FileName(rj, y);
    FileNamesDistinct(ri, x, rj, y);
    FileNameIsRelative(ri, x);
    FileNameIsRelative(rj, y);
    SavedFileAt(outputDir, ranked, i);
    SavedFileAt(outputDir, ranked, j);
    if PathJoin(outputDir, f) == PathJoin(outputDir, g) {
      PathJoinInjective(outputDir, f, g);
    }
  }

  /** Every path written for one site is different from every other. */
  lemma {:induction false} SavedFilesDistinct(outputDir: string, ranked: seq<FaviconRecord>)
    ensures forall i, j :: 0 <= i < j < |ranked| ==>
              SavedFiles(outputDir, ranked)[i].path != SavedFiles(outputDir, ranked)[j].path
  {
    forall i, j | 0 <= i < j < |ranked|
      ensures SavedFiles(outputDir, ranked)[i].path != SavedFiles(outputDir, ranked)[j].path
    {
      SavedFilePathsDiffer(outputDir, ranked, i, j);
    }
  }

  /** The `i`-th saved file: the record's bytes under the name of rank `i + 1`. */
  lemma {:induction false} SavedFileAt(outputDir: string, ranked: seq<FaviconRecord>, i: nat)
    requires i < |ranked|
    ensures SavedFiles(outputDir, ranked)[i] == SavedFile(PathJoin(outputDir, FileName(i + 1, ranked[i])), ranked[i].data)
  {
  }

  lemma {:induction false} TakeOneMore(s: seq<SavedFile>, i: nat)
    requires i < |s|
    ensures s[..i] + [s[i]] == s[..i + 1]
  {
  }

  /**
   * The save loop: for each ranked record, in order, one file named by its 1-based rank, its
   * resolution and its extension, holding the downloaded bytes. No two files share a path,
   * so no write overwrites another one of the same run.
   */
  method SaveFavicons(outputDir: string, faviconData: seq<FaviconRecord>) returns (files: seq<SavedFile>)
    ensures files == SavedFiles(outputDir, faviconData)
    ensures forall i, j :: 0 <= i < j < |files| ==> files[i].path != files[j].path
  {
    files := [];
    for idx := 0 to |faviconData|
      invariant files == SavedFiles(outputDir, faviconData)[..idx]
    {
      var record := faviconData[idx];
      var filename := FileName(idx + 1, record);
      var filePath := PathJoin(outputDir, filename);
      SavedFileAt(outputDir, faviconData, idx);
      TakeOneMore(SavedFiles(outputDir, faviconData), idx);
      files := files + [SavedFile(filePath, record.data)];
    }
    assert files == SavedFiles(outputDir, faviconData)[..|faviconData|];
    SavedFilesDistinct(outputDir, faviconData);
  }
}
