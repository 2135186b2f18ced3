/**
 * The URL and path helpers of the download stage: `validate_url`
 * (main.py:24-32) and `strip_file_name` (main.py:128-137), the function that
 * turns a crawled item path into the local sub-directory the file goes to.
 */
module Resolver {
  import opened Text

  /**
   * `validate_url(url)`: the URL with a trailing slash, added only when
   * missing: the shortest extension of `url` that ends in `/`.
   */
  function ValidateUrl(url: string): (r: string)
    ensures EndsWithSlash(r)
    ensures url <= r && |r| <= |url| + 1
    ensures EndsWithSlash(url) ==> r == url
  {
    if !EndsWithSlash(url) then url + "/" else url
  }

  /** No string that extends `url` and ends in `/` is shorter than the validated URL. */
  lemma ValidateUrlIsShortest(url: string, s: string)
    requires url <= s && EndsWithSlash(s)
    ensures |ValidateUrl(url)| <= |s|
  {
    if |s| == |url| {
      assert s == url;
    }
  }

  /** Validating twice is validating once. */
  lemma ValidateUrlIdempotent(url: string)
    ensures ValidateUrl(ValidateUrl(url)) == ValidateUrl(url)
  {
  }

  /**
   * `strip_file_name(base_url, full_url)` as written: every occurrence of the
   * base URL is removed, then every occurrence of the text after the last
   * slash (Python's `str.replace` replaces all occurrences, not just the
   * final one).
   */
  function StripFileName(baseUrl: string, fullUrl: string): (path: string)
    ensures |path| <= |fullUrl|
  {
    RemoveAll(RemoveAll(fullUrl, baseUrl), LastSegment(fullUrl))
  }

  /**
   * The directory part of an item path, as the download stage intends it:
   * everything up to and including the last slash.
   */
  function LocalDir(item: string): string {
    DirPart(item)
  }

  /** `LocalDir` splits `item` into a folder path and a slash-free file name, the last segment. */
  lemma LocalDirSplits(item: string)
    ensures IsDirPath(LocalDir(item))
    ensures LocalDir(item) + LastSegment(item) == item
    ensures '/' !in item[|LocalDir(item)|..]
  {
    LastSegmentSplitsAtLastSlash(item);
    assert item[|DirPart(item)|..] == LastSegment(item);
  }

  /**
   * When the base URL does not occur in the item and the file name occurs in
   * it only as its suffix, the code as written computes the intended
   * directory.
   */
  lemma StripFileNameAgrees(baseUrl: string, item: string)
    requires !IsInfix(baseUrl, item)
    requires LastSegment(item) == "" || OnlyAtEnd(LastSegment(item), item)
    ensures StripFileName(baseUrl, item) == LocalDir(item)
  {
    RemoveAllAbsent(item, baseUrl);
    var name := LastSegment(item);
    var d := LocalDir(item);
    LocalDirSplits(item);
    if name != "" {
      RemoveAllOnlySuffix(d, name);
    }
  }

  /**
   * For a file `name` in folder `d`, the code as written yields `d` whenever
   * the name does not also occur inside the folder path and the base URL
   * does not occur in the item.
   */
  lemma StripFileNameOfFolderFile(baseUrl: string, d: string, name: string)
    requires IsDirPath(d) && '/' !in name && name != ""
    requires !IsInfix(name, d)
    requires !IsInfix(baseUrl, d + name)
    ensures StripFileName(baseUrl, d + name) == d
  {
    LocalDirOfJoin(d, name);
    OnlyAtEndAfterDir(name, d);
    StripFileNameAgrees(baseUrl, d + name);
  }

  /**
   * The items the code as written files under their own folder: the base URL
   * does not occur in the item, and the file name does not occur inside the
   * folder path.
   */
  predicate FiledUnderOwnFolder(baseUrl: string, item: string) {
    && !IsInfix(baseUrl, item)
    && (LastSegment(item) == "" || !IsInfix(LastSegment(item), LocalDir(item)))
  }

  /** On those items the code as written computes the intended directory. */
  lemma StripFileNameIsLocalDir(baseUrl: string, item: string)
    requires FiledUnderOwnFolder(baseUrl, item)
    ensures StripFileName(baseUrl, item) == LocalDir(item)
  {
    var d, name := LocalDir(item), LastSegment(item);
    LocalDirSplits(item);
    LastSegmentSplitsAtLastSlash(item);
    if name != "" {
      OnlyAtEndAfterDir(name, d);
    }
    StripFileNameAgrees(baseUrl, item);
  }

  /** Every item is filed under its own folder by the code as written. */
  predicate AllFiledUnderOwnFolder(baseUrl: string, items: seq<string>) {
    forall k :: 0 <= k < |items| ==> FiledUnderOwnFolder(baseUrl, items[k])
  }

  /**
   * A file whose name is longer than its folder path, in an item lacking a
   * character of the base URL (`:` of the scheme, say), is filed under its
   * own folder.
   */
  lemma FiledWhenNameLonger(baseUrl: string, d: string, name: string, c: char)
    requires IsDirPath(d) && '/' !in name && |d| < |name|
    requires c in baseUrl && c !in d + name
    ensures LocalDir(d + name) == d
    ensures FiledUnderOwnFolder(baseUrl, d + name)
  {
    LocalDirOfJoin(d, name);
    NotInfixShort(name, d);
    NotInfixByChar(baseUrl, d + name, c);
  }

  lemma AllFiledPair(baseUrl: string, a: string, b: string)
    requires FiledUnderOwnFolder(baseUrl, a) && FiledUnderOwnFolder(baseUrl, b)
    ensures AllFiledUnderOwnFolder(baseUrl, [a, b])
  {
  }

  /** The flat item of the project's test server is filed at the top level. */
  lemma MockFlatFiled()
    ensures LocalDir("my_file") == ""
    ensures FiledUnderOwnFolder("http://mock.com/", "my_file")
  {
    assert "" + "my_file" == "my_file";
    FiledWhenNameLonger("http://mock.com/", "", "my_file", ':');
  }

  /** The nested item of the project's test server is filed under `Data/`. */
  lemma MockNestedFiled()
    ensures LocalDir("Data/my_file_data") == "Data/"
    ensures FiledUnderOwnFolder("http://mock.com/", "Data/my_file_data")
  {
    assert "Data/" + "my_file_data" == "Data/my_file_data";
    FiledWhenNameLonger("http://mock.com/", "Data/", "my_file_data", ':');
  }

  /** Both items of the project's test server are filed under their own folder. */
  lemma MockItemsFiledUnderOwnFolder()
    ensures LocalDir("my_file") == "" && LocalDir("Data/my_file_data") == "Data/"
    ensures AllFiledUnderOwnFolder("http://mock.com/", ["my_file", "Data/my_file_data"])
  {
    MockFlatFiled();
    MockNestedFiled();
    AllFiledPair("http://mock.com/", "my_file", "Data/my_file_data");
  }

  /** The nested item of the project's tests is filed under `Data/`. */
  lemma StripFileNameNested()
    ensures StripFileName("http://mock.com/", "Data/my_file_data") == "Data/"
  {
    MockNestedFiled();
    StripFileNameIsLocalDir("http://mock.com/", "Data/my_file_data");
  }

  /** Splitting a folder path followed by a slash-free name gives back the two. */
  lemma LocalDirOfJoin(d: string, name: string)
    requires IsDirPath(d) && '/' !in name
    ensures LastSegment(d + name) == name
    ensures LocalDir(d + name) == d
  {
    SplitNoSlash(name);
    if d == "" {
      assert d + name == name;
    } else {
      LastSegmentAfterSlash(d, name);
    }
    var l := LocalDir(d + name);
    LocalDirSplits(d + name);
    assert l + name == d + name;
    assert l == (d + name)[..|l|] && d == (d + name)[..|d|];
  }

  /**
   * A file whose name also begins its folder path (`name + rest` is the
   * folder, `name` the file) is filed under the wrong directory: the first
   * occurrence of the name is removed along with the last, so the result is
   * shorter than the folder path.
   */
  lemma StripFileNameMisplaces(baseUrl: string, name: string, rest: string)
    requires '/' !in name && name != "" && EndsWithSlash(rest)
    requires !IsInfix(baseUrl, name + rest + name)
    ensures LocalDir(name + rest + name) == name + rest
    ensures |StripFileName(baseUrl, name + rest + name)| < |name + rest|
  {
    var d := name + rest;
    assert d[|d| - 1] == rest[|rest| - 1];
    LocalDirOfJoin(d, name);
    RemoveAllAbsent(d + name, baseUrl);
    RemoveNameTwice(rest, name);
  }

  lemma RemoveNameTwice(x: string, name: string)
    requires name != ""
    ensures |RemoveAll(name + x + name, name)| < |name + x|
  {
    var s := name + x + name;
    assert name <= s && s[|name|..] == x + name;
    InfixOfSuffix(name, x);
    RemoveAllShrinks(x + name, name);
  }

  lemma {:induction false} InfixOfSuffix(pat: string, p: string)
    ensures IsInfix(pat, p + pat)
    decreases |p|
  {
    if p != [] {
      assert (p + pat)[1..] == p[1..] + pat;
      InfixOfSuffix(pat, p[1..]);
    } else {
      assert p + pat == pat;
    }
  }

  /** The base URL cannot occur in an item that lacks one of its characters (`:` of the scheme, say). */
  lemma StripFileNameMisplacesByChar(baseUrl: string, name: string, rest: string, c: char)
    requires '/' !in name && name != "" && EndsWithSlash(rest)
    requires c in baseUrl && c !in name + rest + name
    ensures LocalDir(name + rest + name) == name + rest
    ensures |StripFileName(baseUrl, name + rest + name)| < |name + rest|
  {
    NotInfixByChar(baseUrl, name + rest + name, c);
    StripFileNameMisplaces(baseUrl, name, rest);
  }

  /**
   * The smallest case: `reports/report` belongs in `reports/`, but both
   * occurrences of `report` are removed and the code as written yields `s/`.
   */
  lemma StripFileNameRepeatedName()
    ensures LocalDir("reports/report") == "reports/"
    ensures LastSegment("reports/report") == "report"
    ensures StripFileName("http://mock.com/", "reports/report") == "s/"
  {
    var item, name := "reports/report", "report";
    assert item == "reports/" + name;
    assert "reports/"[|"reports/"| - 1] == '/';
    LocalDirOfJoin("reports/", name);
    NotInfixByChar("http://mock.com/", item, ':');
    RemoveAllAbsent(item, "http://mock.com/");
    RemoveReportTwice();
  }

  lemma RemoveReportTwice()
    ensures RemoveAll("reports/report", "report") == "s/"
  {
    var name := "report";
    assert name[0] != 's' && name[0] != '/';
    assert name[|name|..] == "";
    assert RemoveAll(name, name) == "";
    assert "/report"[1..] == name;
    assert RemoveAll("/report", name) == "/";
    assert "s/report"[1..] == "/report";
    assert RemoveAll("s/report", name) == "s/";
    assert "reports/report"[|name|..] == "s/report";
  }

  /** A top-level file (no slash) whose item lacks a character of the base URL goes to the top-level directory. */
  lemma StripFileNameTopLevel(baseUrl: string, name: string, c: char)
    requires '/' !in name && c in baseUrl && c !in name
    ensures StripFileName(baseUrl, name) == LocalDir(name) == ""
  {
    assert name == "" + name;
    LocalDirOfJoin("", name);
    NotInfixByChar(baseUrl, name, c);
    if name != "" {
      NotInfixShort(name, name[..|name| - 1]);
    }
    StripFileNameAgrees(baseUrl, name);
  }

  /** The flat item of the project's tests: the code as written yields the intended empty directory. */
  lemma StripFileNameFlat()
    ensures StripFileName("http://mock.com/", "my_file") == LocalDir("my_file") == ""
  {
    StripFileNameTopLevel("http://mock.com/", "my_file", ':');
  }

  /**
   * On a full URL `base + item` the first `replace` removes the base URL,
   * and the file name is that of the item, so the result is the one for the
   * relative item.
   */
  lemma StripFullUrl(baseUrl: string, item: string)
    requires EndsWithSlash(baseUrl)
    ensures StripFileName(baseUrl, baseUrl + item) == StripFileName(baseUrl, item)
  {
    var full := baseUrl + item;
    assert baseUrl <= full && full[|baseUrl|..] == item;
    assert RemoveAll(full, baseUrl) == RemoveAll(item, baseUrl);
    LastSegmentAfterSlash(baseUrl, item);
  }

  /** The full URL of the nested test item yields `Data/`. */
  lemma StripFullUrlNested()
    ensures StripFileName("http://mock.com/", "http://mock.com/" + "Data/my_file_data") == "Data/"
  {
    StripFullUrl("http://mock.com/", "Data/my_file_data");
    StripFileNameNested();
  }

  /** The full URL of the flat test item yields the top-level directory. */
  lemma StripFullUrlFlat()
    ensures StripFileName("http://mock.com/", "http://mock.com/" + "my_file") == ""
  {
    StripFullUrl("http://mock.com/", "my_file");
    StripFileNameFlat();
  }
}
