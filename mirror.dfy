/**
 * The download stage: `download_file` (main.py:107-126), which streams one
 * remote file into `destination + filepath`, and the loop of `main`
 * (main.py:139-160) that validates the root URL, crawls it and downloads
 * every item found, stopping at the first download that raises.
 */
module Mirror {
  import opened Text
  import opened Walker
  import opened Resolver

  newtype byte = x: int | 0 <= x < 256

  /** `iter_content(chunk_size=10000)`. */
  const ChunkSize: nat := 10000

  /** The default `destination` of `download_file`. */
  const DefaultDestination: string := "files/"

  /**
   * One streamed GET of a file URL: the response body, or `None` when the
   * request fails or `raise_for_status` raises on the status.
   */
  type Fetcher = string -> Option<seq<byte>>

  /**
   * One call of `download_file`: the directory it created, and either the
   * name and content of the file it wrote there or the URL whose download
   * raised.
   */
  datatype Outcome =
    | Written(dir: string, name: string, content: seq<byte>)
    | Failed(dir: string, url: string)

  /** The local path of a written file. */
  function Target(o: Outcome): string
    requires o.Written?
  {
    o.dir + o.name
  }

  // ---------------------------------------------------------------------
  // Streaming one body to disk.
  // ---------------------------------------------------------------------

  /** The pieces `iter_content` yields: full chunks of `ChunkSize` bytes, then the rest. */
  function Chunks(body: seq<byte>): (cs: seq<seq<byte>>)
    ensures forall i :: 0 <= i < |cs| ==> 0 < |cs[i]| <= ChunkSize
    ensures forall i :: 0 <= i < |cs| - 1 ==> |cs[i]| == ChunkSize
    decreases |body|
  {
    if body == [] then []
    else if |body| <= ChunkSize then [body]
    else [body[..ChunkSize]] + Chunks(body[ChunkSize..])
  }

  /** The bytes of a sequence of chunks, written one after the other. */
  function Concat(cs: seq<seq<byte>>): seq<byte> {
    if cs == [] then [] else Concat(cs[..|cs| - 1]) + cs[|cs| - 1]
  }

  lemma {:induction false} ConcatCons(c: seq<byte>, cs: seq<seq<byte>>)
    ensures Concat([c] + cs) == c + Concat(cs)
    decreases |cs|
  {
    if cs == [] {
      assert ([c] + cs)[..0] == [];
    } else {
      var all := [c] + cs;
      assert all[..|all| - 1] == [c] + cs[..|cs| - 1];
      ConcatCons(c, cs[..|cs| - 1]);
    }
  }

  /** Writing the chunks one after another reproduces the body exactly. */
  lemma {:induction false} ChunksConcat(body: seq<byte>)
    ensures Concat(Chunks(body)) == body
    decreases |body|
  {
    if body != [] && |body| > ChunkSize {
      ChunksConcat(body[ChunkSize..]);
      ConcatCons(body[..ChunkSize], Chunks(body[ChunkSize..]));
      assert body[..ChunkSize] + body[ChunkSize..] == body;
    } else if body != [] {
      assert [body][..0] == [];
    }
  }

  /** `for chunk in s.iter_content(...): f.write(chunk)`: the file ends up holding the body. */
  method WriteChunks(body: seq<byte>) returns (file: seq<byte>)
    ensures file == body
  {
    var cs := Chunks(body);
    file := [];
    for i := 0 to |cs|
      invariant file == Concat(cs[..i])
    {
      assert cs[..i + 1][..i] == cs[..i];
      file := file + cs[i];
    }
    assert cs[..|cs|] == cs;
    ChunksConcat(body);
  }

  // ---------------------------------------------------------------------
  // One download.
  // ---------------------------------------------------------------------

  /**
   * What `download_file(url, filepath, destination)` does: it creates
   * `destination + filepath` first, then writes the body under the URL's
   * last segment, or raises when the GET fails.
   */
  function Download(fetch: Fetcher, url: string, filepath: string, destination: string): (o: Outcome)
    ensures o.dir == destination + filepath
    ensures o.Written? <==> fetch(url).Some?
    ensures o.Written? ==> o.name == LastSegment(url) && '/' !in o.name && o.content == fetch(url).value
    ensures o.Failed? ==> o.url == url
  {
    LastSegmentSplitsAtLastSlash(url);
    match fetch(url)
    case None => Failed(destination + filepath, url)
    case Some(body) => Written(destination + filepath, LastSegment(url), body)
  }

  /** `download_file`: make the directory, stream the body into the file, return its name. */
  method DownloadFile(fetch: Fetcher, url: string, filepath: string, destination: string) returns (o: Outcome)
    ensures o == Download(fetch, url, filepath, destination)
  {
    var dir := destination + filepath;
    var name := LastSegment(url);
    var response := fetch(url);
    if response.None? {
      return Failed(dir, url);
    }
    var file := WriteChunks(response.value);
    o := Written(dir, name, file);
  }

  /** The download of one crawled item, as `main` issues it: the folder comes from `strip_file_name`. */
  function DownloadItem(fetch: Fetcher, validated: string, item: string, destination: string): Outcome {
    Download(fetch, validated + item, StripFileName(validated, item), destination)
  }

  /** The download of one crawled item as intended: the folder is the item's directory part. */
  function IntendedDownloadItem(fetch: Fetcher, validated: string, item: string, destination: string): Outcome {
    Download(fetch, validated + item, LocalDir(item), destination)
  }

  /**
   * The intended download of every crawled item lands at
   * `destination + item`: the local tree mirrors the remote one.
   */
  lemma IntendedDownloadMirrorsItem(fetch: Fetcher, validated: string, item: string, destination: string)
    requires EndsWithSlash(validated)
    requires fetch(validated + item).Some?
    ensures Target(IntendedDownloadItem(fetch, validated, item, destination)) == destination + item
  {
    var o := IntendedDownloadItem(fetch, validated, item, destination);
    LastSegmentAfterSlash(validated, item);
    LocalDirSplits(item);
    var d, n := LocalDir(item), LastSegment(item);
    assert o.dir == destination + d && o.name == n;
    calc {
      Target(o);
      (destination + d) + n;
      { SeqAssoc(destination, d, n); }
      destination + (d + n);
      destination + item;
    }
  }

  /**
   * The download `main` issues for an item filed under its own folder (the
   * file name does not recur inside the folder path, the root URL does not
   * occur in the item) is the intended one, so it lands at `destination + item`.
   */
  lemma DownloadMirrorsItem(fetch: Fetcher, validated: string, item: string, destination: string)
    requires EndsWithSlash(validated) && FiledUnderOwnFolder(validated, item)
    requires fetch(validated + item).Some?
    ensures DownloadItem(fetch, validated, item, destination) == IntendedDownloadItem(fetch, validated, item, destination)
    ensures Target(DownloadItem(fetch, validated, item, destination)) == destination + item
  {
    StripFileNameIsLocalDir(validated, item);
    IntendedDownloadMirrorsItem(fetch, validated, item, destination);
  }

  /**
   * `main` as written misfiles every item whose file name also begins its
   * folder path (`report` in `reports/report`): the directory it creates is
   * shorter than the item's folder below the destination, so the file is not
   * written at `destination + item`. `Resolver.StripFileNameRepeatedName`
   * gives the directory for `reports/report`: `s/`.
   */
  lemma DownloadMisfilesRepeatedName(fetch: Fetcher, validated: string, name: string, rest: string, destination: string)
    requires '/' !in name && name != "" && EndsWithSlash(rest)
    requires EndsWithSlash(validated) && !IsInfix(validated, name + rest + name)
    ensures var o := DownloadItem(fetch, validated, name + rest + name, destination);
      && |o.dir| < |destination + name + rest|
      && (o.Written? ==> Target(o) != destination + (name + rest + name))
  {
    var item := name + rest + name;
    StripFileNameMisplaces(validated, name, rest);
    LastSegmentAfterSlash(validated, item);
    LocalDirOfJoin(name + rest, name);
  }

  // ---------------------------------------------------------------------
  // The download loop of `main`.
  // ---------------------------------------------------------------------

  /** The calls `main` makes, in item order, up to and including the first that raises. */
  function Downloads(fetch: Fetcher, validated: string, items: seq<string>, destination: string): seq<Outcome>
    decreases |items|
  {
    if items == [] then []
    else
      var o := DownloadItem(fetch, validated, items[0], destination);
      if o.Failed? then [o] else [o] + Downloads(fetch, validated, items[1..], destination)
  }

  /**
   * The loop issues one call per item, in order; every call but the last
   * succeeded, and it stops early only at a call that raised.
   */
  lemma {:induction false} DownloadsFollowItems(fetch: Fetcher, validated: string, items: seq<string>, destination: string)
    ensures var outs := Downloads(fetch, validated, items, destination);
      && |outs| <= |items|
      && (items != [] ==> |outs| >= 1)
      && (forall k :: 0 <= k < |outs| ==> outs[k] == DownloadItem(fetch, validated, items[k], destination))
      && (forall k :: 0 <= k < |outs| - 1 ==> outs[k].Written?)
      && (|outs| < |items| ==> outs[|outs| - 1].Failed?)
  {
    var outs := Downloads(fetch, validated, items, destination);
    DownloadsStopAtFailure(fetch, validated, items, destination);
    forall k | 0 <= k < |outs|
      ensures outs[k] == DownloadItem(fetch, validated, items[k], destination)
      ensures k < |outs| - 1 ==> outs[k].Written?
    {
      DownloadsAt(fetch, validated, items, destination, k);
    }
  }

  /** The loop makes at least one call when there are items, and stops early only after a failure. */
  lemma {:induction false} DownloadsStopAtFailure(fetch: Fetcher, validated: string, items: seq<string>, destination: string)
    ensures var outs := Downloads(fetch, validated, items, destination);
      && |outs| <= |items|
      && (items != [] ==> |outs| >= 1)
      && (|outs| < |items| ==> outs[|outs| - 1].Failed?)
    decreases |items|
  {
    if items != [] && DownloadItem(fetch, validated, items[0], destination).Written? {
      DownloadsStopAtFailure(fetch, validated, items[1..], destination);
    }
  }

  /** The `k`-th call downloads the `k`-th item, and succeeded unless it is the last call. */
  lemma {:induction false} DownloadsAt(fetch: Fetcher, validated: string, items: seq<string>, destination: string, k: nat)
    requires k < |Downloads(fetch, validated, items, destination)|
    ensures k < |items|
    ensures Downloads(fetch, validated, items, destination)[k] == DownloadItem(fetch, validated, items[k], destination)
    ensures k < |Downloads(fetch, validated, items, destination)| - 1 ==> Downloads(fetch, validated, items, destination)[k].Written?
    decreases k
  {
    DownloadsStopAtFailure(fetch, validated, items, destination);
    var o := DownloadItem(fetch, validated, items[0], destination);
    if k > 0 {
      var tail := items[1..];
      var rest := Downloads(fetch, validated, tail, destination);
      assert Downloads(fetch, validated, items, destination) == [o] + rest;
      DownloadsAt(fetch, validated, tail, destination, k - 1);
      assert tail[k - 1] == items[k];
    }
  }

  /** Every item is downloaded exactly when every item's GET succeeds. */
  lemma DownloadsComplete(fetch: Fetcher, validated: string, items: seq<string>, destination: string)
    ensures AllWritten(Downloads(fetch, validated, items, destination), |items|) <==> AllServed(fetch, validated, items)
  {
    var outs := Downloads(fetch, validated, items, destination);
    DownloadsFollowItems(fetch, validated, items, destination);
    assert forall k :: 0 <= k < |outs| ==> (outs[k].Written? <==> fetch(validated + items[k]).Some?);
  }

  /** `outs` holds `n` calls, all of which wrote their file. */
  predicate AllWritten(outs: seq<Outcome>, n: nat) {
    |outs| == n && forall k :: 0 <= k < |outs| ==> outs[k].Written?
  }

  /** Every item's GET succeeds. */
  predicate AllServed(fetch: Fetcher, validated: string, items: seq<string>) {
    forall k :: 0 <= k < |items| ==> fetch(validated + items[k]).Some?
  }

  lemma DownloadsStep(fetch: Fetcher, validated: string, items: seq<string>, i: nat, destination: string)
    requires i < |items|
    ensures var o := DownloadItem(fetch, validated, items[i], destination);
      Downloads(fetch, validated, items[i..], destination) ==
        if o.Failed? then [o] else [o] + Downloads(fetch, validated, items[i + 1..], destination)
  {
    assert items[i..][0] == items[i] && items[i..][1..] == items[i + 1..];
  }

  /** `for item in items_list: download_file(...)`, stopping when a call raises. */
  method DownloadAll(fetch: Fetcher, validated: string, items: seq<string>, destination: string)
    returns (outs: seq<Outcome>)
    ensures outs == Downloads(fetch, validated, items, destination)
  {
    outs := [];
    var i := 0;
    while i < |items|
      invariant 0 <= i <= |items|
      invariant outs + Downloads(fetch, validated, items[i..], destination) == Downloads(fetch, validated, items, destination)
    {
      var item := items[i];
      var o := DownloadFile(fetch, validated + item, StripFileName(validated, item), destination);
      DownloadsStep(fetch, validated, items, i, destination);
      SeqAssoc(outs, [o], Downloads(fetch, validated, items[i + 1..], destination));
      outs := outs + [o];
      if o.Failed? {
        return;
      }
      i := i + 1;
    }
    assert items[i..] == [];
  }

  // ---------------------------------------------------------------------
  // `main`.
  // ---------------------------------------------------------------------

  /** How a run ends: the crawl aborts at a listing URL, or the download loop runs. */
  datatype Ending = CrawlAborted(url: string) | Ran(downloads: seq<Outcome>)

  /** What `main` does once the configured root URL is known. */
  ghost function MainSpec(configUrl: string, serve: Server, rank: string -> nat, fetch: Fetcher, destination: string): Ending
    requires Ranked(Site(serve, ValidateUrl(configUrl), rank))
  {
    var validated := ValidateUrl(configUrl);
    match Walk(Site(serve, validated, rank))
    case Aborted(u) => CrawlAborted(u)
    case Crawled(items) => Ran(Downloads(fetch, validated, items, destination))
  }

  /** `main`: validate the root URL, crawl it, download every item found. */
  method Run(configUrl: string, serve: Server, ghost rank: string -> nat, fetch: Fetcher, destination: string)
    returns (r: Ending)
    requires Ranked(Site(serve, ValidateUrl(configUrl), rank))
    ensures r == MainSpec(configUrl, serve, rank, fetch, destination)
  {
    var validated := ValidateUrl(configUrl);
    var crawl := GetFilePaths(serve, validated, rank);
    match crawl
    case Aborted(u) =>
      r := CrawlAborted(u);
    case Crawled(items) =>
      var outs := DownloadAll(fetch, validated, items, destination);
      r := Ran(outs);
  }

  /**
   * A run in which every GET succeeds reaches the download loop exactly when
   * the crawl completes, and then makes one successful download per crawled
   * path, in order. When every path is filed under its own folder, each file
   * lands at `destination + path`: the local tree mirrors the remote one.
   */
  lemma MainMirrorsTree(configUrl: string, serve: Server, rank: string -> nat, fetch: Fetcher, destination: string)
    requires Ranked(Site(serve, ValidateUrl(configUrl), rank))
    requires forall u :: fetch(u).Some?
    ensures var site := Site(serve, ValidateUrl(configUrl), rank);
      MainSpec(configUrl, serve, rank, fetch, destination).Ran? <==> Walk(site).Crawled?
    ensures var site := Site(serve, ValidateUrl(configUrl), rank);
      var r := MainSpec(configUrl, serve, rank, fetch, destination);
      r.Ran? ==>
        && |r.downloads| == |Walk(site).paths|
        && forall k :: 0 <= k < |r.downloads| ==>
             && r.downloads[k].Written?
             && r.downloads[k] == DownloadItem(fetch, ValidateUrl(configUrl), Walk(site).paths[k], destination)
    ensures var site := Site(serve, ValidateUrl(configUrl), rank);
      var r := MainSpec(configUrl, serve, rank, fetch, destination);
      r.Ran? && AllFiledUnderOwnFolder(ValidateUrl(configUrl), Walk(site).paths) ==>
        forall k :: 0 <= k < |r.downloads| ==> Target(r.downloads[k]) == destination + Walk(site).paths[k]
  {
    var validated := ValidateUrl(configUrl);
    var site := Site(serve, validated, rank);
    if Walk(site).Crawled? {
      var items := Walk(site).paths;
      DownloadsFollowItems(fetch, validated, items, destination);
      DownloadsComplete(fetch, validated, items, destination);
      if AllFiledUnderOwnFolder(validated, items) {
        forall k | 0 <= k < |items|
          ensures Target(DownloadItem(fetch, validated, items[k], destination)) == destination + items[k]
        {
          DownloadMirrorsItem(fetch, validated, items[k], destination);
        }
      }
    }
  }

  /**
   * A run whose crawl finds `items`, with every GET succeeding, downloads
   * exactly those, each at its mirrored path when it is filed under its own
   * folder.
   */
  lemma MainDownloadsItems(configUrl: string, serve: Server, rank: string -> nat, fetch: Fetcher, destination: string, items: seq<string>)
    requires Ranked(Site(serve, ValidateUrl(configUrl), rank))
    requires Walk(Site(serve, ValidateUrl(configUrl), rank)) == Crawled(items)
    requires forall u :: fetch(u).Some?
    ensures var r := MainSpec(configUrl, serve, rank, fetch, destination);
      && r.Ran? && |r.downloads| == |items|
      && (forall k :: 0 <= k < |items| ==> r.downloads[k].Written?)
      && (AllFiledUnderOwnFolder(ValidateUrl(configUrl), items) ==>
            forall k :: 0 <= k < |items| ==> Target(r.downloads[k]) == destination + items[k])
  {
    MainMirrorsTree(configUrl, serve, rank, fetch, destination);
  }

  /** The project's end-to-end test: on the test server `main` makes exactly two download calls. */
  lemma MockMain(fetch: Fetcher)
    requires forall u :: fetch(u).Some?
    ensures Ranked(Site(MockServe, ValidateUrl(MockBase), MockRank))
    ensures var r := MainSpec(MockBase, MockServe, MockRank, fetch, DefaultDestination);
      && r.Ran? && |r.downloads| == 2
      && r.downloads[0].Written? && r.downloads[1].Written?
      && Target(r.downloads[0]) == "files/my_file"
      && Target(r.downloads[1]) == "files/Data/my_file_data"
  {
    assert ValidateUrl(MockBase) == MockBase;
    MockWalk();
    assert MockSite() == Site(MockServe, ValidateUrl(MockBase), MockRank);
    var items := ["my_file", "Data/my_file_data"];
    MockItemsFiledUnderOwnFolder();
    MainDownloadsItems(MockBase, MockServe, MockRank, fetch, DefaultDestination, items);
    MockTargets();
  }

  /** The two mirrored paths below the default destination, spelt out. */
  lemma MockTargets()
    ensures DefaultDestination + "my_file" == "files/my_file"
    ensures DefaultDestination + "Data/my_file_data" == "files/Data/my_file_data"
  {
  }

}
