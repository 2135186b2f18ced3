/**
 * The folder walker, `get_file_paths` (main.py:82-104) with
 * `get_folder_content` (main.py:70-80): a breadth-first crawl of the remote
 * listing tree that collects the relative path of every file it finds.
 *
 * The server is an abstract listing oracle. What the crawl proves rests on a
 * ranking of folder paths that every folder link lowers: the remote tree is
 * finite and acyclic, which is the only case in which the crawl ends.
 */
module Walker {
  import opened Text
  import opened Tokens
  import opened Classifier

  datatype Option<T> = None | Some(value: T)

  /**
   * What fetching and parsing one listing URL yields: the page's hrefs, or
   * an exception (the request failed, or the body is not a document) that
   * aborts the crawl.
   */
  datatype Page = Listing(hrefs: seq<Token>) | Unreachable

  /** `get_page_content` followed by `xpath('//a/@href')`, as a function of the URL. */
  type Server = string -> Page

  /** A remote tree: the server, the root URL and a ranking of folder paths below the root. */
  datatype Site = Site(serve: Server, base: string, rank: string -> nat)

  /** The outcome of a crawl: every file path found, or the URL whose fetch aborted it. */
  datatype Crawl = Crawled(paths: seq<string>) | Aborted(url: string)

  /** The page of folder `p` (relative to the root). */
  function PageAt(site: Site, p: string): Page {
    site.serve(site.base + p)
  }

  /** The file names a page's hrefs classify as (none when it cannot be fetched). */
  function PageFiles(page: Page): seq<string> {
    match page
    case Listing(hrefs) => Files(Strs(hrefs))
    case Unreachable => []
  }

  /** The folder names a page's hrefs classify as (none when it cannot be fetched). */
  function PageFolders(page: Page): seq<string> {
    match page
    case Listing(hrefs) => Folders(Strs(hrefs))
    case Unreachable => []
  }

  /** The file names listed in folder `p`. */
  function FileTokens(site: Site, p: string): seq<string> {
    PageFiles(PageAt(site, p))
  }

  /** The folder names listed in folder `p`. */
  function FolderTokens(site: Site, p: string): seq<string> {
    PageFolders(PageAt(site, p))
  }

  /** `[parent + name for name in names]`. */
  function Prefixed(parent: string, names: seq<string>): (r: seq<string>)
    ensures |r| == |names|
    ensures forall i :: 0 <= i < |names| ==> r[i] == parent + names[i]
  {
    seq(|names|, i requires 0 <= i < |names| => parent + names[i])
  }

  /** The relative paths of the files listed in folder `p`. */
  function FilesAt(site: Site, p: string): seq<string> {
    Prefixed(p, FileTokens(site, p))
  }

  /** The relative paths of the sub-folders listed in folder `p`. */
  function Children(site: Site, p: string): seq<string> {
    Prefixed(p, FolderTokens(site, p))
  }

  /**
   * The part of the tree the crawl reaches is finite and acyclic: the root
   * has a positive rank, and every folder link of a folder with a positive
   * rank leads to a folder of positive, strictly lower rank. Rank 0 marks
   * the paths the crawl never reaches; their listings are unconstrained.
   */
  ghost predicate Ranked(site: Site) {
    && site.rank("") > 0
    && forall p: string, t: string :: site.rank(p) > 0 && t in FolderTokens(site, p) ==>
         0 < site.rank(p + t) < site.rank(p)
  }

  /** Every folder of `qs` is reached by the crawl (has a positive rank). */
  ghost predicate Live(site: Site, qs: seq<string>) {
    forall q :: q in qs ==> site.rank(q) > 0
  }

  lemma ChildrenRanked(site: Site, p: string)
    requires Ranked(site) && site.rank(p) > 0
    ensures forall c :: c in Children(site, p) ==> 0 < site.rank(c) < site.rank(p)
  {
    var cs := Children(site, p);
    var ts := FolderTokens(site, p);
    forall c | c in cs
      ensures 0 < site.rank(c) < site.rank(p)
    {
      var i :| 0 <= i < |cs| && cs[i] == c;
      assert ts[i] in ts;
    }
  }

  /** Popping a reached folder and queueing its children keeps every queued folder reached. */
  lemma QueueStaysLive(site: Site, q: seq<string>)
    requires Ranked(site) && q != [] && Live(site, q)
    ensures Live(site, q[1..] + Children(site, q[0]))
  {
    ChildrenRanked(site, q[0]);
    assert q[0] in q;
    forall x | x in q[1..] + Children(site, q[0])
      ensures site.rank(x) > 0
    {
      if x in q[1..] {
        assert x in q;
      }
    }
  }

  // ---------------------------------------------------------------------
  // The reference: the tree below a folder, in depth-first order.
  // ---------------------------------------------------------------------

  /** The folders of the tree below `p`, `p` first, in depth-first order. */
  ghost function Subtree(site: Site, p: string): (ps: seq<string>)
    requires Ranked(site) && site.rank(p) > 0
    ensures |ps| >= 1 && ps[0] == p
    decreases site.rank(p), 1, 0
  {
    assert forall c :: c in Children(site, p) ==> 0 < site.rank(c) < site.rank(p) by {
      ChildrenRanked(site, p);
    }
    [p] + SubtreeAll(site, Children(site, p), site.rank(p))
  }

  ghost function SubtreeAll(site: Site, qs: seq<string>, bound: nat): seq<string>
    requires Ranked(site)
    requires forall q :: q in qs ==> 0 < site.rank(q) < bound
    decreases bound, 0, |qs|
  {
    if qs == [] then [] else Subtree(site, qs[0]) + SubtreeAll(site, qs[1..], bound)
  }

  /** The folders of the trees below every folder of `qs`, tree after tree. */
  ghost function Forest(site: Site, qs: seq<string>): seq<string>
    requires Ranked(site) && Live(site, qs)
  {
    if qs == [] then [] else Subtree(site, qs[0]) + Forest(site, qs[1..])
  }

  lemma {:induction false} SubtreeAllIsForest(site: Site, qs: seq<string>, bound: nat)
    requires Ranked(site)
    requires forall q :: q in qs ==> 0 < site.rank(q) < bound
    ensures SubtreeAll(site, qs, bound) == Forest(site, qs)
    decreases |qs|
  {
    if qs != [] {
      SubtreeAllIsForest(site, qs[1..], bound);
    }
  }

  lemma {:induction false} ForestAppend(site: Site, a: seq<string>, b: seq<string>)
    requires Ranked(site) && Live(site, a) && Live(site, b)
    ensures Forest(site, a + b) == Forest(site, a) + Forest(site, b)
    decreases |a|
  {
    if a == [] {
      assert a + b == b;
    } else {
      assert (a + b)[1..] == a[1..] + b;
      ForestAppend(site, a[1..], b);
    }
  }

  /**
   * One step of the crawl: replacing the front folder by its children at the
   * back of the queue removes exactly that folder from the forest.
   */
  lemma ForestStep(site: Site, q: seq<string>)
    requires Ranked(site) && q != [] && Live(site, q)
    ensures Live(site, q[1..] + Children(site, q[0]))
    ensures multiset(Forest(site, q)) == multiset{q[0]} + multiset(Forest(site, q[1..] + Children(site, q[0])))
    ensures |Forest(site, q)| == 1 + |Forest(site, q[1..] + Children(site, q[0]))|
  {
    var cs := Children(site, q[0]);
    assert q[0] in q;
    QueueStaysLive(site, q);
    ChildrenRanked(site, q[0]);
    SubtreeAllIsForest(site, cs, site.rank(q[0]));
    ForestAppend(site, q[1..], cs);
    assert Forest(site, q) == [q[0]] + Forest(site, cs) + Forest(site, q[1..]);
  }

  // ---------------------------------------------------------------------
  // The specification of the crawl: breadth-first order.
  // ---------------------------------------------------------------------

  /**
   * The folders in the order the crawl takes them off the front of its
   * queue, starting from the queue `q`; each one's sub-folders join the back.
   */
  ghost function Expansions(site: Site, q: seq<string>): seq<string>
    requires Ranked(site) && Live(site, q)
    decreases |Forest(site, q)|
  {
    if q == [] then []
    else
      assert Live(site, q[1..] + Children(site, q[0])) && |Forest(site, q[1..] + Children(site, q[0]))| < |Forest(site, q)| by {
        ForestStep(site, q);
      }
      [q[0]] + Expansions(site, q[1..] + Children(site, q[0]))
  }

  /** The file paths of the folders `ps`, folder after folder. */
  function FilesOf(site: Site, ps: seq<string>): seq<string> {
    if ps == [] then [] else FilesAt(site, ps[0]) + FilesOf(site, ps[1..])
  }

  /** The first folder of `ps` whose listing cannot be fetched. */
  function FirstUnreachable(site: Site, ps: seq<string>): Option<string> {
    if ps == [] then None
    else if PageAt(site, ps[0]).Unreachable? then Some(ps[0])
    else FirstUnreachable(site, ps[1..])
  }

  /**
   * What `get_file_paths(base_url)` returns: the files of every folder in
   * breadth-first order from the root, or the URL of the first folder, in
   * that order, whose listing cannot be fetched.
   */
  ghost function Walk(site: Site): Crawl
    requires Ranked(site)
  {
    var order := Expansions(site, [""]);
    match FirstUnreachable(site, order)
    case Some(p) => Aborted(site.base + p)
    case None => Crawled(FilesOf(site, order))
  }

  // ---------------------------------------------------------------------
  // The crawl itself.
  // ---------------------------------------------------------------------

  /** `get_folder_content(url)`: fetch one listing and classify its hrefs. */
  method GetFolderContent(serve: Server, url: string) returns (r: Option<(seq<string>, seq<string>)>)
    ensures serve(url).Unreachable? <==> r.None?
    ensures r.Some? ==> r.value == (PageFiles(serve(url)), PageFolders(serve(url)))
  {
    match serve(url)
    case Unreachable =>
      r := None;
    case Listing(hrefs) =>
      var files, folders := SplitContent(hrefs);
      r := Some((files, folders));
  }

  /**
   * `get_file_paths(base_url)`: seed the result with the root's files and a
   * FIFO queue with the root's folders, then repeatedly take the front folder,
   * fetch its listing, append its files (prefixed with its path) to the
   * result and its folders (prefixed likewise) to the back of the queue.
   */
  method GetFilePaths(serve: Server, base: string, ghost rank: string -> nat) returns (r: Crawl)
    requires Ranked(Site(serve, base, rank))
    ensures r == Walk(Site(serve, base, rank))
  {
    ghost var site := Site(serve, base, rank);
    ghost var order := Expansions(site, [""]);
    var root := GetFolderContent(serve, base);
    RootStep(site);
    if root.None? {
      return Aborted(base);
    }
    var (rootFiles, rootFolders) := root.value;
    var paths := rootFiles;
    var queue := rootFolders;
    ghost var done := [""];
    FolderPathsEndInSlash(site, "");
    PrefixedEmpty(rootFolders);
    while queue != []
      invariant Live(site, queue)
      invariant order == done + Expansions(site, queue)
      invariant paths == FilesOf(site, done)
      invariant FirstUnreachable(site, done) == None
      invariant forall i :: 0 <= i < |queue| ==> EndsWithSlash(queue[i])
      decreases |Forest(site, queue)|
    {
      CrawlStep(site, order, done, queue);
      var parent := queue[0];
      queue := queue[1..];
      var content := GetFolderContent(serve, base + parent);
      if content.None? {
        return Aborted(base + parent);
      }
      var (subFiles, subFolders) := content.value;
      var subFolderPaths := Prefixed(parent, subFolders);
      var subFilePaths := Prefixed(parent, subFiles);
      assert subFolderPaths == Children(site, parent) && subFilePaths == FilesAt(site, parent);
      paths := paths + subFilePaths;
      queue := queue + subFolderPaths;
      done := done + [parent];
    }
    assert Expansions(site, queue) == [];
    assert order == done;
    r := Crawled(paths);
  }

  /**
   * What taking the front folder off the queue does to the loop's invariant:
   * an unreachable listing is the first in breadth-first order, otherwise the
   * folder's files and sub-folders extend the result and the queue.
   */
  lemma CrawlStep(site: Site, order: seq<string>, done: seq<string>, queue: seq<string>)
    requires Ranked(site) && queue != [] && Live(site, queue)
    requires order == done + Expansions(site, queue)
    requires FirstUnreachable(site, done) == None
    requires forall i :: 0 <= i < |queue| ==> EndsWithSlash(queue[i])
    ensures Live(site, queue[1..] + Children(site, queue[0]))
    ensures site.serve(site.base + queue[0]) == PageAt(site, queue[0])
    ensures PageAt(site, queue[0]).Unreachable? ==> FirstUnreachable(site, order) == Some(queue[0])
    ensures PageAt(site, queue[0]).Listing? ==>
      && order == (done + [queue[0]]) + Expansions(site, queue[1..] + Children(site, queue[0]))
      && FilesOf(site, done + [queue[0]]) == FilesOf(site, done) + FilesAt(site, queue[0])
      && FirstUnreachable(site, done + [queue[0]]) == None
    ensures forall i :: 0 <= i < |queue[1..] + Children(site, queue[0])| ==> EndsWithSlash((queue[1..] + Children(site, queue[0]))[i])
    ensures |Forest(site, queue[1..] + Children(site, queue[0]))| < |Forest(site, queue)|
  {
    var parent := queue[0];
    ExpansionsStep(site, queue);
    var later := Expansions(site, queue[1..] + Children(site, parent));
    assert order == done + [parent] + later;
    FirstUnreachableAppend(site, done, later, parent);
    FilesOfOne(site, done, parent);
    QueueEndsInSlash(site, queue);
  }

  lemma FilesOfOne(site: Site, done: seq<string>, p: string)
    ensures FilesOf(site, done + [p]) == FilesOf(site, done) + FilesAt(site, p)
  {
    FilesOfAppend(site, done, [p]);
    assert [p][1..] == [];
  }

  lemma QueueEndsInSlash(site: Site, queue: seq<string>)
    requires queue != []
    requires forall i :: 0 <= i < |queue| ==> EndsWithSlash(queue[i])
    ensures forall i :: 0 <= i < |queue[1..] + Children(site, queue[0])| ==> EndsWithSlash((queue[1..] + Children(site, queue[0]))[i])
  {
    FolderPathsEndInSlash(site, queue[0]);
  }

  /** Unfolds one step of the breadth-first order. */
  lemma ExpansionsStep(site: Site, q: seq<string>)
    requires Ranked(site) && q != [] && Live(site, q)
    ensures Live(site, q[1..] + Children(site, q[0]))
    ensures Expansions(site, q) == [q[0]] + Expansions(site, q[1..] + Children(site, q[0]))
    ensures |Forest(site, q[1..] + Children(site, q[0]))| < |Forest(site, q)|
  {
    ForestStep(site, q);
  }

  /** The first step of the crawl takes the root; its sub-folders, unprefixed, form the queue. */
  lemma RootStep(site: Site)
    requires Ranked(site)
    ensures Live(site, [""]) && Live(site, FolderTokens(site, ""))
    ensures Expansions(site, [""]) == [""] + Expansions(site, FolderTokens(site, ""))
    ensures FilesOf(site, [""]) == FileTokens(site, "")
    ensures FirstUnreachable(site, [""]) == if PageAt(site, "").Unreachable? then Some("") else None
    ensures PageAt(site, "").Unreachable? ==> FirstUnreachable(site, Expansions(site, [""])) == Some("")
    ensures PageAt(site, "") == site.serve(site.base)
  {
    assert site.base + "" == site.base;
    PrefixedEmpty(FileTokens(site, ""));
    PrefixedEmpty(FolderTokens(site, ""));
    ChildrenRanked(site, "");
    assert [""][1..] + Children(site, "") == FolderTokens(site, "");
    ExpansionsStep(site, [""]);
    var rest := Expansions(site, FolderTokens(site, ""));
    FirstUnreachableAppend(site, [], rest, "");
    assert [] + [""] + rest == [""] + rest;
    assert [""][1..] == [];
  }

  lemma PrefixedEmpty(names: seq<string>)
    ensures Prefixed("", names) == names
  {
    forall i | 0 <= i < |names|
      ensures Prefixed("", names)[i] == names[i]
    {
      assert "" + names[i] == names[i];
    }
  }

  lemma FolderPathsEndInSlash(site: Site, p: string)
    ensures forall i :: 0 <= i < |Children(site, p)| ==> EndsWithSlash(Children(site, p)[i])
  {
    var ts := FolderTokens(site, p);
    forall i | 0 <= i < |ts|
      ensures EndsWithSlash(Children(site, p)[i])
    {
      ClassifyAllFolders(site, p, ts[i]);
      assert (p + ts[i])[|p + ts[i]| - 1] == ts[i][|ts[i]| - 1];
    }
  }

  lemma ClassifyAllFolders(site: Site, p: string, t: string)
    requires t in FolderTokens(site, p)
    ensures IsFolderName(t)
  {
    match PageAt(site, p)
    case Listing(hrefs) =>
      ClassifyMembers(Strs(hrefs), t);
    case Unreachable =>
  }

  lemma {:induction false} FilesOfAppend(site: Site, a: seq<string>, b: seq<string>)
    ensures FilesOf(site, a + b) == FilesOf(site, a) + FilesOf(site, b)
    decreases |a|
  {
    if a == [] {
      assert a + b == b;
    } else {
      assert (a + b)[1..] == a[1..] + b;
      FilesOfAppend(site, a[1..], b);
    }
  }

  lemma {:induction false} FirstUnreachableAppend(site: Site, a: seq<string>, b: seq<string>, p: string)
    requires FirstUnreachable(site, a) == None
    ensures FirstUnreachable(site, a + [p] + b) ==
      if PageAt(site, p).Unreachable? then Some(p) else FirstUnreachable(site, b)
    ensures FirstUnreachable(site, a + [p]) ==
      if PageAt(site, p).Unreachable? then Some(p) else None
    decreases |a|
  {
    if a == [] {
      assert a + [p] + b == [p] + b;
      assert ([p] + b)[1..] == b;
      assert a + [p] == [p];
    } else {
      assert (a + [p] + b)[1..] == a[1..] + [p] + b;
      assert (a + [p])[1..] == a[1..] + [p];
      FirstUnreachableAppend(site, a[1..], b, p);
    }
  }

  // ---------------------------------------------------------------------
  // What the crawl is proved to do.
  // ---------------------------------------------------------------------

  /** The relative paths of the sub-folders of every folder of `qs`, folder after folder. */
  function ChildrenOf(site: Site, qs: seq<string>): seq<string> {
    if qs == [] then [] else Children(site, qs[0]) + ChildrenOf(site, qs[1..])
  }

  /** The sub-folders of reached folders are reached. */
  lemma {:induction false} ChildrenOfLive(site: Site, qs: seq<string>)
    requires Ranked(site) && Live(site, qs)
    ensures Live(site, ChildrenOf(site, qs))
    decreases |qs|
  {
    if qs != [] {
      assert qs[0] in qs;
      ChildrenRanked(site, qs[0]);
      assert Live(site, qs[1..]) by {
        forall x | x in qs[1..] ensures site.rank(x) > 0 {
          assert x in qs;
        }
      }
      ChildrenOfLive(site, qs[1..]);
    }
  }

  /**
   * FIFO order: the folders already queued are expanded first, in queue
   * order, and only then the folders discovered from them, in the order
   * they were discovered.
   */
  lemma {:induction false} ExpansionsAreFifo(site: Site, q: seq<string>, r: seq<string>)
    requires Ranked(site) && Live(site, q) && Live(site, r)
    ensures Live(site, r + ChildrenOf(site, q))
    ensures Expansions(site, q + r) == q + Expansions(site, r + ChildrenOf(site, q))
    decreases |q|
  {
    if q == [] {
      assert q + r == r && r + ChildrenOf(site, q) == r;
    } else {
      var t, c := q[1..], Children(site, q[0]);
      var ct := ChildrenOf(site, t);
      assert q[0] in q;
      ChildrenRanked(site, q[0]);
      assert Live(site, t) by {
        forall x | x in t ensures site.rank(x) > 0 {
          assert x in q;
        }
      }
      ExpansionsCons(site, q, r);
      ExpansionsAreFifo(site, t, r + c);
      SeqAssoc(r, c, ct);
      SeqAssoc([q[0]], t, Expansions(site, r + c + ct));
      assert [q[0]] + t == q;
    }
  }

  /** Taking the front folder of `q + r` when `q` is not empty. */
  lemma ExpansionsCons(site: Site, q: seq<string>, r: seq<string>)
    requires Ranked(site) && q != [] && Live(site, q) && Live(site, r)
    ensures Live(site, q[1..] + (r + Children(site, q[0])))
    ensures Expansions(site, q + r) == [q[0]] + Expansions(site, q[1..] + (r + Children(site, q[0])))
  {
    var qr := q + r;
    assert qr[0] == q[0] && qr[1..] == q[1..] + r;
    assert Live(site, qr);
    ExpansionsStep(site, qr);
    SeqAssoc(q[1..], r, Children(site, q[0]));
  }

  /** The crawl expands every folder of the tree below its queue, each exactly as often as the tree holds it. */
  lemma {:induction false} ExpansionsCoverForest(site: Site, q: seq<string>)
    requires Ranked(site) && Live(site, q)
    ensures multiset(Expansions(site, q)) == multiset(Forest(site, q))
    decreases |Forest(site, q)|
  {
    if q != [] {
      ExpansionsStep(site, q);
      ForestStep(site, q);
      ExpansionsCoverForest(site, q[1..] + Children(site, q[0]));
    }
  }

  /** Folder paths stay folder paths: every folder the crawl expands is the root or ends in `/`. */
  lemma {:induction false} ExpansionsAreDirPaths(site: Site, q: seq<string>)
    requires Ranked(site) && Live(site, q)
    requires forall i :: 0 <= i < |q| ==> IsDirPath(q[i])
    ensures forall x :: x in Expansions(site, q) ==> IsDirPath(x)
    decreases |Forest(site, q)|
  {
    if q != [] {
      ExpansionsStep(site, q);
      FolderPathsEndInSlash(site, q[0]);
      var next := q[1..] + Children(site, q[0]);
      assert forall i :: 0 <= i < |next| ==> IsDirPath(next[i]);
      ExpansionsAreDirPaths(site, next);
    }
  }

  /** Reordering the folders reorders their files and nothing else. */
  lemma {:induction false} FilesOfPermutation(site: Site, a: seq<string>, b: seq<string>)
    requires multiset(a) == multiset(b)
    ensures multiset(FilesOf(site, a)) == multiset(FilesOf(site, b))
    decreases |a|
  {
    if a == [] {
      assert |b| == |multiset(b)| == 0;
    } else {
      assert a[0] in multiset(b);
      var k :| 0 <= k < |b| && b[k] == a[0];
      var x, u, v := a[0], b[..k], b[k + 1..];
      assert b == u + [x] + v;
      assert a == [x] + a[1..];
      assert multiset(a[1..]) == multiset(u + v) by {
        assert multiset(a) == multiset(a[1..]) + multiset{x};
        assert multiset(b) == multiset(u + v) + multiset{x} by {
          assert b == (u + v)[..k] + [x] + (u + v)[k..];
        }
        MultisetCancel(multiset(a[1..]), multiset(u + v), multiset{x});
      }
      FilesOfPermutation(site, a[1..], u + v);
      FilesOfAppend(site, u + [x], v);
      FilesOfAppend(site, u, [x]);
      FilesOfAppend(site, u, v);
      assert FilesOf(site, [x]) == FilesAt(site, x) by {
        assert [x][1..] == [];
      }
    }
  }

  lemma MultisetCancel(m: multiset<string>, n: multiset<string>, k: multiset<string>)
    requires m + k == n + k
    ensures m == n
  {
    assert forall y :: m[y] == (m + k)[y] - k[y];
    assert forall y :: n[y] == (n + k)[y] - k[y];
  }

  /** A file path of the folders `ps` is a file of one of them, and every such file is one. */
  lemma {:induction false} FilesOfMembers(site: Site, ps: seq<string>, x: string)
    ensures x in FilesOf(site, ps) <==> exists p, f :: p in ps && f in FileTokens(site, p) && x == p + f
    decreases |ps|
  {
    if ps != [] {
      FilesOfMembers(site, ps[1..], x);
      var fs := FileTokens(site, ps[0]);
      if x in FilesAt(site, ps[0]) {
        var i :| 0 <= i < |fs| && FilesAt(site, ps[0])[i] == x;
        assert ps[0] in ps && fs[i] in fs && x == ps[0] + fs[i];
      }
      if exists f :: f in fs && x == ps[0] + f {
        var f :| f in fs && x == ps[0] + f;
        var i :| 0 <= i < |fs| && fs[i] == f;
        assert FilesAt(site, ps[0])[i] == x;
      }
      forall p | p in ps[1..]
        ensures p in ps
      {
      }
      forall p | p in ps && p != ps[0]
        ensures p in ps[1..]
      {
      }
    }
  }

  /** The failures among `ps`: none is found exactly when every listing of `ps` can be fetched. */
  lemma {:induction false} FirstUnreachableFinds(site: Site, ps: seq<string>)
    ensures FirstUnreachable(site, ps).None? <==> forall p :: p in ps ==> PageAt(site, p).Listing?
    ensures FirstUnreachable(site, ps).Some? ==>
      FirstUnreachable(site, ps).value in ps && PageAt(site, FirstUnreachable(site, ps).value).Unreachable?
    decreases |ps|
  {
    if ps != [] {
      FirstUnreachableFinds(site, ps[1..]);
      assert ps == [ps[0]] + ps[1..];
    }
  }

  /** The root's files come first in the result, in listing order. */
  lemma RootFilesFirst(site: Site)
    requires Ranked(site)
    ensures Walk(site).Crawled? ==> FileTokens(site, "") <= Walk(site).paths
  {
    RootStep(site);
    var rest := Expansions(site, FolderTokens(site, ""));
    FilesOfAppend(site, [""], rest);
  }

  /**
   * Soundness and completeness over what the crawl expands: a path is in the
   * result exactly when it is a folder's path followed by a file name of
   * that folder's listing, where the folder is the root or a path ending in
   * `/` and the name does not end in `/`.
   */
  lemma WalkFindsExactly(site: Site, x: string)
    requires Ranked(site) && Walk(site).Crawled?
    ensures x in Walk(site).paths <==>
      exists p, f :: p in Expansions(site, [""]) && f in FileTokens(site, p) && x == p + f
    ensures forall p :: p in Expansions(site, [""]) ==> IsDirPath(p)
    ensures forall p, f :: f in FileTokens(site, p) ==> IsFileName(f)
  {
    FilesOfMembers(site, Expansions(site, [""]), x);
    ExpansionsAreDirPaths(site, [""]);
    forall p, f | f in FileTokens(site, p)
      ensures IsFileName(f)
    {
      match PageAt(site, p)
      case Listing(hrefs) =>
        ClassifyMembers(Strs(hrefs), f);
      case Unreachable =>
    }
  }

  /**
   * Against the depth-first reference: the crawl yields the files of every
   * folder of the tree below the root, each exactly as often, and aborts
   * exactly when some folder of that tree cannot be fetched, naming it.
   */
  lemma WalkMatchesTree(site: Site)
    requires Ranked(site)
    ensures Walk(site).Crawled? ==>
      multiset(Walk(site).paths) == multiset(FilesOf(site, Subtree(site, "")))
    ensures Walk(site).Aborted? <==> exists p :: p in Subtree(site, "") && PageAt(site, p).Unreachable?
    ensures Walk(site).Aborted? ==>
      exists p :: p in Subtree(site, "") && PageAt(site, p).Unreachable? && Walk(site).url == site.base + p
  {
    var order := Expansions(site, [""]);
    var tree := Subtree(site, "");
    assert Forest(site, [""]) == tree + [] == tree;
    ExpansionsCoverForest(site, [""]);
    assert forall p :: p in order <==> p in tree by {
      forall p ensures p in order <==> p in tree {
        assert p in order <==> p in multiset(order);
      }
    }
    FirstUnreachableFinds(site, order);
    if Walk(site).Crawled? {
      FilesOfPermutation(site, order, tree);
    }
  }

  // ---------------------------------------------------------------------
  // The two-level test server of the project's tests.
  // ---------------------------------------------------------------------

  const MockBase: string := "http://mock.com/"

  /** The root lists one file and one folder, `Data/` lists one file; every other URL fails. */
  function MockServe(url: string): Page {
    if url == MockBase then Listing([Href("my_file"), Href("Data/")])
    else if url == MockBase + "Data/" then Listing([Href("my_file_data")])
    else Unreachable
  }

  function MockRank(p: string): nat {
    if p == "" then 2 else if p == "Data/" then 1 else 0
  }

  function MockSite(): Site {
    Site(MockServe, MockBase, MockRank)
  }

  /** The test server's listings, folder by folder. */
  lemma MockListings(p: string)
    ensures p == "" ==> FileTokens(MockSite(), p) == ["my_file"] && FolderTokens(MockSite(), p) == ["Data/"]
    ensures p == "Data/" ==> FileTokens(MockSite(), p) == ["my_file_data"] && FolderTokens(MockSite(), p) == []
    ensures p != "" && p != "Data/" ==> PageAt(MockSite(), p).Unreachable?
  {
    var url := MockBase + p;
    assert url == MockBase ==> p == "" by {
      assert |url| == |MockBase| + |p|;
    }
    assert url == MockBase + "Data/" ==> p == "Data/" by {
      assert url[|MockBase|..] == p;
      assert (MockBase + "Data/")[|MockBase|..] == "Data/";
    }
    assert p == "" ==> url == MockBase;
    assert Strs([Href("my_file"), Href("Data/")]) == ["my_file", "Data/"];
    assert Strs([Href("my_file_data")]) == ["my_file_data"];
    assert Files(["my_file", "Data/"]) == ["my_file"] && Folders(["my_file", "Data/"]) == ["Data/"];
    assert Files(["my_file_data"]) == ["my_file_data"] && Folders(["my_file_data"]) == [];
  }

  lemma MockRanked()
    ensures Ranked(MockSite())
  {
    var site := MockSite();
    forall p: string, t: string | t in FolderTokens(site, p)
      ensures site.rank(p + t) < site.rank(p)
    {
      MockListings(p);
      assert p == "" && t == "Data/";
      assert p + t == "Data/";
    }
  }

  /** On the test server the crawl takes the root, then `Data/`. */
  lemma MockOrder()
    ensures Ranked(MockSite())
    ensures Expansions(MockSite(), [""]) == ["", "Data/"]
  {
    var site := MockSite();
    MockRanked();
    MockListings("");
    MockListings("Data/");
    PrefixedOne("", "Data/");
    assert "" + "Data/" == "Data/";
    assert Children(site, "") == ["Data/"];
    assert Children(site, "Data/") == [];
    ExpansionsStep(site, [""]);
    ExpansionsStep(site, ["Data/"]);
    assert [""][1..] + ["Data/"] == ["Data/"];
    assert ["Data/"][1..] + [] == [];
  }

  lemma MockFiles()
    ensures FilesAt(MockSite(), "") == ["my_file"]
    ensures FilesAt(MockSite(), "Data/") == ["Data/my_file_data"]
    ensures PageAt(MockSite(), "").Listing? && PageAt(MockSite(), "Data/").Listing?
  {
    MockListings("");
    MockListings("Data/");
    FilesAtOne(MockSite(), "", "my_file");
    FilesAtOne(MockSite(), "Data/", "my_file_data");
    assert "" + "my_file" == "my_file";
    assert "Data/" + "my_file_data" == "Data/my_file_data";
  }

  /** A folder listing one file contributes that one path. */
  lemma FilesAtOne(site: Site, p: string, name: string)
    requires FileTokens(site, p) == [name]
    ensures FilesAt(site, p) == [p + name]
  {
    PrefixedOne(p, name);
  }

  lemma PrefixedOne(parent: string, name: string)
    ensures Prefixed(parent, [name]) == [parent + name]
  {
    var r := Prefixed(parent, [name]);
    assert r[0] == parent + [name][0];
  }

  /**
   * A crawl that takes the root and then one folder, both listable and each
   * holding one file, finds the two files in that order.
   */
  lemma RootThenOne(site: Site, d: string, x: string, y: string)
    requires Ranked(site)
    requires Expansions(site, [""]) == ["", d]
    requires PageAt(site, "").Listing? && PageAt(site, d).Listing?
    requires FilesAt(site, "") == [x] && FilesAt(site, d) == [y]
    ensures Walk(site) == Crawled([x, y])
  {
    var order := Expansions(site, [""]);
    assert order[0] == "" && order[1..] == [d];
    assert [d][0] == d && [d][1..] == [];
    assert FirstUnreachable(site, [d]) == None;
    assert FirstUnreachable(site, order) == None;
    assert FilesOf(site, [d]) == [y];
    assert FilesOf(site, order) == [x] + [y];
  }

  /** On the test server the crawl finds exactly the two files, root file first. */
  lemma MockWalk()
    ensures Ranked(MockSite())
    ensures Walk(MockSite()) == Crawled(["my_file", "Data/my_file_data"])
  {
    MockOrder();
    MockFiles();
    RootThenOne(MockSite(), "Data/", "my_file", "Data/my_file_data");
  }
}
