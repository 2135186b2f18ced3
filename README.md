# Directory-listing mirror: crawl and download core

A Dafny model of the crawl-and-mirror engine of a small Python tool. The tool
reads an "index of" style HTTP listing tree behind basic authentication. It
walks that tree breadth-first from a root URL and collects the relative path
of every file. It then downloads each file into a local directory tree that
mirrors the remote one.

The modules follow the pieces of `main.py`:

- `Text`: the Python string operations the code relies on, over `seq<char>`.
  This covers `endswith('/')`, `str.replace(old, '')` (which removes every
  occurrence), `split('/')` with `'/'.join` as its inverse, and the last
  `/`-segment.
- `Tokens`: href tokens and the `str()` coercion the classifier applies.
  A token is text or an integer, and an integer is written in decimal.
- `Classifier`: `split_content`, the link classifier. It is a loop proved
  equal to two filter functions, `Files` and `Folders`.
- `Walker`: `get_folder_content` and `get_file_paths`, the breadth-first
  folder walker. The server is an abstract listing oracle, `Server = string
  -> Page`. A page is the list of hrefs the HTML parser would extract, or
  `Unreachable` when fetching or parsing raises. The method keeps the FIFO
  queue as a `seq` that it pops from the front and extends at the back.
  It is proved equal to a breadth-first specification, `Walk`. `Walk` is
  compared with a depth-first reference tree, `Subtree`.
- `Resolver`: `validate_url` and `strip_file_name`. The latter is modelled
  exactly as written, including Python's replace-all behaviour. `LocalDir`
  is the corrected directory computation (see Findings), and
  `FiledUnderOwnFolder` names the items on which the two agree.
- `Mirror`: `download_file` as a function of an abstract fetcher, the chunked
  write of the body, and the download loop of `main`. The loop passes each
  item's `strip_file_name` result as the folder, as `main` does, and stops at
  the first download that raises. `IntendedDownloadItem` is the corrected
  per-item download, with `LocalDir` as the folder.

Termination of the crawl needs the part of the tree it reaches to be finite
and acyclic. The model states this as a ghost ranking of folder paths,
`Ranked(site)`: the root has a positive rank, and every folder link of a
folder with a positive rank leads to a path of strictly lower positive rank.
Rank 0 marks paths the crawl never reaches, and their listings are not
constrained. The ranking excludes every listing tree whose reached part is
infinite (a cycle, or an endless chain of folders). On such a tree the Python
loop runs forever unless some listing it reaches raises first: breadth-first
order reaches every folder at finite depth, so a raising listing ends the
crawl with that exception. Neither kind of run is modelled.

Three behaviours of the code are easy to misread, and the model keeps them:

- Listing fetches never call `raise_for_status` (main.py:67-68). An error
  status page is therefore parsed like any other page, and only an exception
  aborts the crawl, modelled as `Unreachable`.
- A file is collected once for every path by which the listing tree reaches
  it. The model proves the crawl's result equals, as a multiset, the files of
  the depth-first tree below the root (`Walker.WalkMatchesTree`).
- `strip_file_name` removes every occurrence of the root URL and every
  occurrence of the file name (main.py:134-135), not a prefix and a suffix.
  `Resolver.StripFileName` does the same.

## Model

| member | source | states |
|---|---|---|
| Text.RemoveAllAbsent | main.py:134 | `replace(old, '')` leaves a string unchanged when `old` does not occur in it |
| Text.RemoveAllShrinks | main.py:134-135 | `replace(old, '')` with a non-empty `old` that occurs makes the string strictly shorter |
| Text.RemoveAllOnlySuffix | main.py:135 | removing a name that occurs only as the suffix of `d + name` leaves exactly `d` |
| Text.NotInfixAcrossSlash | main.py:135 | a slash-free name that is absent from a folder path cannot occur across the path's final `/` |
| Text.OnlyAtEndAfterDir | main.py:135 | a slash-free file name absent from its folder path occurs in `folder + name` only at the end |
| Text.Split | main.py:114 | `split('/')` yields at least one piece, and no piece holds a `/` |
| Text.JoinSplit | main.py:114 | joining the pieces of `split('/')` with `/` gives back the string |
| Text.SplitJoin | main.py:114 | splitting a `/`-join of slash-free pieces gives back the pieces |
| Text.DirPart | main.py:135 | the directory part is empty or ends in `/`, and the directory part followed by the basename is the whole string |
| Text.LastSegmentIsBasename | main.py:114 | `split('/')[-1]` equals the text after the last `/` |
| Text.LastSegmentSplitsAtLastSlash | main.py:114 | the last segment holds no `/`, and the directory part followed by the last segment is the string |
| Text.LastSegmentAfterSlash | main.py:160 | after a string ending in `/`, the last segment of a concatenation is that of its second part |
| Tokens.NatToString | main.py:58 | `str(n)` is a non-empty string of decimal digits with no leading zero |
| Tokens.NatToStringRoundTrip | main.py:58 | reading the decimal form back gives the number |
| Tokens.IntToStringRoundTrip | main.py:58 | `int(str(n)) == n` for every integer: coercion loses nothing |
| Tokens.IntToStringEndsInDigit | main.py:58-59 | the text of an integer ends in a digit, never in `/` |
| Tokens.DecimalExamples | tests/download_test.py:39-41 | `str` gives `"1"`, `"3"` and `"20202"` for the integer tokens of the tests |
| Classifier.SplitContent | main.py:53-65 | the loop's two lists are exactly the file entries and the folder entries of the coerced tokens |
| Classifier.ClassifyAppend | main.py:57-63 | classifying a concatenation classifies each part and concatenates the results |
| Classifier.ClassifyKeepsOrder | main.py:57-63 | `files` and `folders` are each an in-order subsequence of the input |
| Classifier.ClassifyPartitions | main.py:57-63 | every entry except `../` lands in the union of the two outputs as often as it occurs in the input; `../` never lands there |
| Classifier.ClassifyCounts | main.py:57-63 | the two output lengths add up to the input length minus the number of `../` entries |
| Classifier.ClassifyMembers | main.py:59-63 | a string is in `files` iff it is an input entry not ending in `/`, and in `folders` iff it is an input entry ending in `/` other than `../` |
| Classifier.ClassifyDisjoint | main.py:59-63 | no string is in both outputs, and `../` is in neither |
| Classifier.IntTokensAreFiles | main.py:58-63 | an integer token is always classified as a file |
| Classifier.ClassifyExamples | tests/download_test.py:15-37 | the mixed listing, the empty listing and the lone `../` give the outputs the tests expect |
| Classifier.ClassifyNumericExample | tests/download_test.py:38-42 | `[1, "test_file", 3, 20202, "tmp/", "223231/"]` gives files `["1","test_file","3","20202"]` and folders `["tmp/","223231/"]` |
| Walker.ChildrenRanked | main.py:99 | on a ranked tree every sub-folder path of a reached folder is reached and has lower rank than its parent |
| Walker.QueueStaysLive | main.py:96-102 | popping a reached folder and queueing its sub-folders leaves only reached folders in the queue |
| Walker.ChildrenOfLive | main.py:99-102 | the sub-folders of reached folders are reached |
| Walker.Subtree | main.py:94-102 | the depth-first reference tree below a folder starts with that folder |
| Walker.ForestStep | main.py:96-102 | replacing the front folder by its children at the back removes exactly that folder from the pending tree, which shrinks by one |
| Walker.GetFolderContent | main.py:70-80 | a fetched page yields its classified files and folders; an exception yields no result |
| Walker.GetFilePaths | main.py:82-104 | the loop returns the breadth-first walk's result, or aborts at the URL of the first listing in breadth-first order whose fetch raises |
| Walker.CrawlStep | main.py:96-102 | one pop-and-expand step keeps the loop invariant: the result grows by the popped folder's files, the queue by its prefixed sub-folders |
| Walker.RootStep | main.py:90-94 | the root is expanded first, with its files as-is and its folders, unprefixed, as the initial queue |
| Walker.FolderPathsEndInSlash | main.py:99-102 | every sub-folder path put on the queue ends in `/` |
| Walker.ExpansionsStep | main.py:96-102 | the breadth-first order starts with the front of the queue, then continues with the rest followed by its children |
| Walker.ExpansionsAreFifo | main.py:94-102 | the folders already queued are expanded first, in queue order, then the folders discovered from them in discovery order |
| Walker.ExpansionsCoverForest | main.py:94-102 | the crawl expands every folder of the tree below its queue, each as often as the tree holds it |
| Walker.ExpansionsAreDirPaths | main.py:94-102 | every folder the crawl expands is the root `""` or a path ending in `/` |
| Walker.FilesOfAppend | main.py:101 | the files of consecutive folders are those of each folder, in order |
| Walker.FilesOfMembers | main.py:100-101 | a path is among the collected files iff it is `p + f` with `p` a visited folder and `f` a file token of `p`'s listing |
| Walker.FilesOfPermutation | main.py:101 | visiting the same folders in another order gives the same files as a multiset |
| Walker.FirstUnreachableFinds | main.py:98 | no failing folder is reported iff every listing can be fetched; a reported one is visited and fails |
| Walker.RootFilesFirst | main.py:90-92 | a completed crawl's result starts with the root listing's files, in listing order |
| Walker.WalkFindsExactly | main.py:94-102 | a path is in the result iff it is `P + f`, with `P` an expanded folder (`""` or ending in `/`) and `f` a file token (not ending in `/`) of `P`'s listing |
| Walker.WalkMatchesTree | main.py:82-104 | a completed crawl yields, as a multiset, the files of the depth-first tree; it aborts iff some folder of that tree fails, and it names a failing folder |
| Walker.MockListings | tests/download_test.py:52-61 | the test server's root lists `my_file` and `Data/`, and `Data/` lists `my_file_data` |
| Walker.MockRanked | tests/download_test.py:52-61 | the test server's tree is ranked, so the crawl ends |
| Walker.MockOrder | tests/download_test.py:52-61 | on the test server the crawl expands the root, then `Data/` |
| Walker.MockWalk | tests/download_test.py:63-69 | on the test server the crawl returns exactly `["my_file", "Data/my_file_data"]` |
| Resolver.ValidateUrl | main.py:24-32 | the result ends in `/`, extends the input by at most one character, and equals the input when that already ends in `/` |
| Resolver.ValidateUrlIsShortest | main.py:24-32 | no extension of the URL ending in `/` is shorter than the result |
| Resolver.ValidateUrlIdempotent | main.py:24-32 | validating twice is validating once |
| Resolver.StripFileName | main.py:128-137 | the result is never longer than the item |
| Resolver.LocalDirSplits | main.py:113-114 | the corrected directory is `""` or ends in `/`, the item is that directory followed by its last segment, and no `/` follows the directory |
| Resolver.StripFileNameAgrees | main.py:128-137 | when the base URL is absent from the item and the file name occurs only at its end, the code as written yields the corrected directory |
| Resolver.StripFileNameOfFolderFile | main.py:128-137 | for a file in folder `d` whose name does not occur inside `d`, the code as written yields `d` |
| Resolver.StripFileNameIsLocalDir | main.py:128-137 | on an item filed under its own folder (root URL absent, file name not inside the folder path) the code as written yields the item's directory part |
| Resolver.FiledWhenNameLonger | main.py:128-137 | an item whose file name is longer than its folder path, lacking a character of the root URL, is filed under its own folder |
| Resolver.MockFlatFiled | tests/download_test.py:52-61 | the test server's `my_file` is filed under `""` |
| Resolver.MockNestedFiled | tests/download_test.py:52-61 | the test server's `Data/my_file_data` is filed under `Data/` |
| Resolver.MockItemsFiledUnderOwnFolder | tests/download_test.py:52-61 | both items of the test server are filed under their own folder |
| Resolver.StripFileNameNested | main.py:128-137 | `"Data/my_file_data"` under `http://mock.com/` yields `"Data/"` |
| Resolver.LocalDirOfJoin | main.py:113-114 | a folder path followed by a slash-free name splits back into the two |
| Resolver.StripFileNameMisplaces | main.py:134-135 | an item `name + rest + name` (`rest` ending in `/`) is filed under a directory shorter than its folder `name + rest` |
| Resolver.StripFileNameMisplacesByChar | main.py:134-135 | the same, for any base URL holding a character the item lacks |
| Resolver.StripFileNameRepeatedName | main.py:134-135 | `"reports/report"` belongs in `"reports/"`, but the code as written yields `"s/"` |
| Resolver.StripFileNameTopLevel | main.py:128-137 | a root-level file (no `/`) yields `""` |
| Resolver.StripFileNameFlat | main.py:128-137 | `"my_file"` under `http://mock.com/` yields `""` |
| Resolver.StripFullUrl | main.py:134-135 | for a base URL ending in `/`, the full URL `base + item` yields what the relative `item` yields: the base URL is removed and the file name is the item's |
| Resolver.StripFullUrlNested | main.py:128-137 | the full URL `http://mock.com/Data/my_file_data` yields `"Data/"` |
| Resolver.StripFullUrlFlat | main.py:128-137 | the full URL `http://mock.com/my_file` yields `""` |
| Mirror.Chunks | main.py:123 | the model's chosen chunking: non-empty chunks of at most 10000 bytes, all but the last exactly 10000 bytes; only their concatenation matters to the file written |
| Mirror.ChunksConcat | main.py:122-124 | writing the chunks one after another reproduces the body |
| Mirror.WriteChunks | main.py:122-124 | the chunk-writing loop leaves the file holding exactly the body |
| Mirror.Download | main.py:107-126 | the directory is `destination + filepath` whether or not the GET succeeds; the file is written iff the GET succeeds, under the URL's last segment, holding the body |
| Mirror.DownloadFile | main.py:107-126 | one call of `download_file` has the outcome `Download` describes |
| Mirror.IntendedDownloadMirrorsItem | main.py:113-122 | with the item's directory part as the folder, a downloaded item lands at `destination + item` |
| Mirror.DownloadMirrorsItem | main.py:160 | for an item filed under its own folder, the download `main` issues with `strip_file_name` is the intended one and lands at `destination + item` |
| Mirror.DownloadMisfilesRepeatedName | main.py:160 | for an item `name + rest + name`, `main` creates a directory shorter than the item's folder and writes the file somewhere other than `destination + item` |
| Mirror.DownloadsFollowItems | main.py:159-160 | the loop issues at most one call per item, in item order; every call but the last wrote its file; it stops early only after a failed call |
| Mirror.DownloadsStopAtFailure | main.py:159-160 | with items, at least one call is made, and the loop ends early only at a failed call |
| Mirror.DownloadsAt | main.py:159-160 | the `k`-th call downloads the `k`-th item, and it succeeded unless it is the last call |
| Mirror.DownloadsComplete | main.py:159-160 | every item is written iff every item's GET succeeds |
| Mirror.DownloadAll | main.py:159-160 | the loop's calls, each with the item's `strip_file_name` result as the folder, are exactly the in-order calls up to and including the first failure |
| Mirror.Run | main.py:139-160 | `main` as written validates the URL, crawls once, and either aborts with the crawl or runs the download loop, with `strip_file_name`, over the crawl's result |
| Mirror.MainMirrorsTree | main.py:147-160 | with every GET succeeding, the run reaches the downloads iff the crawl completes; then it writes each crawled file once, in order, with the folder `strip_file_name` gives; when every path is filed under its own folder, each lands at `destination + path` |
| Mirror.MainDownloadsItems | main.py:155-160 | a crawl that finds `items` leads to one successful download per item, and to its mirrored path when every item is filed under its own folder |
| Mirror.MockMain | tests/download_test.py:72-80 | on the test server `main` makes exactly two download calls, to `files/my_file` and `files/Data/my_file_data` |

## Left out

- Reading the URL and credentials from `config.ini` (`get_url`, `get_credentails`): configuration file I/O. `Mirror.Run` takes the configured URL as a parameter.
- The HTTP session, basic authentication and `requests` calls: network I/O. A listing fetch is the abstract `Server` oracle. A file GET, including `raise_for_status`, is the abstract `Fetcher`, which returns `None` for any failure.
- HTML parsing with `lxml` and the `//a/@href` query: a foreign library. The `Server` oracle returns the href tokens directly.
- `ensure_dir_exists` and the file write: filesystem side effects. `Mirror.Outcome` records the directory that would be created and the name and bytes of the file written. A second download of the same item gives the same outcome, which models overwriting. Filesystem errors are not modelled.
- Progress output (`print`, `tqdm`) and the process entry point.
- Tokens that are neither text nor integers (floats, for example). Their `str()` forms are not modelled.
- Walker.GetFilePaths: a crawl that reaches a cycle or an infinite chain of folders is not modelled, because the model requires a ranking that every folder link from a reached folder lowers. The Python loop runs forever there, unless a reached listing raises first and ends the crawl with that exception; that run is not modelled either.
- Resolver.StripFileName: its own contract states only a length bound. What it computes is stated by the lemmas about it: `StripFullUrl` reduces a full URL `base + item` to the relative item, and `StripFileNameAgrees`, `StripFileNameOfFolderFile` and `StripFileNameMisplaces` describe the relative item.
- Mirror.MainMirrorsTree: the mirrored-path promise (`destination + path`) is stated only for paths filed under their own folder (`Resolver.FiledUnderOwnFolder`), because `strip_file_name` as written misfiles the others (see Findings). The test server's items are all filed under their own folder.
- Mirror.MainDownloadsItems: the mirrored-path promise has the same hypothesis, for the same reason.
- Mirror.DownloadFile: a GET whose body fails mid-stream is modelled as a failure that writes nothing. The code opens the file with `'wb'` before reading the body, so such a failure leaves the file truncated or partly written; file contents after a failure are not modelled.

## Findings

| source | as written | input that shows it | evidently intended | confidence | as-written member | corrected member |
|---|---|---|---|---|---|---|
| main.py:134-135 | `filename.replace(full_url.split('/')[-1], '')` removes every occurrence of the file name, not just the final segment, so `main` writes such a file outside its folder (`Mirror.DownloadMisfilesRepeatedName`) | item `reports/report`: the code yields `s/` | the folder part `reports/`, so the file is written to `files/reports/report` | high (not executed; follows from Python's `str.replace` semantics) | Resolver.StripFileNameRepeatedName | Mirror.IntendedDownloadMirrorsItem |
