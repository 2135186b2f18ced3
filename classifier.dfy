/**
 * The link classifier, `split_content` (main.py:53-65): the hrefs of one
 * listing page are split into file names and folder names, dropping the
 * parent link `../`.
 */
module Classifier {
  import opened Text
  import opened Tokens

  /** The parent-directory link every listing carries. */
  const ParentLink: string := "../"

  /** A folder entry: ends in `/` and is not the parent link. */
  predicate IsFolderName(s: string) {
    EndsWithSlash(s) && s != ParentLink
  }

  /** A file entry: does not end in `/`. */
  predicate IsFileName(s: string) {
    !EndsWithSlash(s)
  }

  /** The file entries of `names`, in their order. */
  function Files(names: seq<string>): (r: seq<string>)
    ensures |r| <= |names|
  {
    if names == [] then []
    else if IsFileName(names[0]) then [names[0]] + Files(names[1..])
    else Files(names[1..])
  }

  /** The folder entries of `names`, in their order. */
  function Folders(names: seq<string>): (r: seq<string>)
    ensures |r| <= |names|
  {
    if names == [] then []
    else if IsFolderName(names[0]) then [names[0]] + Folders(names[1..])
    else Folders(names[1..])
  }

  /** `a` is `b` with some elements left out, the rest kept in order. */
  predicate IsSubsequence(a: seq<string>, b: seq<string>)
    decreases |b|
  {
    a == [] || (b != [] && ((a[0] == b[0] && IsSubsequence(a[1..], b[1..])) || IsSubsequence(a, b[1..])))
  }

  /** Classifying a concatenation classifies each part: neither output reorders its input. */
  lemma {:induction false} ClassifyAppend(a: seq<string>, b: seq<string>)
    ensures Files(a + b) == Files(a) + Files(b)
    ensures Folders(a + b) == Folders(a) + Folders(b)
    decreases |a|
  {
    if a != [] {
      assert (a + b)[1..] == a[1..] + b;
      ClassifyAppend(a[1..], b);
    } else {
      assert a + b == b;
    }
  }

  lemma ClassifyOne(name: string)
    ensures Files([name]) == if IsFileName(name) then [name] else []
    ensures Folders([name]) == if IsFolderName(name) then [name] else []
  {
    assert [name][1..] == [];
  }

  /** Each output is an in-order subsequence of the input. */
  lemma {:induction false} ClassifyKeepsOrder(names: seq<string>)
    ensures IsSubsequence(Files(names), names)
    ensures IsSubsequence(Folders(names), names)
    decreases |names|
  {
    if names != [] {
      ClassifyKeepsOrder(names[1..]);
    }
  }

  /**
   * Every entry but the parent link lands in exactly one output, as often as
   * it occurs in the input; the parent link lands in neither.
   */
  lemma {:induction false} ClassifyPartitions(names: seq<string>)
    ensures forall x :: multiset(Files(names) + Folders(names))[x] == if x == ParentLink then 0 else multiset(names)[x]
    decreases |names|
  {
    if names != [] {
      ClassifyPartitions(names[1..]);
      assert names == [names[0]] + names[1..];
    }
  }

  /** `|files| + |folders| == |names| - (number of "../" entries)`. */
  lemma ClassifyCounts(names: seq<string>)
    ensures |Files(names)| + |Folders(names)| == |names| - multiset(names)[ParentLink]
  {
    ClassifyPartitions(names);
    MultisetSizeWithout(Files(names) + Folders(names), names, ParentLink);
  }

  lemma {:induction false} MultisetSizeWithout(a: seq<string>, b: seq<string>, y: string)
    requires forall x :: multiset(a)[x] == if x == y then 0 else multiset(b)[x]
    ensures |a| == |b| - multiset(b)[y]
  {
    var ys := multiset(b)[y := 0];
    assert multiset(a) == ys;
    assert multiset(b) == ys + multiset{}[y := multiset(b)[y]];
  }

  /** `files` holds exactly the file entries and `folders` exactly the folder entries of the input. */
  lemma {:induction false} ClassifyMembers(names: seq<string>, x: string)
    ensures x in Files(names) <==> x in names && IsFileName(x)
    ensures x in Folders(names) <==> x in names && IsFolderName(x)
    decreases |names|
  {
    if names != [] {
      ClassifyMembers(names[1..], x);
      assert names == [names[0]] + names[1..];
    }
  }

  /** No entry is both a file and a folder, and the parent link is neither. */
  lemma ClassifyDisjoint(names: seq<string>, x: string)
    ensures !(x in Files(names) && x in Folders(names))
    ensures ParentLink !in Files(names) && ParentLink !in Folders(names)
  {
    ClassifyMembers(names, x);
    ClassifyMembers(names, ParentLink);
  }

  /** An integer token is always a file, classified by its decimal text. */
  lemma IntTokensAreFiles(n: int)
    ensures IsFileName(Str(Int(n)))
  {
    IntToStringEndsInDigit(n);
  }

  /**
   * `split_content(content)`: one pass over the tokens, appending each
   * coerced name to `files` or to `folders`, or dropping it.
   */
  method SplitContent(content: seq<Token>) returns (files: seq<string>, folders: seq<string>)
    ensures files == Files(Strs(content))
    ensures folders == Folders(Strs(content))
  {
    ghost var names := Strs(content);
    files, folders := [], [];
    for i := 0 to |content|
      invariant files == Files(names[..i])
      invariant folders == Folders(names[..i])
    {
      var name := Str(content[i]);
      assert names[..i + 1] == names[..i] + [name];
      ClassifyAppend(names[..i], [name]);
      ClassifyOne(name);
      if EndsWithSlash(name) {
        if name != ParentLink {
          folders := folders + [name];
        }
      } else {
        files := files + [name];
      }
    }
    assert names[..|content|] == names;
  }

  /** The listings the project's own tests classify, with the outputs they expect. */
  lemma ClassifyExamples()
    ensures var n := Strs([Href("my_file"), Href("my_folder/"), Href("tmp/"), Href("test_file")]);
      Files(n) == ["my_file", "test_file"] && Folders(n) == ["my_folder/", "tmp/"]
    ensures var n := Strs([Href("my_file"), Href("my_folder/"), Href("tmp/"), Href("test_file"), Href("../")]);
      Files(n) == ["my_file", "test_file"] && Folders(n) == ["my_folder/", "tmp/"]
    ensures Files(Strs([])) == [] && Folders(Strs([])) == []
    ensures Files(Strs([Href("../")])) == [] && Folders(Strs([Href("../")])) == []
  {
    var n := Strs([Href("my_file"), Href("my_folder/"), Href("tmp/"), Href("test_file"), Href("../")]);
    assert n == ["my_file", "my_folder/", "tmp/", "test_file", "../"];
    var m := Strs([Href("my_file"), Href("my_folder/"), Href("tmp/"), Href("test_file")]);
    assert m == ["my_file", "my_folder/", "tmp/", "test_file"];
    assert Strs([Href("../")]) == ["../"];
  }

  /** Integer tokens are classified by their decimal text. */
  lemma ClassifyNumericExample()
    ensures var n := Strs([Int(1), Href("test_file"), Int(3), Int(20202), Href("tmp/"), Href("223231/")]);
      Files(n) == ["1", "test_file", "3", "20202"] && Folders(n) == ["tmp/", "223231/"]
  {
    NumericNames();
    var n := ["1", "test_file", "3", "20202", "tmp/", "223231/"];
    assert Files(n) == ["1", "test_file", "3", "20202"];
    assert Folders(n) == ["tmp/", "223231/"];
  }

  lemma NumericNames()
    ensures Strs([Int(1), Href("test_file"), Int(3), Int(20202), Href("tmp/"), Href("223231/")])
      == ["1", "test_file", "3", "20202", "tmp/", "223231/"]
  {
    DecimalExamples();
  }
}
