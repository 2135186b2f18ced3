/** The few Python string operations the crawler is built from, on `seq<char>`. */
module Text {

  /** `s.endswith('/')`. */
  predicate EndsWithSlash(s: string) {
    |s| > 0 && s[|s| - 1] == '/'
  }

  /** A folder path below the crawl root: the root itself (empty) or a path ending in `/`. */
  predicate IsDirPath(s: string) {
    s == "" || EndsWithSlash(s)
  }

  /** `needle in hay` for strings: `needle` occurs as a contiguous block of `hay`. */
  predicate IsInfix(needle: string, hay: string)
    decreases |hay|
  {
    needle <= hay || (hay != [] && IsInfix(needle, hay[1..]))
  }

  /** `needle` occurs in `hay` only as its suffix, never earlier. */
  predicate OnlyAtEnd(needle: string, hay: string) {
    hay == [] || !IsInfix(needle, hay[..|hay| - 1])
  }

  /**
   * `s.replace(pat, '')`: scans `s` left to right and drops every
   * non-overlapping occurrence of `pat`; an empty `pat` leaves `s` unchanged.
   */
  function RemoveAll(s: string, pat: string): (r: string)
    ensures |r| <= |s|
    decreases |s|
  {
    if pat == "" || s == "" then s
    else if pat <= s then RemoveAll(s[|pat|..], pat)
    else [s[0]] + RemoveAll(s[1..], pat)
  }

  lemma PrefixAgreesAt(needle: string, hay: string, k: nat)
    requires k < |needle|
    ensures needle <= hay ==> k < |hay| && hay[k] == needle[k]
  {
  }

  /** A needle holding a character the haystack lacks does not occur in it. */
  lemma {:induction false} NotInfixByChar(needle: string, hay: string, c: char)
    requires c in needle && c !in hay
    ensures !IsInfix(needle, hay)
    decreases |hay|
  {
    var k :| 0 <= k < |needle| && needle[k] == c;
    PrefixAgreesAt(needle, hay, k);
    if hay != [] {
      NotInfixByChar(needle, hay[1..], c);
    }
  }

  /** A needle longer than the haystack does not occur in it. */
  lemma {:induction false} NotInfixShort(needle: string, hay: string)
    requires |hay| < |needle|
    ensures !IsInfix(needle, hay)
    decreases |hay|
  {
    if hay != [] {
      NotInfixShort(needle, hay[1..]);
    }
  }

  /**
   * A slash-free needle that does not occur in a folder path does not occur
   * in that path followed by anything shorter than the needle: an occurrence
   * cannot straddle the path's final `/`.
   */
  lemma {:induction false} NotInfixAcrossSlash(needle: string, d: string, t: string)
    requires '/' !in needle && IsDirPath(d)
    requires !IsInfix(needle, d) && |t| < |needle|
    ensures !IsInfix(needle, d + t)
    decreases |d|
  {
    if d == "" {
      assert d + t == t;
      NotInfixShort(needle, t);
    } else {
      var s := d + t;
      if |needle| <= |d| {
        assert s[..|needle|] == d[..|needle|];
      } else {
        PrefixAgreesAt(needle, s, |d| - 1);
      }
      assert s[1..] == d[1..] + t;
      if |d| > 1 {
        assert d[1..][|d[1..]| - 1] == d[|d| - 1];
      }
      NotInfixAcrossSlash(needle, d[1..], t);
    }
  }

  /** A slash-free name absent from a folder path occurs in the path followed by the name only at its end. */
  lemma OnlyAtEndAfterDir(name: string, d: string)
    requires '/' !in name && name != "" && IsDirPath(d)
    requires !IsInfix(name, d)
    ensures OnlyAtEnd(name, d + name)
  {
    var s := d + name;
    assert s[..|s| - 1] == d + name[..|name| - 1];
    NotInfixAcrossSlash(name, d, name[..|name| - 1]);
  }

  /** Removing a string that does not occur changes nothing. */
  lemma {:induction false} RemoveAllAbsent(s: string, pat: string)
    requires !IsInfix(pat, s)
    ensures RemoveAll(s, pat) == s
    decreases |s|
  {
    if pat != "" && s != "" {
      RemoveAllAbsent(s[1..], pat);
    }
  }

  /** Removing a non-empty string that does occur shortens the string. */
  lemma {:induction false} RemoveAllShrinks(s: string, pat: string)
    requires pat != "" && IsInfix(pat, s)
    ensures |RemoveAll(s, pat)| < |s|
    decreases |s|
  {
    if !(pat <= s) {
      RemoveAllShrinks(s[1..], pat);
    }
  }

  /** Removing a non-empty string that occurs only as the suffix of `d + pat` leaves `d`. */
  lemma {:induction false} RemoveAllOnlySuffix(d: string, pat: string)
    requires pat != ""
    requires OnlyAtEnd(pat, d + pat)
    ensures RemoveAll(d + pat, pat) == d
    decreases |d|
  {
    var s := d + pat;
    if d == "" {
      assert s == pat;
      assert s[|pat|..] == "";
    } else {
      var init := s[..|s| - 1];
      assert pat <= s ==> pat <= init;
      assert s[1..] == d[1..] + pat;
      assert init[1..] == s[1..][..|s| - 2];
      RemoveAllOnlySuffix(d[1..], pat);
      assert [s[0]] + d[1..] == d;
    }
  }

  /** Concatenation is associative; the crawl and the download loop regroup their accumulators with it. */
  lemma SeqAssoc<T>(a: seq<T>, b: seq<T>, c: seq<T>)
    ensures a + b + c == a + (b + c)
  {
  }

  /** `s.split('/')`: the pieces between the slashes, at least one. */
  function Split(s: string): (parts: seq<string>)
    ensures |parts| >= 1
    ensures forall i :: 0 <= i < |parts| ==> '/' !in parts[i]
    decreases |s|
  {
    if s == "" then [""]
    else
      var init := Split(s[..|s| - 1]);
      var c := s[|s| - 1];
      if c == '/' then init + [""]
      else init[..|init| - 1] + [init[|init| - 1] + [c]]
  }

  /** `'/'.join(parts)`. */
  function Join(parts: seq<string>): string
    requires |parts| >= 1
  {
    if |parts| == 1 then parts[0]
    else Join(parts[..|parts| - 1]) + "/" + parts[|parts| - 1]
  }

  /** Joining the pieces of a split gives back the string. */
  lemma {:induction false} JoinSplit(s: string)
    ensures Join(Split(s)) == s
    decreases |s|
  {
    if s != "" {
      var init := s[..|s| - 1];
      var c := s[|s| - 1];
      var ps := Split(init);
      JoinSplit(init);
      assert init + [c] == s;
      if c == '/' {
        assert Split(s) == ps + [""];
        JoinSnocPiece(ps, "");
      } else {
        assert Split(s) == ps[..|ps| - 1] + [ps[|ps| - 1] + [c]];
        JoinExtendLast(ps, c);
      }
    }
  }

  lemma JoinSnocPiece(ps: seq<string>, p: string)
    requires |ps| >= 1
    ensures Join(ps + [p]) == Join(ps) + "/" + p
  {
    assert (ps + [p])[..|ps|] == ps;
  }

  lemma JoinExtendLast(ps: seq<string>, c: char)
    requires |ps| >= 1
    ensures Join(ps[..|ps| - 1] + [ps[|ps| - 1] + [c]]) == Join(ps) + [c]
  {
    var qs := ps[..|ps| - 1] + [ps[|ps| - 1] + [c]];
    if |ps| > 1 {
      assert qs[..|qs| - 1] == ps[..|ps| - 1];
    }
  }

  /** Appending one slash-free piece after a slash appends one piece to the split. */
  lemma {:induction false} SplitAfterSlash(a: string, b: string)
    requires '/' !in b
    ensures Split(a + "/" + b) == Split(a) + [b]
    decreases |b|
  {
    if b == "" {
      assert (a + "/" + b)[..|a|] == a;
    } else {
      var b' := b[..|b| - 1];
      var s := a + "/" + b;
      assert s[..|s| - 1] == a + "/" + b';
      assert s[|s| - 1] == b[|b| - 1];
      SplitAfterSlash(a, b');
      assert b' + [b[|b| - 1]] == b;
    }
  }

  /** A slash-free string splits into itself. */
  lemma {:induction false} SplitNoSlash(b: string)
    requires '/' !in b
    ensures Split(b) == [b]
    decreases |b|
  {
    if b != "" {
      SplitNoSlash(b[..|b| - 1]);
      assert b[..|b| - 1] + [b[|b| - 1]] == b;
    }
  }

  /** Splitting a join of slash-free pieces gives back the pieces. */
  lemma {:induction false} SplitJoin(parts: seq<string>)
    requires |parts| >= 1
    requires forall i :: 0 <= i < |parts| ==> '/' !in parts[i]
    ensures Split(Join(parts)) == parts
    decreases |parts|
  {
    if |parts| == 1 {
      SplitNoSlash(parts[0]);
    } else {
      var init := parts[..|parts| - 1];
      SplitJoin(init);
      SplitAfterSlash(Join(init), parts[|parts| - 1]);
      assert init + [parts[|parts| - 1]] == parts;
    }
  }

  /** `s.split('/')[-1]`: the text after the last slash (all of `s` when it has none). */
  function LastSegment(s: string): string {
    var parts := Split(s);
    parts[|parts| - 1]
  }

  /** The last segment, computed directly from the end of the string. */
  function Basename(s: string): (r: string)
    ensures '/' !in r
    ensures |r| <= |s|
    decreases |s|
  {
    if s == "" || s[|s| - 1] == '/' then ""
    else Basename(s[..|s| - 1]) + [s[|s| - 1]]
  }

  /** The prefix of `s` up to and including its last slash (empty when it has none). */
  function DirPart(s: string): (d: string)
    ensures IsDirPath(d)
    ensures d + Basename(s) == s
    decreases |s|
  {
    if s == "" || s[|s| - 1] == '/' then s
    else
      var d := DirPart(s[..|s| - 1]);
      assert d + Basename(s) == d + Basename(s[..|s| - 1]) + [s[|s| - 1]];
      d
  }

  /** Python's `split('/')[-1]` agrees with the direct definition. */
  lemma {:induction false} LastSegmentIsBasename(s: string)
    ensures LastSegment(s) == Basename(s)
    decreases |s|
  {
    if s != "" {
      LastSegmentIsBasename(s[..|s| - 1]);
    }
  }

  /**
   * The last segment holds no slash and is what follows the directory part:
   * `s` is split exactly at its last slash.
   */
  lemma LastSegmentSplitsAtLastSlash(s: string)
    ensures '/' !in LastSegment(s)
    ensures IsDirPath(DirPart(s)) && DirPart(s) + LastSegment(s) == s
  {
    LastSegmentIsBasename(s);
  }

  /** After a slash, the last segment of a concatenation is that of its second part. */
  lemma {:induction false} LastSegmentAfterSlash(a: string, b: string)
    requires EndsWithSlash(a)
    ensures LastSegment(a + b) == LastSegment(b)
    decreases |b|
  {
    LastSegmentIsBasename(a + b);
    LastSegmentIsBasename(b);
    BasenameAfterSlash(a, b);
  }

  lemma {:induction false} BasenameAfterSlash(a: string, b: string)
    requires EndsWithSlash(a)
    ensures Basename(a + b) == Basename(b)
    decreases |b|
  {
    if b != "" {
      var s := a + b;
      assert s[..|s| - 1] == a + b[..|b| - 1];
      BasenameAfterSlash(a, b[..|b| - 1]);
    } else {
      assert a + b == a;
    }
  }
}
