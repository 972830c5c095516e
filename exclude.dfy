/**
 * The `exclude` setting: a comma-separated list of glob patterns, parsed into
 * a pattern list, and the filter that drops every file whose destination path
 * matches one of them. The glob matcher itself belongs to a library and is a
 * parameter `matches(path, pattern)` here.
 */
module Exclude {
  import opened Strings
  import opened Diff

  /** Each segment trimmed. */
  function TrimAll(segments: seq<string>): (r: seq<string>)
    ensures |r| == |segments|
    ensures forall k :: 0 <= k < |r| ==> IsTrimmed(r[k])
  {
    seq(|segments|, k requires 0 <= k < |segments| => Trim(segments[k]))
  }

  /** `t` is what trimming leaves of `s`: a trimmed middle slice of `s` with only whitespace cut from either end. */
  predicate IsTrimOf(t: string, s: string)
  {
    IsTrimmed(t)
    && exists i, j :: 0 <= i <= j <= |s| && t == s[i..j] && AllWhitespace(s[..i]) && AllWhitespace(s[j..])
  }

  /** Each result of `TrimAll` is the trim of the segment at the same position; Dafny reads this off `Trim`'s definition. */
  lemma TrimAllTrimsEach(segments: seq<string>)
    ensures forall k :: 0 <= k < |segments| ==> IsTrimOf(TrimAll(segments)[k], segments[k])
  {
  }

  /** `.filter(Boolean)` on strings: drops the empty ones and keeps the rest in order. */
  function DropEmpty(ss: seq<string>): (r: seq<string>)
    ensures forall k :: 0 <= k < |r| ==> r[k] != "" && r[k] in ss
    ensures forall k :: 0 <= k < |ss| && ss[k] != "" ==> ss[k] in r
    decreases |ss|
  {
    if ss == [] then []
    else (if ss[0] == "" then [] else [ss[0]]) + DropEmpty(ss[1..])
  }

  /** A separator-free string keeps being separator-free when trimmed; it only guides the prover. */
  lemma TrimKeepsOut(s: string, c: char)
    requires Lacks(s, c)
    ensures Lacks(Trim(s), c)
  {
  }

  lemma TrimAllKeepsOut(segments: seq<string>, c: char)
    requires forall k :: 0 <= k < |segments| ==> Lacks(segments[k], c)
    ensures forall k :: 0 <= k < |segments| ==> Lacks(TrimAll(segments)[k], c)
  {
    forall k | 0 <= k < |segments|
      ensures Lacks(TrimAll(segments)[k], c)
    {
      TrimKeepsOut(segments[k], c);
    }
  }

  /**
   * The exclude setting (engine/main.go:168-172) cut at every comma, each
   * piece trimmed, blank pieces dropped: every pattern is non-empty, carries
   * no surrounding whitespace and holds no comma.
   */
  function ParseExclude(input: string): (patterns: seq<string>)
    ensures forall k :: 0 <= k < |patterns| ==>
              patterns[k] != "" && IsTrimmed(patterns[k]) && Lacks(patterns[k], ',')
  {
    var segments := Split(input, ',');
    SplitPiecesFree(input, ',');
    TrimAllKeepsOut(segments, ',');
    DropEmpty(TrimAll(segments))
  }

  lemma {:induction false} DropEmptyConcat(a: seq<string>, b: seq<string>)
    ensures DropEmpty(a + b) == DropEmpty(a) + DropEmpty(b)
    decreases |a|
  {
    if a != [] {
      var head := if a[0] == "" then [] else [a[0]];
      assert (a + b)[0] == a[0];
      assert (a + b)[1..] == a[1..] + b;
      DropEmptyConcat(a[1..], b);
      assert DropEmpty(a + b) == head + DropEmpty(a[1..] + b);
      assert DropEmpty(a) == head + DropEmpty(a[1..]);
      AppendStep(DropEmpty(a), head, DropEmpty(a[1..]), DropEmpty(b));
    } else {
      assert a + b == b;
    }
  }

  lemma {:induction false} DropEmptyNoEmpty(ss: seq<string>)
    requires forall k :: 0 <= k < |ss| ==> ss[k] != ""
    ensures DropEmpty(ss) == ss
    decreases |ss|
  {
    if ss != [] {
      DropEmptyNoEmpty(ss[1..]);
    }
  }

  /** Trimming already trimmed segments changes nothing; it only guides the prover. */
  lemma TrimAllTrimmed(ss: seq<string>)
    requires forall k :: 0 <= k < |ss| ==> IsTrimmed(ss[k])
    ensures TrimAll(ss) == ss
  {
  }

  /** A segment without commas gives its trimmed form as the one pattern, or nothing when it is blank. */
  lemma ParseExcludeSegment(s: string)
    requires Lacks(s, ',')
    ensures ParseExclude(s) == if Trim(s) == "" then [] else [Trim(s)]
  {
    var t := Trim(s);
    SplitWhole(s, ',');
    assert TrimAll([s]) == [t];
    assert ParseExclude(s) == DropEmpty([t]);
    assert [t][1..] == [];
    assert DropEmpty([t]) == (if t == "" then [] else [t]) + DropEmpty([]);
  }

  /** Patterns come out in input order: a comma splits the input into two independently parsed halves. */
  lemma ParseExcludeConcat(a: string, b: string)
    ensures ParseExclude(a + "," + b) == ParseExclude(a) + ParseExclude(b)
  {
    assert a + "," + b == a + [','] + b;
    SplitConcat(a, b, ',');
    var sa, sb := Split(a, ','), Split(b, ',');
    assert TrimAll(sa + sb) == TrimAll(sa) + TrimAll(sb);
    DropEmptyConcat(TrimAll(sa), TrimAll(sb));
  }

  /** Listing patterns that are non-empty, trimmed and comma-free, separated by commas, parses back to exactly those patterns. */
  lemma ParseExcludeJoin(patterns: seq<string>)
    requires forall k :: 0 <= k < |patterns| ==>
               patterns[k] != "" && IsTrimmed(patterns[k]) && Lacks(patterns[k], ',')
    ensures ParseExclude(Join(patterns, ',')) == patterns
  {
    if patterns == [] {
      assert Split("", ',') == [""];
      assert TrimAll([""]) == [""];
    } else {
      SplitJoin(patterns, ',');
      TrimAllTrimmed(patterns);
      DropEmptyNoEmpty(patterns);
    }
  }

  /** Some pattern matches the file's path, the empty string standing for a missing one (engine/main.go:175). */
  predicate Excluded(f: File, patterns: seq<string>, matches: (string, string) -> bool)
  {
    exists k :: 0 <= k < |patterns| && matches(PathOf(f), patterns[k])
  }

  /**
   * `parsed.filter((file) => !excluded)`: keeps a file exactly when no pattern
   * matches its path; nothing is added.
   */
  function FilterFiles(files: seq<File>, patterns: seq<string>, matches: (string, string) -> bool): (kept: seq<File>)
    ensures |kept| <= |files|
    ensures forall k :: 0 <= k < |kept| ==> kept[k] in files && !Excluded(kept[k], patterns, matches)
    ensures forall k :: 0 <= k < |files| && !Excluded(files[k], patterns, matches) ==> files[k] in kept
    decreases |files|
  {
    if files == [] then []
    else (if Excluded(files[0], patterns, matches) then [] else [files[0]])
         + FilterFiles(files[1..], patterns, matches)
  }

  /** The filter keeps the files' order: it works on each part of a concatenation separately. */
  lemma {:induction false} FilterFilesConcat(a: seq<File>, b: seq<File>, patterns: seq<string>, matches: (string, string) -> bool)
    ensures FilterFiles(a + b, patterns, matches) == FilterFiles(a, patterns, matches) + FilterFiles(b, patterns, matches)
    decreases |a|
  {
    if a != [] {
      var head := if Excluded(a[0], patterns, matches) then [] else [a[0]];
      assert (a + b)[0] == a[0];
      assert (a + b)[1..] == a[1..] + b;
      FilterFilesConcat(a[1..], b, patterns, matches);
      assert FilterFiles(a + b, patterns, matches) == head + FilterFiles(a[1..] + b, patterns, matches);
      assert FilterFiles(a, patterns, matches) == head + FilterFiles(a[1..], patterns, matches);
      AppendStep(FilterFiles(a, patterns, matches), head, FilterFiles(a[1..], patterns, matches), FilterFiles(b, patterns, matches));
    } else {
      assert a + b == b;
    }
  }

  /** Filtering twice with the same patterns is filtering once. */
  lemma {:induction false} FilterFilesIdempotent(files: seq<File>, patterns: seq<string>, matches: (string, string) -> bool)
    ensures FilterFiles(FilterFiles(files, patterns, matches), patterns, matches) == FilterFiles(files, patterns, matches)
    decreases |files|
  {
    if files != [] {
      var rest := FilterFiles(files[1..], patterns, matches);
      FilterFilesIdempotent(files[1..], patterns, matches);
      if !Excluded(files[0], patterns, matches) {
        var once := [files[0]] + rest;
        assert once[0] == files[0];
        assert once[1..] == rest;
        assert FilterFiles(once, patterns, matches) == [files[0]] + FilterFiles(rest, patterns, matches);
      } else {
        assert FilterFiles(files, patterns, matches) == [] + rest;
        assert [] + rest == rest;
      }
    }
  }

  /** Without patterns every file is kept. */
  lemma {:induction false} FilterFilesNoPatterns(files: seq<File>, matches: (string, string) -> bool)
    ensures FilterFiles(files, [], matches) == files
    decreases |files|
  {
    if files != [] {
      FilterFilesNoPatterns(files[1..], matches);
    }
  }
}
