/**
 * The review run: every chunk of every kept file is rendered into a prompt
 * and sent to the language model, the model's reviews become comments, all
 * comments are gathered in one list (`analyzeDiff`), and one review is
 * submitted if, and only if, that list is not empty (`run`, `submitReview`).
 *
 * The model call, including the parsing of its JSON answer, is the parameter
 * `query`: `Some(reviews)` is the `reviews` array it answered with, `None` a
 * call that failed (`null`) or whose answer had no `reviews` (`undefined`), any
 * other falsy `reviews`, or a truthy `reviews` whose `length` is falsy; the
 * guard before `extractComments` turns all of these away. The model is taken to
 * give one answer per prompt text: the same prompt gets the same answer.
 */
module Pipeline {
  import opened Wrappers
  import opened Strings
  import opened Diff
  import opened Prompt
  import opened Comments
  import opened Exclude

  /** The review request `submitReview` sends: always a comment-only review. */
  datatype ReviewRequest = ReviewRequest(owner: string, repo: string, pullNumber: int, comments: seq<Comment>, event: string)

  /** The reviews a query result yields: a failed query and an empty answer both yield none. */
  function Found(result: Option<seq<Review>>): seq<Review>
  {
    result.GetOr([])
  }

  /**
   * What one chunk adds to the comment list (the body of the inner loop).
   * The `reviews && reviews.length` guard makes no difference: the comments
   * are exactly those extracted from the reviews found, so a failed query and
   * an empty answer cannot be told apart.
   */
  function ChunkComments(f: File, ch: Chunk, pr: PrInfo, query: string -> Option<seq<Review>>): (cs: seq<Comment>)
    ensures cs == ExtractComments(f, Found(query(BuildPrompt(f, ch, pr))))
  {
    var reviews := query(BuildPrompt(f, ch, pr));
    if reviews.Some? && |reviews.value| > 0 then ExtractComments(f, reviews.value) else []
  }

  /** The comments of the given chunks of `f`, chunk by chunk. */
  function ChunksComments(f: File, chunks: seq<Chunk>, pr: PrInfo, query: string -> Option<seq<Review>>): seq<Comment>
    decreases |chunks|
  {
    if chunks == [] then []
    else ChunksComments(f, chunks[..|chunks| - 1], pr, query) + ChunkComments(f, chunks[|chunks| - 1], pr, query)
  }

  /** The comments of one file: none for a deleted file. */
  function FileComments(f: File, pr: PrInfo, query: string -> Option<seq<Review>>): seq<Comment>
  {
    if IsDeleted(f) then [] else ChunksComments(f, f.chunks, pr, query)
  }

  /** The comment list `analyzeDiff` returns, file by file. */
  function Analysis(files: seq<File>, pr: PrInfo, query: string -> Option<seq<Review>>): seq<Comment>
    decreases |files|
  {
    if files == [] then []
    else Analysis(files[..|files| - 1], pr, query) + FileComments(files[|files| - 1], pr, query)
  }

  /** The prompts built for the given chunks of `f`, in order. */
  function ChunkPrompts(f: File, chunks: seq<Chunk>, pr: PrInfo): seq<string>
    decreases |chunks|
  {
    if chunks == [] then []
    else ChunkPrompts(f, chunks[..|chunks| - 1], pr) + [BuildPrompt(f, chunks[|chunks| - 1], pr)]
  }

  /** The prompts built for one file: none for a deleted file. */
  function FilePrompts(f: File, pr: PrInfo): seq<string>
  {
    if IsDeleted(f) then [] else ChunkPrompts(f, f.chunks, pr)
  }

  /** Every prompt `analyzeDiff` sends to the model, in the order it sends them. */
  function Prompts(files: seq<File>, pr: PrInfo): seq<string>
    decreases |files|
  {
    if files == [] then []
    else Prompts(files[..|files| - 1], pr) + FilePrompts(files[|files| - 1], pr)
  }

  /** The reviews the model yields for the given prompts, one answer after another. */
  function FoundAll(prompts: seq<string>, query: string -> Option<seq<Review>>): seq<Review>
    decreases |prompts|
  {
    if prompts == [] then []
    else FoundAll(prompts[..|prompts| - 1], query) + Found(query(prompts[|prompts| - 1]))
  }

  /**
   * `analyzeDiff(files, prInfo)`: for each file that is not a deletion, for
   * each of its chunks, build the prompt, query the model and append the
   * comments extracted from a non-empty answer (`AnalyzeFile`). `sent`
   * records the prompts sent, in order.
   */
  method AnalyzeDiff(files: seq<File>, pr: PrInfo, query: string -> Option<seq<Review>>)
    returns (allComments: seq<Comment>, ghost sent: seq<string>)
    ensures allComments == Analysis(files, pr, query)
    ensures sent == Prompts(files, pr)
  {
    allComments := [];
    sent := [];
    for i := 0 to |files|
      invariant allComments == Analysis(files[..i], pr, query)
      invariant sent == Prompts(files[..i], pr)
    {
      var file := files[i];
      FileStep(files, i, pr, query);
      if file.to == Some(DevNull) {
        continue;
      }
      allComments, sent := AnalyzeFile(file, pr, query, allComments, sent);
    }
    assert files[..|files|] == files;
  }

  /**
   * The inner loop of `analyzeDiff` over the chunks of one file that is not a
   * deletion: appends each chunk's comments to `comments` and its prompt to
   * `prompts`.
   */
  method AnalyzeFile(file: File, pr: PrInfo, query: string -> Option<seq<Review>>,
                     comments: seq<Comment>, ghost prompts: seq<string>)
    returns (allComments: seq<Comment>, ghost sent: seq<string>)
    ensures allComments == comments + ChunksComments(file, file.chunks, pr, query)
    ensures sent == prompts + ChunkPrompts(file, file.chunks, pr)
  {
    allComments, sent := comments, prompts;
    for j := 0 to |file.chunks|
      invariant allComments == comments + ChunksComments(file, file.chunks[..j], pr, query)
      invariant sent == prompts + ChunkPrompts(file, file.chunks[..j], pr)
    {
      var chunk := file.chunks[j];
      var prompt := BuildPrompt(file, chunk, pr);
      var reviews := query(prompt);
      PromptsStep(file, file.chunks, j, pr, sent, prompts);
      sent := sent + [prompt];
      CommentsStep(file, file.chunks, j, pr, query, allComments, comments);
      if reviews.Some? && |reviews.value| > 0 {
        allComments := allComments + ExtractComments(file, reviews.value);
      }
    }
    assert file.chunks[..|file.chunks|] == file.chunks;
  }

  /** The analysis of one more file adds that file's comments and prompts. */
  lemma FileStep(files: seq<File>, i: nat, pr: PrInfo, query: string -> Option<seq<Review>>)
    requires i < |files|
    ensures Analysis(files[..i + 1], pr, query) == Analysis(files[..i], pr, query) + FileComments(files[i], pr, query)
    ensures Prompts(files[..i + 1], pr) == Prompts(files[..i], pr) + FilePrompts(files[i], pr)
  {
    assert files[..i + 1][..i] == files[..i];
  }

  /** One more chunk adds its prompt to the prompts sent. */
  lemma PromptsStep(f: File, chunks: seq<Chunk>, j: nat, pr: PrInfo, sent: seq<string>, before: seq<string>)
    requires j < |chunks|
    requires sent == before + ChunkPrompts(f, chunks[..j], pr)
    ensures sent + [BuildPrompt(f, chunks[j], pr)] == before + ChunkPrompts(f, chunks[..j + 1], pr)
  {
    assert chunks[..j + 1][..j] == chunks[..j];
    AppendStep(sent, before, ChunkPrompts(f, chunks[..j], pr), [BuildPrompt(f, chunks[j], pr)]);
  }

  /** One more chunk adds the comments extracted from a non-empty answer, and nothing otherwise. */
  lemma CommentsStep(f: File, chunks: seq<Chunk>, j: nat, pr: PrInfo, query: string -> Option<seq<Review>>,
                     acc: seq<Comment>, before: seq<Comment>)
    requires j < |chunks|
    requires acc == before + ChunksComments(f, chunks[..j], pr, query)
    ensures var reviews := query(BuildPrompt(f, chunks[j], pr));
            (if reviews.Some? && |reviews.value| > 0 then acc + ExtractComments(f, reviews.value) else acc)
            == before + ChunksComments(f, chunks[..j + 1], pr, query)
  {
    assert chunks[..j + 1][..j] == chunks[..j];
    var added := ChunkComments(f, chunks[j], pr, query);
    assert ChunksComments(f, chunks[..j + 1], pr, query) == ChunksComments(f, chunks[..j], pr, query) + added;
    AppendStep(acc, before, ChunksComments(f, chunks[..j], pr, query), added);
    var reviews := query(BuildPrompt(f, chunks[j], pr));
    if !(reviews.Some? && |reviews.value| > 0) {
      assert acc + added == acc;
    }
  }

  /** `submitReview`: nothing is sent for an empty comment list; otherwise one comment-only review carrying all the comments. */
  function SubmitReview(owner: string, repo: string, pullNumber: int, comments: seq<Comment>): (request: Option<ReviewRequest>)
    ensures request.None? <==> comments == []
    ensures request.Some? ==> request.value == ReviewRequest(owner, repo, pullNumber, comments, "COMMENT")
  {
    if |comments| == 0 then None
    else Some(ReviewRequest(owner, repo, pullNumber, comments, "COMMENT"))
  }

  /**
   * The part of `run` after the diff is parsed: parse the `exclude` setting,
   * drop the excluded files, analyse the rest, and submit one review when
   * there is at least one comment. `parsed` is the diff parser's output.
   */
  method Run(pr: PrInfo, parsed: seq<File>, exclude: string,
             matches: (string, string) -> bool, query: string -> Option<seq<Review>>)
    returns (request: Option<ReviewRequest>, ghost sent: seq<string>)
    ensures var comments := Analysis(FilterFiles(parsed, ParseExclude(exclude), matches), pr, query);
            && (request.None? <==> comments == [])
            && (request.Some? ==> request.value == ReviewRequest(pr.owner, pr.repo, pr.number, comments, "COMMENT"))
    ensures sent == Prompts(FilterFiles(parsed, ParseExclude(exclude), matches), pr)
  {
    var excludePatterns := ParseExclude(exclude);
    var filteredFiles := FilterFiles(parsed, excludePatterns, matches);
    var comments;
    comments, sent := AnalyzeDiff(filteredFiles, pr, query);
    if |comments| > 0 {
      request := SubmitReview(pr.owner, pr.repo, pr.number, comments);
    } else {
      request := None;
    }
  }

  // ------------------------------------------------------------ properties

  /** The analysis of two lists of files one after the other is the two analyses one after the other. */
  lemma {:induction false} AnalysisConcat(a: seq<File>, b: seq<File>, pr: PrInfo, query: string -> Option<seq<Review>>)
    ensures Analysis(a + b, pr, query) == Analysis(a, pr, query) + Analysis(b, pr, query)
    decreases |b|
  {
    if b == [] {
      assert a + b == a;
    } else {
      var n := |b| - 1;
      var last := FileComments(b[n], pr, query);
      assert (a + b)[..|a + b| - 1] == a + b[..n];
      assert (a + b)[|a + b| - 1] == b[n];
      assert Analysis(a + b, pr, query) == Analysis(a + b[..n], pr, query) + last;
      assert Analysis(b, pr, query) == Analysis(b[..n], pr, query) + last;
      AnalysisConcat(a, b[..n], pr, query);
      AppendStep(Analysis(a + b[..n], pr, query), Analysis(a, pr, query), Analysis(b[..n], pr, query), last);
    }
  }

  /** The prompts for two lists of files one after the other are the two prompt lists one after the other. */
  lemma {:induction false} PromptsConcat(a: seq<File>, b: seq<File>, pr: PrInfo)
    ensures Prompts(a + b, pr) == Prompts(a, pr) + Prompts(b, pr)
    decreases |b|
  {
    if b == [] {
      assert a + b == a;
    } else {
      var n := |b| - 1;
      var last := FilePrompts(b[n], pr);
      assert (a + b)[..|a + b| - 1] == a + b[..n];
      assert (a + b)[|a + b| - 1] == b[n];
      assert Prompts(a + b, pr) == Prompts(a + b[..n], pr) + last;
      assert Prompts(b, pr) == Prompts(b[..n], pr) + last;
      PromptsConcat(a, b[..n], pr);
      AppendStep(Prompts(a + b[..n], pr), Prompts(a, pr), Prompts(b[..n], pr), last);
    }
  }

  /** A file whose destination is `/dev/null` adds no comment and no prompt, wherever it stands. */
  lemma DeletedFileIgnored(a: seq<File>, f: File, b: seq<File>, pr: PrInfo, query: string -> Option<seq<Review>>)
    requires f.to == Some(DevNull)
    ensures Analysis(a + [f] + b, pr, query) == Analysis(a + b, pr, query)
    ensures Prompts(a + [f] + b, pr) == Prompts(a + b, pr)
  {
    assert [f][..0] == [];
    assert Analysis([f], pr, query) == [];
    assert Prompts([f], pr) == [];
    AnalysisConcat(a, [f], pr, query);
    assert Analysis(a + [f], pr, query) == Analysis(a, pr, query);
    AnalysisConcat(a + [f], b, pr, query);
    AnalysisConcat(a, b, pr, query);
    PromptsConcat(a, [f], pr);
    assert Prompts(a + [f], pr) == Prompts(a, pr);
    PromptsConcat(a + [f], b, pr);
    PromptsConcat(a, b, pr);
  }

  /**
   * The comments, read back as reviews, are the reviews the model yielded
   * for the prompts sent, in the order they were sent: one comment per review,
   * each with its line and its text verbatim; failed and empty answers add
   * nothing.
   */
  lemma {:induction false} AnalysisReviews(files: seq<File>, pr: PrInfo, query: string -> Option<seq<Review>>)
    ensures ReviewsOf(Analysis(files, pr, query)) == FoundAll(Prompts(files, pr), query)
    decreases |files|
  {
    if files != [] {
      var init := files[..|files| - 1];
      var f := files[|files| - 1];
      AnalysisReviews(init, pr, query);
      ReviewsOfConcat(Analysis(init, pr, query), FileComments(f, pr, query));
      if !IsDeleted(f) {
        ChunksReviews(f, f.chunks, pr, query);
      }
      FoundAllConcat(Prompts(init, pr), FilePrompts(f, pr), query);
    }
  }

  lemma {:induction false} ChunksReviews(f: File, chunks: seq<Chunk>, pr: PrInfo, query: string -> Option<seq<Review>>)
    ensures ReviewsOf(ChunksComments(f, chunks, pr, query)) == FoundAll(ChunkPrompts(f, chunks, pr), query)
    decreases |chunks|
  {
    if chunks != [] {
      var init := chunks[..|chunks| - 1];
      var ch := chunks[|chunks| - 1];
      ChunksReviews(f, init, pr, query);
      ReviewsOfConcat(ChunksComments(f, init, pr, query), ChunkComments(f, ch, pr, query));
      var prompts := ChunkPrompts(f, chunks, pr);
      assert prompts[..|prompts| - 1] == ChunkPrompts(f, init, pr);
    }
  }

  lemma {:induction false} FoundAllConcat(a: seq<string>, b: seq<string>, query: string -> Option<seq<Review>>)
    ensures FoundAll(a + b, query) == FoundAll(a, query) + FoundAll(b, query)
    decreases |b|
  {
    if b == [] {
      assert a + b == a;
    } else {
      var n := |b| - 1;
      assert (a + b)[..|a + b| - 1] == a + b[..n];
      assert (a + b)[|a + b| - 1] == b[n];
      FoundAllConcat(a, b[..n], query);
    }
  }

  /**
   * A kept file with one chunk, for which the model answers with a single
   * review, is sent one prompt and yields one comment: on the file's path, at
   * the review's line, with the review's text.
   */
  lemma OneReviewOneComment(f: File, ch: Chunk, pr: PrInfo, query: string -> Option<seq<Review>>, r: Review)
    requires !IsDeleted(f) && f.chunks == [ch]
    requires query(BuildPrompt(f, ch, pr)) == Some([r])
    ensures Analysis([f], pr, query) == [Comment(PathOf(f), r.lineNumber, r.reviewComment)]
    ensures Prompts([f], pr) == [BuildPrompt(f, ch, pr)]
  {
    var own := [Comment(PathOf(f), r.lineNumber, r.reviewComment)];
    assert [f][..0] == [] && [f][0] == f;
    assert [ch][..0] == [] && [ch][0] == ch;
    assert ChunkComments(f, ch, pr, query) == ExtractComments(f, [r]) == own;
    assert ChunksComments(f, [ch], pr, query) == [] + own;
    assert Analysis([f], pr, query) == [] + FileComments(f, pr, query);
    assert ChunkPrompts(f, [ch], pr) == [] + [BuildPrompt(f, ch, pr)];
    assert Prompts([f], pr) == [] + FilePrompts(f, pr);
  }

  /** The comment lies on the path of a file of the list that is not a deletion. */
  predicate OnKeptPath(c: Comment, files: seq<File>)
  {
    exists m :: 0 <= m < |files| && !IsDeleted(files[m]) && c.path == PathOf(files[m])
  }

  predicate OnKeptPaths(cs: seq<Comment>, files: seq<File>)
  {
    forall k :: 0 <= k < |cs| ==> OnKeptPath(cs[k], files)
  }

  lemma OnKeptPathsAppend(before: seq<Comment>, init: seq<File>, own: seq<Comment>, f: File)
    requires OnKeptPaths(before, init)
    requires own != [] ==> !IsDeleted(f)
    requires forall k :: 0 <= k < |own| ==> own[k].path == PathOf(f)
    ensures OnKeptPaths(before + own, init + [f])
  {
    var files := init + [f];
    forall k | 0 <= k < |before + own|
      ensures OnKeptPath((before + own)[k], files)
    {
      if k < |before| {
        assert OnKeptPath(before[k], init);
        var m :| 0 <= m < |init| && !IsDeleted(init[m]) && before[k].path == PathOf(init[m]);
        assert (before + own)[k] == before[k];
        assert files[m] == init[m];
      } else {
        assert (before + own)[k] == own[k - |before|];
        assert files[|init|] == f;
      }
    }
  }

  /** Every comment lies on the path of a file of the list that is not a deletion. */
  lemma {:induction false} AnalysisPaths(files: seq<File>, pr: PrInfo, query: string -> Option<seq<Review>>)
    ensures OnKeptPaths(Analysis(files, pr, query), files)
    decreases |files|
  {
    if files != [] {
      var n := |files| - 1;
      var init := files[..n];
      var f := files[n];
      AnalysisPaths(init, pr, query);
      if !IsDeleted(f) {
        ChunksPaths(f, f.chunks, pr, query);
      }
      assert init + [f] == files;
      assert Analysis(files, pr, query) == Analysis(init, pr, query) + FileComments(f, pr, query);
      OnKeptPathsAppend(Analysis(init, pr, query), init, FileComments(f, pr, query), f);
    }
  }

  lemma {:induction false} ChunksPaths(f: File, chunks: seq<Chunk>, pr: PrInfo, query: string -> Option<seq<Review>>)
    ensures forall k :: 0 <= k < |ChunksComments(f, chunks, pr, query)| ==>
              ChunksComments(f, chunks, pr, query)[k].path == PathOf(f)
    decreases |chunks|
  {
    if chunks != [] {
      ChunksPaths(f, chunks[..|chunks| - 1], pr, query);
    }
  }

  /**
   * Only the prompts sent matter, and only through the reviews found for
   * them: two models that yield the same reviews for every prompt sent give
   * the same comments, whatever they answer otherwise and whether they fail
   * or answer with an empty list.
   */
  lemma {:induction false} AnalysisDependsOnSentPrompts(files: seq<File>, pr: PrInfo,
                                                        q1: string -> Option<seq<Review>>,
                                                        q2: string -> Option<seq<Review>>)
    requires forall p :: p in Prompts(files, pr) ==> Found(q1(p)) == Found(q2(p))
    ensures Analysis(files, pr, q1) == Analysis(files, pr, q2)
    decreases |files|
  {
    if files != [] {
      var init := files[..|files| - 1];
      var f := files[|files| - 1];
      assert forall p :: p in Prompts(init, pr) ==> p in Prompts(files, pr);
      AnalysisDependsOnSentPrompts(init, pr, q1, q2);
      if !IsDeleted(f) {
        assert forall p :: p in ChunkPrompts(f, f.chunks, pr) ==> p in Prompts(files, pr);
        ChunksDependOnSentPrompts(f, f.chunks, pr, q1, q2);
      }
    }
  }

  lemma {:induction false} ChunksDependOnSentPrompts(f: File, chunks: seq<Chunk>, pr: PrInfo,
                                                     q1: string -> Option<seq<Review>>,
                                                     q2: string -> Option<seq<Review>>)
    requires forall p :: p in ChunkPrompts(f, chunks, pr) ==> Found(q1(p)) == Found(q2(p))
    ensures ChunksComments(f, chunks, pr, q1) == ChunksComments(f, chunks, pr, q2)
    decreases |chunks|
  {
    if chunks != [] {
      var init := chunks[..|chunks| - 1];
      var ch := chunks[|chunks| - 1];
      assert BuildPrompt(f, ch, pr) in ChunkPrompts(f, chunks, pr);
      assert forall p :: p in ChunkPrompts(f, init, pr) ==> p in ChunkPrompts(f, chunks, pr);
      ChunksDependOnSentPrompts(f, init, pr, q1, q2);
    }
  }

  /** When the model yields no review for any prompt sent, there are no comments, so no review is submitted. */
  lemma NothingFoundNoComments(files: seq<File>, pr: PrInfo, query: string -> Option<seq<Review>>)
    requires forall p :: p in Prompts(files, pr) ==> Found(query(p)) == []
    ensures Analysis(files, pr, query) == []
  {
    var silent: string -> Option<seq<Review>> := p => None;
    AnalysisDependsOnSentPrompts(files, pr, query, silent);
    AnalysisReviews(files, pr, silent);
    SilentFindsNothing(Prompts(files, pr), silent);
  }

  lemma {:induction false} SilentFindsNothing(prompts: seq<string>, query: string -> Option<seq<Review>>)
    requires forall p :: query(p) == None
    ensures FoundAll(prompts, query) == []
    decreases |prompts|
  {
    if prompts != [] {
      SilentFindsNothing(prompts[..|prompts| - 1], query);
    }
  }
}
