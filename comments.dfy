/**
 * Mapping of the language model's reviews for one chunk to review comments
 * on the file (`extractComments`).
 */
module Comments {
  import opened Diff

  /** The review a comment carries: its line and its text. */
  function ReviewOf(c: Comment): Review
  {
    Review(c.line, c.body)
  }

  function ReviewsOf(cs: seq<Comment>): (rs: seq<Review>)
    ensures |rs| == |cs|
  {
    seq(|cs|, k requires 0 <= k < |cs| => ReviewOf(cs[k]))
  }

  /**
   * `extractComments(file, aiReviews)`: one comment per review, in the same
   * order, each with the review's line number and, verbatim, its text (so the
   * reviews read back from the comments), and all on the path `file.to || ""`.
   */
  function ExtractComments(f: File, reviews: seq<Review>): (cs: seq<Comment>)
    ensures ReviewsOf(cs) == reviews
    ensures forall k :: 0 <= k < |cs| ==> cs[k].path == PathOf(f)
  {
    seq(|reviews|, k requires 0 <= k < |reviews| =>
      Comment(PathOf(f), reviews[k].lineNumber, reviews[k].reviewComment))
  }

  /** Reading reviews back distributes over concatenation; it only guides the prover. */
  lemma ReviewsOfConcat(a: seq<Comment>, b: seq<Comment>)
    ensures ReviewsOf(a + b) == ReviewsOf(a) + ReviewsOf(b)
  {
  }
}
