/**
 * The values the review engine passes around: the parsed diff (files, chunks,
 * changes, as the diff parser hands them over), the pull-request details, the
 * language model's reviews and the review comments posted back.
 */
module Diff {
  import opened Wrappers

  /**
   * One line of a chunk. The diff parser gives an added or removed line a
   * single number `ln` and an unchanged line the pair `ln1`/`ln2`, of which
   * only the new-side number `ln2` is ever read.
   */
  datatype Change = Change(ln: Option<int>, ln2: Option<int>, content: string)

  /** A hunk: its `@@ … @@` header line and its changes in diff order. */
  datatype Chunk = Chunk(content: string, changes: seq<Change>)

  /** A file of the diff: its destination path `to` (`"/dev/null"` for a deletion, possibly absent) and its chunks. */
  datatype File = File(to: Option<string>, chunks: seq<Chunk>)

  /** What is known about the pull request; `title` and `body` are already defaulted to `""` when missing. */
  datatype PrInfo = PrInfo(owner: string, repo: string, number: int, title: string, body: string)

  /** One entry of the model's `reviews` array. */
  datatype Review = Review(lineNumber: int, reviewComment: string)

  /** One review comment as posted: the file path, the line and the text. */
  datatype Comment = Comment(path: string, line: int, body: string)

  /** The destination path the diff parser gives a deleted file. */
  const DevNull: string := "/dev/null"

  /** `file.to || ""`: the destination path, or the empty string when it is absent. */
  function PathOf(f: File): string
  {
    match f.to
    case Some(p) => p
    case None => ""
  }

  /** `c.ln ?? c.ln2`: the line number a change is shown with, absent only when both are. */
  function LineOf(c: Change): Option<int>
  {
    if c.ln.Some? then c.ln else c.ln2
  }

  /** A file whose destination is `/dev/null`, which the analysis skips. */
  predicate IsDeleted(f: File)
  {
    f.to == Some(DevNull)
  }
}
