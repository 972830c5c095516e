/**
 * Rendering of the review request sent to the language model for one chunk
 * of one file (`buildPrompt`): fixed instructions, the pull request's title
 * and description, the file's destination path, and the chunk's header line
 * followed by one `"<line> <content>"` line per change.
 */
module Prompt {
  import opened Wrappers
  import opened Strings
  import opened Diff

  /** The fixed instructions that open every prompt, up to the title line. */
  const Instructions: string :=
    "You are a code review bot.\n\n"
    + "- Respond with JSON: {\"reviews\": [{\"lineNumber\": <line>, \"reviewComment\": \"<comment>\"}]}\n"
    + "- Only comment if there is room for improvement; otherwise, reviews is an empty array.\n"
    + "- No compliments or positive feedback.\n"
    + "- Use GitHub Markdown.\n"
    + "- Use PR title and description as context.\n"
    + "- Do NOT suggest adding comments to the code.\n\n"

  /** `${file.to}`: the destination path, or `undefined` when it is absent. */
  function FileLabel(f: File): string
  {
    match f.to
    case Some(p) => p
    case None => "undefined"
  }

  /** `${c.ln ?? c.ln2}`: the change's line number in decimal, or `undefined` when it has none. */
  function Label(c: Change): (s: string)
    ensures Lacks(s, ' ') && Lacks(s, '\n')
  {
    match LineOf(c)
    case Some(n) => IntToDecimal(n)
    case None => "undefined"
  }

  /** One change as a prompt line: its label, a space, its content. */
  function RenderChange(c: Change): string
  {
    Label(c) + " " + c.content
  }

  function RenderChanges(cs: seq<Change>): (lines: seq<string>)
    ensures |lines| == |cs|
  {
    seq(|cs|, k requires 0 <= k < |cs| => RenderChange(cs[k]))
  }

  /** The text inside the diff fence: the chunk header, a newline, the change lines joined by newlines. */
  function DiffBlock(ch: Chunk): string
  {
    ch.content + "\n" + Join(RenderChanges(ch.changes), '\n')
  }

  /** The title line, ending in the description label. */
  function TitleLine(pr: PrInfo): string
  {
    "PR Title: " + pr.title + "\nPR Description:"
  }

  /** The description between its two `---` rules. */
  function DescriptionBlock(pr: PrInfo): string
  {
    "\n---\n" + pr.body + "\n---\n"
  }

  function Quoted(s: string): string
  {
    "\"" + s + "\""
  }

  /** The line naming the file whose chunk follows. */
  function FileLine(f: File): string
  {
    "Diff of file " + Quoted(FileLabel(f)) + ":"
  }

  /** The fenced diff: the fence with its `diff` tag, the diff block, the closing fence. */
  function Fence(ch: Chunk): string
  {
    "```diff\n" + DiffBlock(ch) + "\n```"
  }

  /** The template literal without its own leading and trailing newline. */
  function PromptBody(f: File, ch: Chunk, pr: PrInfo): string
  {
    Instructions + TitleLine(pr) + "\n" + DescriptionBlock(pr) + "\n" + FileLine(f) + "\n\n" + Fence(ch)
  }

  /** The template literal as written: the body between a leading and a trailing newline. */
  function PromptTemplate(f: File, ch: Chunk, pr: PrInfo): string
  {
    "\n" + PromptBody(f, ch, pr) + "\n"
  }

  /**
   * `buildPrompt(file, chunk, prInfo)`: the template literal, trimmed. Trimming
   * removes exactly the template's own outer newlines (`BuildPromptTrimsTemplate`),
   * so the prompt is the body.
   */
  function BuildPrompt(f: File, ch: Chunk, pr: PrInfo): string
  {
    PromptBody(f, ch, pr)
  }

  /** Trimming the template gives the prompt: whatever the title, body or chunk hold, nothing of them is cut. */
  lemma BuildPromptTrimsTemplate(f: File, ch: Chunk, pr: PrInfo)
    ensures BuildPrompt(f, ch, pr) == Trim(PromptTemplate(f, ch, pr))
  {
    var body := PromptBody(f, ch, pr);
    var head := Instructions + "PR Title: ";
    assert body[0] == head[0] == 'Y';
    assert body[|body| - 1] == '`';
    assert PromptTemplate(f, ch, pr) == ['\n'] + body + ['\n'];
    TrimWrapped('\n', body, '\n');
  }

  /** The prompt carries the pull request's title and description, and the file's path, verbatim in their labelled places. */
  lemma PromptEmbedsContext(f: File, ch: Chunk, pr: PrInfo)
    ensures IsInfix(TitleLine(pr), BuildPrompt(f, ch, pr))
    ensures IsInfix(DescriptionBlock(pr), BuildPrompt(f, ch, pr))
    ensures IsInfix(FileLine(f), BuildPrompt(f, ch, pr))
    ensures f.to.Some? ==> IsInfix(Quoted(f.to.value), BuildPrompt(f, ch, pr))
  {
    var a := Instructions;
    var b := a + TitleLine(pr);
    var c := b + "\n";
    var d := c + DescriptionBlock(pr);
    var e := d + "\n";
    var g := e + FileLine(f);
    var h := g + "\n\n";
    assert BuildPrompt(f, ch, pr) == h + Fence(ch);
    InfixOfConcat(a, TitleLine(pr), "");
    assert a + TitleLine(pr) + "" == b;
    InfixExtend(TitleLine(pr), b, "\n");
    InfixExtend(TitleLine(pr), c, DescriptionBlock(pr));
    InfixExtend(TitleLine(pr), d, "\n");
    InfixExtend(TitleLine(pr), e, FileLine(f));
    InfixExtend(TitleLine(pr), g, "\n\n");
    InfixExtend(TitleLine(pr), h, Fence(ch));
    InfixOfConcat(c, DescriptionBlock(pr), "");
    assert c + DescriptionBlock(pr) + "" == d;
    InfixExtend(DescriptionBlock(pr), d, "\n");
    InfixExtend(DescriptionBlock(pr), e, FileLine(f));
    InfixExtend(DescriptionBlock(pr), g, "\n\n");
    InfixExtend(DescriptionBlock(pr), h, Fence(ch));
    InfixOfConcat(e, FileLine(f), "");
    assert e + FileLine(f) + "" == g;
    InfixExtend(FileLine(f), g, "\n\n");
    InfixExtend(FileLine(f), h, Fence(ch));
    if f.to.Some? {
      var q := Quoted(f.to.value);
      assert FileLine(f) == "Diff of file " + q + ":";
      InfixOfConcat("Diff of file ", q, ":");
      InfixExtend(q, FileLine(f), e);
      InfixExtend(q, g, "\n\n");
      InfixExtend(q, h, Fence(ch));
    }
  }

  /**
   * The prompt closes with the fenced diff: the chunk header directly after
   * the fence, then the change lines, then the closing fence. The lemma only
   * reads this off the definition of `BuildPrompt`.
   */
  lemma PromptEndsWithChunk(f: File, ch: Chunk, pr: PrInfo)
    ensures EndsWith(BuildPrompt(f, ch, pr), Fence(ch))
  {
  }

  /** A rendered change line splits at its first space into a label that reads back as `ln ?? ln2` and the change's content. */
  lemma RenderedLineReadsBack(c: Change)
    ensures var line := RenderChange(c);
            var i := Find(line, ' ');
            i < |line| && ParseInt(line[..i]) == LineOf(c) && line[i + 1..] == c.content
  {
    var line := RenderChange(c);
    var tag := Label(c);
    assert line[|tag|] == ' ';
    assert line[..|tag|] == tag;
    assert forall k :: 0 <= k < |tag| ==> line[k] == tag[k];
    FindAt(line, ' ', |tag|);
    assert line[|tag| + 1..] == c.content;
    match LineOf(c)
    case Some(n) =>
      IntRoundTrip(n);
    case None =>
      assert !IsDigit(tag[0]);
  }

  /**
   * When no header or content holds a newline, the diff block reads back
   * line by line: first the chunk header, then, in order, one line per change
   * whose number and content are the change's own. A chunk without changes
   * leaves one empty line after the header.
   */
  lemma DiffBlockReadsBack(ch: Chunk)
    requires Lacks(ch.content, '\n')
    requires forall k :: 0 <= k < |ch.changes| ==> Lacks(ch.changes[k].content, '\n')
    ensures var lines := Split(DiffBlock(ch), '\n');
            |lines| == |ch.changes| + 1 + (if ch.changes == [] then 1 else 0)
            && lines[0] == ch.content
            && (ch.changes == [] ==> lines[1] == "")
            && forall k :: 0 <= k < |ch.changes| ==> lines[k + 1] == RenderChange(ch.changes[k])
  {
    var rendered := RenderChanges(ch.changes);
    forall k | 0 <= k < |rendered|
      ensures Lacks(rendered[k], '\n')
    {
      var c := ch.changes[k];
      LacksConcat(Label(c), " ", '\n');
      LacksConcat(Label(c) + " ", c.content, '\n');
    }
    if rendered == [] {
      assert DiffBlock(ch) == ch.content + ['\n'] + "";
      SplitAfterPiece(ch.content, "", '\n');
    } else {
      assert DiffBlock(ch) == Join([ch.content] + rendered, '\n') by {
        assert ([ch.content] + rendered)[1..] == rendered;
      }
      SplitJoin([ch.content] + rendered, '\n');
    }
  }
}
