# AI code review engine — Dafny model

A GitHub Action reviews a pull request with a language model. It parses the
pull request's diff into files and chunks. It drops the files that the
`exclude` setting names. For every chunk of every remaining file, it renders a
prompt (`buildPrompt`) and asks the model for reviews. It turns the model's
reviews into review comments on that file (`extractComments`) and gathers all
comments in one list (`analyzeDiff`). When that list is not empty, it posts one
comment-only review (`run`, `submitReview`).

This project models that core, `engine/main.go`, in Dafny and proves what it
promises:

- A prompt holds the fixed instructions, the title, the description and the
  destination path verbatim. It ends with the fenced chunk: the header line
  and then one `"<ln ?? ln2> <content>"` line per change, which reads back into
  its number and content.
- `.trim()` only strips the template's own surrounding newlines.
- Every comment carries its review's line and text verbatim, in order, on the
  path `file.to || ""`.
- The analysis is the in-order concatenation over files and chunks. A failed
  or empty answer adds nothing, and a `/dev/null` file adds neither prompts
  nor comments.
- Only the answers to the prompts actually sent matter.
- Exclude patterns are non-empty, trimmed and comma-free, in input order.
- The file filter keeps exactly the unmatched files, in order, and is
  idempotent.
- No review is submitted when there is no comment.

Modules:

- `Wrappers`: `Option`.
- `Strings`: the JavaScript string operations the core uses: `trim`,
  `split`/`join` on one character, and integer rendering, each with its
  inverse or characterisation.
- `Diff`: the data the diff parser hands over.
- `Prompt`: `buildPrompt`.
- `Comments`: `extractComments`.
- `Exclude`: the exclude setting and the filter.
- `Pipeline`: `analyzeDiff` and its specification functions, `submitReview`
  and `run`.

The network-facing parts are parameters:

- The model call, including the parsing of its JSON answer, is a function
  `query: string -> Option<seq<Review>>`. `None` stands for every answer the
  guard at `engine/main.go:127` turns away: `null` from the failure path,
  `undefined` from an answer without `reviews`, any other falsy `reviews`, and
  a truthy `reviews` whose `length` is falsy (`true`, `5`, `{}`). Like
  `Some([])`, each of these adds no comment. Being a function of the prompt
  text, `query` gives one answer per prompt: two chunks that render the same
  prompt get the same answer, whereas the real call samples at temperature 0.2
  (`engine/main.go:80`).
- The glob matcher is a function `matches(path, pattern)`.

`AnalyzeDiff` and `Run` also return a ghost `sent`: the prompts handed to the
model, in order.

The filter (`engine/main.go:174-176`) applies only the exclude patterns, to
`file.to || ""`; it does not drop files without a destination. Only
`"/dev/null"` destinations are skipped, by `analyzeDiff`
(`engine/main.go:122`). A file with no destination at all is still analysed:
its prompt names the file `"undefined"` and its comments carry the path `""`.

## Model

| member | source | states |
|---|---|---|
| Prompt.BuildPrompt | engine/main.go:47-74 | `buildPrompt`: the instructions, title line, description, file line and fenced chunk in the template's order; `BuildPromptTrimsTemplate` proves it equal to the trimmed template, and the lemmas below state its parts |
| Prompt.Label | engine/main.go:70 | the `${c.ln ?? c.ln2}` text holds neither a space nor a newline, so the first space of a change line ends it (`RenderedLineReadsBack`) |
| Prompt.RenderChange | engine/main.go:70 | one change line, `<label> <content>`; `RenderedLineReadsBack` proves it reads back into `ln ?? ln2` and the content |
| Prompt.BuildPromptTrimsTemplate | engine/main.go:47-74 | the prompt is the trimmed template literal, and trimming removes only the template's own leading and trailing newline, whatever the title, description, path and chunk contain |
| Prompt.PromptEmbedsContext | engine/main.go:58-65 | the prompt contains the title line, the description between its `---` rules, and the `Diff of file "<to>":` line with the destination path quoted verbatim |
| Prompt.PromptEndsWithChunk | engine/main.go:67-72 | the prompt ends with the `diff` fence holding the chunk header, the change lines and the closing fence |
| Prompt.RenderedLineReadsBack | engine/main.go:70 | a change line splits at its first space into a number that parses back to `ln ?? ln2` (or `undefined`, which parses to nothing) and the change's content verbatim |
| Prompt.DiffBlockReadsBack | engine/main.go:68-71 | when no header or content holds a newline, the fenced text splits into the header line and then one rendered line per change, in order |
| Comments.ExtractComments | engine/main.go:99-105 | one comment per review, in order, whose line and body read back as the review; every comment's path is `file.to \|\| ""` |
| Exclude.TrimAll | engine/main.go:171 | as many results as segments, each without surrounding whitespace |
| Exclude.TrimAllTrimsEach | engine/main.go:171 | each result is the trim of the segment at the same position: a middle slice of it with only whitespace cut from either end |
| Exclude.ParseExclude | engine/main.go:168-172 | every exclude pattern is non-empty, carries no surrounding whitespace and holds no comma |
| Exclude.ParseExcludeSegment | engine/main.go:170-172 | a comma-free setting yields its trimmed form as the only pattern, or nothing when it is blank |
| Exclude.ParseExcludeConcat | engine/main.go:168-172 | patterns keep the input order: a comma splits the setting into two independently parsed parts |
| Exclude.ParseExcludeJoin | engine/main.go:168-172 | comma-joined patterns that are non-empty, trimmed and comma-free parse back to exactly those patterns |
| Exclude.TrimKeepsOut | engine/main.go:171 | trimming a comma-free segment leaves it comma-free |
| Exclude.DropEmpty | engine/main.go:172 | `.filter(Boolean)` keeps exactly the non-empty strings |
| Exclude.Excluded | engine/main.go:175 | a file is excluded when some pattern matches its path `file.to \|\| ""`; `FilterFiles` keeps exactly the files for which it is false |
| Exclude.FilterFiles | engine/main.go:174-176 | a file is kept if and only if no pattern matches its path `file.to \|\| ""`; nothing is added |
| Exclude.FilterFilesConcat | engine/main.go:174-176 | the filter keeps the files' order: it works on the two halves of a list separately |
| Exclude.FilterFilesIdempotent | engine/main.go:174-176 | filtering twice with the same patterns is filtering once |
| Exclude.FilterFilesNoPatterns | engine/main.go:174-176 | with no patterns every file is kept |
| Pipeline.ChunkComments | engine/main.go:125-129 | a chunk adds exactly the comments extracted from the reviews found for its prompt; a failed query and an empty answer both add none |
| Pipeline.Analysis | engine/main.go:118-134 | the comment list of `analyzeDiff`, file by file; `AnalyzeDiff` is proved to return it, and `AnalysisReviews`, `AnalysisPaths`, `AnalysisConcat` and `DeletedFileIgnored` state what it holds |
| Pipeline.Prompts | engine/main.go:121-126 | the prompts `analyzeDiff` sends, in order; `AnalyzeDiff` is proved to send exactly these, and `PromptsConcat` and `DeletedFileIgnored` state what they hold |
| Pipeline.AnalyzeFile | engine/main.go:124-130 | the inner loop appends each chunk's comments and each chunk's prompt, in chunk order |
| Pipeline.AnalyzeDiff | engine/main.go:118-134 | the nested loop returns the in-order concatenation of every kept file's chunk comments and sends exactly the prompts of those chunks, in order |
| Pipeline.AnalysisConcat | engine/main.go:121-131 | the analysis of two file lists one after the other is the two analyses one after the other |
| Pipeline.PromptsConcat | engine/main.go:121-131 | the prompts for two file lists one after the other are the two prompt lists one after the other |
| Pipeline.DeletedFileIgnored | engine/main.go:122 | a `/dev/null` file anywhere in the list adds no comment and no prompt |
| Pipeline.AnalysisReviews | engine/main.go:118-134 | the comments, read back as reviews, are exactly the reviews the model yielded for the prompts sent, in sending order |
| Pipeline.AnalysisPaths | engine/main.go:101 | every comment lies on the path of a file of the list that is not a deletion |
| Pipeline.AnalysisDependsOnSentPrompts | engine/main.go:125-129 | two models that yield the same reviews for every prompt sent produce the same comments |
| Pipeline.NothingFoundNoComments | engine/main.go:127 | when the model yields no review for any prompt sent, the comment list is empty |
| Pipeline.OneReviewOneComment | engine/main.go:118-134 | a kept one-chunk file answered with one review is sent one prompt and yields one comment with the file's path and the review's line and text |
| Pipeline.SubmitReview | engine/main.go:107-116 | no request for an empty comment list; otherwise one `COMMENT` review carrying all the comments |
| Pipeline.Run | engine/main.go:166-182 | a review is submitted if and only if the analysis of the unexcluded files has comments, and it carries exactly those comments |
| Strings.Trim | engine/main.go:73 | the result has no surrounding whitespace, and an already trimmed string is unchanged |
| Strings.TrimIsInfix | engine/main.go:171 | trimming removes only whitespace, and only from the two ends |
| Strings.Split | engine/main.go:170 | `split` on one character yields at least one piece; `SplitPiecesFree`, `JoinSplit` and `SplitConcat` pin the pieces |
| Strings.Join | engine/main.go:71 | `join` on one character puts one separator between neighbours; `SplitJoin` and `JoinSplit` make it the inverse of `Split` |
| Strings.SplitPiecesFree | engine/main.go:170 | no piece of a split holds the separator |
| Strings.JoinSplit | engine/main.go:170 | joining the pieces of a split restores the string |
| Strings.SplitJoin | engine/main.go:71 | splitting a join of separator-free parts gives back the parts |
| Strings.SplitConcat | engine/main.go:170 | splitting `a + sep + b` splits `a` and `b` separately, in order |
| Strings.IntRoundTrip | engine/main.go:70 | the decimal rendering of an integer parses back to that integer |

## Left out

- The GitHub and OpenAI clients are not part of this model:
  - the pull-request fetch (`engine/main.go:15-32`);
  - the diff download and commit comparison (`engine/main.go:34-45`, `engine/main.go:142-164`);
  - the request options and the `createReview` call itself.
- `SubmitReview` returns the request it would send, and `Run` returns the request or `None`.
- The event payload, environment variables, `core.getInput`, console logging and the fatal-error exit are not modelled. `Run` starts from the parsed diff and the `exclude` setting.
- The async scheduling is not modelled. The source awaits each call before the next, and the model runs them in sequence.
- The diff parser is not part of this model. `Run` receives its output as `parsed`.
- The glob matcher's semantics are not modelled. `matches` is any function, and every filter property holds for all of them.
- `JSON.parse` and `Number(lineNumber)` are not modelled:
  - a review's `lineNumber` is taken to be an integer already;
  - an answer that is not JSON becomes `None` through the source's `catch`.
- A `reviews` array with an entry that cannot be destructured (`null`, `undefined`) is not modelled. `extractComments` (`engine/main.go:100`) then throws outside the `try`, and the run ends with exit code 1 (`engine/main.go:185-188`) without posting anything. An entry that is not an object (`5`) gives a comment with line `NaN` and no body, which is not modelled either. Each `Review` here is a well-formed record.
- An answer whose `reviews` is not an array but has a truthy `length` (a non-empty string, an object with a `length` field) is not modelled. The source then calls `map` on it, which throws or maps something other than reviews. `query` returns a list or nothing.
- Line numbers are mathematical integers. A JavaScript number is a double: from 2^53 on, `${n}` shows the shortest digits that read back to the same double, padded with zeros, and from 1e21 on it uses exponent notation. `IntToDecimal` shows every integer's exact digits.
- Strings are sequences of characters: `trim` uses the whitespace set of the ECMAScript standard, without UTF-16 surrogate details.
- `queryOpenAI`'s model parameters (temperature, token limit, response format) are not modelled. The answer's randomness is not modelled either: `query` fixes one answer per prompt text, which `AnalysisReviews` and `AnalysisDependsOnSentPrompts` rely on.
