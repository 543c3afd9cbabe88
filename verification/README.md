# llama-slides: the convert pipeline, modelled in Dafny

llama-slides turns loosely written speaker notes into a slide deck. The page
splits the notes into blocks at blank lines. The first block becomes a title
slide. Each later block is sent to a formatting endpoint, which asks a
language model to rewrite it as short markdown, and is shown as a slide: the
block's first line as the heading, then one text box per line of the answer.
Answers are cached under a digest of the block, so converting again does not
ask again. `src/utils/prompts.js` defines `generateSlidePrompt`, a prompt
template for one slide; the format route (`src/app/api/format/route.js`)
writes its own, shorter prompt inline and does not use it.

The project has five modules, one per file:

- `Wrappers` (`wrappers.dfy`): `Option` and `Result`.
- `Strings` (`strings.dfy`): JavaScript's `startsWith`, `indexOf`, `split`
  with a non-empty separator, and `join`. Joining the pieces of a split gives
  the input back; splitting a join does not give the pieces back when a piece
  holds the separator.
- `Prompts` (`prompts.dfy`): the prompt template of `src/utils/prompts.js`,
  with its fixed text reproduced exactly.
- `Deck` (`deck.dfy`): the slide tree `handleConvert` builds. Text boxes
  have a style (x, y, w, h as percentages of the slide, font size in points)
  and are plain text or a bullet.
- `Session` (`session.dfy`): the page state as a class `Home`, with the
  format cache (`formatCache`), the deck on display (`ppt`) and a ghost log
  of the blocks sent to the endpoint (`requests`). It also holds
  `formatWithCache` and `handleConvert`.

In `handleConvert`, `slides.map` starts the `formatWithCache` call of every
block after the first, all at once, and `Promise.all` waits for them all.
Each call computes its digest, checks the cache and, on a
miss, sends its request synchronously, before any answer is back. Answers
are then stored in the order they arrive. The model therefore splits
`formatWithCache` at its `await`:

- `Lookup` is the part before the `await`.
- `Settle` is the part after it.
- `HandleConvert` runs the `Lookup` of every block after the first in block
  order, then every `Settle` in an arrival order that is a parameter.

The endpoint's answer to each request is also a parameter: `Some(text)` for
an ok response, `None` for a failed one. The digest function (`md5` in the
source) is an abstract function field.

## Model

| member | source | states |
|---|---|---|
| Strings.IndexOf | src/app/page.tsx:49 | the result is the leftmost occurrence of the pattern, and it is None exactly when there is none |
| Strings.Split | src/app/page.tsx:49 | `split` always yields at least one piece, even for the empty string |
| Strings.SplitJoin | src/app/page.tsx:49 | joining the pieces of a split with the separator gives back the input |
| Strings.SplitPiecesFree | src/app/page.tsx:49 | no piece of a split contains the separator |
| Strings.SplitFirst | src/app/page.tsx:52 | the first piece is the input up to the leftmost separator (or all of it when there is none), it is the only piece exactly when it is the whole input, and the other pieces are the split of what follows that separator |
| Strings.StartsWith | src/app/page.tsx:79 | `startsWith` as a predicate; what the two prefix tests decide is stated by Deck.StripBulletMarker and Deck.BodyNode |
| Strings.SplitWithoutSeparator | src/app/page.tsx:77 | a string without the separator splits into itself alone |
| Deck.Blocks | src/app/page.tsx:49 | the notes give at least one block, no block holds a blank line, and the blocks rejoined with a blank line give the notes back |
| Deck.BlocksFirst | src/app/page.tsx:49 | the first block is the notes up to the leftmost blank line (or all of them), and the other blocks are the blocks of the text after that blank line |
| Deck.BlocksCons | src/app/page.tsx:49 | a first block without a newline is cut off at the first blank line, and the rest is split on its own |
| Deck.TrailingBlankBlock | src/app/page.tsx:49 | a newline-free first line followed by a blank line gives that line and an empty block |
| Deck.Lines | src/app/page.tsx:77 | an answer gives at least one line, none holds a newline, and the lines rejoined with newlines give the answer back |
| Deck.FirstLine | src/app/page.tsx:52 | the first line is a newline-free prefix of the block that is the whole block or is followed by a newline |
| Deck.FirstLineOf | src/app/page.tsx:52 | for a newline-free line followed by a newline and anything, the first line is that line |
| Deck.StripBulletMarker | src/app/page.tsx:65-67 | exactly one leading "- " is removed when present, and nothing otherwise |
| Deck.TitleSlideShape | src/app/page.tsx:55-61 | the first slide is one plain text box at (10, 20, 80, 40) in 80 pt holding the first line unstripped |
| Deck.HeadingShape | src/app/page.tsx:64-75 | a later slide's heading is a plain box at (10, 10, 80, 80) in 40 pt holding its first line with one leading "- " removed if present |
| Deck.TitleSlide | src/app/page.tsx:55-61 | builds the title slide; its shape is stated by Deck.TitleSlideShape |
| Deck.HeadingNode | src/app/page.tsx:64-75 | builds a later slide's heading; its shape is stated by Deck.HeadingShape |
| Deck.BodyStyle | src/app/page.tsx:81 | the style of body line j, (10, 25 + 10 j, 80, 65) in 20 pt; stated through Deck.BodyNode and Deck.BodyShape |
| Deck.ContentSlide | src/app/page.tsx:70-91 | builds a later slide; its shape is stated by Deck.ContentSlideShape |
| Deck.SlideAt | src/app/page.tsx:51-93 | the slide the callback returns for block `index`: the title slide for index 0, a content slide otherwise; stated by Deck.BuildSlides |
| Deck.Build | src/app/page.tsx:49-95 | the presentation for the notes given each block's answer; its shape is stated by Deck.BuildSlides and it is the deck Session.Home.HandleConvert shows |
| Deck.BodyNode | src/app/page.tsx:79-89 | line j becomes a box at y = 25 + 10 j, h 65, 20 pt, which is a bullet exactly when the line starts with "- "; a bullet holds the line without the marker, a plain box the whole line |
| Deck.Body | src/app/page.tsx:77-90 | one body node per line of the answer |
| Deck.BodyShape | src/app/page.tsx:77-90 | node j has the style for index j, is a bullet iff line j starts with "- ", and gives back line j |
| Deck.BodyRoundTrip | src/app/page.tsx:77-90 | the lines the body nodes were made from, rejoined with newlines, give the answer back |
| Deck.ContentSlideShape | src/app/page.tsx:70-91 | a later slide is its heading, then at least one body node, with y strictly increasing down the slide |
| Deck.SingleLineBody | src/app/page.tsx:77-90 | an answer without a newline gives exactly one body node |
| Deck.EmptyAnswerBody | src/app/page.tsx:77-90 | an empty answer still gives one empty plain text box |
| Deck.MarkerAnswerIsPlainText | src/app/page.tsx:77-90 | an answer that is just "NO_EXTRA_CONTENT", the marker named in the prompts.js template, is shown as one plain text box, because the builder does not look for it |
| Deck.BuildSlides | src/app/page.tsx:49-95 | one slide per block in block order; slide 0 is the title slide and slide i depends only on block i and its answer |
| Session.Home.constructor | src/app/page.tsx:14-15 | a page starts with an empty cache and no deck |
| Session.Home.Lookup | src/app/page.tsx:21-34 | a cached digest gives the cached answer with no request; otherwise the block is sent and its digest awaits an answer, and the cache does not change |
| Session.Home.Settle | src/app/page.tsx:36-43 | a failed response fails with "Failed to format content" and leaves the cache alone; an answer is stored under its digest and returned, with no other entry touched |
| Session.Home.FormatWithCache | src/app/page.tsx:21-44 | a hit returns the cached answer with no request and no change; a miss sends the block and stores a successful answer under its digest |
| Session.Home.StartCalls | src/app/page.tsx:51-68 | the lookups of one conversion, in block order, send exactly the uncached blocks after the first and leave the cache unchanged |
| Session.Home.FinishCalls | src/app/page.tsx:41-68 | once the calls settle in arrival order, the cache is the starting cache with the answers stored in that order, and each block's result is its call's outcome |
| Session.AwaitAll | src/app/page.tsx:51-93 | `Promise.all` succeeds exactly when every call did, and then gives each block's answer in block order |
| Session.Home.ConvertBlocks | src/app/page.tsx:51-93 | one conversion's calls send the uncached blocks, store the answers in arrival order, and succeed exactly when every block has an answer |
| Session.Home.HandleConvert | src/app/page.tsx:46-98 | the deck is cleared, then on success it is the deck built from each block's answer; on failure there is no deck and the error is "Failed to format content" |
| Session.StoredGrows | src/app/page.tsx:41 | storing answers never changes or removes an entry the conversion started with |
| Session.StoredKeys | src/app/page.tsx:41 | afterwards the cache holds every sent-and-answered digest, and no digest besides those and the ones it started with |
| Session.StoredConsistent | src/app/page.tsx:41-51 | when blocks sharing a digest got the same answer, arrival order does not matter: each digest holds that answer |
| Session.ConvertCachesEveryBlock | src/app/page.tsx:41-51 | after a successful conversion every block after the first has its digest cached |
| Session.AllCachedIssuesNothing | src/app/page.tsx:24-26 | a conversion whose blocks are all cached sends nothing |
| Session.ReconvertIssuesNothing | src/app/page.tsx:24-51 | converting the same notes again after a successful conversion sends no request |
| Session.NothingCachedIssuesAll | src/app/page.tsx:22-34 | requests are not deduplicated within a conversion: with nothing cached, every block after the first is sent, repeats included |
| Session.DeckFromCache | src/app/page.tsx:41-93 | when blocks sharing a digest got the same answer, the deck shows exactly what the cache holds afterwards |
| Session.DuplicateAnswersDisagree | src/app/page.tsx:41-93 | two identical blocks answered differently: the slide shows its own answer while the cache keeps the one that arrived last |
| Prompts.FillTemplate | src/utils/prompts.js:1-23 | the notes sit right after the fixed text and before the closing tag, the instructions come right before the final newline, and the length is the sum of the parts |
| Prompts.GenerateSlidePrompt | src/utils/prompts.js:1-23 | the prompt starts with the fixed instructions, the notes and the closing tag, and ends with the custom instructions and a newline |
| Prompts.ContentOfPrompt | src/utils/prompts.js:18-22 | reading the notes back out of a generated prompt gives the notes |
| Prompts.PromptLength | src/utils/prompts.js:1-23 | the prompt's length is the fixed text's length plus the notes' and the instructions' |
| Prompts.PromptInjectiveInContent | src/utils/prompts.js:19 | with the instructions fixed, different notes give different prompts |
| Prompts.PromptInjectiveInInstructions | src/utils/prompts.js:22 | with the notes fixed, different instructions give different prompts (the default is the empty string) |
| Prompts.PromptPairAmbiguous | src/utils/prompts.js:18-22 | notes and instructions that contain the closing-tag text can trade places without changing the prompt |
| Prompts.PromptMentionsMarkerAndQuotedLines | src/utils/prompts.js:6-16 | every prompt names the NO_EXTRA_CONTENT marker and the rule that lines starting with ">" are included automatically |

## Left out

- `hashContent` (md5) is an abstract function. Two blocks with equal digests share a cache entry whether or not they are equal; nothing about md5 itself is modelled.
- The HTTP request to `/api/format`, its JSON body and the `response.json()` parsing are replaced by the `responses` parameter. A successful response whose JSON lacks `formattedContent` (so `undefined` would be cached and the later `split` would throw) is not modelled. A rejected `fetch` (network error) and a failed `response.json()` are both folded into `None`, that is `Err("Failed to format content")`; the source rejects with a different error in those two cases.
- The endpoint behind `/api/format` and `/api/cleanup` (their route files) and `next.config.mjs` are not part of this model.
- The React machinery is not modelled: `useState`, `useCallback`, the textarea, `Preview`, and the rendering of the deck (`renderPptx` is imported at line 8 but never called). `rawText` is a parameter of `HandleConvert` rather than state.
- JSX nesting is flattened. `pptContent.push(array)` nests the body array inside the slide's children; the model lists the heading and the body boxes as one sequence.
- Style values are numbers. The source writes them as percentage strings (`"10%"`, `` `${25 + 10*index}%` ``).
- `console.log` output is not modelled.
- Session.Home.HandleConvert: the interleaving is fixed to "all lookups, then all settles in some order". This is what a single conversion does, because every lookup runs before the first `await` resumes. A second conversion started while one is in flight is not modelled.
- Session.Home.HandleConvert: when one call fails, `Promise.all` rejects at once and the exception is unhandled. The model still lets every other call settle and store its answer, which is what the pending fetches go on to do. It does not model the time at which the rejection is raised.
- The code does not implement the following, and the model leaves them out too:
  - no verbatim `> ` lines, speaker notes or `# ` title marker are handled;
  - the NO_EXTRA_CONTENT answer gets no special treatment;
  - there is no per-slide instruction store.
- As the code has it, and as the model keeps it:
  - positions are percentages, not inches;
  - the heading box is 80% high;
  - the cache key covers the block only, with no custom instructions.
- Prompts.PromptLength: Dafny's `string` is a sequence of Unicode scalar values, while a JavaScript string is a sequence of UTF-16 code units. So `|content|` here counts code points where JavaScript's `.length` counts code units; they differ for characters outside the Basic Multilingual Plane. The results of `split`, `startsWith` and `slice(2)` are the same in both, because every separator and marker is ASCII.
