# Verified models of the slide engine, its libraries and two blockchain programs

The repository holds a reveal.js presentation about distributed systems together with the libraries it loads, and example
programs in Go. This project models the parts with the most state and arithmetic and proves what they promise.

- **Highlighter** (`Html`, `Highlighter`, `HighlighterScanner`, `HighlighterProofs`, `HighlighterExact`,
  `HighlighterSpans`, `HighlighterRoots`, `HighlighterFuel`, `HighlighterSample`):
  highlight.js scans a text with a stack of modes. Every regular expression is an arbitrary function, so the results hold
  for every grammar. `Highlighter` is the specification, `HighlighterScanner` the object with its variables.
- **Stream merger** (`StreamMerger`): the element tags that were in a code block before highlighting are woven into the result.
- **Promises** (`PromiseModel`, `PromiseProofs`, `PromiseRuns`, `PromiseOutcomes`, `PromiseRuntime`): the promise polyfill as a
  step system over a heap of promises, with arbitrary programs as its environment, and as an object that mutates this heap.
- **Presentation** (`RevealView`, `RevealNavigation`, `RevealDirections`, `RevealHash`, `RevealFragments`, `RevealSlides`,
  `RevealDeck`, `RevealPresentation`, `Decimal`): sections and fragments with their classes and attributes are changed in place; each
  method is proved to do to the view (slide, visible groups, remembered indices) what `RevealView` says, and the theorems
  are about views.
- **marked** (`MarkedParser`, `MarkedTrees`, `Slugger`): the token parser against a direct rendering of the block tree, and
  unique heading ids.
- **Base58** (`Positional`, `Base58`), **proof of stake** (`StakeLottery`, `ProofOfStake`) and **slide splitting** (`Slidify`).

The classes `HighlighterScanner.Scanner`, `PromiseRuntime.Runtime`, `RevealPresentation.Presentation`, `MarkedTrees.Parser`,
`Slugger.Slugger` and `ProofOfStake.Network` change their fields as the sources do. Their methods are
proved against specification functions on the old state; the table lists those that say more, and one or a few of each class.

Parameters of the models: the answers of all regular expressions, the inline lexer and the renderer (`MarkedParser.Renderer`),
the hash function and the rune conversion (`ProofOfStake.Hasher`), timestamps, and the index drawn in the lottery.

Where code and documentation differ, the model follows the code:

- A highlighter mode that returns its beginning and also excludes or skips it, or does so with its end, writes that text
  twice (`HighlighterExact.ShownTwice`); the exact condition is in `HighlighterExact.LexemeExact`.
- `navigatePrev` is described as navigating backwards in the order of `navigateNext`, but a stack entered at a remembered
  index below its top is left differently (`RevealNavigation.PrevUndoesNext`).
- Heading ids are meant to be unique, but assigning to `__proto__` of an object literal makes no own property
  (`Slugger.SlugsDistinct`).
- Base58 keeps at most one leading zero byte, accepts characters outside the alphabet as -1 and panics on empty input.
- A proof-of-stake round appends a candidate without checking it against the tip (`ProofOfStake.RunLinked`), and panics
  when nobody who proposed holds a token (`ProofOfStake.DrawPanics`). Entering something that is not a number deletes the
  address, but a block with the number 0, or the bound that was exceeded, is sent nevertheless.
- An element is taken for one without a closing tag if its name contains br, hr, img or input, so `abbr` is as well
  (`StreamMerger.Node`).

Numbers are unbounded integers. The sources use them for counters, indices, token balances and arbitrary-precision integers;
overflow of a 64-bit counter or of a JavaScript number beyond 2^53 is not modelled.

## Model

| member | source | states |
|---|---|---|
| Html.ThreePasses | docs/plugin/highlight/highlight.js:2 | the escaping function is the three replacements, ampersands first |
| Html.EscapeOne | docs/plugin/highlight/highlight.js:2 | the three passes amount to one substitution per character: nothing inserted is replaced again |
| Html.EscapeConcat | docs/plugin/highlight/highlight.js:2 | escaping is a homomorphism, so text may be escaped piece by piece |
| Html.EscapeHasNoTag | docs/plugin/highlight/highlight.js:2 | escaped text holds no angle bracket |
| Html.UnescapeEscape | docs/plugin/highlight/highlight.js:2 | escaping loses nothing |
| Html.StripRender | docs/plugin/highlight/highlight.js:2 | on the rendered string, dropping the tags leaves exactly the character data |
| Html.ReadBackRender | docs/plugin/highlight/highlight.js:2 | reading tags and text back from the rendered string gives the spans with their classes and the texts between them |
| HighlighterProofs.KeywordsSound | docs/plugin/highlight/highlight.js:2 | wrapping keywords keeps the text and adds balanced spans, for any lexeme and keyword oracle |
| HighlighterProofs.FlushInv | docs/plugin/highlight/highlight.js:2 | flushing the buffer, also through a sub-language, keeps: tags erased from the output, then the escaped buffer, equal the escaped text consumed, and the open spans are the named modes on the stack |
| HighlighterProofs.BeginInv | docs/plugin/highlight/highlight.js:2 | beginning a mode keeps this |
| HighlighterProofs.EndInv | docs/plugin/highlight/highlight.js:2 | ending modes, and starting the one that `starts` names, keeps this |
| HighlighterProofs.LexemeInv | docs/plugin/highlight/highlight.js:2 | so does every lexeme; what it consumes is the part of it that the scan moves past |
| HighlighterProofs.RoundInv | docs/plugin/highlight/highlight.js:2 | so does every round of the scanning loop, which also stays in step with the text |
| HighlighterProofs.ScanSound | docs/plugin/highlight/highlight.js:2 | a scan from any state with this invariant ends with balanced spans around exactly the escaped text |
| HighlighterProofs.HighlightSound | docs/plugin/highlight/highlight.js:2 | for every grammar, text and continuation a finished run has balanced spans; they show exactly the input if, in the language and those it embeds, on the chains of modes that runs can build, no mode duplicates and an empty match begins or ends something |
| HighlighterProofs.HighlightAutoSound | docs/plugin/highlight/highlight.js:2 | the same for automatic choice of the language |
| HighlighterProofs.AutoPicksBest | docs/plugin/highlight/highlight.js:2 | automatic highlighting yields a language of highest relevance, the first such, or plain text if none scores |
| HighlighterExact.PageShowsInput | docs/plugin/highlight/highlight.js:2 | for such a language, what a browser shows of the value is the input, character for character |
| HighlighterExact.LexemeExact | docs/plugin/highlight/highlight.js:2 | a lexeme is shown exactly once if and only if the flags and the empty-lexeme condition of `ShownOnce` hold |
| HighlighterExact.ShownTwice | docs/plugin/highlight/highlight.js:2 | a mode that both excludes and returns its beginning shows that text twice |
| HighlighterExact.DuplicatedText | docs/plugin/highlight/highlight.js:2 | a concrete grammar that turns "a" into "aa" |
| HighlighterRoots.ScanKeeps | docs/plugin/highlight/highlight.js:2 | a scan keeps the outermost mode, and each mode on the stack, or remembered for a sub-language, is contained in the one below or was started by such a mode |
| HighlighterRoots.HighlightRooted | docs/plugin/highlight/highlight.js:2 | the modes a run leaves open form such a chain from the outermost mode of its language, so resuming them opens their spans again and ends |
| HighlighterSample.SampleIsFaithful | docs/plugin/highlight/highlight.js:2 | a grammar with end-less numbers, comments to the end of the line, and settings whose values end with them meets the condition, though empty matches occur inside its modes |
| HighlighterSample.SampleShowsInput | docs/plugin/highlight/highlight.js:2 | so everything highlighted in it is shown as it is |
| HighlighterFuel.HighlightMore | docs/plugin/highlight/highlight.js:2 | one more unit of the step budget changes no finished run |
| HighlighterFuel.BudgetIrrelevant | docs/plugin/highlight/highlight.js:2 | any two budgets that let a run finish agree on its result |
| HighlighterSpans.KeywordsMarked | docs/plugin/highlight/highlight.js:2 | of the words that the lexeme expression finds one after the other, exactly the keywords stand in spans, each of its class and behind exactly the text before it; the relevance gained is the sum of theirs |
| HighlighterSpans.FlushWraps | docs/plugin/highlight/highlight.js:2 | a flush in a mode with keywords marks them so; a sub-language stands in a span; everything else is plain |
| HighlighterSpans.FlushEmbeds | docs/plugin/highlight/highlight.js:2 | an embedded language is resumed where it was left, stands in a span of its name, counts only if its mode does, and where it is left now is remembered |
| HighlighterSpans.BeginPlaces | docs/plugin/highlight/highlight.js:2 | of a beginning lexeme, the text stands before the span of its mode, inside it, or is read again, as excluding, returning and skipping say |
| HighlighterSpans.EndPlaces | docs/plugin/highlight/highlight.js:2 | of an ending lexeme, inside, behind, or read again; one span is closed for each named mode that ends, their relevance is gained, and the mode that follows is begun |
| HighlighterSpans.Resumes | docs/plugin/highlight/highlight.js:2 | a continued run begins in the modes left open, their spans open again and nothing shown |
| HighlighterSpans.BeginsFirst | docs/plugin/highlight/highlight.js:2 | a lexeme begins the first contained mode whose beginning matches it |
| HighlighterSpans.EndsExactly | docs/plugin/highlight/highlight.js:2 | which modes a lexeme ends: if and only if one is ended by it, those above end with it, and it takes its parents along |
| HighlighterSpans.IllegalExactly | docs/plugin/highlight/highlight.js:2 | when a lexeme is illegal, exactly |
| HighlighterSpans.GivenUp | docs/plugin/highlight/highlight.js:2 | a text is shown plain, without relevance, only if illegal lexemes matter |
| HighlighterScanner.Scanner.FindEnd | docs/plugin/highlight/highlight.js:2 | the loops find the mode that a lexeme ends, through parents that end with it |
| HighlighterScanner.Scanner.PopModes | docs/plugin/highlight/highlight.js:2 | the popping loop closes exactly the spans of the modes that leave and adds their relevance |
| HighlighterScanner.Scanner.Run | docs/plugin/highlight/highlight.js:2 | the scanning loop, with its variables updated in place, refines the specification that the invariant is proved of |
| HighlighterScanner.RunKeywords | docs/plugin/highlight/highlight.js:2 | the keyword loop finds all words, puts exactly the keywords into spans of their classes, and adds up their relevance |
| HighlighterScanner.RunHighlight | docs/plugin/highlight/highlight.js:2 | highlighting with its fallback for illegal lexemes refines its specification |
| HighlighterScanner.RunHighlightAuto | docs/plugin/highlight/highlight.js:2 | so does the loop over languages |
| StreamMerger.PromisedStretch | docs/plugin/highlight/highlight.js:2 | between two events all characters stand inside the same elements |
| StreamMerger.CloseAll | docs/plugin/highlight/highlight.js:2 | closing the highlighted spans leaves the original elements open |
| StreamMerger.OpenAll | docs/plugin/highlight/highlight.js:2 | opening them again restores the stack |
| StreamMerger.MergeOriginals | docs/plugin/highlight/highlight.js:2 | all original events at one offset are written with no highlighted span open around them |
| StreamMerger.Merge | docs/plugin/highlight/highlight.js:2 | the merge of two well-nested streams ends; its output is well nested, holds every character once, in order, inside exactly the elements that each stream puts around it; its original tags, each at its offset in the text, are the original stream; it opens a highlighted span and closes it at once exactly as often as the stream itself does |
| StreamMerger.MergedPageShowsText | docs/plugin/highlight/highlight.js:2 | the rendered merge shows exactly the text |
| PromiseProofs.SettleInv | docs/lib/js/promise.js:2 | settling keeps the invariant: waiting reactions are queued once each, in order (Promises/A+ 2.1.2, 2.1.3) |
| PromiseProofs.AdoptInv | docs/lib/js/promise.js:2 | adopting keeps it: the list moves, in order, behind what already waits at the end of the chain (2.3.2) |
| PromiseProofs.RegisterInv | docs/lib/js/promise.js:2 | `then` keeps it, on a promise in any state |
| PromiseRuns.DoInv | docs/lib/js/promise.js:2 | every action of any program keeps it, and undoes no settling |
| PromiseRuns.RunInv | docs/lib/js/promise.js:2 | so it holds all along every run |
| PromiseRuns.RunStable | docs/lib/js/promise.js:2 | once not pending, a promise keeps state and value for the rest of the run |
| PromiseRuns.OnePlace | docs/lib/js/promise.js:2 | the deferred of each `then` is in exactly one place: one position of one pending list, or one position of the queue, hence runs at most once (2.2.2.3, 2.2.3.3) |
| PromiseRuns.CallbacksInOrder | docs/lib/js/promise.js:2 | reactions registered on one promise are queued in order of registration, wherever adoptions moved them (2.2.6) |
| PromiseRuns.ReactionSeesOutcome | docs/lib/js/promise.js:2 | a queued reaction is for the settled end of its promise's chain, and the promise it answers for is pending |
| PromiseRuns.NeverSynchronous | docs/lib/js/promise.js:2 | in every run a job that has not started starts in a later step, at a time when no callback is running (2.2.4) |
| PromiseRuns.PassedOn | docs/lib/js/promise.js:2 | without a callback the derived promise gets the same state and value (2.2.7.3, 2.2.7.4) |
| PromiseRuns.UnhandledReported | docs/lib/js/promise.js:2 | a rejection is reported by its check exactly if no reaction to it was queued by then |
| PromiseOutcomes.DoEffect | docs/lib/js/promise.js:2 | what each operation leaves: the state and value of its target by the kind of value (2.3), which of the two callbacks a job starts (2.2.2, 2.2.3), what passes on without one (2.2.7), once-only resolving functions, the deferred of `then`; no other promise changes state or value |
| PromiseOutcomes.RejectionNoticed | docs/lib/js/promise.js:2 | at any time of any run, a reaction to each rejected promise has been queued, or the check that reports it |
| PromiseRuns.CycleNeverEnds | docs/lib/js/promise.js:2 | closing a cycle of adoptions, which the code does not refuse, makes the loop that follows them endless; this is exactly what the runs exclude |
| PromiseRuntime.Runtime.Handle | docs/lib/js/promise.js:2 | a deferred goes to the end of the chain of adoptions, found by the loop, or to the queue |
| PromiseRuntime.Runtime.Finale | docs/lib/js/promise.js:2 | draining a list hands every deferred on, in order |
| PromiseRuntime.Runtime.Resolve | docs/lib/js/promise.js:2 | the resolution procedure refines the step that the invariant is proved of: data, a promise, a foreign thenable, a throwing getter, or itself |
| PromiseRuntime.Runtime.Then | docs/lib/js/promise.js:2 | `then` makes one promise and registers one deferred |
| PromiseRuntime.Runtime.ResolveCall | docs/lib/js/promise.js:2 | only the first call of a pair of resolving functions counts |
| PromiseRuntime.Runtime.NextJob | docs/lib/js/promise.js:2 | the host starts the next job: `onFulfilled` with the value of a fulfilled promise, `onRejected` with the reason of a rejected one, or the check |
| PromiseRuntime.Runtime.EndJob | docs/lib/js/promise.js:2 | a callback's result settles the derived promise |
| RevealView.BoundedMeaning | docs/js/reveal.js:3154-3164 | the index settled on is the Euclidean remainder when looping, else the index clamped |
| RevealFragments.RankOrder | docs/js/reveal.js:4600-4645 | numbering keeps order and grouping of the author's indices; fragments without one come last, one by one, in document order |
| RevealFragments.RanksContiguous | docs/js/reveal.js:4600-4645 | the new indices have no gaps |
| RevealFragments.NumberedStays | docs/js/reveal.js:4600-4645 | numbering what is numbered changes nothing |
| RevealFragments.RanksNumbered | docs/js/reveal.js:4600-4645 | numbering is idempotent |
| RevealFragments.CollectGroups | docs/js/reveal.js:4608-4622 | the groups by index, and the fragments without one, each in document order |
| RevealFragments.SortFragments | docs/js/reveal.js:4600-4645 | every fragment gets its rank; all fragments are listed, in order of revelation |
| RevealDeck.VisibleNumbered | docs/js/reveal.js:4725-4740 | the visible fragments of a slide, its leading groups, are numbered by themselves |
| RevealDeck.SortAll | docs/js/reveal.js:4600-4645 | on a numbered slide sorting changes no attribute |
| RevealDeck.LastVisible | docs/js/reveal.js:4725-4740 | sorting the visible fragments alone changes no attribute and finds the last visible group |
| RevealDeck.Reveal | docs/js/reveal.js:4657-4712 | each fragment is shown up to the index and marked at it; a change is reported exactly if a fragment was shown or hidden |
| RevealDeck.RevealShows | docs/js/reveal.js:4657-4712 | after it the visible fragments are again leading groups, the last marked; something changed exactly if their number did |
| RevealPresentation.Presentation.constructor | docs/js/reveal.js:643-697 | start on a deck as the author wrote it: all fragments numbered, the first slide shown, the invariant established |
| RevealPresentation.Presentation.VisiblePrefix | docs/js/reveal.js:3190-3214 | in every reachable state the visible fragments are a prefix of reading order, and renumbering all or only the visible ones changes no index |
| RevealPresentation.Presentation.OnePresent | docs/js/reveal.js:3152-3219 | in every reachable state exactly one first-level section is present and, in the whole deck, at most one vertical slide; the others are past or future by their place, mirrored in a right-to-left deck |
| RevealPresentation.Presentation.SortAllFragments | docs/js/reveal.js:3095-3111 | every slide is numbered |
| RevealPresentation.Presentation.ResetVerticalSlides | docs/js/reveal.js:3070-3089 | all vertical slides but the first are future |
| RevealPresentation.Presentation.UpdateFragmentsTo | docs/js/reveal.js:4657-4712 | the current slide shows the groups up to the index, clamped |
| RevealPresentation.Presentation.NavigateFragment | docs/js/reveal.js:4725-4774 | the last visible group, or the given one, moves by the offset, clamped; the result says whether anything changed |
| RevealPresentation.Presentation.UpdateFragments | docs/js/reveal.js:4657-4712 | refreshing changes nothing visible |
| RevealPresentation.Presentation.UpdateHorizontal | docs/js/reveal.js:3143-3237 | classes and fragments of the first level after a change of slide |
| RevealPresentation.Presentation.UpdateVertical | docs/js/reveal.js:3143-3237 | the same within the present stack |
| RevealPresentation.Presentation.GetPreviousVerticalIndex | docs/js/reveal.js:2411-2422 | the author's start index, else the remembered one |
| RevealPresentation.Presentation.Remember | docs/js/reveal.js:2844-2848 | a stack that is left remembers its index |
| RevealPresentation.Presentation.UpdateSlides | docs/js/reveal.js:2860-2879 | indices in range, and classes right except for the slide that was left |
| RevealPresentation.Presentation.Slide | docs/js/reveal.js:2827-2970 | `slide` leads to the view that the view-level specification says, and keeps the invariant |
| RevealPresentation.Presentation.FinishSlide | docs/js/reveal.js:2885-2970 | the slide that was left loses its mark, nothing visible changes, and coming back to the first section queues the timeout in which stacks forget |
| RevealPresentation.Presentation.RemovePresent | docs/js/reveal.js:2893-2899 | the slide that was left loses its mark, which restores one present slide |
| RevealPresentation.Presentation.AvailableRoutes | docs/js/reveal.js:3889-3924 | the routes, mirrored in a right-to-left deck |
| RevealPresentation.Presentation.NavigateLeft | docs/js/reveal.js:4908-4921 | refines the view-level step, in either writing direction |
| RevealPresentation.Presentation.NavigateRight | docs/js/reveal.js:4923-4938 | the same |
| RevealPresentation.Presentation.NavigateUp | docs/js/reveal.js:4940-4947 | the same |
| RevealPresentation.Presentation.NavigateDown | docs/js/reveal.js:4949-4958 | the same |
| RevealPresentation.Presentation.LastPassed | docs/js/reveal.js:4966-4992 | the last section behind the current one, found by class, is the one before it |
| RevealPresentation.Presentation.NavigatePrev | docs/js/reveal.js:4966-4992 | refines the view-level step |
| RevealPresentation.Presentation.NavigateNext | docs/js/reveal.js:4997-5025 | refines the view-level step |
| RevealPresentation.Presentation.Forget | docs/js/reveal.js:2900-2913 | every stack forgets its index |
| RevealPresentation.Presentation.GetSlidePastCount | docs/js/reveal.js:4190-4228 | the count is the rank of the current slide |
| RevealPresentation.Presentation.GetTotalSlides | docs/js/reveal.js:4460-4464 | the number of leaf slides |
| RevealPresentation.Presentation.GetProgress | docs/js/reveal.js:4236-4263 | progress lies in [0,1] and in the slot of the current slide; without visible fragments it is the share of slides passed, with all of them 0.9 of a slide more; it is undefined only for a single slide |
| RevealPresentation.Presentation.CurrentFragmentIndex | docs/js/reveal.js:4410-4421 | the index reported, marked or counted, reaches exactly the visible groups |
| RevealPresentation.Presentation.GetState | docs/js/reveal.js:4542-4554 | a snapshot reports the view |
| RevealPresentation.Presentation.SetState | docs/js/reveal.js:4562-4579 | a snapshot of any view, set in any other view, shows it again |
| RevealPresentation.Presentation.LocationHash | docs/js/reveal.js:2628-2658 | the hash of the view |
| RevealPresentation.Presentation.ReadUrl | docs/js/reveal.js:4280-4335 | reading a hash moves only if it names another slide or a fragment |
| RevealNavigation.PositionInjective | docs/js/reveal.js:4997-5025 | no two stops share a position in document order |
| RevealDirections.Sidestep | docs/js/reveal.js:4908-4938 | left and right, in both writing directions, grid and loop or not: by one stop in document order while fragments are left on that side, else to the neighbouring section, all or none of its fragments shown, or nowhere; a route is offered exactly if there is a neighbour |
| RevealDirections.Upright | docs/js/reveal.js:4940-4958 | the same up and down within a stack |
| RevealDirections.Forwards | docs/js/reveal.js:4997-5025 | next, in every configuration: by a fragment, down its stack, else sideways |
| RevealDirections.Backwards | docs/js/reveal.js:4966-4992 | previous, in every configuration: by a fragment, up its stack, else to the end of the section before |
| RevealDirections.PrevRetreats | docs/js/reveal.js:4966-4992 | without looping each previous makes exactly the stop before in document order, until there is none, whatever stacks remember |
| RevealDirections.NamedFragment | docs/js/reveal.js:4725-4774 | a fragment that is named is gone to as if the viewer stood there |
| RevealDirections.GoesTo | docs/js/reveal.js:2827-2970 | going to given indices, in range or not, with or without a fragment |
| RevealNavigation.NextAdvances | docs/js/reveal.js:4997-5025 | without looping each next makes exactly the following stop, until there is none, in either writing direction |
| RevealNavigation.NextVisitsEachOnce | docs/js/reveal.js:4997-5025 | from a fresh deck, n nexts show a stop exactly if n is its position, or it is the last; so every slide and group is visited once, in document order, and it ends after groups + slides - 1 changes |
| RevealNavigation.PrevUndoesNext | docs/js/reveal.js:4966-5025 | previous undoes a next that changed something if and only if that stayed in the slide or stack, or entered the next stack at its top |
| RevealNavigation.PrevMayNotUndoNext | docs/js/reveal.js:4966-5025 | a deck walked from its start, where it does not |
| RevealNavigation.SnapshotRestores | docs/js/reveal.js:4542-4579 | slide, stack index and visible fragments come back, also when no fragment is marked current |
| RevealNavigation.SnapshotRestoresAfter | docs/js/reveal.js:4542-4579 | after any run of actions |
| RevealNavigation.PastCountIsRank | docs/js/reveal.js:4190-4228 | the past count orders the slides as the document does and stays below their number |
| RevealHash.HashNumerals | docs/js/reveal.js:2628-2658 | the hash holds numerals of the indices, counted from 0 or from 1, as far as needed, and of the fragment, counted from 0 |
| RevealHash.HashRoundTrip | docs/js/reveal.js:2628-2658 | reading a printed hash gives back the indices, one-based or not, and the fragment if it is part of the URL |
| RevealHash.HashRestores | docs/js/reveal.js:4280-4335 | a hash read in any other view leads to its slide, and with fragments in the URL to its fragments |
| Decimal.ParseShow | docs/js/reveal.js:4318-4322 | a printed integer is read back |
| MarkedParser.ParsesIffBalanced | docs/plugin/markdown/marked.js:6 | parsing succeeds if and only if every closing token closes the innermost open container and all are closed |
| MarkedTrees.JoinsSiblings | docs/plugin/markdown/marked.js:6 | a run of text tokens is joined by newlines and consumed as a whole |
| MarkedTrees.TokRenders | docs/plugin/markdown/marked.js:6 | `tok` consumes exactly one block and renders it |
| MarkedTrees.ItemOfLines | docs/plugin/markdown/marked.js:6 | lines of text in an item: a paragraph in a loose list, bare in a tight one, behind the checkbox of a task |
| MarkedTrees.BodyRenders | docs/plugin/markdown/marked.js:6 | a container's loop renders its content and stops at its own closing token |
| MarkedTrees.ParseRendersTree | docs/plugin/markdown/marked.js:6 | `parse` on the tokens of any block tree consumes them all and equals the direct rendering of the tree by the renderer's functions: quotations, lists, items tight or loose, tasks with their checkbox, adjacent texts joined |
| MarkedTrees.Parser.ReadBody | docs/plugin/markdown/marked.js:6 | the loop of a container, which pops tokens off the reversed list, refines its specification, errors included |
| MarkedTrees.Parser.Run | docs/plugin/markdown/marked.js:6 | the parser object refines `parse` |
| Slugger.Search | docs/plugin/markdown/marked.js:6 | the search ends, at the first free number after the counter |
| Slugger.SlugIsLeastFree | docs/plugin/markdown/marked.js:6 | an id is the heading itself or its least-numbered free variant, whatever the counters |
| Slugger.RepeatedId | docs/plugin/markdown/marked.js:6 | the id of a repeated heading is the heading, a dash, and a numeral that reads as the least number not taken |
| Slugger.SlugsDistinct | docs/plugin/markdown/marked.js:6 | the ids of one slugger are pairwise distinct if and only if at most one heading comes out as `__proto__` |
| Slugger.SharedId | docs/plugin/markdown/marked.js:6 | two headings `__proto__` get the same id |
| Slugger.Slugger.Slug | docs/plugin/markdown/marked.js:6 | each call yields a name that was free, and takes it unless it is `__proto__` |
| Positional.DigitsOfValue | 比特币教程/Golang实现比特币/最终版代码/base58.go:14-23 | writing out a numeral's value drops its leading zeros and nothing else |
| Base58.DecodeEncode | 比特币教程/Golang实现比特币/最终版代码/base58.go:11-52 | decoding an encoding gives the bytes with their leading zeros cut to at most one |
| Base58.DecodeEncodeExact | 比特币教程/Golang实现比特币/最终版代码/base58.go:11-52 | so it gives them back if and only if not more than one leading byte is zero |
| Base58.AlphabetChars | 比特币教程/Golang实现比特币/最终版代码/base58.go:9 | the alphabet holds the letters and digits except 0, O, I and l |
| Base58.KnownEncoding | 比特币教程/Golang实现比特币/最终版代码/base58.go:11-33 | the bytes 1, 0 are written 5R |
| Base58.OutsideIsMinusOne | 比特币教程/Golang实现比特币/最终版代码/base58.go:36-52 | a single character outside the alphabet decodes to the byte 1 |
| Base58.ZerosLost | 比特币教程/Golang实现比特币/最终版代码/base58.go:11-52 | two zero bytes come back as one |
| Base58.EncodeDecode | 比特币教程/Golang实现比特币/最终版代码/base58.go:11-52 | encoding a decoding gives the text back if and only if it is in the alphabet with at most one leading 1 |
| Base58.EncodeCollides | 比特币教程/Golang实现比特币/最终版代码/base58.go:11-33 | two inputs share an encoding if and only if they agree once leading zeros are cut |
| Base58.EncodedLength | 比特币教程/Golang实现比特币/最终版代码/base58.go:11-33 | n bytes take at most 11 n / 8 characters, rounded up |
| Base58.ReverseBytes | 比特币教程/Golang实现比特币/最终版代码/utils.go:21-25 | the array is reversed in place |
| Base58.Base58Encode | 比特币教程/Golang实现比特币/最终版代码/base58.go:11-33 | the division loop ends with the base-58 digits of the number that the bytes are; empty input panics |
| Base58.Base58Decode | 比特币教程/Golang实现比特币/最终版代码/base58.go:36-52 | the accumulating loop computes the specification, which counts a character outside the alphabet as -1; empty input panics |
| StakeLottery.PoolCount | 共识算法/proof-of-stake/main.go:100-132 | each address stands in the pool max(stake, 0) times if it proposed and is registered, else not at all, however often it proposed |
| StakeLottery.Chances | 共识算法/proof-of-stake/main.go:134-135 | of the equally likely draws a validator wins as many as it has tokens |
| StakeLottery.FirstBy | 共识算法/proof-of-stake/main.go:137-149 | a winner's block is its first proposal |
| StakeLottery.LotteryPool | 共识算法/proof-of-stake/main.go:100-132 | the nested loops build that pool |
| StakeLottery.FindFirst | 共识算法/proof-of-stake/main.go:137-149 | the loop finds that block |
| ProofOfStake.GenerateBlock | 共识算法/proof-of-stake/main.go:268-283 | a generated block is valid on its parent, with the timestamp, number and address given |
| ProofOfStake.HashCoversRecord | 共识算法/proof-of-stake/main.go:237-266 | valid blocks share a hash if and only if index, timestamp, number and previous hash run together to the same record, or records collide; the validator can be exchanged |
| ProofOfStake.TipPinsChain | 共识算法/proof-of-stake/main.go:237-266 | two linked chains of one length whose tips share their hash agree in every hash and record, unless two of their blocks collide |
| ProofOfStake.DrawPanics | 共识算法/proof-of-stake/main.go:94-135 | a draw panics if and only if somebody proposed but nobody who did holds a token |
| ProofOfStake.EmptyPool | 共识算法/proof-of-stake/main.go:94-135 | a run that ends so |
| ProofOfStake.DrawAppends | 共识算法/proof-of-stake/main.go:94-154 | any other draw ends the round, and if somebody proposed appends exactly one block: of the proposals of the address drawn, which holds a token, the first |
| ProofOfStake.StepLinked | 共识算法/proof-of-stake/main.go:94-154 | a step keeps the chain index- and hash-linked if and only if the block it appends was built on the current tip |
| ProofOfStake.RunLinked | 共识算法/proof-of-stake/main.go:94-154 | after any run the chain is linked if and only if every block appended on the way was built on the tip of its time |
| ProofOfStake.ChainLinked | 共识算法/proof-of-stake/main.go:51-57 | in particular from the genesis block |
| ProofOfStake.QuietRunLinked | 共识算法/proof-of-stake/main.go:66-74 | it is linked whenever no block is in the channel when one is appended |
| ProofOfStake.StaleCandidate | 共识算法/proof-of-stake/main.go:137-149 | a run whose second round appends a block built before the first |
| ProofOfStake.Network.EnterGarbage | 共识算法/proof-of-stake/main.go:196-214 | garbage deletes the address, yet a block is built and sent all the same |
| ProofOfStake.Network.PickWinner | 共识算法/proof-of-stake/main.go:94-154 | one round on the shared variables is a snapshot, a draw and a clearing, or panics at the draw |
| Slidify.InterleaveRestores | docs/plugin/markdown/markdown.js:139-172 | contents and separators, taken in turn, are the text again |
| Slidify.AddPlaces | docs/plugin/markdown/markdown.js:145-168 | a content is added as the last slide, in the place that the separators so far determine |
| Slidify.PushContent | docs/plugin/markdown/markdown.js:145-164 | the pushes of one round amount to that |
| Slidify.SplitSections | docs/plugin/markdown/markdown.js:130-172 | every separator is found, each from the end of the one before until there is none; the slides hold exactly the texts between them, in order; each stands in the column and row counted off the separators before it; no stack holds a single slide |
| Slidify.SharedColumn | docs/plugin/markdown/markdown.js:139-172 | two slides share a stack if and only if all separators between them are vertical |

## Left out

Highlighter and merger:

- Highlighter.Highlight: is partial, because arbitrary modes need not let the scan end; it takes a step budget, and `BudgetIrrelevant` shows that the budget decides nothing else.
- HighlighterProofs.HighlightSound: says nothing of a run in which the outermost mode is ended; the original then goes on with a mode that has no parent, or reads a property of `undefined`, and the model reports `RootEnded`.
- HighlighterScanner.RunKeywords: an empty match of the lexeme expression ends the search for keywords, while the original loops for ever on it.
- HighlighterProofs.ScanSound: the text is kept on the condition `Faithful`; where an empty match neither begins nor ends a mode, as with an expression for illegal text that matches the empty string while illegal text is ignored, the original drops a character (`HighlighterExact.LexemeExact`).
- StreamMerger.Merge: takes events, not DOM trees, and assumes that the highlighted stream has no void elements; the attributes of original tags are given as text.
- Compiling grammars, the second-best language, tab replacement, and finding code blocks on the page.

Promises:

- PromiseRuns.DoInv: excludes closing a cycle of adoptions, which the code does not detect; `CycleNeverEnds` shows what would happen.
- PromiseRuntime.Runtime.Resolve: leaves a foreign object's `then` method to the environment, which may call the resolving functions at any time.
- `all`, `race`, `finally` and `catch`, which are built on `then`, and a scheduler that throws.
- The promises are cells of one heap held in a sequence, not separate objects; the fields `place`, `owner` and `depth` are bookkeeping.

Presentation:

- RevealPresentation.Presentation.constructor: the deck has at least one section, fragments stand in leaf slides, and the author's fragment indices are natural numbers.
- RevealPresentation.Presentation.Slide: fragments enabled, no overview, no printing, no events, no state classes on the document; its origin argument is left out.
- RevealPresentation.Presentation.ReadUrl: the hash of an unnamed slide; slides found by their id are left out, as is the parsing of white space other than blanks, tabs and line breaks.
- RevealNavigation.NextVisitsEachOnce: without looping, grid navigation and author-given start indices, with which the deck is not walked in document order.
- Layout, backgrounds, media, touch and keyboard input, auto-sliding, the shuffle and plugin loading.

marked:

- MarkedTrees.ParseRendersTree: a table is one token that the renderer is given whole, and the inline lexer is a function with a state.
- Slugger.Slugger.Slug: takes the heading lower-cased, trimmed and stripped of punctuation; a lower-cased name is never `hasOwnProperty`.
- The block lexer and the grammar of inline text.

Go programs and slide splitting:

- ProofOfStake.Network.PickWinner: one round without interleaving; interleavings are the runs of the step system, in which the pool is built in one step.
- Connections, announcements, the printing loop and the pauses of proof of stake; blocks read from the channel in any order.
- Slidify.SplitSections: separators never match the empty string, on which the original loops for ever; turning sections into HTML, notes and attributes is left out.
- Delegated proof of stake, whose domain is fixed and finite; the remaining command-line, storage and contract configuration code.
- Raft and PBFT, of which the repository holds only utilities.
