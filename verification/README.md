# Kenjutsu: proofs about the review pipeline

Kenjutsu reviews pull requests. This project models the parts of it that decide something: how a
unified diff becomes hunks and how a hunk finds its enclosing scope, how findings are published
without duplicates across crashes, how bursts of webhook events are debounced, how a review learns
that its commit is stale, how calls are rate limited, how newer reviews supersede older ones, and
how an evaluation matches findings with annotations and aggregates the result.

Code that works step by step is modelled by methods and classes with the same loops, branches and
fields; each is proved to compute a specification function, and the laws are proved about those
functions, over all inputs, all runs or all interleavings.

| part | files |
|---|---|
| text: line splitting, stripping, numerals | `Text.dfy` |
| diff: vocabulary, parser, documents, round trip, composition, patch semantics | `DiffModel.dfy`, `DiffParser.dfy`, `DiffDocument.dfy`, `DiffFiles.dfy`, `DiffRoundTrip.dfy`, `DiffComposition.dfy`, `DiffPatch.dfy` |
| scope search | `ScopeSearch.dfy` |
| publisher: protocol, safety, convergence | `Publisher.dfy`, `PublisherSafety.dfy`, `PublisherConvergence.dfy` |
| debounce: manager on its loop, whole-run safety, nothing lost | `Debounce.dfy`, `DebounceSafety.dfy`, `DebounceProgress.dfy` |
| head guard: one check, interleaved checks | `ShaGuard.dfy`, `ShaGuardCoherence.dfy` |
| rate limiter, registry, supersession | `RateLimiter.dfy`, `SupersessionRegistry.dfy`, `Supersession.dfy` |
| evaluation: matching, metrics | `Matching.dfy`, `Metrics.dfy` |

`dafny verify dfyconfig.toml` checks everything.

## Main results

- **What diffs can express** (`DiffRoundTrip.ParseImageIff`): some text parses to a list of patches
  if and only if every patch is clean (hunks numbered consecutively, sections trimmed, everything on
  single lines, no hunks in binary files), and each clean list can be written and parsed back
  (`DiffRoundTrip.ParseWriteIff`). Beneath it, `DiffFiles.ParseDocument` covers every diff document:
  omitted counts, leading zeros, `\ No newline` markers and unknown lines anywhere, `/dev/null`
  sides, renames, binary files, extended header lines.
- **A parsed diff applies** (`DiffPatch.ParsedDiffApplies`): written from any list of changed files,
  each new, deleted, renamed or edited by any script, and parsed back, each patch shows the slices it
  names, turns the old file into the new one, and reversed the new one into the old one.
- **The pruned scope search is exact** (`ScopeSearch.SearchIsExact`), and for any text at all the
  attached scope covers the hunk's new lines (`ScopeSearch.ScopeCoversHunk`).
- **Publishing is safe under crashes and outside deletions** (`PublisherSafety.AtMostOneExtraPerCrash`,
  `PublisherSafety.PostsAreBounded`). After any history, one undisturbed call returns, shows the
  bodies of the day (`PublisherConvergence.UndisturbedCallConverges`), and repeating it changes
  nothing (`PublisherConvergence.RepublishChangesNothing`).
- **Debouncing reviews only the latest event of a burst** (`DebounceSafety.InvokedOnlyAfterQuietPeriod`,
  `DebounceSafety.InvokedOnlyIfLatest`), never loses that event (`DebounceProgress.LatestIsInHand`),
  and its in-flight slots are right exactly when no cancelled task unwinds while its key's slot is
  taken again (`DebounceSafety.SlotsExactIff`).
- **The head guard's verdicts are recent truth** over all interleavings: each rests on one request
  of the run whose sending, serving and receipt are actions in that order
  (`ShaGuardCoherence.VerdictsAreRecent`), and the exit guard's on a request of the call itself
  (`ShaGuardCoherence.ExitVerdictsAreFresh`).
- **Every window of the rate limiter is bounded** (`RateLimiter.EveryWindowIsBounded`), not only those
  that end at a call.
- **Greedy matching is maximal and at least half-optimal**, sharply (`Matching.GreedyIsHalfOptimal`,
  `Matching.GreedyCanLoseHalf`), and what it returns is read off the one-to-one matching in which the
  first match wins (`Matching.GreedyIsMatching`).

## Where the code and its documentation differ

The model follows the code. Each difference has an exact condition.

- `kenjutsu/pipeline/publisher.py:285-287` clears the id map when a deleted review is recreated, so
  that every finding gets a fresh comment. The fallback at line 295 still finds the old id, so a
  finding gets a fresh comment exactly when it had no live one (`PublisherConvergence.FreshCommentIff`,
  with the concrete run `PublisherConvergence.RecreatedReviewKeepsComment`).
- `kenjutsu/server/debounce.py:162` pops the key's slot whoever holds it. The slot of a successor is
  lost exactly when a cancelled task unwinds while the key's slot is taken again
  (`DebounceSafety.SlotsExactIff`); that is reachable and leads to two active tasks of one key
  (`DebounceSafety.LateUnwindIsReachable`, `DebounceSafety.LateUnwindLosesATask`).
- `kenjutsu/pipeline/supersession.py:9-10` documents a uniqueness constraint that still counts failed
  reviews, while `is_canonical` does not. A new review keeps the constraint exactly when no failed
  review of the same commit is there (`Supersession.SubmitKeepsDbUniqueIff`).
- The form git prints does not carry every patch that a diff can express. A path that only the
  `diff --git` line carries must be non-empty and have no inner ` b/` (`DiffRoundTrip.GitLineIff`),
  and a binary file must have both paths or none; `DiffRoundTrip.ParsePrintIff` says that these are
  the only losses. In any form, a hunk line must not contain one of the separators of
  `str.splitlines` (`Text.SplitUnlinesIff`).

## Model

| member | source | states |
|---|---|---|
| Text.CharacterCodes | kenjutsu/diff/parser.py:133-137 | The characters at which `splitlines` ends a line and those `strip` removes, by their code points. |
| Text.SplitUnlinesIff | kenjutsu/diff/parser.py:137 | Joining lines with newlines and splitting the text again gives the lines back if and only if no line contains one of the separators of `splitlines`. |
| Text.SplitLinesConcatIff | kenjutsu/diff/parser.py:137 | Two texts are split independently of each other if and only if one is empty or a line ends between them, without cutting a `\r\n` in two. |
| Text.StripPadding | kenjutsu/diff/parser.py:51 | Stripping a section header removes padding on both sides and nothing of a trimmed text. |
| Text.ParsePrintNat | kenjutsu/diff/parser.py:47-50 | Reading the decimal numeral of a number gives the number. |
| DiffModel.NumberedPositions | kenjutsu/diff/models.py:24-30 | In a consecutively numbered hunk the number of a line is its start plus the count of lines before it on that side, and the line's content sits at that place of the side's view; a line absent on a side has no number there. |
| DiffModel.AdditionsCount | kenjutsu/diff/models.py:114-116 | Additions are counted hunk by hunk, and in a hunk they are the number of its added lines. |
| DiffParser.ParseHunks | kenjutsu/diff/parser.py:37-118 | The nested loops with one cursor and two counters compute the recursive reading of hunks: each header, then body lines up to the next header or file. |
| DiffParser.ParseFile | kenjutsu/diff/parser.py:146-195 | The header loop, which stops at `+++` and at a binary marker, with the rename override, computes the recursive reading of one file block. |
| DiffParser.OmissionKeeps | kenjutsu/diff/parser.py:203-220 | The recursive omission keeps exactly these, at strictly increasing positions: renames, binary files and files with removals only stay, with their fields. |
| DiffParser.ApplyDeletionOmission | kenjutsu/diff/parser.py:203-220 | The pass yields, in order, exactly the patches without an old path or with a new one, with the same paths and binary flag, each with exactly those of its hunks, in order, that have an added line. |
| DiffParser.ParseDiff | kenjutsu/diff/parser.py:121-200 | Collecting header positions and reading each block between two of them yields the recursive reading of the lines, blank text included; without deletions, exactly the files and hunks of that reading which the omission pass keeps. |
| DiffDocument.MatchHeaderText | kenjutsu/diff/parser.py:25 | Every hunk header text is recognised with its starts, its counts (an omitted one means 1) and its trimmed section, whatever the leading zeros and padding. |
| DiffDocument.MarkerIsIgnored | kenjutsu/diff/parser.py:99-105 | Any line starting with a backslash is an ignored body line, so `\ No newline` markers may stand anywhere in a hunk. |
| DiffDocument.ReadBodyTexts | kenjutsu/diff/parser.py:53-105 | The lines of a hunk body are read as what they show, numbered from both starts, ignored lines skipped, and reading stops where the body ends. |
| DiffDocument.ReadHunkTexts | kenjutsu/diff/parser.py:41-118 | The lines of a series of hunks are read as those hunks, however they are spelled. |
| DiffFiles.StripSide | kenjutsu/diff/parser.py:28-34 | A `---` or `+++` line gives its path, and `/dev/null` no path. |
| DiffFiles.ReadFileTexts | kenjutsu/diff/parser.py:146-195 | The lines of one file document give its patch: sides, renames over sides, binary marker, hunks, unknown header lines ignored. |
| DiffFiles.ParseDocument | kenjutsu/diff/parser.py:121-200 | Parsing the text of any list of file documents gives exactly the patches they stand for. |
| DiffRoundTrip.ReadBodyNumbered | kenjutsu/diff/parser.py:53-105 | For any lines at all, the numbers of a parsed hunk body run consecutively from the starts. |
| DiffRoundTrip.ParsedPatchesAreClean | kenjutsu/diff/parser.py:121-200 | For any text, malformed included, every parsed patch is clean: hunks numbered consecutively, sections trimmed, paths and contents on single lines, no hunks in binary files. |
| DiffRoundTrip.ParseWriteIff | kenjutsu/diff/parser.py:121-200 | Parsing the written diff of any list of patches gives the list back if and only if every patch is clean. |
| DiffRoundTrip.ParseImageIff | kenjutsu/diff/parser.py:121-200 | Some text parses to a list of patches if and only if every patch is clean: the exact image of the parser. |
| DiffRoundTrip.MatchHeaderIff | kenjutsu/diff/parser.py:25 | A line is read as a hunk header with given numbers and section if and only if it is the text of such a header. |
| DiffRoundTrip.EndsBodyIff | kenjutsu/diff/parser.py:60-65 | A hunk body ends at a line if and only if the line is the text of a hunk header or starts with `diff --git`. |
| DiffRoundTrip.FileHeaderIff | kenjutsu/diff/parser.py:140 | A line starts another file if and only if its first ten characters are `diff --git` and a space follows. |
| DiffRoundTrip.LinesBeforeHunks | kenjutsu/diff/parser.py:41-45 | Whatever lines stand before the first hunk header do not count. |
| DiffRoundTrip.MatchGitPathsIff | kenjutsu/diff/parser.py:157-162 | A line gives a pair of paths if and only if it is the `diff --git` line of that pair and can carry it. |
| DiffRoundTrip.GitLineIff | kenjutsu/diff/parser.py:157-162 | The `diff --git` line alone gives back a pair of paths if and only if both are non-empty and the new one has no inner ` b/`. |
| DiffRoundTrip.PrintedFileIff | kenjutsu/diff/parser.py:146-195 | A clean patch printed as a file block in the form of git reads back as itself if and only if that form carries it whole. |
| DiffRoundTrip.ParsePrintIff | kenjutsu/diff/parser.py:121-200 | Parsing the diff that git prints for any list of patches gives the list back if and only if that form carries every one whole. |
| DiffComposition.ReadDiffConcat | kenjutsu/diff/parser.py:140-200 | For any lines followed by lines that begin with a file header, the patches are those of each part. |
| DiffComposition.ParseConcat | kenjutsu/diff/parser.py:121-220 | The same for whole texts, the first ending in any line separator, with deletions kept or omitted. |
| DiffComposition.KeepAdditionsLaws | kenjutsu/diff/models.py:71-74 | Dropping the deletion-only hunks keeps the number of additions, drops exactly those hunks, and does nothing the second time. |
| DiffComposition.OmissionLaws | kenjutsu/diff/parser.py:203-220 | The omission pass is idempotent, keeps the additions over non-deleted files, and leaves neither a deleted file nor a deletion-only hunk. |
| DiffPatch.ApplyScript | kenjutsu/diff/parser.py:41-118 | Applying the hunks of an edit script to the file it edits gives the edited file, zero-count hunks included. |
| DiffPatch.HunkViewsAreSlices | kenjutsu/diff/models.py:57-80 | The old and new views of each hunk of a script are the slices of the old and new file that its starts and counts name. |
| DiffPatch.ReverseScriptHunks | kenjutsu/diff/models.py:24-30 | Swapping the sides of a script's hunks gives the hunks of the reversed script. |
| DiffPatch.ParsedDiffApplies | kenjutsu/diff/parser.py:121-200 | Written from any list of changed files (new, deleted, renamed, any edit script, any section headers) and parsed back, each patch has its paths, its hunks show the slices of both files that they name, and applied to the old file they give the new one, reversed the old one. |
| DiffPatch.PrintedDiffApplies | kenjutsu/diff/parser.py:121-200 | The same for the form git prints, where the hunks always survive and the whole patch if and only if it is printable. |
| ScopeSearch.FindInnermostScope | kenjutsu/diff/ast_context.py:264-305 | The recursive search with its pruning and its loop over children computes the recursive specification of the search. |
| ScopeSearch.SearchIsExact | kenjutsu/diff/ast_context.py:264-305 | On every well-nested tree, with kinds and rows written out: the pruned search finds nothing only if no node of a listed kind spans both rows; otherwise it finds such a node of least size, with no such node below it, and of these the first in the text. |
| ScopeSearch.OutsideIsPruned | kenjutsu/diff/ast_context.py:279-281 | A subtree whose root lies outside the rows is not entered, whatever is below it. |
| ScopeSearch.FoundScopeContains | kenjutsu/diff/ast_context.py:276-305 | On any tree, nested or not, a node that is found is of a listed kind and spans both rows. |
| ScopeSearch.HunkRowsAreTheLineRange | kenjutsu/diff/ast_context.py:366-369 | The row conversion is the hunk's inclusive line range shifted to count from 0, and its first row is not after its last, for count 0 too. |
| ScopeSearch.ScopeLines | kenjutsu/diff/ast_context.py:314-323 | A line lies in the attached scope if and only if its row lies in the node, and the scope is of the node's kind. |
| ScopeSearch.ExtendHunks | kenjutsu/diff/ast_context.py:430-437 | In place, every hunk of a file gets the scope found for its own rows, keeps the one it has if none is found, and nothing else of it changes. |
| ScopeSearch.NewLinesInRangeIff | kenjutsu/diff/models.py:76-80 | The numbered new lines of a consecutively numbered hunk stay within `new_line_range` if and only if there are at most as many as the range has lines. |
| ScopeSearch.ScopeCoversHunk | kenjutsu/diff/ast_context.py:308-323 | For any parsed text, if a hunk's new count is the number of its new-side lines, every numbered new line lies within the attached scope's lines. |
| Publisher.HeadGuardStops | kenjutsu/pipeline/publisher.py:249-267 | If the head has moved on, the call does not return, changes neither the record nor what was ever posted, and leaves every comment and review that outsiders do not delete as it was. |
| Publisher.EnsureGitHubReview | kenjutsu/pipeline/publisher.py:271-288 | The review step computes its specification: create when unknown, update when known, recreate and clear the local map when gone, with a flush after each new id; the finding rows stay, and a live call knows the review. |
| Publisher.PublishFinding | kenjutsu/pipeline/publisher.py:293-319 | The loop body computes its specification: post, note and flush, or patch, or recreate, note and flush, then mark published; the rows of other findings stay. |
| Publisher.MapComesFirst | kenjutsu/pipeline/publisher.py:295 | The id map is asked for a comment id first, and the finding's own row only when the map does not know the finding. |
| Publisher.NewCommentIsRecorded | kenjutsu/pipeline/publisher.py:299-306 | Once a new comment is posted and flushed, the durable record holds its id in the finding's row and in the id map, together with all the other rows. |
| Publisher.RecreatedCommentKeepsFlag | kenjutsu/pipeline/publisher.py:309-318 | A comment recreated after a failed update is flushed with the published flag the finding had; the finding is marked published only in memory, for the next flush. |
| Publisher.PublishReview | kenjutsu/pipeline/publisher.py:186-330 | The whole call, cut short at any await, computes its specification on the durable record and the remote store; with a moved head it does not return and records and posts nothing. |
| PublisherSafety.PublishKeeps | kenjutsu/pipeline/publisher.py:269-323 | A call with outside deletions and a crash at any await keeps the invariant: everything live is recorded or was left behind by a lost call, recorded ids belong to their findings, any id-map entry agrees with the finding's row. |
| PublisherSafety.AtMostOneExtraPerCrash | kenjutsu/pipeline/publisher.py:5-11 | Over every history, the live comments of a finding are at most one plus the comments of that finding posted and lost before their flush; likewise for reviews; and the posts of a finding are at most one more than its deleted and lost comments. |
| PublisherSafety.PostsAreBounded | kenjutsu/pipeline/publisher.py:242-319 | Over every history, total comment posts are at most publishable findings plus deletions plus crashes, and no live comment belongs to another finding. |
| PublisherConvergence.PublishConverges | kenjutsu/pipeline/publisher.py:186-330 | From every world the invariant allows, a call that returns with nothing deleted meanwhile leaves the review live, every publishable finding published under a recorded id of a live comment with this call's body, whatever it was before, and no comment for other findings. |
| PublisherConvergence.PublishReturns | kenjutsu/pipeline/publisher.py:186-330 | If no await is lost, three awaits for each finding and five more are enough for the call to return, whatever is deleted meanwhile. |
| PublisherConvergence.UndisturbedCallConverges | kenjutsu/pipeline/publisher.py:5-11 | After any history of calls with any comment bodies, deletions and crashes, one undisturbed call returns and converges to the bodies it was given. |
| PublisherConvergence.FreshCommentIff | kenjutsu/pipeline/publisher.py:281-295 | A finding gets a comment id never posted before if and only if it had no live comment, and the id map covers it if and only if it got a fresh one or was in a map that was not cleared. |
| PublisherConvergence.RecreatedReviewKeepsComment | kenjutsu/pipeline/publisher.py:285-295 | A concrete run in which the review is recreated, the old comment is kept, and the id map ends up empty. |
| PublisherConvergence.RepublishChangesNothing | kenjutsu/pipeline/publisher.py:5-11 | Once converged, a further call with nothing deleted posts nothing and leaves record, remote store and posting history unchanged, whether it returns or is lost. |
| Debounce.DebounceManager.CancelPendingTimer | kenjutsu/server/debounce.py:121-127 | Takes the pending step, and answers whether a timer was pending. |
| Debounce.DebounceManager.CancelInFlightTask | kenjutsu/server/debounce.py:129-135 | Takes the in-flight step, and answers whether a task held the slot. |
| Debounce.DebounceManager.ScheduleReview | kenjutsu/server/debounce.py:68-94 | Is the next step of the run: cancels both for the key, which then has no slot and one live timer, due one quiet period from now. |
| Debounce.DebounceManager.Cancel | kenjutsu/server/debounce.py:96-105 | Is the next step of the run: leaves the key neither pending nor in flight, and answers whether it was either. |
| Debounce.DebounceManager.FireTimer | kenjutsu/server/debounce.py:137-146 | Is the next step of the run: moves the key from pending to in-flight with a new task for the timer. |
| Debounce.DebounceManager.StartTask | kenjutsu/server/debounce.py:148-155 | Is the next step of the run: a task cancelled before it ends without invoking its factory, any other invokes it. |
| Debounce.DebounceManager.FinishTask | kenjutsu/server/debounce.py:148-162 | Is the next step of the run: the finally clause pops the key's slot, whoever holds it. |
| DebounceSafety.RunIsSafe | kenjutsu/server/debounce.py:83-162 | In every reachable state pending and in-flight keys are disjoint, the live timers are exactly the pending ones, and each slot holds an unfinished task that was not cancelled. |
| DebounceSafety.SlotsExactIff | kenjutsu/server/debounce.py:129-162 | Along a run the un-cancelled unfinished task of each key is always exactly the one in its slot if and only if no cancelled task unwinds while its key's slot is taken again. |
| DebounceSafety.AtMostOneActiveTask | kenjutsu/server/debounce.py:83-162 | Under that condition a key never has two active tasks. |
| DebounceSafety.LateUnwindLosesATask | kenjutsu/server/debounce.py:161-162 | From every safe state, a late unwinding followed by a schedule and a firing leaves two active tasks of one key. |
| DebounceSafety.LateUnwindIsReachable | kenjutsu/server/debounce.py:161-162 | For every key there is a run that ends in a late unwinding. |
| DebounceSafety.InvokedOnlyAfterQuietPeriod | kenjutsu/server/debounce.py:83-146 | A factory is invoked only after its timer was scheduled and fired at least the quiet period later with no schedule or cancel of its key in between. |
| DebounceSafety.InvokedOnlyIfLatest | kenjutsu/server/debounce.py:83-162 | When cancelled tasks unwind in time, there is no schedule or cancel of the key between the firing and the invocation either. |
| DebounceSafety.CancelledTaskNeverInvokes | kenjutsu/server/debounce.py:129-155 | A task cancelled before its first step never invokes its factory, however the run goes on. |
| DebounceSafety.CreatedTaskNotInvoked | kenjutsu/server/debounce.py:137-155 | In every reachable state a task that has not taken its first step has not invoked its factory. |
| DebounceProgress.LatestIsInHand | kenjutsu/server/debounce.py:68-162 | In every reachable state, late unwindings included, if the latest event of a key is a schedule, then its timer is live, or its task waits uncancelled for its first step, or its factory was invoked. |
| DebounceProgress.AtMostOneInvocation | kenjutsu/server/debounce.py:137-155 | Each schedule leads to at most one invocation: two invocations for the same timer are the same one. |
| ShaGuard.Guard.CheckShaCurrent | kenjutsu/pipeline/sha_guard.py:78-156 | An entry younger than five seconds decides without a request; otherwise the retry loop answers the first decisive outcome, makes at most 3 requests, sleeps 1 and 2 seconds between them, and writes the cache only for that outcome. |
| ShaGuard.Guard.ExitGuard | kenjutsu/pipeline/sha_guard.py:174-190 | The same with the entry evicted first, so at least one request is made. |
| ShaGuard.VerdictIff | kenjutsu/pipeline/sha_guard.py:119-153 | A check answers current, or stale, if and only if some outcome decides so and all before it were server or network errors. |
| ShaGuard.CheckIff | kenjutsu/pipeline/sha_guard.py:119-153 | By statuses, whatever entry was found: a check answers current, or stale, if and only if the first response that is neither a server nor a network error is a 200 with the expected, or another, commit, or a 304 while the stale entry holds the expected, or another, commit. |
| ShaGuard.RequestsIff | kenjutsu/pipeline/sha_guard.py:119-153 | The last request is the one that got the first such response, or the last attempt if none did. |
| ShaGuard.CacheIff | kenjutsu/pipeline/sha_guard.py:123-136 | By statuses: a 200 enters its commit and etag, a 304 enters the stale entry's again, both dated now, and anything else leaves the cache alone. |
| ShaGuard.SentEtagIff | kenjutsu/pipeline/sha_guard.py:107-112 | The etag that is sent is the stale entry's, unless it has none or an empty one. |
| ShaGuard.ExitGuardIff | kenjutsu/pipeline/sha_guard.py:189-190 | The exit guard answers current, or stale, if and only if the first response that is neither a server nor a network error is a 200 with the expected, or another, commit. |
| ShaGuardCoherence.BeginCheckIff | kenjutsu/pipeline/sha_guard.py:94-98 | In the interleaved machine, a check answers at once if and only if its entry is younger than five seconds, by comparing commits, and asks otherwise. |
| ShaGuardCoherence.ReceiveReplyIff | kenjutsu/pipeline/sha_guard.py:119-153 | In the interleaved machine, by statuses: what a reply answers or whether it retries, and what it writes to the cache. |
| ShaGuardCoherence.RunIsCoherent | kenjutsu/pipeline/sha_guard.py:59-156 | Over all interleavings of checks, pushes, replies, losses and evictions, every cache entry and every running check is backed by a head that was seen by the request behind it. |
| ShaGuardCoherence.CachedCommitsWereHeads | kenjutsu/pipeline/sha_guard.py:70-75 | Behind every cached commit is one request of some check: sent by an action of the run, served later when the commit was the true head, and received later still, at the time the entry is dated. |
| ShaGuardCoherence.VerdictsAreRecent | kenjutsu/pipeline/sha_guard.py:95-136 | Behind every current or stale answer is one such request, and the answer is true of the head it read, less than the time to live plus the duration of that request before the answer. |
| ShaGuardCoherence.ExitVerdictsAreFresh | kenjutsu/pipeline/sha_guard.py:174-190 | Every current or stale answer of the exit guard rests on a request of that very call, sent no earlier in the run than the action that started it. |
| RateLimiter.AdmitsIff | kenjutsu/pipeline/queue.py:147-155 | A call is admitted by the specification if and only if the positions of the history in the half-open period up to now are fewer than the allowed calls. |
| RateLimiter.EveryWindowIsBounded | kenjutsu/pipeline/queue.py:144-155 | With a clock that does not go back, every half-open window of one period, anywhere in time, holds at most the allowed number of admitted calls. |
| RateLimiter.QueueRefinesHistory | kenjutsu/pipeline/queue.py:144-155 | Evicting, comparing the length and appending admits a call if and only if the full history of admitted calls has room in the window that ends now. |
| RateLimiter.Limiter.Acquire | kenjutsu/pipeline/queue.py:144-155 | The deque loop admits a call if and only if fewer than the allowed number of admitted calls lie in the period up to now, adds exactly the admitted ones to the history, and never holds more than the allowed number of entries. |
| SupersessionRegistry.Registry.RegisterReview | kenjutsu/pipeline/queue.py:181-189 | Issues a fresh unset event, sets the previous event of the key, and keeps dictionary, superseded set and all issued events equal to those of the trace. |
| SupersessionRegistry.Registry.CompleteReview | kenjutsu/pipeline/queue.py:191-194 | Drops the key's event without setting it, and clears its superseded mark. |
| SupersessionRegistry.Registry.IsCancelled | kenjutsu/pipeline/queue.py:196-202 | True if and only if the key was registered at least twice since its last completion. |
| SupersessionRegistry.CancelledIff | kenjutsu/pipeline/queue.py:181-202 | Over every trace, a key is in the superseded set if and only if it was registered at least twice since its last completion, and has an event if and only if at least once. |
| SupersessionRegistry.TraceLaw | kenjutsu/pipeline/queue.py:181-194 | The event of a registration is set if and only if the next operation on its key is a registration, and is the key's current event if and only if there is none. |
| SupersessionRegistry.AtMostOneActive | kenjutsu/pipeline/queue.py:163-194 | If only the current holder completes, at most one review of a key is active with an unset event. |
| Supersession.SupersedeRowIff | kenjutsu/pipeline/supersession.py:42-49 | On the fields: only a queued, processing or complete review of the pull request with another id becomes superseded, by the new one; every other review, aborted and failed ones included, keeps all its fields. |
| Supersession.SupersedePreviousReviews | kenjutsu/pipeline/supersession.py:22-49 | In place, exactly the canonical reviews of the pull request other than the new one become superseded by it, each once, even if the list repeats a review. |
| Supersession.CanonicalForIff | kenjutsu/pipeline/supersession.py:76-81 | On the fields: the search looks for a queued, processing or complete review of exactly this repository, number and commit. |
| Supersession.FirstCanonicalIff | kenjutsu/pipeline/supersession.py:75-83 | The search finds the first canonical review of the triple, and none if and only if there is none. |
| Supersession.EnsureUniqueCanonical | kenjutsu/pipeline/supersession.py:52-83 | The loop returns that very review object. |
| Supersession.CanonicalIsNewest | kenjutsu/pipeline/supersession.py:22-83 | Over every run a pull request has at most one canonical review, and it is its newest. |
| Supersession.SupersededByIsFinal | kenjutsu/pipeline/supersession.py:42-49 | Once written, a superseded-by link never changes and its review is never canonical again, however the run goes on. |
| Supersession.Latest | kenjutsu/pipeline/supersession.py:42-49 | Following the links from any review terminates, only ever at a later review of the same pull request that nothing superseded. |
| Supersession.LinksEnd | kenjutsu/pipeline/supersession.py:42-49 | The review where the links end does not have status superseded and is no newer than the canonical one. |
| Supersession.SubmitKeepsDbUniqueIff | kenjutsu/pipeline/supersession.py:9-10 | A submission that creates a review keeps the documented constraint if and only if no failed review of the same triple exists. |
| Supersession.FailedReviewBreaksDbUnique | kenjutsu/models/reviews.py:18-20 | A concrete failed review after which resubmitting the same commit breaks the documented constraint. |
| Matching.OverlapIff | kenjutsu/evaluation/runner.py:189-205 | For proper ranges, overlapping with a tolerance means that some line of one is within the tolerance of some line of the other. |
| Matching.MatchFindings | kenjutsu/evaluation/runner.py:208-248 | The nested loops with append and pop compute the recursive greedy classification. |
| Matching.ClassifyAccounts | kenjutsu/evaluation/runner.py:226-248 | True and false positives interleave in order to the produced findings, missed is a subsequence of expected, and every annotation is matched or missed. |
| Matching.GreedyIsMaximal | kenjutsu/evaluation/runner.py:226-248 | No false positive is compatible with any missed annotation. |
| Matching.GreedyIsMatching | kenjutsu/evaluation/runner.py:226-248 | The true positives are, in order, the findings paired by a one-to-one matching of compatible pairs in which the first match wins, the false positives the unpaired ones, and missed the annotations it leaves out. |
| Matching.MatchesByFields | kenjutsu/evaluation/runner.py:232-240 | On the fields: paired findings and annotations have the same file and category and ranges at most five lines apart; a false positive and a missed annotation differ in one of the three. |
| Matching.MatchesShareLines | kenjutsu/evaluation/runner.py:189-205 | For proper ranges, some line of a paired finding lies within five of some line of its annotation; for no false positive and missed annotation of the same file and category does it. |
| Matching.GreedyIsHalfOptimal | kenjutsu/evaluation/runner.py:226-248 | No one-to-one matching has more than twice as many pairs as there are true positives. |
| Matching.GreedyCanLoseHalf | kenjutsu/evaluation/runner.py:226-248 | A concrete case with one true positive and a matching of size two, so the factor is sharp. |
| Metrics.RunEval | kenjutsu/evaluation/runner.py:333-384 | One result per case, in corpus order, each with its case's findings, annotations and latency and the greedy classification of its own case. |
| Metrics.ConfidenceCounts | kenjutsu/evaluation/runner.py:282-285 | Counting findings by confidence is additive, and a single finding counts if and only if its confidence is among the levels. |
| Metrics.TotalsConcat | kenjutsu/evaluation/runner.py:268-285 | Every total is additive over the results. |
| Metrics.TotalsOfOne | kenjutsu/evaluation/runner.py:268-285 | The totals of one result are the sizes of its lists. |
| Metrics.TotalsAddUp | kenjutsu/evaluation/runner.py:268-271 | Over all results, true and false positives add up to the produced findings, and true positives and missed to the expected ones. |
| Metrics.AcceptedRateHolds | kenjutsu/evaluation/runner.py:268-279 | The reported totals are those of the results; the accepted-finding rate is a proportion, times the expected findings it is the accepted ones, it is 0 if nothing was expected, and 1 if and only if something was expected and nothing was missed. |
| Metrics.FalsePositiveRatesHold | kenjutsu/evaluation/runner.py:281-287 | Both false-positive rates are proportions, times the produced findings they are the false positives of their confidence levels, they are 0 if nothing was produced, and the verified one is at most the high-confidence one. |
| Metrics.SortedIsOrdered | kenjutsu/evaluation/runner.py:292 | Sorting the latencies gives a list of the same length in ascending order. |
| Metrics.SortedCounts | kenjutsu/evaluation/runner.py:292 | Sorting changes no count of values at most, or below, any bound. |
| Metrics.PercentilesHold | kenjutsu/evaluation/runner.py:289-294 | For every number of results, more than 95 percent of the latencies are at most P95 and at most 95 percent are below it, at least half are at most P50 and at most half below it, and P50 is at most P95. |
| Metrics.MedianIsMiddle | kenjutsu/evaluation/runner.py:291 | P50 is the middle value, or lies midway between the two middle ones. |
| Metrics.LatencyAt | kenjutsu/evaluation/runner.py:290 | There is one latency for each result, in seconds. |

## Left out

- HTTP, authentication, JSON and SQL: an awaited request or flush is a nondeterministic outcome (done, lost before or lost after taking effect).
- The start of `publish_review` that loads the review and its repository, with its lookup errors; findings and record are parameters of a call. The text of a comment body is an opaque string.
- Publisher.PublishReview: works on values; the database session and its rows are a record passed along, so aliasing of row objects is not captured. The caller's commit counts as one more checkpoint, and an HTTP error other than 404 counts as a lost call.
- The findings of a review and their publishability are fixed over a history; comment bodies may differ from call to call.
- Tree-sitter, language tables, names and signatures: the search runs on an arbitrary tree, and a scope keeps only its node's type and its lines. The patches `extend_hunks_with_ast` skips for want of hunks, language, content or a parse are not modelled; their hunks do not change.
- Quoted and tab-suffixed paths in diffs, and `GIT binary patch`. A deleted file is what `is_deleted_file` recognises, so a header-only or binary deletion is not one.
- The `\d` of the hunk header regex is modelled as the ASCII digits; Python also accepts other Unicode digits.
- Early firing within the clock resolution of asyncio, and cancellation of a task by anyone but the manager.
- `entry_guard`, which only calls `check_sha_current`; a 200 response with malformed JSON; in the interleaved machine of the guard, the minimum length of a sleep.
- Floating point: times, rates and the index of P95 are exact.
- Of the metrics: comments per pull request, token and cost sums, and the target flags, which are sums and comparisons.
- The asyncio lock of `RateLimiter`, which makes `acquire` one step.
- `GlobalQueue`, `TenantQueue`, `CostTracker`, pending reviews, commands, fingerprints, the repository mirror, configuration, database models, pipeline steps, comparison and report writers: plumbing, sums or single expressions.
