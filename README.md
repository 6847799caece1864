# fuma-docs front end: a verified model of its state and text logic

This project models the parts of the fuma-docs documentation viewer's front end that are sequential logic rather than UI or HTTP plumbing, and proves what they promise:

- **The documents store** (`DocsSlice`). It holds the docs list, the open document, the changelog, the stats, four loading flags and the last error. `DocsStore` is a class whose fields the reducer cases update in place:
  - one method per pending, fulfilled and rejected case of the seven operations;
  - one method per synchronous clear.
  Each method states the new state as the old one with exactly the fields it touches changed, and keeps the store invariant: the changelog is sorted newest first with one entry per chunk time. Two cases do real list work:
  - the update-by-`_id` splice, which uses a `findIndex` loop;
  - the changelog upsert followed by a newest-first sort.
  Both are proved against specification functions (`ReplaceFirstById`, `Upsert`, `SortNewestFirst`), with lemmas on what those keep and change. What each operation makes of the server's answer is a function of that answer: array-or-empty, the latest chunk time, id stamping, the total-count normalisation, the document count, and server message or fallback. The server's answer to a chunk's documents request is a function of the chunk time asked for, so the model states which chunk fetchDocsList and fetchDocumentStats ask for: the last one listed.
- **The authentication store** (`AuthSlice`). `AuthStore` has the fields `apiKey`, `loading` and `error`. Its methods are proved equal, case by case, to a pure reducer `Reduce`, and the lemmas are stated over `Reduce`. This includes the thunk-then-reducer path, which shows that on that path the reducer's own fallback is never used.
- **The markdown-subset renderer** (`DocViewer`). It is the ten `.replace` calls of `htmlContent`, composed in source order. Each rule is modelled as a specific scanner with ECMAScript `g`/`i`/`m` semantics:
  - the line rules (`^…(.*$)` with `m`) rewrite every line between line terminators (`\n`, `\r`, U+2028, U+2029);
  - the lazy delimiter rules pair an opening delimiter with the first closing one, on the same line unless the pattern is `[\s\S]`.
  The lemmas cover:
  - heading levels, and the five-hash case;
  - bold before italic;
  - newline counts;
  - no empty line in the output;
  - the paragraph rule's lookahead;
  - whole one-line documents;
  - the fact that the fenced-block rule can never fire (see Findings).
  The tag texts are built from their element names and class lists (for example `OpenTag("em", ["italic"])` is `<em class="italic">`). They are the same strings the source writes.
- **The password rules and submit gate** (`Signup`). `ValidatePassword` pushes messages step by step and is proved equal to a checklist-order specification `Unmet`. The properties proved:
  - the list is empty iff every rule holds, and each message is present iff its rule fails;
  - the list is in checklist order, with no repeats and at most five messages;
  - the checklist ticks agree with the rules;
  - `handleSubmit` registers only with a valid, confirmed password, and navigates only on a fulfilled registration;
  - the button's `disabled` expression agrees with the handler.
- **The changelog panel** (`Changelog`). `getTimeAgo` takes the millisecond difference. The lemmas show that its unit buckets partition the integers and bound the amount shown in each. The label is rendered in decimal and read back to the bucket it came from. The total-count display agrees with the stored, normalised count.

`Nullable` holds the shared `Option` type and `OrElse`, which is JavaScript's `x || fallback` on an optional string: an empty string also falls back.

## Model

| member | source | states |
|---|---|---|
| `Nullable.OrElse` | fuma-docs-front-end/app/store/slices/docsSlice.ts:97-98 | `message \|\| fallback`: a present, non-empty message is the result; a missing or empty one gives the fallback; so the result is never empty when the fallback is not |
| `DocsSlice.StampIds` | fuma-docs-front-end/app/store/slices/docsSlice.ts:94 | same length and order; each record keeps every field but `id`, which becomes its own timestamp |
| `DocsSlice.LatestChunkTimeIsNewest` | fuma-docs-front-end/app/store/slices/docsSlice.ts:77-85 | for any listing, no chunk is chosen exactly when the listing is empty or not an array, and a chosen chunk is a listed one; for an ascending listing it is also not older than any other |
| `DocsSlice.FetchDocsListPayload` | fuma-docs-front-end/app/store/slices/docsSlice.ts:76-94 | with no chunk times the operation settles with `[]`; otherwise its payload is the array the server answers for the last listed chunk time (or `[]`), same length, each record id-stamped |
| `DocsSlice.NormaliseTotalCount` | fuma-docs-front-end/app/store/slices/docsSlice.ts:165 | the stored total is always a bare number: `.count` of an object answer, the answer itself otherwise |
| `DocsSlice.StatsAllOrNothing` | fuma-docs-front-end/app/store/slices/docsSlice.ts:148-172 | the stats operation succeeds iff the count, the listing and (when some chunk is listed) the latest chunk all succeed; it then carries the normalised count, the listing as received, and the array answered for the last listed chunk time (or `[]`) as its documents, with no documents when nothing is listed |
| `DocsSlice.ChunkEntryCounted` | fuma-docs-front-end/app/store/slices/docsSlice.ts:181-194 | succeeds iff the request did; the entry has the requested chunk time, the array (or `[]`) as its documents, and `documentCount` equal to their number |
| `DocsSlice.RejectionMessages` | fuma-docs-front-end/app/store/slices/docsSlice.ts:114-226 | fetching one document, updating it, fetching by chunk time (for every chunk time) and fetching by run reject with exactly the server's message when it is present and non-empty, and with the operation's own fallback otherwise; the health check always rejects with "Backend is not available" |
| `DocsSlice.DocsListRejections` | fuma-docs-front-end/app/store/slices/docsSlice.ts:72-100 | a failure of the chunk-time listing, or of the documents request for the last listed chunk time, rejects with exactly the server's non-empty message or "Failed to fetch documents list." |
| `DocsSlice.StatsRejections` | fuma-docs-front-end/app/store/slices/docsSlice.ts:147-172 | a failure of the count, of the listing, or of the documents request for the last listed chunk time, rejects with exactly that request's non-empty server message or "Failed to fetch document stats." |
| `DocsSlice.FindIndex` | fuma-docs-front-end/app/store/slices/docsSlice.ts:294 | `findIndex`: -1 iff no element satisfies the test; otherwise the first index that does |
| `DocsSlice.ReplaceFirstByIdAt` | fuma-docs-front-end/app/store/slices/docsSlice.ts:294-297 | when position `i` holds the first record with the payload's `_id`, the new list is the old one with only position `i` replaced |
| `DocsSlice.ReplaceFirstByIdAbsent` | fuma-docs-front-end/app/store/slices/docsSlice.ts:294-297 | when no record has the payload's `_id`, the list is unchanged |
| `DocsSlice.UpsertAt` | fuma-docs-front-end/app/store/slices/docsSlice.ts:330-332 | when position `i` holds the first entry with the chunk time, the upsert assigns that position only |
| `DocsSlice.UpsertAbsent` | fuma-docs-front-end/app/store/slices/docsSlice.ts:330-335 | when no entry has the chunk time, the upsert pushes the entry at the end |
| `DocsSlice.UpsertContents` | fuma-docs-front-end/app/store/slices/docsSlice.ts:330-335 | the length grows by one iff the key was absent; the new entry and every entry with another key are present; the key set gains exactly the new key |
| `DocsSlice.UpsertKeepsUnique` | fuma-docs-front-end/app/store/slices/docsSlice.ts:330-335 | unique chunk times stay unique |
| `DocsSlice.InsertKeepsOrder` | fuma-docs-front-end/app/store/slices/docsSlice.ts:337 | inserting one entry into a newest-first list keeps it newest first |
| `DocsSlice.InsertKeepsUnique` | fuma-docs-front-end/app/store/slices/docsSlice.ts:337 | inserting an entry with a new chunk time keeps chunk times unique |
| `DocsSlice.SortNewestFirst` | fuma-docs-front-end/app/store/slices/docsSlice.ts:337 | the sort's result is a permutation of its input, ordered by chunk time newest first |
| `DocsSlice.SortKeepsKeys` | fuma-docs-front-end/app/store/slices/docsSlice.ts:337 | sorting keeps the length and the set of chunk times |
| `DocsSlice.SortKeepsUnique` | fuma-docs-front-end/app/store/slices/docsSlice.ts:337 | sorting keeps chunk times unique |
| `DocsSlice.ChangelogAfterFetch` | fuma-docs-front-end/app/store/slices/docsSlice.ts:327-338 | after upsert and sort, the changelog holds the fetched entry and every entry with another key; it grows by one iff the key was new, is newest first, and keeps keys unique |
| `DocsSlice.DocsStore.constructor` | fuma-docs-front-end/app/store/slices/docsSlice.ts:53-65 | the store starts as `initialState` and satisfies the invariant |
| `DocsSlice.DocsStore.ClearError` | fuma-docs-front-end/app/store/slices/docsSlice.ts:233-235 | only `error` changes, to null |
| `DocsSlice.DocsStore.ClearCurrentDoc` | fuma-docs-front-end/app/store/slices/docsSlice.ts:236-238 | only `currentDoc` changes, to null |
| `DocsSlice.DocsStore.ResetDocsState` | fuma-docs-front-end/app/store/slices/docsSlice.ts:239-251 | from any state, the store becomes exactly `initialState` |
| `DocsSlice.DocsStore.ClearChangelog` | fuma-docs-front-end/app/store/slices/docsSlice.ts:252-254 | only `changelog` changes, to empty |
| `DocsSlice.DocsStore.FetchDocsListPending` | fuma-docs-front-end/app/store/slices/docsSlice.ts:259-262 | raises only the `docsList` flag and clears the error; all else unchanged |
| `DocsSlice.DocsStore.FetchDocsListFulfilled` | fuma-docs-front-end/app/store/slices/docsSlice.ts:263-267 | replaces `docs` wholesale with the payload, lowers the flag, clears the error |
| `DocsSlice.DocsStore.FetchDocsListRejected` | fuma-docs-front-end/app/store/slices/docsSlice.ts:268-271 | lowers the flag and sets the payload or "Failed to fetch documents list."; data unchanged |
| `DocsSlice.DocsStore.FetchDocByIdPending` | fuma-docs-front-end/app/store/slices/docsSlice.ts:273-276 | raises only the `currentDoc` flag and clears the error |
| `DocsSlice.DocsStore.FetchDocByIdFulfilled` | fuma-docs-front-end/app/store/slices/docsSlice.ts:277-281 | sets `currentDoc` to the payload, lowers the flag, clears the error |
| `DocsSlice.DocsStore.FetchDocByIdRejected` | fuma-docs-front-end/app/store/slices/docsSlice.ts:282-285 | lowers the flag and sets the payload or "Failed to fetch document."; data unchanged |
| `DocsSlice.DocsStore.UpdateDocPending` | fuma-docs-front-end/app/store/slices/docsSlice.ts:287-290 | raises only the `currentDoc` flag and clears the error |
| `DocsSlice.DocsStore.UpdateDocFulfilled` | fuma-docs-front-end/app/store/slices/docsSlice.ts:291-303 | the list becomes `ReplaceFirstById` of the old list; `currentDoc` is replaced only when it is present with the payload's `_id`; flag lowered, error cleared |
| `DocsSlice.DocsStore.UpdateDocRejected` | fuma-docs-front-end/app/store/slices/docsSlice.ts:304-307 | lowers the flag and sets the payload or "Failed to update document."; data unchanged |
| `DocsSlice.DocsStore.FetchDocumentStatsPending` | fuma-docs-front-end/app/store/slices/docsSlice.ts:309-312 | raises only the `stats` flag and clears the error |
| `DocsSlice.DocsStore.FetchDocumentStatsFulfilled` | fuma-docs-front-end/app/store/slices/docsSlice.ts:313-317 | sets `stats` to the payload, lowers the flag, clears the error |
| `DocsSlice.DocsStore.FetchDocumentStatsRejected` | fuma-docs-front-end/app/store/slices/docsSlice.ts:318-321 | lowers the flag and sets the payload or "Failed to fetch document stats."; data unchanged |
| `DocsSlice.DocsStore.FetchDocumentsByChunkTimePending` | fuma-docs-front-end/app/store/slices/docsSlice.ts:323-326 | raises only the `changelog` flag and clears the error |
| `DocsSlice.DocsStore.FetchDocumentsByChunkTimeFulfilled` | fuma-docs-front-end/app/store/slices/docsSlice.ts:327-339 | the changelog becomes the sorted upsert of the old one (see `ChangelogAfterFetch`) and the invariant holds; flag lowered, error cleared |
| `DocsSlice.DocsStore.FetchDocumentsByChunkTimeRejected` | fuma-docs-front-end/app/store/slices/docsSlice.ts:340-343 | lowers the flag and sets the payload or "Failed to fetch documents by chunk time."; data unchanged |
| `DocsSlice.DocsStore.FetchDocumentsByRunIdPending` | fuma-docs-front-end/app/store/slices/docsSlice.ts:345-348 | raises only the `docsList` flag and clears the error |
| `DocsSlice.DocsStore.FetchDocumentsByRunIdFulfilled` | fuma-docs-front-end/app/store/slices/docsSlice.ts:349-353 | replaces `docs` wholesale with the payload, lowers the flag, clears the error |
| `DocsSlice.DocsStore.FetchDocumentsByRunIdRejected` | fuma-docs-front-end/app/store/slices/docsSlice.ts:354-357 | lowers the flag and sets the payload or "Failed to fetch documents by run ID."; data unchanged |
| `DocsSlice.DocsStore.CheckBackendHealthPending` | fuma-docs-front-end/app/store/slices/docsSlice.ts:359-361 | clears the error only; no loading flag is touched |
| `DocsSlice.DocsStore.CheckBackendHealthFulfilled` | fuma-docs-front-end/app/store/slices/docsSlice.ts:362-364 | clears the error only |
| `DocsSlice.DocsStore.CheckBackendHealthRejected` | fuma-docs-front-end/app/store/slices/docsSlice.ts:365-367 | sets the payload or "Backend is not available"; nothing else changes |
| `AuthSlice.LogoutRestoresInitial` | fuma-docs-front-end/app/store/slices/authSlices.ts:62-66 | logout from any state gives exactly `initialState` |
| `AuthSlice.ReducerFlags` | fuma-docs-front-end/app/store/slices/authSlices.ts:71-95 | pending raises `loading` and clears `error`; every other case lowers `loading`; only a fulfilled case changes the key, and only logout removes it |
| `AuthSlice.RejectionLeavesMessage` | fuma-docs-front-end/app/store/slices/authSlices.ts:79-95 | a rejected register or sign-in always leaves a non-empty error, the payload or "Registration failed." / "Sign in failed." |
| `AuthSlice.RequestOutcome` | fuma-docs-front-end/app/store/slices/authSlices.ts:27-95 | a request followed by its settled action ends with `loading` off. On success the key is set and there is no error. On failure the key is kept and the error is the server's message or the thunk's own fallback ("Failed to register. Please try again.", "Invalid API key. Please try again.") |
| `AuthSlice.AuthStore.constructor` | fuma-docs-front-end/app/store/slices/authSlices.ts:20-24 | the store starts signed out, idle, with no error |
| `AuthSlice.AuthStore.Logout` | fuma-docs-front-end/app/store/slices/authSlices.ts:62-66 | the new state is the reducer's logout case of the old one |
| `AuthSlice.AuthStore.RegisterPending` | fuma-docs-front-end/app/store/slices/authSlices.ts:71-74 | the new state is the reducer's register-pending case of the old one |
| `AuthSlice.AuthStore.RegisterFulfilled` | fuma-docs-front-end/app/store/slices/authSlices.ts:75-78 | the new state is the reducer's register-fulfilled case: key set, `error` untouched |
| `AuthSlice.AuthStore.RegisterRejected` | fuma-docs-front-end/app/store/slices/authSlices.ts:79-82 | the new state is the reducer's register-rejected case |
| `AuthSlice.AuthStore.SigninPending` | fuma-docs-front-end/app/store/slices/authSlices.ts:84-87 | the new state is the reducer's sign-in-pending case |
| `AuthSlice.AuthStore.SigninFulfilled` | fuma-docs-front-end/app/store/slices/authSlices.ts:88-91 | the new state is the reducer's sign-in-fulfilled case: key set, `error` untouched |
| `AuthSlice.AuthStore.SigninRejected` | fuma-docs-front-end/app/store/slices/authSlices.ts:92-95 | the new state is the reducer's sign-in-rejected case |
| `DocViewer.FindCloseFinds` | fuma-docs-front-end/app/components/DocViewer.tsx:34-37 | the lazy `(.*?)` / `([\s\S]*?)` search. Found: the first closing delimiter at or after the start, with no line terminator before it unless the rule crosses lines. Not found: every later occurrence lies past a line terminator, and the rule does not cross lines |
| `DocViewer.ReplaceSpansAbsent` | fuma-docs-front-end/app/components/DocViewer.tsx:34-37 | a delimiter rule whose delimiter does not occur leaves the text unchanged |
| `DocViewer.MapLinesOnLine` | fuma-docs-front-end/app/components/DocViewer.tsx:30-33 | on one line, a `^…$` rule under `m` is that rule applied to the line, and the result is still one line |
| `DocViewer.HeadingRuleLevels` | fuma-docs-front-end/app/components/DocViewer.tsx:30-33 | a line of `k` hashes and a space is rewritten by the level-`k` rule only; heading output is left alone by every heading rule |
| `DocViewer.HeadingLine` | fuma-docs-front-end/app/components/DocViewer.tsx:30-33 | after the four heading rules, such a line is the `<hk …>` element wrapping the rest of the line |
| `DocViewer.FiveHashesNoHeading` | fuma-docs-front-end/app/components/DocViewer.tsx:30-33 | a line starting with five hashes gets no heading |
| `DocViewer.BoldBeforeItalic` | fuma-docs-front-end/app/components/DocViewer.tsx:34-35 | `**x**` on one line, with no asterisk inside, becomes `<strong …>x</strong>` and the italic rule leaves it so |
| `DocViewer.InlineCodeLeavesOneTickPerLine` | fuma-docs-front-end/app/components/DocViewer.tsx:36 | after the inline-code rule, no line holds two backticks |
| `DocViewer.OneTickPerLineNoPair` | fuma-docs-front-end/app/components/DocViewer.tsx:36 | text with at most one backtick per line has no two adjacent backticks |
| `DocViewer.FenceNeverFires` | fuma-docs-front-end/app/components/DocViewer.tsx:36-37 | the fenced-block rule leaves the inline-code rule's output unchanged, for every input |
| `DocViewer.MapLinesKeepsNewlines` | fuma-docs-front-end/app/components/DocViewer.tsx:30-33 | a line rule keeps the number of newlines |
| `DocViewer.ReplaceSpansKeepsNewlines` | fuma-docs-front-end/app/components/DocViewer.tsx:34-37 | a delimiter rule keeps the number of newlines, across lines too |
| `DocViewer.RulesKeepNewlines` | fuma-docs-front-end/app/components/DocViewer.tsx:30-39 | every rule before the `\n\n` rewrite, and the paragraph rule after it, keeps the number of newlines |
| `DocViewer.BreakParagraphsRemovesPairs` | fuma-docs-front-end/app/components/DocViewer.tsx:38 | after the `\n\n` rewrite no two consecutive newlines remain |
| `DocViewer.WrapParagraphsNoBlankLine` | fuma-docs-front-end/app/components/DocViewer.tsx:39 | whatever its input, the paragraph rule makes every line non-empty (an empty line becomes an empty paragraph), so its output starts with no terminator and has no two adjacent ones |
| `DocViewer.RenderHasNoBlankLine` | fuma-docs-front-end/app/components/DocViewer.tsx:29-39 | the rendered HTML never holds `\n\n`, nor any empty line between two line terminators |
| `DocViewer.ParagraphRuleOnLine` | fuma-docs-front-end/app/components/DocViewer.tsx:39 | a line is left alone iff it starts with `<h`, `<1`…`<6`, `<pre` or `<code` (letters in either case), and is wrapped in `<p class="mb-4">…</p>` otherwise; heading output is always left alone |
| `DocViewer.EmptyRender` | fuma-docs-front-end/app/components/DocViewer.tsx:29-39 | the empty document renders as `<p class="mb-4"></p>` |
| `DocViewer.InlineRulesOnPlainLine` | fuma-docs-front-end/app/components/DocViewer.tsx:34-38 | a line without asterisks or backticks passes the inline, fence and `\n\n` rules unchanged |
| `DocViewer.HeadingDocument` | fuma-docs-front-end/app/components/DocViewer.tsx:29-39 | a one-line document `#`×k, space, plain text (k from 1 to 4) renders as the heading element alone, not wrapped in a paragraph |
| `DocViewer.FiveHashesDocument` | fuma-docs-front-end/app/components/DocViewer.tsx:29-39 | a one-line plain document starting with five hashes renders as one paragraph around the line |
| `DocViewer.FencedBlockNotRendered` | fuma-docs-front-end/app/components/DocViewer.tsx:36-37 | as written, a fenced block never renders as the `<pre>` element the fence rule writes |
| `DocViewer.FenceFirstRendersBlock` | fuma-docs-front-end/app/components/DocViewer.tsx:36-37 | with the fence rule before inline code, those two steps turn a fenced block with no backtick inside (one line or several) into one `<pre><code>` element |
| `DocViewer.FencedLineDocument` | fuma-docs-front-end/app/components/DocViewer.tsx:29-39 | with the corrected order, a whole document that is a fenced block on one line, with no asterisk or backtick inside, renders as that `<pre><code>` element alone |
| `DocViewer.ClosingFenceLineWrapped` | fuma-docs-front-end/app/components/DocViewer.tsx:39 | the paragraph rule's lookahead does not exempt the closing `</code></pre>` line, so on its own line it is wrapped in a paragraph |
| `DocViewer.FenceFirstHasNoBlankLine` | fuma-docs-front-end/app/components/DocViewer.tsx:29-39 | the corrected rule order still leaves no empty line |
| `Signup.ValidatePassword` | fuma-docs-front-end/app/routes/signup.tsx:27-47 | the messages pushed are exactly the unmet requirements in checklist order (`Unmet`) |
| `Signup.UnmetUnfolded` | fuma-docs-front-end/app/routes/signup.tsx:30-44 | the list is the five checks' contributions in order: length, upper, lower, digit, special |
| `Signup.UnmetAmongMembers` | fuma-docs-front-end/app/routes/signup.tsx:30-44 | a message is listed iff some requirement among those checked fails and has that message |
| `Signup.ValidIffAllMet` | fuma-docs-front-end/app/routes/signup.tsx:27-47 | no messages iff at least 8 UTF-16 units long with an uppercase letter, a lowercase letter, a digit and a special character |
| `Signup.MessagePresentIff` | fuma-docs-front-end/app/routes/signup.tsx:30-44 | each message is present iff its own check fails |
| `Signup.MessageRankOfMessage` | fuma-docs-front-end/app/routes/signup.tsx:232-238 | each message's position in the checklist is its requirement's rank |
| `Signup.UnmetAmongOrdered` | fuma-docs-front-end/app/routes/signup.tsx:28-46 | the messages of rank-ordered checks come out in strictly increasing checklist position |
| `Signup.UnmetInChecklistOrder` | fuma-docs-front-end/app/routes/signup.tsx:28-46 | at most five messages, in strictly increasing checklist position, so no duplicates |
| `Signup.ChecklistAgrees` | fuma-docs-front-end/app/routes/signup.tsx:232-239 | a checklist row is shown valid iff its requirement holds |
| `Signup.RegisterOnlyWhenValid` | fuma-docs-front-end/app/routes/signup.tsx:56-74 | `handleSubmit` registers iff every requirement holds and the passwords match; a failing password alerts about the requirements whatever the confirmation |
| `Signup.NavigationNeedsValidFulfilledRegistration` | fuma-docs-front-end/app/routes/signup.tsx:71-84 | navigation to `/docs` happens iff the password is valid and confirmed and the registration was fulfilled |
| `Signup.ButtonAgreesWithHandler` | fuma-docs-front-end/app/routes/signup.tsx:371-377 | with the password's own errors shown, the button is enabled iff nothing is loading and the handler would register |
| `Changelog.DiffInSeconds` | fuma-docs-front-end/app/components/Changelog.tsx:37 | `Math.floor(diff / 1000)`: the largest whole number of seconds not above the difference |
| `Changelog.BucketPartition` | fuma-docs-front-end/app/components/Changelog.tsx:39-42 | the four branches partition the integers at 60, 3600 and 86400 |
| `Changelog.SecondsLabel` | fuma-docs-front-end/app/components/Changelog.tsx:39 | under a minute, negative differences included, the label is the seconds and "s ago" |
| `Changelog.MinutesLabel` | fuma-docs-front-end/app/components/Changelog.tsx:40 | from a minute to an hour, the label is the whole minutes (1 to 59) and "m ago" |
| `Changelog.HoursLabel` | fuma-docs-front-end/app/components/Changelog.tsx:41 | from an hour to a day, the label is the whole hours (1 to 23) and "h ago" |
| `Changelog.DaysLabel` | fuma-docs-front-end/app/components/Changelog.tsx:42 | from a day on, the label is the whole days (at least 1) and "d ago" |
| `Changelog.DecimalRoundTrip` | fuma-docs-front-end/app/components/Changelog.tsx:39-42 | the decimal text of any integer, as a template literal writes it, reads back as that integer |
| `Changelog.TimeAgoReadsBack` | fuma-docs-front-end/app/components/Changelog.tsx:34-43 | the label reads back as the unit and amount of the bucket it came from |
| `Changelog.DisplayedTotalCountNormalised` | fuma-docs-front-end/app/components/Changelog.tsx:63 | the panel shows `.count` of an object total and the number itself otherwise, the same figure before and after normalisation |

The store invariant `DocsStore.Valid()` says that the changelog is sorted newest first and has one entry per chunk time. The constructor establishes it and every method keeps it. The methods require it only so that they can promise it again.

## Left out

- HTTP: the axios calls, the 5 s health-check timeout and the abort signal are not modelled. Each thunk is a function of the responses it would receive, and a failed request carries the server's `message` if it sent one.
- Redux dispatch and the thunk machinery are not modelled. The interleaving of overlapping requests ("last response wins") is not modelled either. Each reducer case is a method applied on its own.
- `console.log` / `console.error` and every piece of React UI are left out. The alerts and the navigation in `handleSubmit` are returned as values.
- Date parsing is not modelled. Chunk times are integers, so the sort's `new Date(...)` comparison is integer order, and an unparsable date (a `NaN` comparison) is not modelled. `getTimeAgo` takes the millisecond difference `now - date` as an integer, so the clock is a parameter.
- `DocsSlice.SortNewestFirst`: `Array.prototype.sort` is modelled as a stable insertion sort. Only its result is modelled, not the engine's algorithm. Under the store invariant keys are unique, so every correct sort gives the same result.
- `DocsSlice.FetchDocumentStatsThunk`: when the count and the listing requests both fail, the model reports the count's failure. `Promise.all` reports whichever failure comes first in time.
- `DocsSlice.NormaliseTotalCount`: a `null` count answer is not modelled. `typeof null` is `"object"`, so the source would read `.count` of `null` and reject.
- Record shapes are not checked: a response whose `data` lacks `apiKey` or `timestamp` yields `undefined` in the source. The model takes those fields as present.
- `Changelog.DecimalRoundTrip`: JavaScript writes numbers of 10^21 and above in exponent form. The model writes every integer in plain decimal. A difference that large in seconds is far beyond any date.
- `DocViewer.RenderFenceFirst`: a fenced block that spans lines is not kept in one piece even in the corrected order, because the paragraph rule wraps its lines. The model proves the one-line case and the wrapping of the closing line, and does not define a fix for the paragraph rule.
- `DocViewer`: a general regular-expression engine is not modelled. Each of the ten patterns is encoded as a specific line scanner or delimiter scanner with the same matches. Sanitising the resulting HTML and the MDX component around it are outside the chain.
- `Signup.ValidatePassword`: `password.length` is modelled as UTF-16 code units. The `[A-Z]`, `[a-z]`, `\d` and special-character classes are modelled as the exact character sets the patterns name.

## Findings

| source | as written | input that shows it | evidently intended | confidence | as-written member | corrected member |
|---|---|---|---|---|---|---|
| fuma-docs-front-end/app/components/DocViewer.tsx:36-37 | The inline-code rule runs before the fenced-block rule. It turns every pair of backticks on a line into `<code>` elements, so no three backticks are left for the fence rule to match, and that rule never fires. | the content "\`\`\`x\`\`\`" renders as three `<code>` elements (the middle one holding `x`), not one `<pre>` block | the fence rule runs before inline code, so a fenced block becomes one `<pre><code class="text-sm">` element; proved for a whole one-line block, while a block spanning lines still has its inner and closing lines wrapped by the paragraph rule | high (proved for all inputs; not executed) | `DocViewer.FencedBlockNotRendered` | `DocViewer.FencedLineDocument` |

`DocViewer.Render` models the chain as written. `DocViewer.FenceNeverFires` shows that the fence rule is dead for every input. `DocViewer.RenderFenceFirst` is the chain in the corrected order. `DocViewer.FencedLineDocument` shows that it renders a one-line fenced block as one element, and `DocViewer.FenceFirstHasNoBlankLine` shows that it keeps the no-empty-line guarantee. Reordering the rules alone does not keep a block that spans lines in one piece: the paragraph rule still wraps every inner line not starting with an exempt tag, and the closing `</code></pre>` line (`DocViewer.ClosingFenceLineWrapped`).
