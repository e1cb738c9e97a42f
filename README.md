# StaticSend dashboard and rate limiter, modelled in Dafny

StaticSend is a form-submission relay. A user creates a form, embeds its
endpoint in a static site, and the service stores what visitors post. This
project models the parts of it that compute something:

- **The per-IP rate limiter** of the public submission endpoint
  (`src/lib/rate-limit.ts`). It uses a fixed window of 60 000 ms with at
  most 5 requests per window. A process-wide map from IP to
  `{count, start}` is updated on every call. `RateLimit.RateLimiter` is a
  class holding that map. Its `RateLimit` method is proved against the pure
  step function `RateLimit.Check`. `RateLimit.Run` folds `Check` over a
  sequence of `(ip, now)` calls, and the lemmas about sequences of calls are
  stated over it.
- **The tag list editor** (`src/components/shared/tags-input.tsx`). Its
  state is the parent's tag list plus the text of the input field. Key
  events step it (`TagsInput.KeyDown`). The class `TagsInput.TagsField`
  replays the handler's in-place updates.
- **The notification-email field** of the form settings
  (`src/components/dashboard/form-settings.tsx`). A stored list is rendered
  with `", "`. Saved text is split at commas, trimmed, and empty entries are
  dropped.
- **The submissions table** (`src/components/dashboard/submissions-table.tsx`).
  It covers the case-insensitive search, the column headers (`allKeys`), the
  text of each cell, and the "no submissions yet" branch.
- **The user menu** (`src/components/layout/user-menu.tsx`). It covers the
  avatar initials and the short name shown beside them.

`Text` holds ASCII models of the JavaScript string primitives these use:
`trim`, `split`, `join`, `toLowerCase`, `toUpperCase` and `includes`.
`Seqs` holds `filter` and the subsequence relation.

The clock read `Date.now()` becomes the `now` parameter (milliseconds).
`JSON.stringify` and `toLocaleString` are function parameters
(`stringify`, `formatDate`). Nothing is assumed about them.

The window is fixed, not rolling. It starts at the first call of a burst
and resets only when `now - start > 60000` (`src/lib/rate-limit.ts:16`).
`RateLimit.NineAllowedAcrossBoundary` proves the consequence: nine calls
within 2 ms can all be allowed across a window boundary.

The initials rule has a quirk: a non-empty name made only of spaces has no
words. Its initials are therefore the empty string, not the `"U"`
fallback (`UserMenu.BlankNameHasNoInitials`).

## Model

| member | source | states |
|---|---|---|
| `RateLimit.Check` | src/lib/rate-limit.ts:9-33 | One call changes only the caller's entry. `reset` is always that entry's window end (`start + 60000`). The call is denied exactly when a window is open (`now - start <= 60000`, so at exactly `start + 60000` the old window still applies) and its count is 5; a denial returns `remaining = 0`, changes nothing, and its reset is not in the past. A call with no open window starts a new one at `now` with count 1. An in-window allowed call raises the count by exactly 1 and keeps `start`. An allowed call returns `remaining = 5 - count`. Counts stay in 1..5 and `remaining` stays in 0..4. |
| `RateLimit.RateLimiter.RateLimit` | src/lib/rate-limit.ts:14-32 | The method updates the map in place. Its new map and verdict are exactly `Check` of the old map, and the map invariant (counts 1..5) is kept. |
| `RateLimit.RateLimiter.constructor` | src/lib/rate-limit.ts:7 | The limiter starts with an empty map. |
| `RateLimit.RunKeepsBounds` | src/lib/rate-limit.ts:17-32 | Over any sequence of calls, every stored count stays in 1..5 and every returned `remaining` stays in 0..4. |
| `RateLimit.RunLeavesOthers` | src/lib/rate-limit.ts:15-25 | Calls for other IPs never create, change or remove an IP's entry. |
| `RateLimit.BurstInWindow` | src/lib/rate-limit.ts:24-32 | Start from an open window holding `n` calls. The k-th further in-window call is allowed exactly when `n + k < 5`. When it is allowed it leaves `5 - (n + k + 1)` calls, and every reset is the window's end. |
| `RateLimit.FiveAllowedThenDenied` | src/lib/rate-limit.ts:16-32 | Start with no entry or an expired one. Among calls within 60000 ms of the first, exactly the first five are allowed; the sixth and later are denied. All of them report the same reset. |
| `RateLimit.StartStays` | src/lib/rate-limit.ts:24-25 | A burst inside an open window never moves the window's start, and the count stays in 1..5. |
| `RateLimit.RunConcat` | src/lib/rate-limit.ts:7-17 | The map carries state from one call to the next, so running two batches one after the other is running their concatenation. |
| `RateLimit.NineAllowedAcrossBoundary` | src/lib/rate-limit.ts:16-17 | The window is fixed, not rolling. One call at 0 ms, four at 60000 ms and five at 60001 ms are all allowed. |
| `TagsInput.KeyDown` | src/components/shared/tags-input.tsx:22-41 | The list changes exactly in two cases. A separator key (space, comma, Enter) with trimmed input that is non-empty and new appends that tag at the end and clears the field. Backspace with an empty field and a non-empty list removes exactly the last tag, keeps the rest in order, and keeps the field. In every other case (blank or duplicate input, Backspace with text or with no tags, other keys) nothing changes, including the input text. |
| `TagsInput.KeyDownKeepsUnique` | src/components/shared/tags-input.tsx:29-39 | A duplicate-free tag list stays duplicate-free after any key event. |
| `TagsInput.RemoveSpec` | src/components/shared/tags-input.tsx:43-45 | `handleRemove(t)` drops every occurrence of `t` and nothing else: every other tag keeps its number of occurrences. The result is an order-preserving subsequence of the old list, and removing an absent tag changes nothing. |
| `TagsInput.RemoveUnique` | src/components/shared/tags-input.tsx:43-45 | In a duplicate-free list, removing the tag at position i splices out exactly that position. |
| `TagsInput.TagsField.HandleKeyDown` | src/components/shared/tags-input.tsx:22-41 | The in-place handler (`onChange` plus clearing the input element) produces exactly the state `KeyDown` gives. |
| `TagsInput.TagsField.HandleRemove` | src/components/shared/tags-input.tsx:43-45 | The list becomes the filtered list and the input text is untouched. |
| `Text.Trim` | src/components/dashboard/form-settings.tsx:83 | The result is a slice `s[i..j]` of the input with only whitespace before `i` and after `j`. It has no whitespace at either end and uses only characters of the input. It is empty exactly when the input is all whitespace. An already trimmed string is unchanged. |
| `Text.Split` | src/components/dashboard/form-settings.tsx:82 | There is at least one piece and no piece contains the separator. The first piece is the text before the first separator, or the whole string if there is none. |
| `Text.Join` | src/components/dashboard/form-settings.tsx:61 | Joining no parts gives the empty string and one part gives that part. With more parts the result starts with the first part followed by the separator. |
| `Text.JoinSplit` | src/components/dashboard/form-settings.tsx:82 | Joining the pieces of a split with the separator gives back the string. |
| `Text.SplitJoin` | src/components/dashboard/form-settings.tsx:61 | Splitting a join gives back the pieces when no piece contains the separator. |
| `Text.ToLower` | src/components/dashboard/submissions-table.tsx:22 | Length is preserved, each letter is lower-cased, and no upper-case letter remains. |
| `Text.LowerOfUpper` | src/components/dashboard/submissions-table.tsx:22 | Lower-casing after upper-casing equals lower-casing (ASCII). |
| `Text.Contains` | src/components/dashboard/submissions-table.tsx:22 | `includes` holds when the needle is a prefix, in particular when it is empty, and never when the needle is longer than the haystack. |
| `Text.ContainsAt` | src/components/dashboard/submissions-table.tsx:22 | `includes` holds exactly when the needle occurs at some position. |
| `Text.ToUpper` | src/components/layout/user-menu.tsx:44 | Length is preserved, each letter is upper-cased, and no lower-case letter remains. |
| `NotificationEmails.Parse` | src/components/dashboard/form-settings.tsx:80-85 | An absent or empty field gives `[]`. Every entry is non-empty, has no surrounding whitespace and has no comma. The entries are an order-preserving subsequence of the trimmed comma-separated pieces, and every non-empty trimmed piece is kept as often as it occurs there. |
| `NotificationEmails.Render` | src/components/dashboard/form-settings.tsx:61 | An absent or empty stored list renders as the empty string. |
| `NotificationEmails.RoundTrip` | src/components/dashboard/form-settings.tsx:80-85 | Take stored addresses that are non-empty, trimmed and comma-free. Rendering them with `", "` (line 61) and parsing the text gives back the same list. |
| `NotificationEmails.SplitRendered` | src/components/dashboard/form-settings.tsx:61 | Splitting a `", "`-joined list at commas gives the entries, every one after the first with a leading space. |
| `Seqs.Filter` | src/components/shared/tags-input.tsx:44 | `filter` keeps exactly the elements that satisfy the predicate, as an order-preserving subsequence no longer than the input. |
| `Seqs.FilterCount` | src/components/shared/tags-input.tsx:44 | An element that satisfies the predicate keeps its number of occurrences, and any other element is dropped entirely. |
| `SubmissionsTable.FilterSubmissions` | src/components/dashboard/submissions-table.tsx:21-23 | The shown submissions are an order-preserving subsequence of all submissions. A submission is shown exactly when its lower-cased serialised data contains the lower-cased term. A matching submission appears as often as in the input, a non-matching one not at all. |
| `SubmissionsTable.EmptySearchKeepsAll` | src/components/dashboard/submissions-table.tsx:21-23 | An empty search term shows every submission. |
| `SubmissionsTable.SearchIgnoresCase` | src/components/dashboard/submissions-table.tsx:22 | Searching for a term and for its upper-cased form shows the same submissions. |
| `SubmissionsTable.Keys` | src/components/dashboard/submissions-table.tsx:57 | `Object.keys(data)` lists one key per entry of the data, in entry order. |
| `SubmissionsTable.AllKeys` | src/components/dashboard/submissions-table.tsx:56-58 | `allKeys` has no duplicates. A string is a header exactly when it is a key of some submission. |
| `SubmissionsTable.FlatKeys` | src/components/dashboard/submissions-table.tsx:57 | A string is in the flattened key list exactly when it is a key of some submission's data. |
| `SubmissionsTable.InsertAll` | src/components/dashboard/submissions-table.tsx:56-58 | Building the `Set` keeps it duplicate-free and keeps what was already there. The result holds exactly the old and the inserted keys. |
| `SubmissionsTable.HeadersInFirstAppearanceOrder` | src/components/dashboard/submissions-table.tsx:56-58 | `allKeys` equals an independent definition: each key at its first occurrence across the submissions, in order. |
| `SubmissionsTable.Lookup` | src/components/dashboard/submissions-table.tsx:112 | For the data's own keys, `data[key]` is `undefined` exactly when `key` is not a key of the data; otherwise it is the value stored under it. |
| `SubmissionsTable.Show` | src/components/dashboard/submissions-table.tsx:114 | `String(v)` of a truthy primitive is never empty. |
| `SubmissionsTable.Cell` | src/components/dashboard/submissions-table.tsx:112-114 | An object value, including `null`, is serialised. A missing or falsy primitive shows `"-"`. Any other primitive shows its string form. Every non-object cell is non-empty. |
| `SubmissionsTable.RowOf` | src/components/dashboard/submissions-table.tsx:102-118 | A row carries the submission's id and its formatted creation date (the Date column), has one cell per header, and cell j renders the submission's value under header j. |
| `SubmissionsTable.Render` | src/components/dashboard/submissions-table.tsx:47-118 | The placeholder is shown, and no table is built, exactly when there are no submissions. Otherwise the headers are `allKeys` without duplicates, with one row per matching submission, in order. |
| `UserMenu.Initials` | src/components/layout/user-menu.tsx:39-46 | An absent or empty name gives `"U"`. The result has at most 2 characters and no lower-case letter. |
| `UserMenu.FirstLetters` | src/components/layout/user-menu.tsx:42-43 | `.map((n) => n[0]).join("")` gives at most one letter per word. When no word is empty, letter i is exactly the first character of word i. Each letter is the first character of some non-empty word: `n[0]` of an empty piece is `undefined`, which `join` renders as nothing. |
| `UserMenu.Take` | src/components/layout/user-menu.tsx:45 | `slice(0, n)` is a prefix of the string. It is the whole string when that has at most n characters, and exactly n characters long otherwise. |
| `UserMenu.FirstLettersOfSplit` | src/components/layout/user-menu.tsx:40-43 | The first letters of the `split(" ")` pieces are exactly the word-initial characters, in order. Empty pieces from repeated spaces contribute nothing. |
| `UserMenu.InitialsAreWordStarts` | src/components/layout/user-menu.tsx:40-45 | For a non-empty name, the initials are the first two word-initial characters, upper-cased. |
| `UserMenu.InitialsOfSingleWord` | src/components/layout/user-menu.tsx:40-45 | A name without spaces gives its upper-cased first letter. |
| `UserMenu.BlankNameHasNoInitials` | src/components/layout/user-menu.tsx:39-46 | A non-empty name of only spaces gives empty initials, not `"U"`. |
| `UserMenu.ShortName` | src/components/layout/user-menu.tsx:66 | The short name is absent exactly when the name is. It is the text before the first space: a space-free prefix that is either the whole name or followed by a space. |

## Left out

- The clock: `Date.now()` is the `now` parameter. Timestamps are unbounded integers; real millisecond timestamps stay far below 2^53, so JavaScript's number type does not round them.
- Concurrency: the rate limiter's map is shared by interleaved requests. The model runs calls one after another, which the single-threaded runtime also does.
- `RateLimit.RateLimiter.RateLimit`: the source increments the stored entry object in place (`entry.count++`). The model replaces the map value instead. The entry never escapes the limiter, so no alias can observe the difference.
- The unbounded growth of the IP map: the source never evicts entries, and neither does the model.
- The submission endpoint that calls the limiter is not part of this model. This covers its `Retry-After` header, the origin allow-list check, body parsing, persistence and notification e-mail.
- `TagsInput.TagsField.HandleKeyDown`: the case where `inputRef.current` is null (before the input mounts) is not modelled. In that case the handler does nothing.
- `TagsInput.TagsField.HandleKeyDown`: `preventDefault` is not modelled. Neither is the browser's own editing of the field (typing characters, Backspace deleting a character), which happens outside the handler.
- `TagsInput.TagsField`: the `disabled` prop is not modelled.
- `Text.Trim`, `Text.ToLower`, `Text.ToUpper`: ASCII only. JavaScript's `trim` also removes Unicode spaces, and its case mapping can change a string's length (for example `ß` to `SS`).
- `SubmissionsTable.Lookup`: only the data's own keys are modelled. For a header such as `constructor`, `toString` or `__proto__`, JavaScript's `data[key]` finds a property inherited from `Object.prototype`, so the source shows `"function Object() { [native code] }"` for `constructor`, `"function toString() { [native code] }"` for `toString` and `"{}"` for `__proto__`, where the model shows `"-"`. A header only has such a name when some visitor submits a field called that; the difference shows in the rows of the submissions without that field.
- `UserMenu.Initials`: the model works on whole characters. JavaScript strings are UTF-16 code units, so `n[0]` and `slice(0, 2)` can split a surrogate pair. For `"😀 Bob"` the source gives a lone high surrogate followed by `"B"`, while the model gives `"😀B"`.
- `SubmissionsTable.Show`: numbers are integers. Fractions, `NaN` (also falsy) and exponent notation are not modelled.
- Object key order: the data's entries are taken in `Object.keys` order. JavaScript lists integer-like keys first, in ascending order; the model does not reorder them.
- `JSON.stringify` and `toLocaleString` are parameters with no assumed behaviour.
- The CSV export (`Papa.unparse`, `Blob`, DOM download link) is I/O and a foreign library.
- The form-settings request handlers (`fetch`, `toast`, `router`, dialog state) are I/O.
- The zod schemas are left out. Their `email()` rule belongs to a library this model does not contain.
- The e-mail templates, the Form schema and the presentational components hold no logic worth modelling.
