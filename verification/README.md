# GitHub profile fetcher — projection and error layer, in Dafny

The fetcher is a single browser script (`script.js`). It looks up a user,
fetches the profile and the twelve most recently updated repositories, and
renders both. The repository panel offers a language filter and a sort order.
This project models the part of the script that computes values rather than
touching the page:

- **Repository projection** (`Projection`, `Languages`). `getUniqueLanguages`
  lists the languages offered by the filter. `filterAndSortRepos` keeps the
  repositories of the chosen language and sorts a copy, stably and in
  descending order, by stars, forks or last update. `getLanguageColor` maps a
  language to its swatch colour.
  - `filterAndSortRepos` is modelled in its own imperative form.
    `FilterAndSortRepos` copies the input array into a fresh one, filters it,
    and sorts it in place with an insertion sort (`SortInPlace`).
  - Its result is proved equal to the specification function `FilterAndSort`.
  - `FilterAndSortCorrect` proves that `FilterAndSort` sorts, permutes and
    filters, and that it keeps equal keys in input order.
  - `StableSortUnique` proves that no other stable descending order exists.
    So the model does not depend on which stable algorithm the engine uses
    for `Array.prototype.sort`; section 23.1.3.30 of ECMA-262 (2023) requires
    that sort to be stable.
- **Error path of `fetchUserData`** (`Errors`). The status switch gives the
  thrown message. The repositories failure message carries the status. The
  catch block turns a message into the sentence on the banner.
  `FetchUserData` combines them into the page's outcome for given replies of
  the two `fetch` calls.
- **Search guard** (`Search`). `searchUser` trims the input with
  `String.prototype.trim` and does nothing when the result is empty.

`updated_at` is taken as an already parsed integer timestamp. Stars and
forks are natural numbers. A `null` field is `None` of `Wrappers.Option`.

`LanguageOptionNeverEmpty` shows that every language the filter offers
keeps at least one repository. "All Languages" keeps all of them, and
`displayUserRepos` returns early when there are none. So the "No
repositories match the current filter" branch (script.js:216-220) cannot be
reached through the offered options.

## Model

| member | source | states |
|---|---|---|
| `Repos.ParseSortKey` | script.js:247-259 | "stars" selects stars, "forks" selects forks, and "updated" and every other value select the update time (each direction proved) |
| `Projection.FilterByLanguage` | script.js:242-244 | every kept repository has exactly the selected language, and each repository of that language keeps its multiplicity while others get none |
| `Projection.StableSortSorted` | script.js:247-259 | the reference sort is non-increasing in the chosen key |
| `Projection.StableSortPermutes` | script.js:249-258 | the reference sort is a permutation of its input |
| `Projection.StableSortStable` | script.js:248-258 | the repositories with any one key value keep their input order |
| `Projection.StableSortUnique` | script.js:247-259 | every sequence that is non-increasing in the key and keeps the per-key order equals the reference sort, so a stable sort's result is determined |
| `Projection.FilterAndSortCorrect` | script.js:238-262 | the result is sorted by the selected key; with an empty language it is a permutation of the whole input of the same length; otherwise it holds exactly the input repositories of that language, with multiplicity; within each key value they keep their input order |
| `Projection.LanguageOptionNeverEmpty` | script.js:206-220 | choosing any language listed by getUniqueLanguages leaves a non-empty list |
| `Projection.SortInPlace` | script.js:246-259 | the in-place sort of the array leaves exactly the reference sort of its old contents |
| `Projection.InsertInPlace` | script.js:249-258 | one insertion pass places the next element where the reference insertion puts it and leaves the rest of the array unchanged |
| `Projection.FilterAndSortRepos` | script.js:238-262 | returns a fresh array holding the specified filtered, stably sorted copy; the input array is outside its frame and is left unchanged |
| `Languages.NonNullLanguages` | script.js:231-233 | a string is in the list exactly when some repository has it as its non-null language |
| `Languages.Distinct` | script.js:234 | the Set spread has the same members as its input, each once |
| `Languages.DistinctFirstOccurrenceOrder` | script.js:234 | the Set spread lists values in the order of their first occurrence |
| `Languages.NonNullLanguagesOrder` | script.js:231-233 | the language list keeps the repositories' order: a language listed earlier first occurs in an earlier repository |
| `Languages.UniqueLanguagesCorrect` | script.js:230-235 | each non-null language of the input appears exactly once and nothing else appears; languages are listed in the order of the first repository that has each of them |
| `Languages.LanguageColor` | script.js:309-329 | always a `#rrggbb` colour; the table entry for each of the 15 listed languages; the fallback `#6E40C9` exactly for the unlisted ones |
| `Languages.AsWrittenReturnsFunction` | script.js:328 | as written, the lookup for "toString" yields an inherited function rather than a colour string |
| `Languages.AsWrittenAgrees` | script.js:309-329 | for every name that is not an inherited Object.prototype property, the code as written returns `LanguageColor` |
| `Errors.NatToString` | script.js:69 | a status is written as a non-empty decimal numeral without leading zeros |
| `Errors.ParseNatToString` | script.js:69 | reading the numeral back gives the status |
| `Errors.NatToStringInjective` | script.js:81 | distinct statuses give distinct numerals |
| `Errors.ProfileErrorMessage` | script.js:59-70 | "User not found" exactly for 404, "API rate limit exceeded" exactly for 403, and the unavailability message exactly for 500, 502 and 503; any other status gives "GitHub API error: " followed by a numeral that reads back as the status |
| `Errors.ReposErrorMessage` | script.js:80-82 | "Repositories fetch error: " followed by a numeral that reads back as the status |
| `Errors.UserMessage` | script.js:97-113 | the shown text is never empty; an empty message gives "An unexpected error occurred"; each of the three known messages gives its fixed sentence; the text differs from the message exactly for those three and the empty one |
| `Errors.ProfileErrorText` | script.js:59-113 | the banner for each failed profile status: the 404, 403 and 500/502/503 sentences, otherwise "GitHub API error: <status>" |
| `Errors.ReposErrorText` | script.js:80-113 | a repositories failure message reaches the banner unchanged |
| `Errors.FetchUserData` | script.js:52-120 | the panels are shown exactly when both replies are successful responses, and then with their bodies; otherwise the banner text is non-empty; a rejected fetch (the profile's, or the repositories' after a good profile) shows the catch block's sentence for the rejection's message |
| `Errors.FetchUserDataErrors` | script.js:52-120 | a failed profile response decides the banner whatever the repositories reply; it gives the banner for each status class; a failed repositories response after a good profile shows "Repositories fetch error: <status>" |
| `Search.TrimCorrect` | script.js:35 | `trim` returns a slice of the input that neither starts nor ends with white space, and everything cut off is white space |
| `Search.TrimEmpty` | script.js:35-36 | the trimmed username is empty exactly when the input is white space only |
| `Search.SearchRequest` | script.js:34-36 | no search starts exactly when the input is white space only; otherwise the username searched for is exactly the trimmed input, non-empty and without white space at either end |

## Left out

- DOM reads and writes, event listeners and the `setTimeout` reveal animations (script.js:1-50, 148-149, 160, 197-226) have no data contract.
- The theme toggle, `updateThemeIcon` and `initTheme` (script.js:13-24, 331-342) depend on the browser's media query and class list.
- `displayUserProfile` and `renderReposHTML` (script.js:122-150, 264-306) are markup templating and are not modelled.
- Network I/O is a parameter: `fetch` becomes a `Reply`, either a response with a status and an already decoded body, or a rejection with its message. JSON decoding and its failures (`.json()`, script.js:73, 84) are not modelled.
- The URL building and the fixed page size of 12 (script.js:11, 55, 77) are not modelled.
- `new Date(updated_at)` parsing and a NaN comparator result (script.js:257) are not modelled, because `updatedAt` is an integer timestamp.
- Overlapping searches race, last write wins (script.js:34-50). Concurrency is not modelled.
- `console.error` (script.js:118) is diagnostic output only.
- `Languages.NonNullLanguages` models a missing field as `null`. The source's `!== null` would keep `undefined`, but the API always sends the `language` field.
- `Errors.FetchUserData` takes the repositories reply as a parameter even when the profile failed. In the source that second request is then never made; `FetchUserDataErrors` proves the reply is ignored in that case.
- Counts and timestamps are unbounded integers. JavaScript numbers are exact only below 2^53, which API values stay under.
- The selected language round-trips through an HTML `value` attribute. A language containing a quote character would not survive that, and this is not modelled.

## Findings

| source | as written | input that shows it | evidently intended | confidence | as-written member | corrected member |
|---|---|---|---|---|---|---|
| script.js:328 | `colors[language] \|\| "#6E40C9"` reads through the prototype chain of the object literal. An inherited name yields a truthy function or object, so the fallback never applies to it. | `"toString"` (likewise `"constructor"`, `"valueOf"`, `"__proto__"`, ...) returns a function, which the card then writes into its `background-color` | `#6E40C9` for every language outside the 15-entry table | not executed; GitHub's language names do not collide with these property names, so the impact is theoretical | `Languages.AsWrittenReturnsFunction` | `Languages.LanguageColor` |
