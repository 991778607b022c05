# Bible notes app: note ranking, chapter grouping and base URL, in Dafny

This project models the in-memory logic of a small reading and annotation web
application. The application lists the books and chapters of a Bible. Visitors
can attach notes to verses and star the notes they like. Three pieces of
its code are modelled:

- **`GET /api/notes`** (`app/api/notes/route.ts`) takes a book id, a chapter
  number and an optional viewer id. It fetches the chapter's notes, the star
  rows of those notes and, for a viewer who is not blank, that viewer's own
  star rows. It counts the stars per note in a `Map` and collects the viewer's
  starred note ids in a `Set`. It adds `stars_count` and `starred_by_me` to
  each note. It sorts the notes by star count, most first, and breaks ties by
  the `created_at` string, earliest first. Non-finite parameters get a 400
  "bad params" answer before any query is sent. A chapter with no notes gets
  an empty list, and the star tables are never read.
- **`POST /api/notes`** checks the JSON body. The three numbers must be finite
  and the content must not be blank once trimmed. A bad body gets 400
  "bad body". A good body is inserted with its content trimmed.
- **The home page** (`app/page.tsx`) falls back to an empty list when the
  books or chapters response is not `ok`. It groups the chapters into a `Map`
  keyed by `book_id`, appending to each group in list order. It then sorts
  every group in place by `chapter_number`. A book with no group is shown
  with an empty chapter list.
- **`getBaseUrl`** (`lib/url.ts`) picks a base URL in a fixed order. First
  comes `NEXT_PUBLIC_SITE_URL`, trimmed, with one trailing slash removed.
  Next comes `https://` followed by `VERCEL_URL`, trimmed. Last comes
  `http://127.0.0.1:3010`.

Every database call becomes a parameter holding its answer
(`NotesRoute.StoreResult`: the rows, or the store's error message). The
handlers also return the list of queries they send, in order
(`NotesRoute.Query`). That list is how the model states that a query is or
is not sent. The two environment variables are `Option<string>` parameters.
JavaScript's `Number(string)` and `String(number)` are parameters too
(`Js.Coercion`). The other coercion cases are written out in `Js.ToNumber`
and `Js.ToText`: `undefined` becomes NaN, `null` becomes 0, and booleans
become 0 or 1.

Modules, one per source file or shared concern:

- `Wrappers`: `Option`.
- `Text`: `trim` over a fixed whitespace predicate, and the lexical order that
  stands in for `localeCompare`.
- `Sorting`: `Array.prototype.sort` with a comparator, modelled as a stable
  insertion sort.
- `Js`: the coercions `Number(v)` and `String(v ?? "")`.
- `Url`: `lib/url.ts`.
- `NotesRoute`: `app/api/notes/route.ts`.
- `Home`: the data preparation in `app/page.tsx`.

The source keeps its counting loop and its two grouping loops as statements
that change local state. The model does the same: `NotesRoute.CountStars`,
`Home.GroupByBook` and `Home.SortGroups` are methods with loops and loop
invariants. Each one is proved against a specification function
(`StarCounts`, `Grouped`, `SortedGroups`). The lemmas then prove the
properties the code promises about those functions. The merge, the sort and
the validators are expressions in the source, so they are functions here.

## Model

| member | source | states |
|---|---|---|
| `Text.IsSpace` | app/api/notes/route.ts:9 | the whitespace set `trim` removes; used by `TrimSpec` and `TrimEmptyIffBlank` |
| `Text.Trim` | app/api/notes/route.ts:84 | `String.prototype.trim`; specified by `TrimSpec` (what is cut and what is kept) and `TrimEmptyIffBlank` (when the result is falsy) |
| `Text.Trimmed` | lib/url.ts:4 | `v?.trim()` and `String(v ?? "").trim()` on an optional string, where an absent value reads as the empty string; one definition used by the URL helper and by `GET` (route.ts:9) |
| `Text.LeadingSpaces` | app/api/notes/route.ts:9 | the count of leading characters cut by `trim`: all of them are whitespace, and the next one is not |
| `Text.TrailingSpaces` | app/api/notes/route.ts:84 | the same, at the end of the string |
| `Text.TrimSpec` | lib/url.ts:4 | `trim` returns a slice of its input; everything cut off is whitespace; the result neither starts nor ends with whitespace |
| `Text.TrimEmptyIffBlank` | app/api/notes/route.ts:90 | a trimmed string is empty (falsy) exactly when the input is all whitespace |
| `Text.LexLeq` | app/api/notes/route.ts:72 | `a.localeCompare(b) <= 0`, taken as plain lexical order on characters; its totality and transitivity are proved in the next two rows |
| `Text.LexLeqTotal` | app/api/notes/route.ts:72 | any two `created_at` strings are comparable under the tie-break order |
| `Text.LexLeqTransitive` | app/api/notes/route.ts:72 | the tie-break order is transitive |
| `Sorting.Project` | app/api/notes/route.ts:64-69 | `s.map(f)` has the length of `s`, and element `i` is `f(s[i])` |
| `Sorting.Insert` | app/api/notes/route.ts:70-73 | one insertion step adds exactly the inserted element to the multiset |
| `Sorting.Sort` | app/api/notes/route.ts:70-73 | the sort returns a permutation of its input, of the same length |
| `Sorting.InsertSorted` | app/page.tsx:44 | inserting into a sorted list under a total preorder keeps it sorted |
| `Sorting.SortSorted` | app/page.tsx:44 | the sort's output is ordered (pairwise, not just adjacent elements) by any total-preorder comparator |
| `Sorting.InsertProject` | app/api/notes/route.ts:64-73 | inserting and then mapping gives the mapped list plus the mapped element |
| `Sorting.SortProject` | app/api/notes/route.ts:64-73 | sorting and then mapping gives a permutation of the mapped input |
| `Js.ToNumber` | app/api/notes/route.ts:81-83 | `Number(v)` for a JSON field: `undefined` is NaN, `null` is 0, booleans are 0 or 1, strings go through the parsing parameter; `EmptyBodyRejected` relies on the `undefined` case |
| `Js.ToText` | app/api/notes/route.ts:84 | `String(v ?? "")`: an absent or `null` field becomes the empty string; `PostRejection` states the rejection in its terms |
| `Js.ParamToNumber` | app/api/notes/route.ts:7-8 | `Number(searchParams.get(name))`: a missing parameter is `Number(null) == 0`; `MissingParamsReadAsZero` states that case |
| `Url.StripTrailingSlash` | lib/url.ts:5 | `replace(/\/$/, "")` removes one final `/` if there is one and otherwise changes nothing |
| `Url.GetBaseUrl` | lib/url.ts:2-13 | a non-blank site URL is returned with one final slash removed; otherwise a non-blank Vercel host is returned as `https://` plus the host; otherwise `http://127.0.0.1:3010` |
| `Url.SiteUrlTakesPrecedence` | lib/url.ts:4-9 | with a non-blank site URL, the Vercel value never changes the result |
| `Url.OnlyOneSlashStripped` | lib/url.ts:5 | a site URL ending in `//` keeps one slash, and the result is one character shorter |
| `Url.BlankIsUnset` | lib/url.ts:4-12 | variables that are unset, empty or only whitespace give the local fallback |
| `NotesRoute.ParseListParams` | app/api/notes/route.ts:7-13 | the parameter gate: both numbers finite, viewer id trimmed; specified by `ListNotesBadParams` and `MissingParamsReadAsZero` |
| `NotesRoute.NoteIds` | app/api/notes/route.ts:26 | `notes.map(n => n.id)`, the id list both star queries filter on |
| `NotesRoute.StarCounts` | app/api/notes/route.ts:42-46 | the map the counting loop builds, as a value; `Get` proves the map from `CountStars` equal to it, and `StarCountsCount` states what it gives each id |
| `NotesRoute.CountOf` | app/api/notes/route.ts:67 | `countMap.get(id) ?? 0`; used by `RankedFields` and `StarCountsCount` |
| `NotesRoute.CountStars` | app/api/notes/route.ts:42-46 | the counting loop's map holds, for each note id, the number of star rows with that id (`get(id) ?? 0`); its keys are exactly the ids that occur |
| `NotesRoute.ViewerStarred` | app/api/notes/route.ts:48-62 | the final `starredSet`: empty for a blank viewer, else the viewer's starred ids; `ListNotesStarredByMe` states it per note |
| `NotesRoute.Rank` | app/api/notes/route.ts:65-69 | one merged row: the note with `stars_count` and `starred_by_me`; specified by `RankedFields` |
| `NotesRoute.Merge` | app/api/notes/route.ts:64-69 | the `notes.map(...)` step; specified by `RankedFields` and `RankedPermutes` |
| `NotesRoute.RankLeq` | app/api/notes/route.ts:70-73 | the sort comparator, as a `<= 0` test: more stars first, then `created_at` in lexical order; `RankLeqIsTotalPreorder` proves it a total preorder |
| `NotesRoute.Ranked` | app/api/notes/route.ts:64-73 | merge then sort; specified by `RankedPermutes`, `RankedFields` and `RankedSorted` |
| `NotesRoute.ListNotes` | app/api/notes/route.ts:4-76 | the whole `GET` as a value, with the response and the queries sent; `Get` is proved equal to it, and the `ListNotes...` lemmas state its properties |
| `NotesRoute.ListChapterNotes` | app/api/notes/route.ts:15-75 | past the gate, the first query is always the chapter's notes; a failure past the gate is always a 500; at most three queries are sent, and a third (the viewer's stars) is sent only for a non-blank viewer |
| `NotesRoute.Get` | app/api/notes/route.ts:4-76 | the handler, with its counting loop and its reassigned starred set, returns the response and the query list that `ListNotes` specifies |
| `NotesRoute.RankLeqIsTotalPreorder` | app/api/notes/route.ts:70-73 | the comparator (star count descending, then `created_at` ascending) is total and transitive |
| `NotesRoute.RankedPermutes` | app/api/notes/route.ts:64-73 | after merging and sorting, the note rows are a permutation of the fetched rows, and no field is changed |
| `NotesRoute.RankedFields` | app/api/notes/route.ts:66-68 | every merged note carries `countMap.get(id) ?? 0` and `starredSet.has(id)` for its own id |
| `NotesRoute.RankedSorted` | app/api/notes/route.ts:70-73 | the merged list comes out in comparator order |
| `NotesRoute.StarCountsCount` | app/api/notes/route.ts:67 | the count map gives each id its number of star rows, and 0 for an id with no star rows |
| `NotesRoute.ListNotesOkShape` | app/api/notes/route.ts:25-75 | a successful answer is empty exactly when no notes were fetched; otherwise it is the fetched notes ranked with the fetched star rows and the viewer's starred set |
| `NotesRoute.ListNotesBadParams` | app/api/notes/route.ts:7-13 | no query is sent exactly when `bookId` or `chapterNumber` is not finite, and then the answer is 400 "bad params"; otherwise the first query asks for that book and chapter |
| `NotesRoute.MissingParamsReadAsZero` | app/api/notes/route.ts:7-8 | parameters that are absent read as `Number(null) == 0`, pass the gate, and ask for book 0, chapter 0 |
| `NotesRoute.ListNotesEmptyChapter` | app/api/notes/route.ts:25-30 | a chapter with no notes gets `{ok: true, data: []}` after the notes query alone, so the star tables are never read |
| `NotesRoute.ListNotesFailures` | app/api/notes/route.ts:21-23 | every failure is either 400 "bad params" with no query sent, or a 500 carrying one store error message unchanged |
| `NotesRoute.ListNotesFirstFailureStops` | app/api/notes/route.ts:21-59 | past the gate, the handler stops at the first store error: a failed notes query answers 500 with its own message after one query, a failed star query (after notes were found) after two, and a failed viewer query (for a non-blank viewer) after three |
| `NotesRoute.ListNotesStarCounts` | app/api/notes/route.ts:42-46 | every listed note's `stars_count` is the number of fetched star rows whose `note_id` is its id |
| `NotesRoute.ListNotesStarredByMe` | app/api/notes/route.ts:48-62 | `starred_by_me` is true exactly when the trimmed viewer id is non-empty and the viewer's star rows contain the note's id |
| `NotesRoute.BlankViewerChapterQueries` | app/api/notes/route.ts:50-62 | past the gate, an empty viewer id sends no query for the viewer's stars |
| `NotesRoute.BlankViewerNotQueried` | app/api/notes/route.ts:50 | a viewer id that trims to empty never sends the viewer's star query |
| `NotesRoute.ListNotesPermutation` | app/api/notes/route.ts:64-69 | the listed notes, without the two added fields, are a permutation of the fetched notes: each appears once, unchanged |
| `NotesRoute.ListNotesOrdered` | app/api/notes/route.ts:70-73 | in the listed notes, `stars_count` never increases, and equal counts are in ascending `created_at` order |
| `NotesRoute.ValidateBody` | app/api/notes/route.ts:81-93 | the body gate: the three numbers converted, the content trimmed; rejection is specified by `PostRejection` and acceptance by `PostInsertsTrimmed` |
| `NotesRoute.Post` | app/api/notes/route.ts:78-111 | the `POST` handler, with its response and queries sent; specified by `PostRejection`, `PostInsertsTrimmed` and `EmptyBodyRejected` |
| `NotesRoute.PostRejection` | app/api/notes/route.ts:81-93 | `POST` answers 400 "bad body" exactly when a number is not finite or the content is all whitespace, and exactly then sends no insert |
| `NotesRoute.PostInsertsTrimmed` | app/api/notes/route.ts:95-110 | an accepted body sends exactly one insert holding the three numbers and the trimmed content, which is not blank, and answers with the store's row or its error as a 500 |
| `NotesRoute.EmptyBodyRejected` | app/api/notes/route.ts:79-93 | a body that is not JSON (read as `{}`) is rejected, because `Number(undefined)` is NaN |
| `Home.DataOrEmpty` | app/page.tsx:33-34 | `res.ok ? res.data : []`; `HomePage` and `FailedChaptersLeaveNoGroups` state its effect |
| `Home.ChaptersOfBook` | app/page.tsx:37-42 | the chapters collected for a book are taken from the list and all have that `book_id` |
| `Home.ChaptersOfMissingBook` | app/page.tsx:65 | a book id that no chapter has collects no chapters |
| `Home.ChaptersOfBookSnoc` | app/page.tsx:39-40 | appending a chapter to the list appends it to its own book's chapters only |
| `Home.GroupedSnoc` | app/page.tsx:38-41 | one iteration of the first loop: the chapter is pushed onto its book's group, and the group is created when missing |
| `Home.Grouped` | app/page.tsx:37-42 | the map the first loop builds, as a value; `GroupByBook` is proved to build it |
| `Home.KeyOrder` | app/page.tsx:37-43 | the book ids in order of first appearance, which is the order the first loop sets keys and `byBook.entries()` visits them |
| `Home.KeyOrderSnoc` | app/page.tsx:39-41 | one more chapter appends its book id to the key order only if the id is new |
| `Home.KeyOrderByFirstAppearance` | app/page.tsx:37-43 | the keys first set by a prefix of the list come first, in the same order, and are exactly that prefix's book ids |
| `Home.ChaptersOfBookCount` | app/page.tsx:37-42 | a book's group holds each of its chapters as many times as the list does, and no chapter of another book |
| `Home.GroupByBook` | app/page.tsx:37-42 | the first loop builds exactly the map from each book id present to its chapters in list order; the keys are `KeyOrder` of the list (the order in which they are first set), with no repeats, and are exactly the map's keys |
| `Home.ChapterLeq` | app/page.tsx:44 | the comparator `a.chapter_number - b.chapter_number`, as a `<= 0` test |
| `Home.SortChapters` | app/page.tsx:44 | `arr.sort(...)` by chapter number; `GroupsSortedByChapterNumber` proves its output ordered and `GroupingKeepsMultiplicity` proves nothing is lost |
| `Home.SortGroups` | app/page.tsx:43-46 | the second loop visits every entry and replaces each group by its sorted form; the key set is unchanged |
| `Home.SortedGroups` | app/page.tsx:43-46 | the map once every group is sorted, as a value; `HomePage` is proved to produce it |
| `Home.SortingGroupedGivesSortedGroups` | app/page.tsx:37-46 | the two loops together give `SortedGroups` of the chapter list |
| `Home.HomePage` | app/page.tsx:33-46 | a response that is not `ok` gives an empty list; the chapter map is the sorted grouping of the chapter list |
| `Home.ChaptersFor` | app/page.tsx:65 | `byBook.get(id) ?? []`; specified by `ChaptersForBook` |
| `Home.EveryChapterInItsGroup` | app/page.tsx:37-42 | every chapter lies in the group keyed by its own `book_id` |
| `Home.GroupMembersShareKey` | app/page.tsx:37-42 | every member of group `k` has `book_id == k` and comes from the list; no group is empty |
| `Home.GroupingKeepsMultiplicity` | app/page.tsx:38-42 | a chapter appears in its book's group exactly as often as in the input; since groups hold only their own book's chapters, the union of all groups is the input multiset |
| `Home.GroupsSortedByChapterNumber` | app/page.tsx:43-46 | the keys are exactly the book ids present, and every group is in ascending `chapter_number` order |
| `Home.ChaptersForBook` | app/page.tsx:65 | the list shown for a book is that book's chapters sorted by number; a book with no chapters shows an empty list |
| `Home.FailedChaptersLeaveNoGroups` | app/page.tsx:34 | when the chapters response is not `ok`, every book shows an empty chapter list |

## Left out

- Database access (the Supabase client, its filters and ordering) and HTTP
  plumbing (`NextResponse`, `fetch`, JSON parsing beyond the fields read) are
  replaced by parameters. The model does not check that the store applies
  `.eq`/`.in` correctly.
- `Number(string)` parsing and `String(number)` formatting are abstract
  parameters. Body fields that are arrays or objects (whose `Number` goes
  through their string form) are not among the modelled JSON values.
  Non-integer finite numbers such as 1.5 pass both gates, as in the source,
  and reach the store as they are.
- `trim` removes a fixed set of whitespace characters: space, tab, line feed,
  carriage return, vertical tab, form feed, no-break space, byte-order mark,
  and the line and paragraph separators. The rest of Unicode's space
  separators are not included.
- `localeCompare` is modelled as plain lexical comparison of characters.
  Its locale-dependent collation is not modelled.
- `Sorting.Sort`: stability is not stated. The insertion sort keeps equal
  elements in input order, as ES2019 `Array.prototype.sort` does, but no
  lemma says so. Notes whose star count and `created_at` are both equal
  therefore have no proved relative order.
- `Home.SortGroups`: `arr.sort` works in place on the array stored in the
  map. The model replaces the map entry with a sorted copy, so aliasing
  between the array and the map entry is not modelled. The loop goes through
  the keys in `Home.KeyOrder`, the order in which they were first set, which
  is the order `Map.entries()` uses.
- `Text.LexLeq`: antisymmetry is not claimed. Collation can rank two distinct
  strings as equal, and the model's ordering lemmas need only totality and
  transitivity.
- `NotesRoute.Note`: `created_at` is a string and is assumed non-null. The
  client type allows `null`, which `String(...)` would sort as `"null"`, but
  the store always fills in the timestamp.
- `JSON.stringify` of the response and the `?? []` guards against a `null`
  `data` in a successful store answer are left out: a successful answer
  always carries rows in this model.
- The JSX rendering of the home page, `app/layout.tsx`, `app/books/page.tsx`
  and `app/login/page.tsx` are rendering, concurrency or browser state.
  `app/api/chapters/route.ts` and `app/api/verses/route.ts` only pass queries
  through to the store. The star toggle (`app/api/notes/[id]/star/route.ts`)
  and note deletion (`app/api/notes/[id]/route.ts`) are not part of this
  model.
