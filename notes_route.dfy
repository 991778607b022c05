/**
 * The `/api/notes` route: `GET` lists a chapter's notes ranked by stars,
 * `POST` validates and inserts a new note.
 *
 * Every database call is replaced by its outcome, passed in as a parameter
 * (`StoreResult`); the handlers also return the queries they issue, in order,
 * so that "no query is issued" and "the star tables are not consulted" are
 * statements about that list.
 */
module NotesRoute {
  import opened Wrappers
  import opened Text
  import opened Js
  import Sorting

  /** A row of the `notes` table, as `GET` and `POST` select it. */
  datatype Note = Note(id: int, bookId: int, chapterNumber: int, verseNumber: int, content: string, createdAt: string)

  /** A note as `GET` returns it: the row, plus `stars_count` and `starred_by_me`. */
  datatype RankedNote = RankedNote(note: Note, starsCount: nat, starredByMe: bool)

  /** The row `POST` asks the store to insert. */
  datatype NewNote = NewNote(bookId: real, chapterNumber: real, verseNumber: real, content: string)

  /** A query sent to the store. */
  datatype Query =
    | SelectChapterNotes(bookId: real, chapterNumber: real)
    | SelectStars(noteIds: seq<int>)
    | SelectViewerStars(noteIds: seq<int>, userId: string)
    | InsertNote(row: NewNote)

  /** What the store answered: the rows, or its error message. */
  datatype StoreResult<T> = Rows(rows: T) | StoreError(message: string)

  /** The JSON response: `{ok: true, data}` or `{ok: false, error}` with its HTTP status. */
  datatype Response<T> = Ok(data: T) | Fail(status: nat, error: string)

  datatype ListParams = ListParams(bookId: real, chapterNumber: real, userId: string)

  // ---------------------------------------------------------------- GET

  /** The query-parameter gate: both numbers finite; the viewer id trimmed. */
  function ParseListParams(bookId: Option<string>, chapterNumber: Option<string>, userId: Option<string>, c: Coercion): Option<ListParams> {
    var b := ParamToNumber(bookId, c);
    var ch := ParamToNumber(chapterNumber, c);
    if b.Finite? && ch.Finite? then Some(ListParams(b.value, ch.value, Trimmed(userId))) else None
  }

  function NoteIds(notes: seq<Note>): seq<int> {
    seq(|notes|, i requires 0 <= i < |notes| => notes[i].id)
  }

  /** `countMap.get(id) ?? 0`. */
  function CountOf(counts: map<int, nat>, id: int): nat {
    if id in counts then counts[id] else 0
  }

  /** The map the counting loop builds: each note id that has star rows, with how many. */
  ghost function StarCounts(stars: seq<int>): map<int, nat> {
    map id | id in stars :: multiset(stars)[id]
  }

  /** The loop over the star rows that fills `countMap`. */
  method CountStars(stars: seq<int>) returns (counts: map<int, nat>)
    ensures counts.Keys == set id | id in stars
    ensures forall id :: CountOf(counts, id) == multiset(stars)[id]
  {
    counts := map[];
    for i := 0 to |stars|
      invariant counts.Keys == set id | id in stars[..i]
      invariant forall id :: CountOf(counts, id) == multiset(stars[..i])[id]
    {
      assert stars[..i + 1] == stars[..i] + [stars[i]];
      var nid := stars[i];
      counts := counts[nid := CountOf(counts, nid) + 1];
    }
    assert stars[..|stars|] == stars;
  }

  function Rank(n: Note, counts: map<int, nat>, starred: set<int>): RankedNote {
    RankedNote(n, CountOf(counts, n.id), n.id in starred)
  }

  /** `notes.map(n => ({...n, stars_count, starred_by_me}))`. */
  function Merge(notes: seq<Note>, counts: map<int, nat>, starred: set<int>): seq<RankedNote> {
    seq(|notes|, i requires 0 <= i < |notes| => Rank(notes[i], counts, starred))
  }

  /** The comparator as a `<= 0` test: more stars first; equal counts by `created_at`, earliest string first. */
  predicate RankLeq(a: RankedNote, b: RankedNote) {
    a.starsCount > b.starsCount
    || (a.starsCount == b.starsCount && LexLeq(a.note.createdAt, b.note.createdAt))
  }

  function Ranked(notes: seq<Note>, counts: map<int, nat>, starred: set<int>): seq<RankedNote> {
    Sorting.Sort(Merge(notes, counts, starred), RankLeq)
  }

  function NoteOf(r: RankedNote): Note {
    r.note
  }

  /** The rows a response carries, without the two derived fields. */
  function Plain(s: seq<RankedNote>): seq<Note> {
    Sorting.Project(s, NoteOf)
  }

  /** The note ids the viewer starred, as far as `GET` reads them (none for a blank viewer id). */
  ghost function ViewerStarred(userId: Option<string>, viewerRes: StoreResult<seq<int>>): set<int> {
    if Trimmed(userId) == "" || viewerRes.StoreError? then {} else set id | id in viewerRes.rows
  }

  /** What `GET` answers and which queries it issues, stated over the store's answers. */
  ghost function ListNotes(
    bookId: Option<string>, chapterNumber: Option<string>, userId: Option<string>, c: Coercion,
    notesRes: StoreResult<seq<Note>>, starsRes: StoreResult<seq<int>>, viewerRes: StoreResult<seq<int>>
  ): (Response<seq<RankedNote>>, seq<Query>)
  {
    match ParseListParams(bookId, chapterNumber, userId, c)
    case None => (Fail(400, "bad params"), [])
    case Some(p) => ListChapterNotes(p, notesRes, starsRes, viewerRes)
  }

  /** `GET` past the parameter gate. */
  ghost function ListChapterNotes(
    p: ListParams, notesRes: StoreResult<seq<Note>>, starsRes: StoreResult<seq<int>>, viewerRes: StoreResult<seq<int>>
  ): (r: (Response<seq<RankedNote>>, seq<Query>))
    ensures |r.1| >= 1 && r.1[0] == SelectChapterNotes(p.bookId, p.chapterNumber)
    ensures r.0.Fail? ==> r.0.status == 500
    ensures |r.1| <= 3 && (|r.1| >= 2 ==> r.1[1].SelectStars?)
    ensures |r.1| == 3 ==> r.1[2].SelectViewerStars? && p.userId != ""
  {
    var q1 := [SelectChapterNotes(p.bookId, p.chapterNumber)];
    match notesRes
    case StoreError(m) => (Fail(500, m), q1)
    case Rows(notes) =>
      if |notes| == 0 then (Ok([]), q1)
      else
        var q2 := q1 + [SelectStars(NoteIds(notes))];
        match starsRes
        case StoreError(m) => (Fail(500, m), q2)
        case Rows(stars) =>
          if p.userId == "" then (Ok(Ranked(notes, StarCounts(stars), {})), q2)
          else
            var q3 := q2 + [SelectViewerStars(NoteIds(notes), p.userId)];
            match viewerRes
            case StoreError(m) => (Fail(500, m), q3)
            case Rows(mine) => (Ok(Ranked(notes, StarCounts(stars), set id | id in mine)), q3)
  }

  /** The `GET` handler. */
  method Get(
    bookId: Option<string>, chapterNumber: Option<string>, userId: Option<string>, c: Coercion,
    notesRes: StoreResult<seq<Note>>, starsRes: StoreResult<seq<int>>, viewerRes: StoreResult<seq<int>>
  ) returns (resp: Response<seq<RankedNote>>, queries: seq<Query>)
    ensures (resp, queries) == ListNotes(bookId, chapterNumber, userId, c, notesRes, starsRes, viewerRes)
  {
    var params := ParseListParams(bookId, chapterNumber, userId, c);
    if params.None? {
      return Fail(400, "bad params"), [];
    }
    var p := params.value;
    queries := [SelectChapterNotes(p.bookId, p.chapterNumber)];
    if notesRes.StoreError? {
      return Fail(500, notesRes.message), queries;
    }
    var notes := notesRes.rows;
    var noteIds := NoteIds(notes);
    if |noteIds| == 0 {
      return Ok([]), queries;
    }
    queries := queries + [SelectStars(noteIds)];
    if starsRes.StoreError? {
      return Fail(500, starsRes.message), queries;
    }
    var countMap := CountStars(starsRes.rows);
    forall id | id in countMap
      ensures countMap[id] == StarCounts(starsRes.rows)[id]
    {
      assert CountOf(countMap, id) == countMap[id];
    }
    assert countMap == StarCounts(starsRes.rows);
    var starredSet: set<int> := {};
    if p.userId != "" {
      queries := queries + [SelectViewerStars(noteIds, p.userId)];
      if viewerRes.StoreError? {
        return Fail(500, viewerRes.message), queries;
      }
      starredSet := set id | id in viewerRes.rows;
    }
    resp := Ok(Ranked(notes, countMap, starredSet));
  }

  // ------------------------------------------------------- GET, proved

  lemma RankLeqIsTotalPreorder()
    ensures Sorting.TotalPreorder(RankLeq)
  {
    forall a, b
      ensures RankLeq(a, b) || RankLeq(b, a)
    {
      LexLeqTotal(a.note.createdAt, b.note.createdAt);
    }
    forall a, b, c | RankLeq(a, b) && RankLeq(b, c)
      ensures RankLeq(a, c)
    {
      if a.starsCount == b.starsCount == c.starsCount {
        LexLeqTransitive(a.note.createdAt, b.note.createdAt, c.note.createdAt);
      }
    }
  }

  /** Ranking rearranges the fetched notes and changes none of their fields. */
  lemma RankedPermutes(notes: seq<Note>, counts: map<int, nat>, starred: set<int>)
    ensures multiset(Plain(Ranked(notes, counts, starred))) == multiset(notes)
  {
    var m := Merge(notes, counts, starred);
    Sorting.SortProject(m, RankLeq, NoteOf);
    assert forall i | 0 <= i < |notes| :: Plain(m)[i] == NoteOf(m[i]) == notes[i];
    assert Plain(m) == notes;
  }

  /** Every ranked note carries its own count and starred flag. */
  lemma RankedFields(notes: seq<Note>, counts: map<int, nat>, starred: set<int>)
    ensures forall x | x in Ranked(notes, counts, starred) ::
      x.starsCount == CountOf(counts, x.note.id) && x.starredByMe == (x.note.id in starred)
  {
    var m := Merge(notes, counts, starred);
    var r := Ranked(notes, counts, starred);
    forall x | x in r
      ensures x.starsCount == CountOf(counts, x.note.id) && x.starredByMe == (x.note.id in starred)
    {
      assert x in multiset(r);
      assert x in m;
    }
  }

  /** Ranked notes are in comparator order. */
  lemma RankedSorted(notes: seq<Note>, counts: map<int, nat>, starred: set<int>)
    ensures Sorting.SortedBy(Ranked(notes, counts, starred), RankLeq)
  {
    RankLeqIsTotalPreorder();
    Sorting.SortSorted(Merge(notes, counts, starred), RankLeq);
  }

  lemma StarCountsCount(stars: seq<int>, id: int)
    ensures CountOf(StarCounts(stars), id) == multiset(stars)[id]
  {
    if id !in stars {
      assert id !in multiset(stars);
    }
  }

  /** When `GET` lists notes, they are the fetched notes ranked with the fetched star rows. */
  lemma ListNotesOkShape(
    bookId: Option<string>, chapterNumber: Option<string>, userId: Option<string>, c: Coercion,
    notesRes: StoreResult<seq<Note>>, starsRes: StoreResult<seq<int>>, viewerRes: StoreResult<seq<int>>)
    requires ListNotes(bookId, chapterNumber, userId, c, notesRes, starsRes, viewerRes).0.Ok?
    ensures var resp := ListNotes(bookId, chapterNumber, userId, c, notesRes, starsRes, viewerRes).0;
      && notesRes.Rows?
      && (resp.data == [] <==> notesRes.rows == [])
      && (resp.data != [] ==>
            && starsRes.Rows?
            && (Trimmed(userId) != "" ==> viewerRes.Rows?)
            && resp.data == Ranked(notesRes.rows, StarCounts(starsRes.rows), ViewerStarred(userId, viewerRes)))
  {
    var p := ParseListParams(bookId, chapterNumber, userId, c).value;
    assert p.userId == Trimmed(userId);
    if notesRes.Rows? && notesRes.rows != [] {
      assert |Ranked(notesRes.rows, StarCounts(starsRes.rows), ViewerStarred(userId, viewerRes))| == |notesRes.rows|;
    }
  }

  /** Non-finite `bookId` or `chapterNumber`: 400 "bad params", and the store is not queried. */
  lemma ListNotesBadParams(
    bookId: Option<string>, chapterNumber: Option<string>, userId: Option<string>, c: Coercion,
    notesRes: StoreResult<seq<Note>>, starsRes: StoreResult<seq<int>>, viewerRes: StoreResult<seq<int>>)
    ensures var (resp, queries) := ListNotes(bookId, chapterNumber, userId, c, notesRes, starsRes, viewerRes);
      && (queries == [] <==> !ParamToNumber(bookId, c).Finite? || !ParamToNumber(chapterNumber, c).Finite?)
      && (queries == [] ==> resp == Fail(400, "bad params"))
      && (queries != [] ==> queries[0] == SelectChapterNotes(ParamToNumber(bookId, c).value, ParamToNumber(chapterNumber, c).value))
  {
  }

  /**
   * `Number(null)` is 0: a request without `bookId` and `chapterNumber` passes the
   * gate and asks for the notes of book 0, chapter 0.
   */
  lemma MissingParamsReadAsZero(
    userId: Option<string>, c: Coercion,
    notesRes: StoreResult<seq<Note>>, starsRes: StoreResult<seq<int>>, viewerRes: StoreResult<seq<int>>)
    ensures var (resp, queries) := ListNotes(None, None, userId, c, notesRes, starsRes, viewerRes);
      resp != Fail(400, "bad params") && queries != [] && queries[0] == SelectChapterNotes(0.0, 0.0)
  {
    var p := ListParams(0.0, 0.0, Trimmed(userId));
    assert ParseListParams(None, None, userId, c) == Some(p);
    var r := ListChapterNotes(p, notesRes, starsRes, viewerRes);
    assert ListNotes(None, None, userId, c, notesRes, starsRes, viewerRes) == r;
  }

  /** A chapter without notes: an empty list, and neither star query is issued. */
  lemma ListNotesEmptyChapter(
    bookId: Option<string>, chapterNumber: Option<string>, userId: Option<string>, c: Coercion,
    starsRes: StoreResult<seq<int>>, viewerRes: StoreResult<seq<int>>)
    requires ParamToNumber(bookId, c).Finite? && ParamToNumber(chapterNumber, c).Finite?
    ensures var (resp, queries) := ListNotes(bookId, chapterNumber, userId, c, Rows([]), starsRes, viewerRes);
      resp == Ok([]) && queries == [SelectChapterNotes(ParamToNumber(bookId, c).value, ParamToNumber(chapterNumber, c).value)]
  {
  }

  /** Each failure is the parameter error or a store error passed through verbatim with status 500. */
  lemma ListNotesFailures(
    bookId: Option<string>, chapterNumber: Option<string>, userId: Option<string>, c: Coercion,
    notesRes: StoreResult<seq<Note>>, starsRes: StoreResult<seq<int>>, viewerRes: StoreResult<seq<int>>)
    ensures var (resp, queries) := ListNotes(bookId, chapterNumber, userId, c, notesRes, starsRes, viewerRes);
      resp.Fail? ==>
        || (resp == Fail(400, "bad params") && queries == [])
        || (resp.status == 500 &&
            (notesRes == StoreError(resp.error) || starsRes == StoreError(resp.error) || viewerRes == StoreError(resp.error)))
  {
  }

  /**
   * Past the gate, the handler stops at the first store error: it answers 500
   * with that query's own message, and sends no query after the failed one.
   */
  lemma ListNotesFirstFailureStops(
    bookId: Option<string>, chapterNumber: Option<string>, userId: Option<string>, c: Coercion,
    notesRes: StoreResult<seq<Note>>, starsRes: StoreResult<seq<int>>, viewerRes: StoreResult<seq<int>>)
    requires ParamToNumber(bookId, c).Finite? && ParamToNumber(chapterNumber, c).Finite?
    ensures var (resp, queries) := ListNotes(bookId, chapterNumber, userId, c, notesRes, starsRes, viewerRes);
      && (notesRes.StoreError? ==> resp == Fail(500, notesRes.message) && |queries| == 1)
      && (notesRes.Rows? && notesRes.rows != [] && starsRes.StoreError? ==>
            resp == Fail(500, starsRes.message) && |queries| == 2)
      && (notesRes.Rows? && notesRes.rows != [] && starsRes.Rows? && Trimmed(userId) != "" && viewerRes.StoreError? ==>
            resp == Fail(500, viewerRes.message) && |queries| == 3)
  {
  }

  /** Every listed note's `stars_count` is the number of star rows with its id (0 with none). */
  lemma ListNotesStarCounts(
    bookId: Option<string>, chapterNumber: Option<string>, userId: Option<string>, c: Coercion,
    notesRes: StoreResult<seq<Note>>, starsRes: StoreResult<seq<int>>, viewerRes: StoreResult<seq<int>>)
    ensures var (resp, queries) := ListNotes(bookId, chapterNumber, userId, c, notesRes, starsRes, viewerRes);
      resp.Ok? ==> forall x | x in resp.data ::
        starsRes.Rows? && x.starsCount == multiset(starsRes.rows)[x.note.id]
  {
    var (resp, queries) := ListNotes(bookId, chapterNumber, userId, c, notesRes, starsRes, viewerRes);
    if resp.Ok? {
      ListNotesOkShape(bookId, chapterNumber, userId, c, notesRes, starsRes, viewerRes);
      if resp.data != [] {
        var stars := starsRes.rows;
        RankedFields(notesRes.rows, StarCounts(stars), ViewerStarred(userId, viewerRes));
        forall x | x in resp.data
          ensures x.starsCount == multiset(stars)[x.note.id]
        {
          StarCountsCount(stars, x.note.id);
        }
      }
    }
  }

  /** `starred_by_me` holds exactly when the viewer id is not blank and the viewer's star rows hold the note's id. */
  lemma ListNotesStarredByMe(
    bookId: Option<string>, chapterNumber: Option<string>, userId: Option<string>, c: Coercion,
    notesRes: StoreResult<seq<Note>>, starsRes: StoreResult<seq<int>>, viewerRes: StoreResult<seq<int>>)
    ensures var (resp, queries) := ListNotes(bookId, chapterNumber, userId, c, notesRes, starsRes, viewerRes);
      && (resp.Ok? ==> forall x | x in resp.data ::
            x.starredByMe <==> (Trimmed(userId) != "" && viewerRes.Rows? && x.note.id in viewerRes.rows))
  {
    var (resp, queries) := ListNotes(bookId, chapterNumber, userId, c, notesRes, starsRes, viewerRes);
    if resp.Ok? {
      ListNotesOkShape(bookId, chapterNumber, userId, c, notesRes, starsRes, viewerRes);
      if resp.data != [] {
        RankedFields(notesRes.rows, StarCounts(starsRes.rows), ViewerStarred(userId, viewerRes));
      }
    }
  }

  /** Past the gate, a blank viewer id issues no query for the viewer's stars. */
  lemma BlankViewerChapterQueries(
    p: ListParams, notesRes: StoreResult<seq<Note>>, starsRes: StoreResult<seq<int>>, viewerRes: StoreResult<seq<int>>)
    requires p.userId == ""
    ensures forall q | q in ListChapterNotes(p, notesRes, starsRes, viewerRes).1 :: !q.SelectViewerStars?
  {
    var queries := ListChapterNotes(p, notesRes, starsRes, viewerRes).1;
    assert |queries| <= 2;
    forall q | q in queries
      ensures !q.SelectViewerStars?
    {
      var i :| 0 <= i < |queries| && queries[i] == q;
      assert i == 0 || i == 1;
    }
  }

  /** A viewer id that trims to nothing (absent, empty or all whitespace, by `TrimEmptyIffBlank`) never sends the viewer's star query. */
  lemma BlankViewerNotQueried(
    bookId: Option<string>, chapterNumber: Option<string>, userId: Option<string>, c: Coercion,
    notesRes: StoreResult<seq<Note>>, starsRes: StoreResult<seq<int>>, viewerRes: StoreResult<seq<int>>)
    requires Trimmed(userId) == ""
    ensures var (resp, queries) := ListNotes(bookId, chapterNumber, userId, c, notesRes, starsRes, viewerRes);
      forall q | q in queries :: !q.SelectViewerStars?
  {
    var o := ParseListParams(bookId, chapterNumber, userId, c);
    if o.Some? {
      BlankViewerChapterQueries(o.value, notesRes, starsRes, viewerRes);
    }
  }

  /** The listed notes are the fetched notes, each once, with their own fields unchanged. */
  lemma ListNotesPermutation(
    bookId: Option<string>, chapterNumber: Option<string>, userId: Option<string>, c: Coercion,
    notesRes: StoreResult<seq<Note>>, starsRes: StoreResult<seq<int>>, viewerRes: StoreResult<seq<int>>)
    ensures var (resp, queries) := ListNotes(bookId, chapterNumber, userId, c, notesRes, starsRes, viewerRes);
      resp.Ok? ==> notesRes.Rows? && multiset(Plain(resp.data)) == multiset(notesRes.rows)
  {
    var (resp, queries) := ListNotes(bookId, chapterNumber, userId, c, notesRes, starsRes, viewerRes);
    if resp.Ok? {
      ListNotesOkShape(bookId, chapterNumber, userId, c, notesRes, starsRes, viewerRes);
      if resp.data != [] {
        RankedPermutes(notesRes.rows, StarCounts(starsRes.rows), ViewerStarred(userId, viewerRes));
      }
    }
  }

  /** The list is ordered by `stars_count` descending, then by `created_at` ascending. */
  lemma ListNotesOrdered(
    bookId: Option<string>, chapterNumber: Option<string>, userId: Option<string>, c: Coercion,
    notesRes: StoreResult<seq<Note>>, starsRes: StoreResult<seq<int>>, viewerRes: StoreResult<seq<int>>)
    ensures var (resp, queries) := ListNotes(bookId, chapterNumber, userId, c, notesRes, starsRes, viewerRes);
      resp.Ok? ==> forall i, j | 0 <= i < j < |resp.data| ::
        && resp.data[i].starsCount >= resp.data[j].starsCount
        && (resp.data[i].starsCount == resp.data[j].starsCount ==>
              LexLeq(resp.data[i].note.createdAt, resp.data[j].note.createdAt))
  {
    var (resp, queries) := ListNotes(bookId, chapterNumber, userId, c, notesRes, starsRes, viewerRes);
    if resp.Ok? {
      ListNotesOkShape(bookId, chapterNumber, userId, c, notesRes, starsRes, viewerRes);
      if resp.data != [] {
        RankedSorted(notesRes.rows, StarCounts(starsRes.rows), ViewerStarred(userId, viewerRes));
      }
    }
  }

  // --------------------------------------------------------------- POST

  /** The fields of the JSON body `POST` reads. */
  datatype Body = Body(bookId: Value, chapterNumber: Value, verseNumber: Value, content: Value)

  /** A body that is not JSON (`req.json()` fails, `{}` is used) or is `null`: every field absent. */
  const EmptyBody: Body := Body(Undefined, Undefined, Undefined, Undefined)

  /** The body gate: three finite numbers and a content that is not blank, stored trimmed. */
  function ValidateBody(body: Body, c: Coercion): Option<NewNote> {
    var b := ToNumber(body.bookId, c);
    var ch := ToNumber(body.chapterNumber, c);
    var v := ToNumber(body.verseNumber, c);
    var content := Trim(ToText(body.content, c));
    if b.Finite? && ch.Finite? && v.Finite? && content != "" then
      Some(NewNote(b.value, ch.value, v.value, content))
    else None
  }

  /** The `POST` handler: the response and the queries issued. */
  function Post(body: Body, c: Coercion, insertRes: StoreResult<Note>): (Response<Note>, seq<Query>) {
    match ValidateBody(body, c)
    case None => (Fail(400, "bad body"), [])
    case Some(row) =>
      var resp := match insertRes
        case Rows(n) => Ok(n)
        case StoreError(m) => Fail(500, m);
      (resp, [InsertNote(row)])
  }

  /**
   * `POST` answers 400 "bad body", without touching the store, exactly when a
   * number is not finite or the content is all whitespace.
   */
  lemma PostRejection(body: Body, c: Coercion, insertRes: StoreResult<Note>)
    ensures var (resp, queries) := Post(body, c, insertRes);
      && (resp == Fail(400, "bad body") <==>
            || !ToNumber(body.bookId, c).Finite?
            || !ToNumber(body.chapterNumber, c).Finite?
            || !ToNumber(body.verseNumber, c).Finite?
            || AllSpace(ToText(body.content, c)))
      && (resp == Fail(400, "bad body") <==> queries == [])
  {
    TrimEmptyIffBlank(ToText(body.content, c));
  }

  /**
   * An accepted body issues one insert, of the three numbers and the trimmed
   * content, and answers with the row the store returns or its error.
   */
  lemma PostInsertsTrimmed(body: Body, c: Coercion, insertRes: StoreResult<Note>)
    requires ValidateBody(body, c).Some?
    ensures var (resp, queries) := Post(body, c, insertRes);
      var text := ToText(body.content, c);
      && queries == [InsertNote(NewNote(ToNumber(body.bookId, c).value, ToNumber(body.chapterNumber, c).value,
                                        ToNumber(body.verseNumber, c).value, Trim(text)))]
      && Trim(text) != "" && !IsSpace(Trim(text)[0]) && !IsSpace(Trim(text)[|Trim(text)| - 1])
      && (insertRes.Rows? ==> resp == Ok(insertRes.rows))
      && (insertRes.StoreError? ==> resp == Fail(500, insertRes.message))
  {
    TrimSpec(ToText(body.content, c));
  }

  /** A missing or unreadable body is rejected: `Number(undefined)` is NaN. */
  lemma EmptyBodyRejected(c: Coercion, insertRes: StoreResult<Note>)
    ensures Post(EmptyBody, c, insertRes) == (Fail(400, "bad body"), [])
  {
  }
}
