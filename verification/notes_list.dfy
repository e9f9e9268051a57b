/** The list hook: the query it sends, its fetch cycle, and the optimistic create,
    update, delete and favourite toggle, each split into a synchronous begin step
    (local edit plus captured snapshot, before the service call is issued) and a
    settle step (reconcile with the service's answer, or roll back). */
module NotesList {
  import opened Outcomes
  import opened Notes
  import opened FetchCycle

  /** The list hook's state; its data is the ordered list of notes. */
  type ListState = Controller<seq<Note>>

  /** The options the list hook is created with. */
  datatype ListOptions = ListOptions(page: Option<int>, pageSize: Option<int>, favorite: Option<bool>)

  const DefaultPage := 1
  const DefaultPageSize := 20
  const TempPrefix := "tmp_"

  const LoadFailed := "Failed to load notes"
  const CreateFailed := "Failed to create note"
  const UpdateFailed := "Failed to update note"
  const DeleteFailed := "Failed to delete note"
  const FavoriteFailed := "Failed to update favorite"

  /** `x || fallback` for an optional number: a missing value or 0 gives the fallback. */
  function OrDefault(x: Option<int>, fallback: int): (r: int)
    ensures x.None? || x == Some(0) ==> r == fallback
    ensures x.Some? && x.value != 0 ==> r == x.value
  {
    if x.Some? && x.value != 0 then x.value else fallback
  }

  /** The page and page size the hook starts with. */
  function InitialPaging(options: ListOptions): (r: (int, int))
    ensures options.page.None? || options.page == Some(0) ==> r.0 == DefaultPage
    ensures options.page.Some? && options.page.value != 0 ==> r.0 == options.page.value
    ensures options.pageSize.None? || options.pageSize == Some(0) ==> r.1 == DefaultPageSize
    ensures options.pageSize.Some? && options.pageSize.value != 0 ==> r.1 == options.pageSize.value
  {
    (OrDefault(options.page, DefaultPage), OrDefault(options.pageSize, DefaultPageSize))
  }

  /** The memoised query: an empty (debounced) search is left out, and the favourite
      filter is sent exactly when the options supply one. */
  function BuildQuery(debouncedSearch: string, options: ListOptions, page: int, pageSize: int): (q: NotesQuery)
    ensures q.search.None? <==> debouncedSearch == ""
    ensures q.search.Some? ==> q.search.value == debouncedSearch
    ensures q.favorite == options.favorite
    ensures q.page == page && q.pageSize == pageSize
  {
    NotesQuery(if debouncedSearch == "" then None else Some(debouncedSearch), options.favorite, page, pageSize)
  }

  /** The query a freshly created hook sends has a page and a page size of at least 1
      whenever the options leave them out or give 0 or a positive number, and a search
      term, when it has one, that is not empty. */
  lemma InitialQueryPaged(debouncedSearch: string, options: ListOptions)
    requires options.page.None? || options.page.value >= 0
    requires options.pageSize.None? || options.pageSize.value >= 0
    ensures var (page, pageSize) := InitialPaging(options);
      var q := BuildQuery(debouncedSearch, options, page, pageSize);
      q.page >= 1 && q.pageSize >= 1 && (q.search.Some? ==> q.search.value != "")
  {
  }

  /** `||` replaces only a falsy option, so a negative page is sent as it is. */
  lemma NegativePagePassesThrough(page: int)
    requires page < 0
    ensures InitialPaging(ListOptions(Some(page), None, None)) == (page, DefaultPageSize)
    ensures InitialPaging(ListOptions(Some(page), None, None)).0 < 1
  {
  }

  /** The outcome of a begin step: the new state, the snapshot kept for the settle,
      and the service call issued. */
  datatype Begun<P> = Begun(state: ListState, snapshot: P, call: Call)

  /** `a` and `b` differ at most in their notes and error. */
  predicate SameFetch(a: ListState, b: ListState) {
    a.loading == b.loading && a.held == b.held && a.aborted == b.aborted && a.nextToken == b.nextToken
  }

  /** Start of `doFetch`: the cycle's begin, and the `listNotes` call under the new signal. */
  function FetchBegin(c: ListState, q: NotesQuery): (r: (ListState, Call))
    ensures r.0.loading && r.0.error.None? && r.0.data == c.data
    ensures r.0.held.Some? && r.1 == ListNotes(q, r.0.held.value)
    ensures r.0.aborted == c.aborted + HeldSet(c.held)
    ensures Valid(c) ==> Valid(r.0) && r.0.held.value !in r.0.aborted
  {
    var (c1, t) := Begin(c);
    (c1, ListNotes(q, t))
  }

  /** End of `doFetch`: the notes replaced on success, the error text on failure. */
  function FetchSettle(c: ListState, o: Outcome<seq<Note>>): (r: ListState)
    ensures !r.loading
    ensures r.held == c.held && r.aborted == c.aborted && r.nextToken == c.nextToken
    ensures o.Ok? ==> r.data == o.value && r.error == c.error
    ensures o.Err? ==> r.data == c.data
    ensures o.Err? && o.name != AbortErrorName ==> r.error == Some(ErrorText(o.message, LoadFailed))
    ensures o.Err? && o.name == AbortErrorName ==> r.error == c.error
  {
    Settle(c, o, LoadFailed)
  }

  /** Whether `id` is one the create step hands out. */
  predicate IsTempId(id: string) {
    |TempPrefix| <= |id| && id[..|TempPrefix|] == TempPrefix
  }

  /** The placeholder note shown until the service answers: missing title and content
      become "", the favourite flag is `Boolean(input.favorite)`, and there is no `updatedAt`. */
  function TempNote(input: NoteInput, tempId: string): (n: Note)
    ensures n.id == tempId && n.updatedAt.None?
    ensures n.title == (if input.title.Some? then input.title.value else "")
    ensures n.content == (if input.content.Some? then input.content.value else "")
    ensures n.favorite <==> input.favorite == Some(true)
  {
    Note(tempId, input.title.GetOr(""), input.content.GetOr(""), input.favorite == Some(true), None)
  }

  /** Create, begin: the placeholder goes in front of the list; its id (the snapshot)
      is "tmp_" followed by the random suffix. */
  function CreateBegin(c: ListState, input: NoteInput, suffix: string): (r: Begun<string>)
    ensures IsTempId(r.snapshot) && r.snapshot[|TempPrefix|..] == suffix
    ensures |r.state.data| == |c.data| + 1 && r.state.data[1..] == c.data
    ensures r.state.data[0] == TempNote(input, r.snapshot)
    ensures r.state == c.(data := r.state.data)
    ensures r.call == CreateNote(input)
  {
    var tempId := TempPrefix + suffix;
    Begun(c.(data := [TempNote(input, tempId)] + c.data), tempId, CreateNote(input))
  }

  /** Create, settle: on success the entries carrying the temporary id are replaced in
      place by the created note, which is returned; on failure they are all removed,
      the error is recorded, and the result is null. */
  function CreateSettle(c: ListState, tempId: string, o: Outcome<Note>): (r: (ListState, Option<Note>))
    ensures SameFetch(r.0, c)
    ensures o.Ok? ==> r.1 == Some(o.value) && r.0.error == c.error && |r.0.data| == |c.data|
    ensures o.Ok? ==> forall i :: 0 <= i < |c.data| ==>
      r.0.data[i] == (if c.data[i].id == tempId then o.value else c.data[i])
    ensures o.Err? ==> r.1.None? && r.0.error == Some(ErrorText(o.message, CreateFailed))
    ensures o.Err? ==> !HasId(r.0.data, tempId) && r.0.data == RemoveById(c.data, tempId)
  {
    match o
    case Ok(created) => (c.(data := ReplaceById(c.data, tempId, created)), Some(created))
    case Err(_, message) =>
      (c.(data := RemoveById(c.data, tempId), error := Some(ErrorText(message, CreateFailed))), None)
  }

  /** A failed create whose temporary id was fresh gives back exactly the list before it. */
  lemma CreateFailureRestores(c: ListState, input: NoteInput, suffix: string, name: string, message: string)
    requires !HasId(c.data, TempPrefix + suffix)
    ensures var b := CreateBegin(c, input, suffix);
      var (r, res) := CreateSettle(b.state, b.snapshot, Err(name, message));
      r.data == c.data && res.None? && r.error == Some(ErrorText(message, CreateFailed))
  {
    var b := CreateBegin(c, input, suffix);
    RemoveConcat([b.state.data[0]], c.data, b.snapshot);
    assert b.state.data == [b.state.data[0]] + c.data;
    RemoveAbsent(c.data, b.snapshot);
  }

  /** A successful create whose temporary id was fresh leaves the created note at the head,
      in the placeholder's position, in front of the unchanged list. */
  lemma CreateSuccessInPlace(c: ListState, input: NoteInput, suffix: string, created: Note)
    requires !HasId(c.data, TempPrefix + suffix)
    ensures var b := CreateBegin(c, input, suffix);
      var (r, res) := CreateSettle(b.state, b.snapshot, Ok(created));
      r.data == [created] + c.data && res == Some(created)
  {
    var b := CreateBegin(c, input, suffix);
    var (r, _) := CreateSettle(b.state, b.snapshot, Ok(created));
    forall i | 0 <= i < |r.data|
      ensures r.data[i] == ([created] + c.data)[i]
    {
      if i > 0 {
        assert b.state.data[i] == c.data[i - 1];
      }
    }
  }

  /** Update, begin: every entry carrying `id` is patched in place; the snapshot is the
      entry last seen with that id (none if absent). The service is called either way. */
  function UpdateBegin(c: ListState, id: string, input: NoteInput): (r: Begun<Option<Note>>)
    ensures r.state == c.(data := PatchById(c.data, id, input))
    ensures r.snapshot == LastWithId(c.data, id)
    ensures r.call == UpdateNote(id, input)
  {
    Begun(c.(data := PatchById(c.data, id, input)), LastWithId(c.data, id), UpdateNote(id, input))
  }

  /** The settle shared by update and favourite toggle: on success the entries carrying
      `id` become the service's note, which is returned; on failure they go back to the
      captured `previous` when there is one (and nothing is rewritten otherwise), the
      error is recorded, and the result is null. */
  function Reconcile(c: ListState, id: string, previous: Option<Note>, o: Outcome<Note>, failText: string)
    : (r: (ListState, Option<Note>))
    ensures SameFetch(r.0, c)
    ensures o.Ok? ==> r.1 == Some(o.value) && r.0.error == c.error && r.0.data == ReplaceById(c.data, id, o.value)
    ensures o.Err? ==> r.1.None? && r.0.error == Some(ErrorText(o.message, failText))
    ensures o.Err? && previous.Some? ==> r.0.data == ReplaceById(c.data, id, previous.value)
    ensures o.Err? && previous.None? ==> r.0.data == c.data
  {
    match o
    case Ok(updated) => (c.(data := ReplaceById(c.data, id, updated)), Some(updated))
    case Err(_, message) =>
      var data := if previous.Some? then ReplaceById(c.data, id, previous.value) else c.data;
      (c.(data := data, error := Some(ErrorText(message, failText))), None)
  }

  /** Update, settle. */
  function UpdateSettle(c: ListState, id: string, previous: Option<Note>, o: Outcome<Note>): (r: (ListState, Option<Note>))
    ensures SameFetch(r.0, c)
    ensures o.Ok? ==> r.1 == Some(o.value) && r.0.error == c.error && r.0.data == ReplaceById(c.data, id, o.value)
    ensures o.Err? ==> r.1.None? && r.0.error == Some(ErrorText(o.message, UpdateFailed))
    ensures o.Err? ==> r.0.data == if previous.Some? then ReplaceById(c.data, id, previous.value) else c.data
  {
    Reconcile(c, id, previous, o, UpdateFailed)
  }

  /** A failed update, with ids unique, gives back exactly the list before it. */
  lemma UpdateFailureRestores(c: ListState, id: string, input: NoteInput, name: string, message: string)
    requires UniqueIds(c.data)
    ensures var b := UpdateBegin(c, id, input);
      var (r, res) := UpdateSettle(b.state, id, b.snapshot, Err(name, message));
      r.data == c.data && res.None? && r.error == Some(ErrorText(message, UpdateFailed))
  {
    var b := UpdateBegin(c, id, input);
    if k :| 0 <= k < |c.data| && c.data[k].id == id {
      LastWithIdUnique(c.data, id, k);
      RevertRewrite(c.data, id, n => Patch(n, input), c.data[k]);
    } else {
      assert b.state.data == c.data;
    }
  }

  /** With two different notes sharing an id, a failed update does not restore the list:
      both entries come back as the later one. */
  lemma DuplicateIdsNotRestored(a: Note, b: Note, input: NoteInput, name: string, message: string)
    requires a.id == b.id && a != b
    ensures var c := Initial([a, b]);
      var bg := UpdateBegin(c, a.id, input);
      var (r, _) := UpdateSettle(bg.state, a.id, bg.snapshot, Err(name, message));
      r.data == [b, b] && r.data != c.data
  {
    var c := Initial([a, b]);
    var bg := UpdateBegin(c, a.id, input);
    assert LastWithId([a, b], a.id) == Some(b);
    var (r, _) := UpdateSettle(bg.state, a.id, bg.snapshot, Err(name, message));
    assert r.data[0] == b && r.data[1] == b;
  }

  /** Updating an id the list does not hold rewrites nothing, on either outcome; the
      service's note is still returned on success. */
  lemma UpdateAbsentId(c: ListState, id: string, input: NoteInput, o: Outcome<Note>)
    requires !HasId(c.data, id)
    ensures var b := UpdateBegin(c, id, input);
      var (r, res) := UpdateSettle(b.state, id, b.snapshot, o);
      b.state.data == c.data && b.snapshot.None? && r.data == c.data && (res.Some? <==> o.Ok?)
  {
    var b := UpdateBegin(c, id, input);
    assert b.state.data == c.data;
    if o.Ok? {
      var r := ReplaceById(c.data, id, o.value);
      assert forall i :: 0 <= i < |c.data| ==> r[i] == c.data[i];
    }
  }

  /** Delete, begin: every entry carrying `id` is dropped; the snapshot is the whole list. */
  function DeleteBegin(c: ListState, id: string): (r: Begun<seq<Note>>)
    ensures r.snapshot == c.data
    ensures r.state == c.(data := RemoveById(c.data, id))
    ensures !HasId(r.state.data, id)
    ensures r.call == DeleteNote(id)
  {
    Begun(c.(data := RemoveById(c.data, id)), c.data, DeleteNote(id))
  }

  /** Delete, settle: success keeps the removal and answers true; failure puts the whole
      snapshot back, records the error and answers false. */
  function DeleteSettle(c: ListState, snapshot: seq<Note>, o: Outcome<()>): (r: (ListState, bool))
    ensures r.1 <==> o.Ok?
    ensures o.Ok? ==> r.0 == c
    ensures o.Err? ==> r.0 == c.(data := snapshot, error := Some(ErrorText(o.message, DeleteFailed)))
  {
    match o
    case Ok(_) => (c, true)
    case Err(_, message) => (c.(data := snapshot, error := Some(ErrorText(message, DeleteFailed))), false)
  }

  /** A failed delete restores the list exactly; a successful one keeps the removal. */
  lemma DeleteRoundTrip(c: ListState, id: string, o: Outcome<()>)
    ensures var b := DeleteBegin(c, id);
      var (r, ok) := DeleteSettle(b.state, b.snapshot, o);
      (o.Err? ==> r.data == c.data && !ok && r.error == Some(ErrorText(o.message, DeleteFailed)))
      && (o.Ok? ==> r.data == RemoveById(c.data, id) && ok && r.error == c.error)
  {
  }

  /** Toggle, begin: every entry carrying `id` has its favourite flag flipped and nothing
      else; the snapshot is the entry last seen with that id. */
  function ToggleBegin(c: ListState, id: string): (r: Begun<Option<Note>>)
    ensures r.state == c.(data := ToggleById(c.data, id))
    ensures r.snapshot == LastWithId(c.data, id)
    ensures r.call == ToggleFavorite(id)
  {
    Begun(c.(data := ToggleById(c.data, id)), LastWithId(c.data, id), ToggleFavorite(id))
  }

  /** Toggle, settle. */
  function ToggleSettle(c: ListState, id: string, previous: Option<Note>, o: Outcome<Note>): (r: (ListState, Option<Note>))
    ensures SameFetch(r.0, c)
    ensures o.Ok? ==> r.1 == Some(o.value) && r.0.error == c.error && r.0.data == ReplaceById(c.data, id, o.value)
    ensures o.Err? ==> r.1.None? && r.0.error == Some(ErrorText(o.message, FavoriteFailed))
    ensures o.Err? ==> r.0.data == if previous.Some? then ReplaceById(c.data, id, previous.value) else c.data
  {
    Reconcile(c, id, previous, o, FavoriteFailed)
  }

  /** A failed toggle, with ids unique, gives back exactly the list before it. */
  lemma ToggleFailureRestores(c: ListState, id: string, name: string, message: string)
    requires UniqueIds(c.data)
    ensures var b := ToggleBegin(c, id);
      var (r, res) := ToggleSettle(b.state, id, b.snapshot, Err(name, message));
      r.data == c.data && res.None? && r.error == Some(ErrorText(message, FavoriteFailed))
  {
    var b := ToggleBegin(c, id);
    if k :| 0 <= k < |c.data| && c.data[k].id == id {
      LastWithIdUnique(c.data, id, k);
      RevertRewrite(c.data, id, Flip, c.data[k]);
    } else {
      assert b.state.data == c.data;
    }
  }
  /** Toggling an id the list does not hold rewrites nothing, on either outcome; the
      service's note is still returned on success. */
  lemma ToggleAbsentId(c: ListState, id: string, o: Outcome<Note>)
    requires !HasId(c.data, id)
    ensures var b := ToggleBegin(c, id);
      var (r, res) := ToggleSettle(b.state, id, b.snapshot, o);
      b.state.data == c.data && b.snapshot.None? && r.data == c.data && (res.Some? <==> o.Ok?)
  {
    var b := ToggleBegin(c, id);
    assert b.state.data == c.data;
    if o.Ok? {
      var r := ReplaceById(c.data, id, o.value);
      assert forall i :: 0 <= i < |c.data| ==> r[i] == c.data[i];
    }
  }

}
