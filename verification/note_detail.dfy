/** The detail hook: one optional note, its fetch cycle keyed by an optional id, and
    the optimistic update, delete and favourite toggle on the held note, each split
    into a begin step and a settle step. */
module NoteDetail {
  import opened Outcomes
  import opened Notes
  import opened FetchCycle

  /** The detail hook's state; its data is the note held, if any. */
  type DetailState = Controller<Option<Note>>

  const LoadFailed := "Failed to load note"
  const UpdateFailed := "Failed to update note"
  const DeleteFailed := "Failed to delete note"
  const FavoriteFailed := "Failed to update favorite"

  /** How an optimistic operation starts: it returns at once (no note held — no state
      change, no service call), or it has a new state, the note held before it, and the
      service call it issues. */
  datatype Start<R> = Immediate(result: R) | Pending(state: DetailState, prev: Note, call: Call)

  /** Start of `fetchNote`: nothing at all happens without a non-empty id; otherwise the
      fetch cycle's begin, and the `getNote` call under the new signal. */
  function FetchBegin(c: DetailState, id: Option<string>): (r: Option<(DetailState, Call)>)
    ensures r.None? <==> id.None? || id == Some("")
    ensures r.Some? ==> var (s, call) := r.value;
      && s.loading && s.error.None? && s.data == c.data
      && s.held.Some? && call == GetNote(id.value, s.held.value)
      && s.aborted == c.aborted + HeldSet(c.held)
      && (Valid(c) ==> Valid(s) && s.held.value !in s.aborted)
  {
    if id.None? || id == Some("") then None
    else
      var (c1, t) := Begin(c);
      Some((c1, GetNote(id.value, t)))
  }

  /** End of `fetchNote`: the fetched note is held on success; on failure the note is
      kept and, unless aborted, the error text recorded; `loading` drops either way. */
  function FetchSettle(c: DetailState, o: Outcome<Note>): (r: DetailState)
    ensures !r.loading
    ensures r.held == c.held && r.aborted == c.aborted && r.nextToken == c.nextToken
    ensures o.Ok? ==> r.data == Some(o.value) && r.error == c.error
    ensures o.Err? ==> r.data == c.data
    ensures o.Err? && o.name != AbortErrorName ==> r.error == Some(ErrorText(o.message, LoadFailed))
    ensures o.Err? && o.name == AbortErrorName ==> r.error == c.error
  {
    match o
    case Ok(n) => Settle(c, Ok(Some(n)), LoadFailed)
    case Err(name, message) => Settle(c, Err(name, message), LoadFailed)
  }

  /** Update, begin: the held note is replaced by its patched copy. */
  function UpdateBegin(c: DetailState, input: NoteInput): (r: Start<Option<Note>>)
    ensures r.Immediate? <==> c.data.None?
    ensures r.Immediate? ==> r.result.None?
    ensures r.Pending? ==> && r.prev == c.data.value
                           && r.state == c.(data := Some(Patch(r.prev, input)))
                           && r.call == UpdateNote(r.prev.id, input)
  {
    match c.data
    case None => Immediate(None)
    case Some(n) => Pending(c.(data := Some(Patch(n, input))), n, UpdateNote(n.id, input))
  }

  /** The settle shared by update and favourite toggle: the service's note is held and
      returned on success; on failure the note held before the begin step comes back,
      the error is recorded, and the result is null. */
  function Reconcile(c: DetailState, prev: Note, o: Outcome<Note>, failText: string): (r: (DetailState, Option<Note>))
    ensures r.0 == c.(data := r.0.data, error := r.0.error)
    ensures o.Ok? ==> r.0.data == Some(o.value) && r.1 == Some(o.value) && r.0.error == c.error
    ensures o.Err? ==> r.0.data == Some(prev) && r.1.None? && r.0.error == Some(ErrorText(o.message, failText))
  {
    match o
    case Ok(updated) => (c.(data := Some(updated)), Some(updated))
    case Err(_, message) => (c.(data := Some(prev), error := Some(ErrorText(message, failText))), None)
  }

  /** Update, settle. */
  function UpdateSettle(c: DetailState, prev: Note, o: Outcome<Note>): (r: (DetailState, Option<Note>))
    ensures r.0 == c.(data := r.0.data, error := r.0.error)
    ensures o.Ok? ==> r.0.data == Some(o.value) && r.1 == Some(o.value) && r.0.error == c.error
    ensures o.Err? ==> r.0.data == Some(prev) && r.1.None? && r.0.error == Some(ErrorText(o.message, UpdateFailed))
  {
    Reconcile(c, prev, o, UpdateFailed)
  }

  /** A failed update puts back exactly the note held before it. */
  lemma UpdateFailureRestores(c: DetailState, input: NoteInput, name: string, message: string)
    requires c.data.Some?
    ensures var s := UpdateBegin(c, input);
      && s.Pending?
      && var (r, res) := UpdateSettle(s.state, s.prev, Err(name, message));
         r.data == c.data && res.None? && r.error == Some(ErrorText(message, UpdateFailed))
  {
  }

  /** Delete, begin: the note is dropped at once and kept aside. */
  function DeleteBegin(c: DetailState): (r: Start<bool>)
    ensures r.Immediate? <==> c.data.None?
    ensures r.Immediate? ==> !r.result
    ensures r.Pending? ==> && r.prev == c.data.value
                           && r.state == c.(data := None)
                           && r.call == DeleteNote(r.prev.id)
  {
    match c.data
    case None => Immediate(false)
    case Some(n) => Pending(c.(data := None), n, DeleteNote(n.id))
  }

  /** Delete, settle: true and still no note on success; on failure the note comes back,
      the error is recorded, and the answer is false. */
  function DeleteSettle(c: DetailState, prev: Note, o: Outcome<()>): (r: (DetailState, bool))
    ensures r.1 <==> o.Ok?
    ensures o.Ok? ==> r.0 == c
    ensures o.Err? ==> r.0 == c.(data := Some(prev), error := Some(ErrorText(o.message, DeleteFailed)))
  {
    match o
    case Ok(_) => (c, true)
    case Err(_, message) => (c.(data := Some(prev), error := Some(ErrorText(message, DeleteFailed))), false)
  }

  /** A failed delete restores the note; a successful one leaves none. */
  lemma DeleteRoundTrip(c: DetailState, o: Outcome<()>)
    requires c.data.Some?
    ensures var s := DeleteBegin(c);
      && s.Pending?
      && var (r, ok) := DeleteSettle(s.state, s.prev, o);
         (o.Err? ==> r.data == c.data && !ok) && (o.Ok? ==> r.data.None? && ok)
  {
  }

  /** Toggle, begin: the held note's favourite flag is flipped and nothing else. */
  function ToggleBegin(c: DetailState): (r: Start<Option<Note>>)
    ensures r.Immediate? <==> c.data.None?
    ensures r.Immediate? ==> r.result.None?
    ensures r.Pending? ==> && r.prev == c.data.value
                           && r.state == c.(data := Some(Flip(r.prev)))
                           && r.call == ToggleFavorite(r.prev.id)
  {
    match c.data
    case None => Immediate(None)
    case Some(n) => Pending(c.(data := Some(Flip(n))), n, ToggleFavorite(n.id))
  }

  /** Toggle, settle. */
  function ToggleSettle(c: DetailState, prev: Note, o: Outcome<Note>): (r: (DetailState, Option<Note>))
    ensures r.0 == c.(data := r.0.data, error := r.0.error)
    ensures o.Ok? ==> r.0.data == Some(o.value) && r.1 == Some(o.value) && r.0.error == c.error
    ensures o.Err? ==> r.0.data == Some(prev) && r.1.None? && r.0.error == Some(ErrorText(o.message, FavoriteFailed))
  {
    Reconcile(c, prev, o, FavoriteFailed)
  }

  /** A failed toggle puts back exactly the note held before it. */
  lemma ToggleFailureRestores(c: DetailState, name: string, message: string)
    requires c.data.Some?
    ensures var s := ToggleBegin(c);
      && s.Pending?
      && var (r, res) := ToggleSettle(s.state, s.prev, Err(name, message));
         r.data == c.data && res.None? && r.error == Some(ErrorText(message, FavoriteFailed))
  {
  }
}
