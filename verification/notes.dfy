/** The notes entities exchanged with the notes service, the calls the hooks issue
    to it, and the whole-list rewrites the optimistic operations are built from. */
module Notes {
  import opened Outcomes

  /** A note as the service returns it; `updatedAt` is absent on a note built locally. */
  datatype Note = Note(id: string, title: string, content: string, favorite: bool, updatedAt: Option<string>)

  /** A patch: an absent field leaves the corresponding note field as it is. */
  datatype NoteInput = NoteInput(title: Option<string>, content: Option<string>, favorite: Option<bool>)

  /** The list query sent to the service. */
  datatype NotesQuery = NotesQuery(search: Option<string>, favorite: Option<bool>, page: int, pageSize: int)

  /** The abort signal handed to a fetch, named by the number of its controller. */
  type Token = nat

  /** One call into the notes service, with the arguments the hook passes. */
  datatype Call =
    | ListNotes(query: NotesQuery, signal: Token)
    | GetNote(noteId: string, signal: Token)
    | CreateNote(input: NoteInput)
    | UpdateNote(noteId: string, input: NoteInput)
    | DeleteNote(noteId: string)
    | ToggleFavorite(noteId: string)

  /** The optimistic merge `{...n, title: input.title ?? n.title, ...}`: every field the
      patch supplies replaces the note's, every other field is kept. */
  function Patch(n: Note, input: NoteInput): (r: Note)
    ensures r.id == n.id && r.updatedAt == n.updatedAt
    ensures input.title.Some? ==> r.title == input.title.value
    ensures input.title.None? ==> r.title == n.title
    ensures input.content.Some? ==> r.content == input.content.value
    ensures input.content.None? ==> r.content == n.content
    ensures input.favorite.Some? ==> r.favorite == input.favorite.value
    ensures input.favorite.None? ==> r.favorite == n.favorite
  {
    n.(title := input.title.GetOr(n.title),
       content := input.content.GetOr(n.content),
       favorite := input.favorite.GetOr(n.favorite))
  }

  /** The empty patch changes nothing. */
  lemma PatchEmpty(n: Note)
    ensures Patch(n, NoteInput(None, None, None)) == n
  {
  }

  /** The patch that applies `p` and then `q`: `q`'s fields where it has them, `p`'s otherwise. */
  function Then(p: NoteInput, q: NoteInput): NoteInput {
    NoteInput(
      if q.title.Some? then q.title else p.title,
      if q.content.Some? then q.content else p.content,
      if q.favorite.Some? then q.favorite else p.favorite)
  }

  /** Two successive patches act as their combination; in particular applying the same
      patch twice is the same as applying it once. */
  lemma PatchThen(n: Note, p: NoteInput, q: NoteInput)
    ensures Patch(Patch(n, p), q) == Patch(n, Then(p, q))
    ensures Patch(Patch(n, p), p) == Patch(n, p)
  {
  }

  /** The note with its favourite flag flipped and every other field kept. */
  function Flip(n: Note): (r: Note)
    ensures r.favorite == !n.favorite
    ensures r.(favorite := n.favorite) == n
  {
    n.(favorite := !n.favorite)
  }

  /** `notes.map(n => n.id === id ? f(n) : n)`: rewrites exactly the entries carrying `id`,
      keeping the length, the order and every other entry. */
  function MapMatching(notes: seq<Note>, id: string, f: Note -> Note): (r: seq<Note>)
    ensures |r| == |notes|
    ensures forall i :: 0 <= i < |notes| && notes[i].id == id ==> r[i] == f(notes[i])
    ensures forall i :: 0 <= i < |notes| && notes[i].id != id ==> r[i] == notes[i]
  {
    if |notes| == 0 then []
    else [if notes[0].id == id then f(notes[0]) else notes[0]] + MapMatching(notes[1..], id, f)
  }

  /** Every entry carrying `id` replaced by `with`, as on a settle. */
  function ReplaceById(notes: seq<Note>, id: string, with: Note): (r: seq<Note>)
    ensures |r| == |notes|
    ensures forall i :: 0 <= i < |notes| ==> r[i] == (if notes[i].id == id then with else notes[i])
  {
    MapMatching(notes, id, _ => with)
  }

  /** Every entry carrying `id` patched in place. */
  function PatchById(notes: seq<Note>, id: string, input: NoteInput): (r: seq<Note>)
    ensures |r| == |notes|
    ensures forall i :: 0 <= i < |notes| ==> r[i] == (if notes[i].id == id then Patch(notes[i], input) else notes[i])
  {
    MapMatching(notes, id, n => Patch(n, input))
  }

  /** Every entry carrying `id` has its favourite flag flipped. */
  function ToggleById(notes: seq<Note>, id: string): (r: seq<Note>)
    ensures |r| == |notes|
    ensures forall i :: 0 <= i < |notes| ==> r[i] == (if notes[i].id == id then Flip(notes[i]) else notes[i])
  {
    MapMatching(notes, id, Flip)
  }

  /** Whether some entry carries `id`. */
  predicate HasId(notes: seq<Note>, id: string) {
    exists i :: 0 <= i < |notes| && notes[i].id == id
  }

  /** No two entries share an id. */
  predicate UniqueIds(notes: seq<Note>) {
    forall i, j :: 0 <= i < j < |notes| ==> notes[i].id != notes[j].id
  }

  /** How many entries carry `id`. */
  function CountId(notes: seq<Note>, id: string): (r: nat)
    ensures r <= |notes|
    ensures r == 0 <==> !HasId(notes, id)
  {
    if |notes| == 0 then 0
    else (if notes[0].id == id then 1 else 0) + CountId(notes[1..], id)
  }

  /** `notes.filter(n => n.id !== id)`: drops every entry carrying `id` and nothing else. */
  function RemoveById(notes: seq<Note>, id: string): (r: seq<Note>)
    ensures |r| == |notes| - CountId(notes, id)
    ensures forall n :: n in r <==> n in notes && n.id != id
  {
    if |notes| == 0 then []
    else (if notes[0].id == id then [] else [notes[0]]) + RemoveById(notes[1..], id)
  }

  /** Removal works piecewise, so the survivors keep their relative order. */
  lemma {:induction false} RemoveConcat(a: seq<Note>, b: seq<Note>, id: string)
    ensures RemoveById(a + b, id) == RemoveById(a, id) + RemoveById(b, id)
  {
    if |a| == 0 {
      assert a + b == b;
    } else {
      assert (a + b)[0] == a[0];
      assert (a + b)[1..] == a[1..] + b;
      RemoveConcat(a[1..], b, id);
    }
  }

  /** Removing an id nobody carries leaves the list as it is. */
  lemma {:induction false} RemoveAbsent(notes: seq<Note>, id: string)
    requires !HasId(notes, id)
    ensures RemoveById(notes, id) == notes
  {
    if |notes| > 0 {
      assert !HasId(notes[1..], id) by {
        forall i | 0 <= i < |notes[1..]|
          ensures notes[1..][i].id != id
        {
          assert notes[1..][i] == notes[i + 1];
        }
      }
      RemoveAbsent(notes[1..], id);
    }
  }

  /** The note a list rewrite captures as `previous`: the callback assigns it on every
      match, so it ends up holding the LAST entry carrying `id`. */
  function LastWithId(notes: seq<Note>, id: string): (r: Option<Note>)
    ensures r.None? <==> !HasId(notes, id)
    ensures r.Some? ==> exists i :: (0 <= i < |notes| && notes[i] == r.value && notes[i].id == id
                                     && forall j :: i < j < |notes| ==> notes[j].id != id)
  {
    if |notes| == 0 then None
    else if notes[|notes| - 1].id == id then Some(notes[|notes| - 1])
    else LastWithId(notes[..|notes| - 1], id)
  }

  /** With unique ids the captured `previous` is the one entry carrying `id`. */
  lemma LastWithIdUnique(notes: seq<Note>, id: string, k: nat)
    requires UniqueIds(notes) && k < |notes| && notes[k].id == id
    ensures LastWithId(notes, id) == Some(notes[k])
  {
  }

  /** Rewriting the entries carrying `id` with an id-keeping `f` and then putting back
      `p` restores the list exactly, when `p` is the only value those entries held. */
  lemma RevertRewrite(notes: seq<Note>, id: string, f: Note -> Note, p: Note)
    requires forall i :: 0 <= i < |notes| && notes[i].id == id ==> notes[i] == p && f(p).id == id
    ensures ReplaceById(MapMatching(notes, id, f), id, p) == notes
  {
    var r := ReplaceById(MapMatching(notes, id, f), id, p);
    assert forall i :: 0 <= i < |notes| ==> r[i] == notes[i];
  }

  /** Flipping the favourite flag of the same entries twice restores the list. */
  lemma ToggleTwice(notes: seq<Note>, id: string)
    ensures ToggleById(ToggleById(notes, id), id) == notes
  {
    var r := ToggleById(ToggleById(notes, id), id);
    assert forall i :: 0 <= i < |notes| ==> r[i] == notes[i];
  }
}
