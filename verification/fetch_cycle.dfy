/** The state a notes hook keeps, and the fetch cycle both hooks run on it: the
    loading and error flags, and the single held abort controller that every new
    fetch aborts and replaces. */
module FetchCycle {
  import opened Outcomes
  import opened Notes

  /** A hook's state: the data it shows (the list of notes, or the one optional note),
      the `loading` and `error` flags, and the abort-controller bookkeeping — the token
      held in the ref, the tokens aborted so far, and the number the next one gets. */
  datatype Controller<D> = Controller(
    data: D,
    loading: bool,
    error: Option<string>,
    held: Option<Token>,
    aborted: set<Token>,
    nextToken: nat)

  /** The `name` a rejection carries when its abort signal fired. */
  const AbortErrorName := "AbortError"

  /** The state a hook mounts with: not loading, no error, no controller held. */
  function Initial<D>(data: D): (c: Controller<D>)
    ensures c.data == data && !c.loading && c.error.None? && c.held.None? && c.aborted == {}
  {
    Controller(data, false, None, None, {}, 0)
  }

  /** Every token the controller refers to has already been handed out. */
  ghost predicate Valid<D>(c: Controller<D>) {
    && (c.held.Some? ==> c.held.value < c.nextToken)
    && (forall t :: t in c.aborted ==> t < c.nextToken)
  }

  /** The held token, if any, as a set. */
  function HeldSet(held: Option<Token>): set<Token> {
    if held.Some? then {held.value} else {}
  }

  /** The synchronous start of a fetch: `loading` raised, `error` cleared, the held
      controller aborted and a new one installed; its token is returned for the call. */
  function Begin<D>(c: Controller<D>): (r: (Controller<D>, Token))
    ensures r.0.loading && r.0.error.None? && r.0.data == c.data
    ensures r.0.held == Some(r.1)
    ensures r.0.aborted == c.aborted + HeldSet(c.held)
    ensures Valid(c) ==> Valid(r.0) && r.1 !in r.0.aborted
  {
    (c.(loading := true, error := None, held := Some(c.nextToken),
        aborted := c.aborted + HeldSet(c.held), nextToken := c.nextToken + 1),
     c.nextToken)
  }

  /** The settle of a fetch: a fulfilled call replaces the data wholesale; an AbortError
      is swallowed; any other rejection records its message (or `failText`) and keeps the
      data; in every case `loading` drops. The token is not consulted. */
  function Settle<D>(c: Controller<D>, o: Outcome<D>, failText: string): (r: Controller<D>)
    ensures !r.loading
    ensures r.held == c.held && r.aborted == c.aborted && r.nextToken == c.nextToken
    ensures o.Ok? ==> r.data == o.value && r.error == c.error
    ensures o.Err? ==> r.data == c.data
    ensures o.Err? && o.name == AbortErrorName ==> r.error == c.error
    ensures o.Err? && o.name != AbortErrorName ==> r.error == Some(ErrorText(o.message, failText))
  {
    match o
    case Ok(d) => c.(data := d, loading := false)
    case Err(name, message) =>
      if name == AbortErrorName then c.(loading := false)
      else c.(error := Some(ErrorText(message, failText)), loading := false)
  }

  /** A fetch that succeeds leaves the fresh data, no error, and nothing loading. */
  lemma CycleSucceeds<D>(c: Controller<D>, d: D, failText: string)
    ensures var r := Settle(Begin(c).0, Ok(d), failText);
      r.data == d && r.error.None? && !r.loading
  {
  }

  /** An aborted fetch surfaces no error and leaves the data as it was. */
  lemma CycleAborted<D>(c: Controller<D>, message: string, failText: string)
    ensures var r := Settle(Begin(c).0, Err(AbortErrorName, message), failText);
      r.data == c.data && r.error.None? && !r.loading
  {
  }

  /** Any other failure surfaces a non-empty message and leaves the data as it was. */
  lemma CycleFails<D>(c: Controller<D>, name: string, message: string, failText: string)
    requires name != AbortErrorName && failText != ""
    ensures var r := Settle(Begin(c).0, Err(name, message), failText);
      r.data == c.data && r.error.Some? && r.error.value != "" && !r.loading
  {
  }

  /** A fetch superseded by a second one has its token aborted, yet its settle still
      drops `loading` while the second fetch is outstanding. */
  lemma SupersededSettle<D>(c: Controller<D>, o: Outcome<D>, failText: string)
    requires Valid(c)
    ensures var (c1, t1) := Begin(c);
      var (c2, t2) := Begin(c1);
      var r := Settle(c2, o, failText);
      t1 != t2 && t1 in r.aborted && r.held == Some(t2) && t2 !in r.aborted && !r.loading
  {
  }
}
