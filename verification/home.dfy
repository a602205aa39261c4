/** The poll-builder component: a title and a list of option rows that its
    handlers replace step by step. */
module Builder {
  import opened Text
  import opened PollDraft
  import opened Submission

  /** How one press of "Create Poll" ends. Only `Failed` and `Created` issue a
      request, and they carry its body. */
  datatype CreateOutcome =
    | Invalid(error: ValidationError)
    | Declined
    | Failed(request: CreateRequest)
    | Created(request: CreateRequest)

  /** The outcome, given the validation result, the answer to the confirmation
      dialog and whether the request succeeded. */
  function Outcome(v: Validation, confirmed: bool, succeeded: bool): (o: CreateOutcome)
    ensures o.Invalid? <==> v.Rejected?
    ensures (o.Failed? || o.Created?) <==> v.Accepted? && confirmed
    ensures o.Created? <==> v.Accepted? && confirmed && succeeded
    ensures o.Invalid? ==> o.error == v.error
    ensures (o.Failed? || o.Created?) ==> o.request == v.request
  {
    match v
    case Rejected(e) => Invalid(e)
    case Accepted(req) =>
      if !confirmed then Declined
      else if succeeded then Created(req)
      else Failed(req)
  }

  class Home {
    var title: string
    var options: seq<DraftOption>

    /** At least two rows and no identifier twice, in every reachable state. */
    ghost predicate Valid()
      reads this
    {
      WellFormed(options)
    }

    /** The initial state: an empty title and two blank rows. */
    constructor (idA: Id, idB: Id)
      requires idA != idB
      ensures Valid()
      ensures title == "" && options == Blank(idA, idB)
    {
      title := "";
      options := Blank(idA, idB);
    }

    /** Typing into the title field. */
    method SetTitle(text: string)
      requires Valid()
      modifies this
      ensures Valid()
      ensures title == text && options == old(options)
    {
      title := text;
    }

    /** `handleOptionChange`: the rows carrying `id` take `value`. */
    method HandleOptionChange(id: Id, value: string)
      requires Valid()
      modifies this
      ensures Valid()
      ensures options == Edited(old(options), id, value) && title == old(title)
    {
      EditedWellFormed(options, id, value);
      options := Edited(options, id, value);
    }

    /** `addOption`: one blank row at the end, under an identifier not yet in use. */
    method AddOption(newId: Id)
      requires Valid()
      requires newId !in Ids(options)
      modifies this
      ensures Valid()
      ensures options == Appended(old(options), newId) && title == old(title)
      ensures |options| == |old(options)| + 1
    {
      AppendedWellFormed(options, newId);
      options := Appended(options, newId);
    }

    /** `deleteOption`: ignored while two rows or fewer remain; otherwise the
        rows carrying `id` go. The draft never drops below two rows. */
    method DeleteOption(id: Id)
      requires Valid()
      modifies this
      ensures Valid()
      ensures options == (if |old(options)| <= 2 then old(options) else Removed(old(options), id))
      ensures title == old(title)
      ensures |options| == (if |old(options)| > 2 && id in Ids(old(options)) then |old(options)| - 1 else |old(options)|)
    {
      if |options| <= 2 {
        return;
      }
      RemovedWellFormed(options, id);
      options := Removed(options, id);
    }

    /** `createPoll`: validates the draft; if it passes, asks for confirmation
        and sends the request. Only a confirmed, successful request resets the
        draft (to an empty title and two blank rows under `idA`, `idB`); every
        other outcome leaves title and rows as they were. */
    method CreatePoll(confirmed: bool, succeeded: bool, idA: Id, idB: Id) returns (outcome: CreateOutcome)
      requires Valid()
      requires idA != idB
      modifies this
      ensures Valid()
      ensures outcome == Outcome(Validate(old(title), old(options)), confirmed, succeeded)
      ensures outcome.Created? ==> title == "" && options == Blank(idA, idB)
      ensures !outcome.Created? ==> title == old(title) && options == old(options)
    {
      var v := Validate(title, options);
      if v.Rejected? {
        return Invalid(v.error);
      }
      if !confirmed {
        return Declined;
      }
      if !succeeded {
        return Failed(v.request);
      }
      outcome := Created(v.request);
      title := "";
      options := Blank(idA, idB);
    }
  }
}
