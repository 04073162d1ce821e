/**
 * The server actions that change the store (src/lib/actions.ts):
 * `submitComplaint` and `updateStatusAction`. Cache revalidation is a
 * framework side effect and is not part of the model.
 */
module ServerActions {
  import opened Wrappers
  import opened ComplaintTypes
  import opened ComplaintStore
  import opened ActionRules

  const SubmittedMessage := "Your complaint has been submitted successfully."
  const StatusUpdatedMessage := "Status updated"
  const InvalidDataMessage := "Invalid data"

  /** The `FormState` a submission returns: success with the new tracking id, or one error message. */
  datatype FormState = FormSuccess(message: string, id: string) | FormError(message: string)

  /** The `{ success }` / `{ error }` object the status action returns. */
  datatype ActionResult = ActionSuccess(message: string) | ActionError(message: string)

  /**
   * `submitComplaint`: validates the three form fields; on failure reports
   * the first error and leaves the store alone, on success stores the
   * complaint (stamped `now`) and reports its tracking id.
   */
  method SubmitComplaint(store: Store, room: Option<string>, category: Option<string>,
                         description: Option<string>, now: int) returns (st: FormState)
    requires store.Valid()
    modifies store
    ensures store.Valid()
    ensures match ValidateComplaint(room, category, description)
      case Failure(m) =>
        && st == FormError(m)
        && store.complaints == old(store.complaints) && store.counter == old(store.counter)
      case Success(input) =>
        && store.counter == old(store.counter) + 1
        && st == FormSuccess(SubmittedMessage, TicketId(store.counter))
        && store.complaints ==
             [Complaint(TicketId(store.counter), input.roomNumber, input.category, input.description,
                        Reported, now)] + old(store.complaints)
  {
    match ValidateComplaint(room, category, description)
    case Failure(m) =>
      st := FormError(m);
    case Success(input) =>
      var c := store.AddComplaint(input, now);
      st := FormSuccess(SubmittedMessage, c.id);
  }

  /**
   * `updateStatusAction`: a status outside the four is refused with
   * "Invalid data"; otherwise the store's update runs and the action
   * reports success, also when no complaint has the id.
   */
  method UpdateStatusAction(store: Store, id: string, status: string) returns (r: ActionResult)
    requires store.Valid()
    modifies store
    ensures store.Valid()
    ensures store.counter == old(store.counter)
    ensures ParseStatus(status).None? ==>
      r == ActionError(InvalidDataMessage) && store.complaints == old(store.complaints)
    ensures ParseStatus(status).Some? ==>
      && r == ActionSuccess(StatusUpdatedMessage)
      && store.complaints == WithStatus(old(store.complaints), id, ParseStatus(status).value)
  {
    match ParseStatus(status)
    case None =>
      r := ActionError(InvalidDataMessage);
    case Some(st) =>
      var _ := store.UpdateComplaintStatus(id, st);
      r := ActionSuccess(StatusUpdatedMessage);
  }

  /** A complaint just stored at the front is what a lookup of its id finds. */
  lemma SubmittedComplaintIsFound(c: Complaint, s: seq<Complaint>)
    ensures FindById([c] + s, c.id) == Some(c)
  {
  }
}
