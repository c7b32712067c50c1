/** The `tickets` table of src/core/database.py as an immutable record, and the
    table itself as a sequence of rows. SQLite hands out row ids 1, 2, 3, ...
    and nothing in the codebase deletes a ticket, so the ticket with id `i + 1`
    is the row at index `i`. */
module Tickets {
  import opened Wrappers

  /** Every value the code writes into the `status` column. */
  datatype Status =
    | New | Pending | Classified
    | ClassifiedByCache | ClassifiedByAI | FailedNoAI | FailedProcessing | HumanCorrected
  {
    /** The string stored in the column. */
    function Name(): (s: string)
      ensures 0 < |s| <= 20
    {
      match this
      case New => "New"
      case Pending => "Pending"
      case Classified => "Classified"
      case ClassifiedByCache => "Classified_By_Cache"
      case ClassifiedByAI => "Classified_By_AI"
      case FailedNoAI => "Failed_No_AI"
      case FailedProcessing => "Failed_Processing"
      case HumanCorrected => "Human_Corrected"
    }
  }

  /** Distinct statuses are stored as distinct strings, so filtering on the
      column is filtering on the status. */
  lemma StatusNameInjective(a: Status, b: Status)
    ensures a.Name() == b.Name() <==> a == b
  {
    if a != b {
      match a
      case New => assert a.Name()[0] == 'N';
      case Pending => assert a.Name()[0] == 'P';
      case HumanCorrected => assert a.Name()[0] == 'H';
      case _ =>
    }
  }

  /** One row; the timestamp column is left out. */
  datatype Ticket = Ticket(
    userId: string,
    description: string,
    urgency: string,
    contentHash: Option<string>,
    category: Option<string>,
    status: Status)

  const DefaultUrgency: string := "Medium"

  /** A freshly constructed row: `content_hash` and `category` are NULL and the
      column defaults apply unless overridden. */
  function NewTicket(userId: string, description: string, urgency: string, status: Status): (t: Ticket)
    ensures t.contentHash.None? && t.category.None?
    ensures t.userId == userId && t.description == description
    ensures t.urgency == urgency && t.status == status
  {
    Ticket(userId, description, urgency, None, None, status)
  }

  type Store = seq<Ticket>

  predicate HasId(store: Store, id: int) {
    1 <= id <= |store|
  }

  /** `session.query(Ticket).filter(Ticket.id == id).first()`. */
  function Find(store: Store, id: int): (r: Option<Ticket>)
    ensures r.Some? <==> HasId(store, id)
    ensures r.Some? ==> r.value == store[id - 1]
  {
    if HasId(store, id) then Some(store[id - 1]) else None
  }

  /** `session.add(t)` followed by a commit: the new row gets the next id. */
  function Insert(store: Store, t: Ticket): (r: (Store, int))
    ensures r.1 == |store| + 1 && r.0 == store + [t]
    ensures Find(r.0, r.1) == Some(t)
    ensures forall id :: HasId(store, id) ==> Find(r.0, id) == Find(store, id)
  {
    (store + [t], |store| + 1)
  }
}
