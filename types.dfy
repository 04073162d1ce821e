/**
 * The domain vocabulary of the hall-complaint tracker: the complaint
 * categories, the lifecycle statuses and the complaint record
 * (src/lib/types.ts).
 */
module ComplaintTypes {
  import opened Wrappers

  datatype Category = Plumbing | Electrical | Heating | Cleanliness | Maintenance

  datatype Status = Reported | Assigned | InProgress | Resolved

  /** `complaintCategories`, in declaration order. */
  const Categories: seq<Category> := [Plumbing, Electrical, Heating, Cleanliness, Maintenance]

  /** `complaintStatuses`, in declaration order. */
  const Statuses: seq<Status> := [Reported, Assigned, InProgress, Resolved]

  /** The literal string each category stands for. */
  function CategoryName(c: Category): string
  {
    match c
    case Plumbing => "Plumbing"
    case Electrical => "Electrical"
    case Heating => "Heating"
    case Cleanliness => "Cleanliness"
    case Maintenance => "Maintenance"
  }

  /** The literal string each status stands for. */
  function StatusName(s: Status): string
  {
    match s
    case Reported => "Reported"
    case Assigned => "Assigned"
    case InProgress => "In Progress"
    case Resolved => "Resolved"
  }

  /** The enum check: a string is a category exactly when it is one of the five names. */
  function ParseCategory(text: string): (r: Option<Category>)
    ensures r.Some? ==> CategoryName(r.value) == text
    ensures r.None? ==> forall c: Category :: CategoryName(c) != text
  {
    if text == "Plumbing" then Some(Plumbing)
    else if text == "Electrical" then Some(Electrical)
    else if text == "Heating" then Some(Heating)
    else if text == "Cleanliness" then Some(Cleanliness)
    else if text == "Maintenance" then Some(Maintenance)
    else None
  }

  /** The enum check for statuses. */
  function ParseStatus(text: string): (r: Option<Status>)
    ensures r.Some? ==> StatusName(r.value) == text
    ensures r.None? ==> forall s: Status :: StatusName(s) != text
  {
    if text == "Reported" then Some(Reported)
    else if text == "Assigned" then Some(Assigned)
    else if text == "In Progress" then Some(InProgress)
    else if text == "Resolved" then Some(Resolved)
    else None
  }

  /** A stored complaint; `createdAt` is a timestamp in milliseconds. */
  datatype Complaint = Complaint(
    id: string,
    roomNumber: string,
    category: Category,
    description: string,
    status: Status,
    createdAt: int)

  /** The submission payload, `Omit<Complaint, 'id' | 'status' | 'createdAt'>`. */
  datatype ComplaintInput = ComplaintInput(roomNumber: string, category: Category, description: string)

  /** The category names, listed as in the source, are five distinct strings. */
  lemma CategoriesEnumerated()
    ensures |Categories| == 5
    ensures forall c: Category :: c in Categories
    ensures forall i, j :: 0 <= i < j < |Categories| ==> CategoryName(Categories[i]) != CategoryName(Categories[j])
    ensures forall i :: 0 <= i < |Categories| ==>
      CategoryName(Categories[i]) == ["Plumbing", "Electrical", "Heating", "Cleanliness", "Maintenance"][i]
  {
    forall c: Category ensures c in Categories {
      match c
      case Plumbing => assert Categories[0] == c;
      case Electrical => assert Categories[1] == c;
      case Heating => assert Categories[2] == c;
      case Cleanliness => assert Categories[3] == c;
      case Maintenance => assert Categories[4] == c;
    }
  }

  /** The status names, listed as in the source, are four distinct strings. */
  lemma StatusesEnumerated()
    ensures |Statuses| == 4
    ensures forall s: Status :: s in Statuses
    ensures forall i, j :: 0 <= i < j < |Statuses| ==> StatusName(Statuses[i]) != StatusName(Statuses[j])
    ensures forall i :: 0 <= i < |Statuses| ==>
      StatusName(Statuses[i]) == ["Reported", "Assigned", "In Progress", "Resolved"][i]
  {
    forall s: Status ensures s in Statuses {
      match s
      case Reported => assert Statuses[0] == s;
      case Assigned => assert Statuses[1] == s;
      case InProgress => assert Statuses[2] == s;
      case Resolved => assert Statuses[3] == s;
    }
  }

  /** Parsing a category's name gives that category back. */
  lemma CategoryRoundTrip(c: Category)
    ensures ParseCategory(CategoryName(c)) == Some(c)
  {
  }

  /** Parsing a status's name gives that status back. */
  lemma StatusRoundTrip(s: Status)
    ensures ParseStatus(StatusName(s)) == Some(s)
  {
  }
}
