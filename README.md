# Hall complaint tracker — verified model

A Dafny model of the behaviour at the centre of a small residential-hall
complaint tracker. Residents submit a complaint (room number, category,
description) and get a tracking id `TICKET-<n>`. Staff log in to an admin
table where they can filter complaints and change their status.

The model has these parts:

- **Domain types** (`types.dfy`, module `ComplaintTypes`): the five categories,
  the four statuses, their literal names, the enum checks, and the
  six-field complaint record.
- **Complaint store** (`store.dfy`, module `ComplaintStore`): class `Store`.
  It holds the process-wide complaint list (`seq<Complaint>`) and the id
  counter (starts at 10000). Its methods are "list all" (sorts the stored
  list in place, newest first), lookup by id (first match), add (counter + 1,
  id `TICKET-<counter>`, status `Reported`, inserted at the front), and
  status update (first match only, any status from any status).
  `Valid()` holds after every method: every stored id was issued by the
  counter, and no id is stored twice.
- **Decimal text** (`decimal.dfy`, module `Decimal`): how the counter is
  written into an id, and the digit values `parseInt` reads. There are
  round-trip and injectivity lemmas.
- **Action rules** (`rules.dfy`, module `ActionRules`):
  - the room-number rule (`parseInt`, then floor 1–5 and room 1–50);
  - the category and description rules;
  - "first error wins" reporting;
  - the fixed-credential login decision;
  - the empty-id guard of the delete action.
- **Server actions** (`server_actions.dfy`, module `ServerActions`):
  `submitComplaint` and `updateStatusAction` as methods over the store.
- **Admin table** (`table.dfy`, module `ComplaintsTable`):
  - the text/category/status filter, which preserves order;
  - the status badge colour;
  - which status-menu items are disabled;
  - when the "No complaints found." row is shown.

Where the code's behaviour may surprise a reader, the model follows the code:

- The description rule is `length >= 10` on the raw string. Nothing is trimmed.
- `updateStatusAction` reports "Status updated" even when no complaint has the id. The store returns nothing in that case, and the action ignores it.
- Only leading digits are read from the room number (`parseInt`). So `101B` is accepted as room 101, and text such as `A-101` (the form's placeholder) is rejected.
- src/lib/data.ts defines no delete operation. Only the delete action's empty-id guard is modelled.
- A room number that is empty fails with "Room number is required.". The schema also records the room-rule failure, but that message comes second, so it is never reported.

## Model

| member | source | states |
|---|---|---|
| ComplaintTypes.CategoriesEnumerated | src/lib/types.ts:1 | exactly five categories, every category listed, names distinct and in the order Plumbing, Electrical, Heating, Cleanliness, Maintenance |
| ComplaintTypes.StatusesEnumerated | src/lib/types.ts:4 | exactly four statuses, every status listed, names distinct and in the order Reported, Assigned, In Progress, Resolved |
| ComplaintTypes.ParseCategory | src/lib/types.ts:1-2 | the enum check accepts a string exactly when it is the name of a category, and returns that category |
| ComplaintTypes.ParseStatus | src/lib/types.ts:4-5 | the enum check accepts a string exactly when it is the name of a status, and returns that status |
| ComplaintTypes.CategoryRoundTrip | src/lib/types.ts:1-2 | parsing a category's name gives the category back |
| ComplaintTypes.StatusRoundTrip | src/lib/types.ts:4-5 | parsing a status's name gives the status back |
| Decimal.NatToString | src/lib/data.ts:38 | the counter's text is a non-empty run of digits with no leading zero |
| Decimal.NatToStringRoundTrip | src/lib/data.ts:38 | the digit value of a number's text is the number |
| Decimal.NatToStringInjective | src/lib/data.ts:38 | different counter values are written differently |
| Decimal.LeadingDigits | src/lib/actions.ts:16 | the longest prefix of digits: a prefix, all digits, followed by a non-digit or the end |
| ComplaintStore.TicketIdInjective | src/lib/data.ts:35-38 | different counter values give different `TICKET-` ids |
| ComplaintStore.TicketIdReadsBack | src/lib/data.ts:38 | the tracking id `TICKET-${counter}` is `TICKET-` followed by digits whose value is the counter |
| ComplaintStore.NextIdFresh | src/lib/data.ts:35-38 | when every stored id was issued by the counter so far, none of them equals the next id `TICKET-<counter + 1>` |
| ComplaintStore.Store.Valid | src/lib/data.ts:10-18 | the store's invariant (ids issued by the counter, counter at least 10000, ids distinct) implies the next id handed out is not stored yet |
| ComplaintStore.FindIndex | src/lib/data.ts:48 | `findIndex`: the first index whose id matches, or none when no id matches |
| ComplaintStore.FindById | src/lib/data.ts:30 | `find`: absent exactly when no complaint has the id; otherwise the complaint at the first matching index |
| ComplaintStore.WithStatus | src/lib/data.ts:48-51 | same length; only the first complaint with the id may change, and only in its status, which becomes the requested one; with no match the list is unchanged |
| ComplaintStore.UpdateThenFind | src/lib/data.ts:48-51 | after an update, a lookup of the id finds the same position and the old record with the new status, whatever the old status was |
| ComplaintStore.InsertByDate | src/lib/data.ts:25 | inserting adds exactly one element (multiset) and puts it at the front or keeps the old head |
| ComplaintStore.InsertKeepsNewestFirst | src/lib/data.ts:25 | insertion into a newest-first list keeps it newest first |
| ComplaintStore.SortNewestFirst | src/lib/data.ts:25 | the sort's result is ordered by `createdAt`, newest first, and is a permutation of its input |
| ComplaintStore.SortKeepsSortedList | src/lib/data.ts:25 | a list already newest first is left as it is |
| ComplaintStore.SortIdempotent | src/lib/data.ts:25 | sorting a sorted list changes nothing |
| ComplaintStore.InsertKeepsIdsDistinct | src/lib/data.ts:25 | inserting a complaint with a new id keeps ids distinct |
| ComplaintStore.SortKeepsIdsDistinct | src/lib/data.ts:25 | sorting keeps ids distinct |
| ComplaintStore.Store.constructor | src/lib/data.ts:10-18 | a fresh store is empty with counter 10000 and satisfies the invariant |
| ComplaintStore.Store.GetComplaints | src/lib/data.ts:23-26 | the stored list is replaced by its newest-first permutation, which is also returned; the counter and the invariant are kept |
| ComplaintStore.Store.GetComplaintById | src/lib/data.ts:28-31 | returns the first stored complaint with the id, or nothing; changes nothing |
| ComplaintStore.Store.AddComplaint | src/lib/data.ts:33-44 | counter + 1; returns `TICKET-<counter>` with status Reported and the input's room, category and description; the list becomes the new complaint followed by the old list; the new id is not among the old ids; invariant kept |
| ComplaintStore.Store.UpdateComplaintStatus | src/lib/data.ts:46-54 | list becomes `WithStatus` of the old list; returns the updated record when found, nothing otherwise; counter and invariant kept |
| ComplaintStore.FirstComplaintId | src/lib/data.ts:16-38 | on a fresh store the first added complaint gets `TICKET-10001` |
| ComplaintStore.AddInSequence | src/lib/data.ts:35-42 | successive adds from a fresh store return `TICKET-<10001+i>`, pairwise distinct |
| ActionRules.SkipWhitespace | src/lib/actions.ts:16 | drops exactly the leading JavaScript whitespace and line terminators |
| ActionRules.ParseIntOfDigits | src/lib/actions.ts:16 | digits followed by a non-digit or the end parse to the digits' value |
| ActionRules.ParseIntOfDecimal | src/lib/actions.ts:16 | the decimal text of n, with any suffix not starting with a digit, parses to n |
| ActionRules.NoLeadingNumberIsNaN | src/lib/actions.ts:16-17 | text starting with no whitespace, sign or digit parses to NaN |
| ActionRules.ParseIntOfSignedDecimal | src/lib/actions.ts:16 | `parseInt(val, 10)`: after any leading JavaScript whitespace, the decimal text of n with no sign or with `+` reads as n, and with `-` as -n, whatever non-digit text follows |
| ActionRules.JsRemainder100 | src/lib/actions.ts:19 | JavaScript's `% 100`: has the sign of the dividend, magnitude below 100, and differs from it by a multiple of 100 |
| ActionRules.RoomCodeValid | src/lib/actions.ts:18-23 | the floor/room test holds exactly for 101–150, 201–250, 301–350, 401–450 and 501–550, negative numbers and 0 included in the analysis |
| ActionRules.RoomRefineRanges | src/lib/actions.ts:14-21 | the `refine` callback accepts a room string exactly when `parseInt` reads a number (not NaN) in one of the five ranges |
| ActionRules.DigitRoomRefine | src/lib/actions.ts:14-21 | a room string of digits (plus non-digit text) passes exactly when the digits' value passes the floor/room test |
| ActionRules.DecimalRoomRefine | src/lib/actions.ts:14-21 | the decimal text of n (plus non-digit text) passes exactly when n passes the floor/room test |
| ActionRules.PlaceholderRoomRejected | src/lib/actions.ts:16-17 | `A-101` fails the room rule |
| ActionRules.TrailingTextAccepted | src/lib/actions.ts:16-20 | `101B` passes the room rule |
| ActionRules.RejectedRoomExamples | src/lib/actions.ts:16-20 | `151`, `551` and `0` fail the room rule |
| ActionRules.NegativeRoomRejected | src/lib/actions.ts:16-20 | every negative number fails the room rule |
| ActionRules.RoomErrors | src/lib/actions.ts:11-25 | the room field passes exactly when it is a non-empty string the refine accepts; a missing field gets the library's "Expected string, received null"; an empty string gets "Room number is required." and then the room-rule message; any other failing string only the room-rule message |
| ActionRules.CategoryErrors | src/lib/actions.ts:26-28 | the category field passes exactly when it is the name of a category; otherwise its only message is "Please select a valid category." |
| ActionRules.DescriptionErrors | src/lib/actions.ts:29 | the description passes exactly when it is a string of at least 10 characters; a missing field gets the library's null message, a short string "Description must be at least 10 characters." |
| ActionRules.FirstFieldError | src/lib/actions.ts:50 | no error exactly when every field's list is empty; otherwise the first message of the first non-empty list |
| ActionRules.FirstOfThreeFields | src/lib/actions.ts:50 | for three fields, the first error read off in field order |
| ActionRules.ValidateComplaint | src/lib/actions.ts:10-51 | succeeds exactly when the room is non-empty and passes the room rule, the category is one of the five, and the description has at least 10 characters; then returns those values; otherwise returns the first failing check's message in the order room, category, description |
| ActionRules.EmptyRoomReportedFirst | src/lib/actions.ts:13 | an empty room number fails with "Room number is required." whatever the other fields are |
| ActionRules.Login | src/lib/actions.ts:92-111 | login succeeds exactly for `admin@hallcomplaint.com` / `12345`; a malformed form gets "Invalid email or password.", any other well-formed pair gets "Invalid credentials." |
| ActionRules.WrongCredentialsIndistinguishable | src/lib/actions.ts:105-111 | two wrong, well-formed pairs get the same generic answer |
| ActionRules.DeleteGuard | src/lib/actions.ts:120-123 | refused with "Invalid ID provided" exactly when the id is empty; otherwise the id is passed on unchanged |
| ServerActions.SubmitComplaint | src/lib/actions.ts:40-68 | on a validation failure returns that message and leaves the store unchanged; on success stores the new complaint at the front and returns its tracking id; invariant kept |
| ServerActions.UpdateStatusAction | src/lib/actions.ts:75-89 | a status outside the four is refused with "Invalid data" and the store is unchanged; otherwise the store is updated and "Status updated" is returned, whether or not the id exists |
| ServerActions.SubmittedComplaintIsFound | src/lib/data.ts:30-42 | a complaint just added at the front is what a lookup of its id returns |
| ComplaintsTable.Lower | src/components/complaints-table.tsx:30-32 | lowercasing keeps length and maps each character |
| ComplaintsTable.Includes | src/components/complaints-table.tsx:30-32 | `includes` holds exactly when the needle occurs at some position of the haystack |
| ComplaintsTable.SearchMatch | src/components/complaints-table.tsx:30-32 | the search test: an empty search text matches every complaint, and a text longer than the room number, the id and the description matches none |
| ComplaintsTable.Keeps | src/components/complaints-table.tsx:29-35 | the filter callback keeps a complaint exactly when the search matches, the category selector is `all` or that complaint's category, and the status selector is `all` or its status |
| ComplaintsTable.FilterComplaints | src/components/complaints-table.tsx:28-37 | a complaint appears in the result exactly when it is in the input and passes the text, category and status tests; the result is no longer than the input |
| ComplaintsTable.Select | src/components/complaints-table.tsx:29 | `Array.filter`: an element is in the result exactly when it is in the input and satisfies the predicate; the result is no longer than the input |
| ComplaintsTable.KeptPositions | src/components/complaints-table.tsx:29-36 | increasing positions inside the input, holding exactly the indices of elements that satisfy the predicate |
| ComplaintsTable.SelectReadsKeptPositions | src/components/complaints-table.tsx:29 | the result of `Array.filter` is the input read at the kept positions in order |
| ComplaintsTable.SelectAll | src/components/complaints-table.tsx:29 | a predicate every element satisfies keeps the whole input |
| ComplaintsTable.SelectNarrower | src/components/complaints-table.tsx:29 | a stronger predicate selects from the weaker one's result |
| ComplaintsTable.SelectAgreeing | src/components/complaints-table.tsx:29 | predicates that agree everywhere select the same elements |
| ComplaintsTable.FilterReadsKeptPositions | src/components/complaints-table.tsx:28-37 | the filtered list is the input read, in order, at exactly the positions of the complaints that pass all three tests: an order-preserving subsequence |
| ComplaintsTable.NoFilterKeepsAll | src/components/complaints-table.tsx:24-35 | empty text with both selectors on `all` shows the whole list |
| ComplaintsTable.NarrowingRefilters | src/components/complaints-table.tsx:33-35 | narrowing a selector from `all` to one value gives the previous result filtered again |
| ComplaintsTable.FilterIgnoresCase | src/components/complaints-table.tsx:30-32 | search texts that agree after lowercasing give the same result |
| ComplaintsTable.ShowsNoComplaintsRow | src/components/complaints-table.tsx:95 | the `length > 0` test fails exactly when the filtered list is empty |
| ComplaintsTable.NoComplaintsRowIff | src/components/complaints-table.tsx:95-127 | the "No complaints found." row is shown exactly when no complaint passes the filter |
| ComplaintsTable.StatusColor | src/components/complaints-table.tsx:39-51 | Resolved is green, In Progress yellow, Assigned blue, anything else gray |
| ComplaintsTable.StatusColorsDistinct | src/components/complaints-table.tsx:39-51 | Reported is gray and the four statuses get four different colours |
| ComplaintsTable.ItemDisabled | src/components/complaints-table.tsx:164 | a menu item is disabled whenever an update is pending; otherwise exactly when it is the complaint's current status |
| ComplaintsTable.EnabledItems | src/components/complaints-table.tsx:160-164 | the enabled menu items are exactly the statuses not disabled; none while an update is pending; otherwise the menu in its own order with the current status taken out |
| ComplaintsTable.ThreeItemsEnabled | src/components/complaints-table.tsx:160-164 | with no update pending exactly three items are enabled |

## Left out

- Simulated latency (`delay`): every store operation is a synchronous method.
- Concurrency: interleaved server actions are not modelled.
- Framework side effects are not modelled: `revalidatePath`, the session cookie and `redirect`. A successful login is the value `LoggedIn`. `logout` is only such effects, so it is not modelled.
- The email syntax check of the schema library is not modelled. It is the function parameter `isEmail` of `Login`.
- The delete action imports a store delete operation, but src/lib/data.ts defines no delete operation. Only the delete action's empty-id guard is modelled. Its try/catch around the store call is not.
- Clock: `createdAt` is an integer timestamp passed in by the caller. Date formatting for display is not modelled.
- ComplaintsTable.Lower: ASCII letters only. Unicode `toLowerCase` is not modelled.
- ActionRules.ParseIntOfSignedDecimal: `ParseInt` works on unbounded integers. JavaScript's double rounding above 2^53, `Infinity` for very long digit runs, and `-0` are not modelled. None of them changes the room verdict: every such value has a floor outside 1–5.
- ComplaintStore.TicketIdReadsBack: `TicketId` writes an unbounded natural. Number precision and exponent notation past 10^21 are not modelled.
- String lengths count Unicode scalar values. JavaScript counts UTF-16 code units, so the two differ for characters outside the Basic Multilingual Plane.
- Aliasing: the source hands out references to its own array and record objects, so later in-place updates show through them. The model returns values.
- The `catch` branches of `submitComplaint` and `updateStatusAction` are not modelled. They are reached only if a framework call such as `revalidatePath` throws, and that call is not modelled. In `submitComplaint` the complaint is then already stored, although failure ("Failed to submit complaint. Please try again later.") is reported; in `updateStatusAction` the status is already changed, although "Failed to update status" is reported.
- Form fields are `Option<string>`: an absent field is `None`. File values in a form are not modelled. `prevState` is ignored.
- ComplaintStore.SortNewestFirst: ties keep their former order by construction (each element goes in front of the first one that is not newer). No lemma states this stability.
- UI-only code is not modelled: React hooks, toasts, dialogs, icons, page files, and the weaker client-side copies of the schemas in the form components.
