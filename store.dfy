/**
 * The in-memory complaint store (src/lib/data.ts): one process-wide list of
 * complaints, newest insertion at the front, and a counter that numbers the
 * tracking ids. Simulated latency is not part of the model; each operation
 * is a synchronous method.
 */
module ComplaintStore {
  import opened Wrappers
  import opened ComplaintTypes
  import opened Decimal

  /** The counter's value before the first complaint is added. */
  const InitialCounter: nat := 10000

  /** The tracking id `TICKET-<k>` for counter value `k`. */
  function TicketId(k: nat): string
  {
    "TICKET-" + NatToString(k)
  }

  /** A tracking id is `TICKET-` followed by digits that read back as the counter value. */
  lemma TicketIdReadsBack(k: nat)
    ensures |TicketId(k)| > 7 && TicketId(k)[..7] == "TICKET-"
    ensures AllDigits(TicketId(k)[7..]) && DigitsValue(TicketId(k)[7..]) == k
  {
    assert TicketId(k)[7..] == NatToString(k);
    NatToStringRoundTrip(k);
  }

  /** Different counter values give different tracking ids. */
  lemma TicketIdInjective(a: nat, b: nat)
    requires TicketId(a) == TicketId(b)
    ensures a == b
  {
    assert TicketId(a)[7..] == NatToString(a);
    assert TicketId(b)[7..] == NatToString(b);
    NatToStringInjective(a, b);
  }

  /** `id` is a tracking id the counter handed out while it went up to `counter`. */
  ghost predicate IssuedBy(id: string, counter: nat)
  {
    exists k: nat :: InitialCounter < k <= counter && id == TicketId(k)
  }

  predicate IdsDistinct(s: seq<Complaint>)
  {
    forall i, j :: 0 <= i < j < |s| ==> s[i].id != s[j].id
  }

  /** `findIndex`: the position of the first complaint with this id. */
  function FindIndex(s: seq<Complaint>, id: string): (r: Option<nat>)
    ensures r.Some? ==> r.value < |s| && s[r.value].id == id &&
                        forall j :: 0 <= j < r.value ==> s[j].id != id
    ensures r.None? ==> forall j :: 0 <= j < |s| ==> s[j].id != id
  {
    if s == [] then None
    else if s[0].id == id then Some(0)
    else match FindIndex(s[1..], id)
      case None => None
      case Some(i) => Some(i + 1)
  }

  /** `find`: the first complaint with this id, if any. */
  function FindById(s: seq<Complaint>, id: string): (r: Option<Complaint>)
    ensures r.None? <==> forall j :: 0 <= j < |s| ==> s[j].id != id
    ensures r.Some? ==> exists i :: 0 <= i < |s| && s[i] == r.value && r.value.id == id &&
                                    forall j :: 0 <= j < i ==> s[j].id != id
  {
    match FindIndex(s, id)
    case None => None
    case Some(i) => Some(s[i])
  }

  /** The list after the first complaint with this id is given status `st`. */
  function WithStatus(s: seq<Complaint>, id: string, st: Status): (r: seq<Complaint>)
    ensures |r| == |s|
    ensures forall j :: 0 <= j < |s| ==>
      r[j].(status := s[j].status) == s[j] &&
      (r[j].status != s[j].status ==> FindIndex(s, id) == Some(j))
    ensures FindIndex(s, id).Some? ==> r[FindIndex(s, id).value].status == st
    ensures FindIndex(s, id).None? ==> r == s
  {
    match FindIndex(s, id)
    case None => s
    case Some(i) => s[i := s[i].(status := st)]
  }

  /** After a status update, looking the id up finds the same record with the new status. */
  lemma UpdateThenFind(s: seq<Complaint>, id: string, st: Status)
    ensures FindIndex(WithStatus(s, id, st), id) == FindIndex(s, id)
    ensures FindById(WithStatus(s, id, st), id) ==
      match FindById(s, id)
      case None => None
      case Some(c) => Some(c.(status := st))
  {
    var r := WithStatus(s, id, st);
    match FindIndex(s, id)
    case None =>
    case Some(i) =>
      assert r[i].id == id;
      assert forall j :: 0 <= j < i ==> r[j].id == s[j].id;
      assert FindIndex(r, id) == Some(i);
  }

  /** Newest first: `createdAt` never increases along the list. */
  predicate NewestFirst(s: seq<Complaint>)
  {
    forall i, j :: 0 <= i < j < |s| ==> s[i].createdAt >= s[j].createdAt
  }

  /** Puts `x` in front of the first element that is not newer than it. */
  function InsertByDate(x: Complaint, s: seq<Complaint>): (r: seq<Complaint>)
    ensures multiset(r) == multiset(s) + multiset{x}
    ensures |r| == |s| + 1 && (r[0] == x || (s != [] && r[0] == s[0]))
  {
    if s == [] || s[0].createdAt <= x.createdAt then [x] + s
    else
      assert s == [s[0]] + s[1..];
      [s[0]] + InsertByDate(x, s[1..])
  }

  /** What `InsertByDate` returns is `x` or an element of `s`. */
  lemma InsertElements(x: Complaint, s: seq<Complaint>, c: Complaint)
    requires c in InsertByDate(x, s)
    ensures c == x || c in s
  {
    assert c in multiset(InsertByDate(x, s));
  }

  /** Inserting into a newest-first list keeps it newest first. */
  lemma {:induction false} InsertKeepsNewestFirst(x: Complaint, s: seq<Complaint>)
    requires NewestFirst(s)
    ensures NewestFirst(InsertByDate(x, s))
  {
    if s != [] && s[0].createdAt > x.createdAt {
      var t := InsertByDate(x, s[1..]);
      InsertKeepsNewestFirst(x, s[1..]);
      assert InsertByDate(x, s) == [s[0]] + t;
      forall k | 0 <= k < |t| ensures t[k].createdAt <= s[0].createdAt {
        InsertElements(x, s[1..], t[k]);
      }
    }
  }

  /**
   * The order `Array.prototype.sort` leaves with the comparator
   * `b.createdAt - a.createdAt`: newest first, ties in their former order.
   */
  function SortNewestFirst(s: seq<Complaint>): (r: seq<Complaint>)
    ensures NewestFirst(r)
    ensures multiset(r) == multiset(s)
  {
    if s == [] then []
    else
      assert s == [s[0]] + s[1..];
      InsertKeepsNewestFirst(s[0], SortNewestFirst(s[1..]));
      InsertByDate(s[0], SortNewestFirst(s[1..]))
  }

  /** A list already newest first is left as it is. */
  lemma {:induction false} SortKeepsSortedList(s: seq<Complaint>)
    requires NewestFirst(s)
    ensures SortNewestFirst(s) == s
  {
    if s != [] {
      SortKeepsSortedList(s[1..]);
      assert s == [s[0]] + s[1..];
    }
  }

  /** Sorting twice is sorting once. */
  lemma SortIdempotent(s: seq<Complaint>)
    ensures SortNewestFirst(SortNewestFirst(s)) == SortNewestFirst(s)
  {
    SortKeepsSortedList(SortNewestFirst(s));
  }

  /** Inserting a complaint whose id is new keeps the ids distinct. */
  lemma {:induction false} InsertKeepsIdsDistinct(x: Complaint, s: seq<Complaint>)
    requires IdsDistinct(s)
    requires forall c :: c in s ==> c.id != x.id
    ensures IdsDistinct(InsertByDate(x, s))
  {
    if s != [] && s[0].createdAt > x.createdAt {
      InsertKeepsIdsDistinct(x, s[1..]);
      var t := InsertByDate(x, s[1..]);
      forall c | c in t ensures c.id != s[0].id {
        assert c in multiset(t);
        if c != x {
          assert c in s[1..];
        }
      }
    }
  }

  /** Sorting only reorders, so the ids stay distinct. */
  lemma {:induction false} SortKeepsIdsDistinct(s: seq<Complaint>)
    requires IdsDistinct(s)
    ensures IdsDistinct(SortNewestFirst(s))
  {
    if s != [] {
      SortKeepsIdsDistinct(s[1..]);
      var t := SortNewestFirst(s[1..]);
      forall c | c in t ensures c.id != s[0].id {
        assert c in multiset(t);
        assert c in s[1..];
      }
      InsertKeepsIdsDistinct(s[0], t);
    }
  }

  /** Ids issued while the counter went up to `counter` all differ from the next id, `TICKET-<counter + 1>`. */
  lemma NextIdFresh(cs: seq<Complaint>, counter: nat)
    ensures (forall i :: 0 <= i < |cs| ==> IssuedBy(cs[i].id, counter)) ==>
            forall i :: 0 <= i < |cs| ==> cs[i].id != TicketId(counter + 1)
  {
    forall i | 0 <= i < |cs| && IssuedBy(cs[i].id, counter) ensures cs[i].id != TicketId(counter + 1) {
      var k: nat :| InitialCounter < k <= counter && cs[i].id == TicketId(k);
      if cs[i].id == TicketId(counter + 1) {
        TicketIdInjective(k, counter + 1);
      }
    }
  }

  /** The process-wide store: `global.complaints` and `global.complaintCounter`. */
  class Store {
    var complaints: seq<Complaint>
    var counter: nat

    /**
     * Every stored id was issued by the counter, and no id is stored twice;
     * so the id the next add hands out is not stored yet.
     */
    ghost predicate Valid()
      reads this
      ensures Valid() ==> forall i :: 0 <= i < |complaints| ==> complaints[i].id != TicketId(counter + 1)
    {
      NextIdFresh(complaints, counter);
      && InitialCounter <= counter
      && (forall i :: 0 <= i < |complaints| ==> IssuedBy(complaints[i].id, counter))
      && IdsDistinct(complaints)
    }

    /** The initial store: no complaints, counter 10000. */
    constructor ()
      ensures Valid()
      ensures complaints == [] && counter == InitialCounter
    {
      complaints := [];
      counter := InitialCounter;
    }

    /** `getComplaints`: sorts the stored list in place, newest first, and returns it. */
    method GetComplaints() returns (r: seq<Complaint>)
      requires Valid()
      modifies this
      ensures Valid()
      ensures counter == old(counter)
      ensures complaints == SortNewestFirst(old(complaints)) && r == complaints
      ensures NewestFirst(r) && multiset(r) == multiset(old(complaints))
    {
      var sorted := SortNewestFirst(complaints);
      SortKeepsIdsDistinct(complaints);
      forall i | 0 <= i < |sorted| ensures IssuedBy(sorted[i].id, counter) {
        assert sorted[i] in multiset(sorted);
        var j :| 0 <= j < |complaints| && complaints[j] == sorted[i];
      }
      complaints := sorted;
      r := complaints;
    }

    /** `getComplaintById`: the first stored complaint with this id; changes nothing. */
    method GetComplaintById(id: string) returns (r: Option<Complaint>)
      ensures r == FindById(complaints, id)
      ensures r.Some? ==> r.value in complaints && r.value.id == id
    {
      r := FindById(complaints, id);
    }

    /** `addComplaint`: advances the counter and stores the new complaint at the front. */
    method AddComplaint(data: ComplaintInput, createdAt: int) returns (c: Complaint)
      requires Valid()
      modifies this
      ensures Valid()
      ensures counter == old(counter) + 1
      ensures c == Complaint(TicketId(counter), data.roomNumber, data.category, data.description,
                             Reported, createdAt)
      ensures complaints == [c] + old(complaints)
      ensures forall d :: d in old(complaints) ==> d.id != c.id
    {
      counter := counter + 1;
      c := Complaint(TicketId(counter), data.roomNumber, data.category, data.description,
                     Reported, createdAt);
      forall d | d in complaints ensures d.id != c.id && IssuedBy(d.id, counter) {
        var k: nat :| InitialCounter < k <= counter - 1 && d.id == TicketId(k);
        if d.id == c.id {
          TicketIdInjective(k, counter);
        }
      }
      complaints := [c] + complaints;
    }

    /**
     * `updateComplaintStatus`: sets the status of the first complaint with
     * this id, whatever its former status, and returns the updated record;
     * with no such complaint nothing changes and the result is absent.
     */
    method UpdateComplaintStatus(id: string, st: Status) returns (r: Option<Complaint>)
      requires Valid()
      modifies this
      ensures Valid()
      ensures counter == old(counter)
      ensures complaints == WithStatus(old(complaints), id, st)
      ensures r == match FindById(old(complaints), id)
                   case None => None
                   case Some(c) => Some(c.(status := st))
    {
      var i := FindIndex(complaints, id);
      UpdateThenFind(complaints, id, st);
      if i.Some? {
        complaints := complaints[i.value := complaints[i.value].(status := st)];
        r := Some(complaints[i.value]);
      } else {
        r := None;
      }
    }
  }

  /** On a fresh store the first complaint added gets the id `TICKET-10001`. */
  method FirstComplaintId(data: ComplaintInput, createdAt: int) returns (id: string)
    ensures id == "TICKET-10001"
  {
    var store := new Store();
    var c := store.AddComplaint(data, createdAt);
    id := c.id;
    assert NatToString(1) == "1";
    assert NatToString(10) == "10";
    assert NatToString(100) == "100";
    assert NatToString(1000) == "1000";
    assert NatToString(10001) == "10001";
  }

  /**
   * Adds the inputs one after another to a fresh store: the i-th add gets
   * `TICKET-<10001 + i>`, so all the ids handed out are distinct.
   */
  method AddInSequence(inputs: seq<ComplaintInput>, times: seq<int>) returns (ids: seq<string>)
    requires |times| == |inputs|
    ensures |ids| == |inputs|
    ensures forall i :: 0 <= i < |ids| ==> ids[i] == TicketId(InitialCounter + 1 + i)
    ensures forall i, j :: 0 <= i < j < |ids| ==> ids[i] != ids[j]
  {
    var store := new Store();
    ids := [];
    var n := 0;
    while n < |inputs|
      invariant 0 <= n <= |inputs|
      invariant store.Valid() && store.counter == InitialCounter + n
      invariant |ids| == n
      invariant forall i :: 0 <= i < n ==> ids[i] == TicketId(InitialCounter + 1 + i)
    {
      var c := store.AddComplaint(inputs[n], times[n]);
      ids := ids + [c.id];
      n := n + 1;
    }
    forall i, j | 0 <= i < j < |ids| ensures ids[i] != ids[j] {
      if ids[i] == ids[j] {
        TicketIdInjective(InitialCounter + 1 + i, InitialCounter + 1 + j);
      }
    }
  }
}
