/**
 * The admin table's derived view (src/components/complaints-table.tsx): the
 * text, category and status filter over the complaint list, the badge
 * colour of a status, which status-menu items are disabled, and when the
 * "No complaints found." row is shown.
 */
module ComplaintsTable {
  import opened ComplaintTypes

  // ---------------------------------------------------------------------
  // Case-insensitive substring search
  // ---------------------------------------------------------------------

  /** `toLowerCase` on one character, restricted to ASCII letters. */
  function AsciiLower(ch: char): char
  {
    if 'A' <= ch <= 'Z' then (ch as int + 32) as char else ch
  }

  function Lower(s: string): (r: string)
    ensures |r| == |s| && forall i :: 0 <= i < |s| ==> r[i] == AsciiLower(s[i])
  {
    if s == [] then [] else [AsciiLower(s[0])] + Lower(s[1..])
  }

  /** `needle` occurs in `hay` starting at index `i`. */
  predicate OccursAt(hay: string, needle: string, i: int)
  {
    0 <= i <= |hay| - |needle| && hay[i..i + |needle|] == needle
  }

  /** `String.prototype.includes`: `needle` occurs somewhere in `hay`. */
  function Includes(hay: string, needle: string): (b: bool)
    ensures b <==> exists i :: OccursAt(hay, needle, i)
  {
    if needle <= hay then
      assert OccursAt(hay, needle, 0);
      true
    else if hay == [] then
      assert forall i :: !OccursAt(hay, needle, i);
      false
    else
      var b := Includes(hay[1..], needle);
      assert b ==> exists i :: OccursAt(hay, needle, i) by {
        if b {
          var i :| OccursAt(hay[1..], needle, i);
          assert hay[i + 1..i + 1 + |needle|] == hay[1..][i..i + |needle|];
          assert OccursAt(hay, needle, i + 1);
        }
      }
      assert (exists i :: OccursAt(hay, needle, i)) ==> b by {
        if exists i :: OccursAt(hay, needle, i) {
          var i :| OccursAt(hay, needle, i);
          assert i != 0;
          assert hay[1..][i - 1..i - 1 + |needle|] == hay[i..i + |needle|];
          assert OccursAt(hay[1..], needle, i - 1);
        }
      }
      b
  }

  // ---------------------------------------------------------------------
  // The filter
  // ---------------------------------------------------------------------

  /** A category or status selector: `'all'` or one value. */
  datatype Selector<T> = All | Only(value: T)

  predicate Selected<T(==)>(sel: Selector<T>, v: T)
  {
    sel.All? || sel.value == v
  }

  /** The search box: the lowercased text occurs in the lowercased room number, id or description. */
  function SearchMatch(c: Complaint, text: string): (b: bool)
    ensures text == [] ==> b
    ensures b ==> |text| <= |c.roomNumber| || |text| <= |c.id| || |text| <= |c.description|
  {
    var t := Lower(text);
    Includes(Lower(c.roomNumber), t) || Includes(Lower(c.id), t) || Includes(Lower(c.description), t)
  }

  /** The predicate passed to `Array.filter`. */
  function Keeps(c: Complaint, text: string, category: Selector<Category>, status: Selector<Status>): (b: bool)
    ensures b <==> SearchMatch(c, text) &&
                   (category == All || category == Only(c.category)) &&
                   (status == All || status == Only(c.status))
  {
    SearchMatch(c, text) && Selected(category, c.category) && Selected(status, c.status)
  }

  /** The predicate given to `Array.filter`, as a function value. */
  function KeepsFunction(text: string, category: Selector<Category>, status: Selector<Status>): Complaint -> bool
  {
    c => Keeps(c, text, category, status)
  }

  /** `Array.filter`: the elements that satisfy `keep`, in input order. */
  function Select(cs: seq<Complaint>, keep: Complaint -> bool): (r: seq<Complaint>)
    ensures |r| <= |cs|
    ensures forall c :: c in r <==> c in cs && keep(c)
  {
    if cs == [] then []
    else
      assert cs == [cs[0]] + cs[1..];
      (if keep(cs[0]) then [cs[0]] else []) + Select(cs[1..], keep)
  }

  /** Every position shifted one to the right. */
  function Shift(p: seq<nat>): (q: seq<nat>)
    ensures |q| == |p| && forall k :: 0 <= k < |p| ==> q[k] == p[k] + 1
  {
    seq(|p|, k requires 0 <= k < |p| => p[k] + 1)
  }

  /**
   * The positions of the elements satisfying `keep`, in increasing order:
   * an independent description of an order-preserving selection.
   */
  function KeptPositions(cs: seq<Complaint>, keep: Complaint -> bool): (p: seq<nat>)
    ensures forall k :: 0 <= k < |p| ==> p[k] < |cs|
    ensures forall k, l :: 0 <= k < l < |p| ==> p[k] < p[l]
    ensures forall i :: 0 <= i < |cs| ==> (i in p <==> keep(cs[i]))
  {
    if cs == [] then []
    else
      var rest := KeptPositions(cs[1..], keep);
      PrependShifted(keep(cs[0]), rest, |cs| - 1);
      (if keep(cs[0]) then [0] else []) + Shift(rest)
  }

  /** Positions into a tail, moved one to the right, with position 0 in front or not. */
  lemma PrependShifted(head: bool, rest: seq<nat>, n: nat)
    requires forall k :: 0 <= k < |rest| ==> rest[k] < n
    requires forall k, l :: 0 <= k < l < |rest| ==> rest[k] < rest[l]
    ensures var p := (if head then [0] else []) + Shift(rest);
            && (forall k :: 0 <= k < |p| ==> p[k] < n + 1)
            && (forall k, l :: 0 <= k < l < |p| ==> p[k] < p[l])
            && (0 in p <==> head)
            && (forall i :: 1 <= i <= n ==> (i in p <==> i - 1 in rest))
  {
    var shifted := Shift(rest);
    var p := (if head then [0] else []) + shifted;
    assert forall i :: 1 <= i <= n ==> (i in shifted <==> i - 1 in rest);
    assert forall i :: i in p <==> (head && i == 0) || i in shifted;
  }

  /** One step of the selection: prepending the head, or not, to a selection of the tail. */
  lemma SelectionStep(cs: seq<Complaint>, keep: bool, rest: seq<Complaint>, restPositions: seq<nat>)
    requires cs != [] && |rest| == |restPositions|
    requires forall k :: 0 <= k < |restPositions| ==>
      restPositions[k] < |cs| - 1 && rest[k] == cs[1..][restPositions[k]]
    ensures var r, p := (if keep then [cs[0]] else []) + rest, (if keep then [0] else []) + Shift(restPositions);
            |r| == |p| && forall k :: 0 <= k < |p| ==> p[k] < |cs| && r[k] == cs[p[k]]
  {
  }

  /**
   * The selection is the input read at the kept positions, in order: a
   * subsequence of the input holding exactly the elements that pass.
   */
  lemma {:induction false} SelectReadsKeptPositions(cs: seq<Complaint>, keep: Complaint -> bool)
    ensures var r, p := Select(cs, keep), KeptPositions(cs, keep);
            |r| == |p| && forall k :: 0 <= k < |p| ==> r[k] == cs[p[k]]
  {
    if cs != [] {
      SelectReadsKeptPositions(cs[1..], keep);
      SelectionStep(cs, keep(cs[0]), Select(cs[1..], keep), KeptPositions(cs[1..], keep));
    }
  }

  /** Selecting with a predicate every element satisfies returns the input. */
  lemma {:induction false} SelectAll(cs: seq<Complaint>, keep: Complaint -> bool)
    requires forall c :: c in cs ==> keep(c)
    ensures Select(cs, keep) == cs
  {
    if cs != [] {
      SelectAll(cs[1..], keep);
      assert cs == [cs[0]] + cs[1..];
    }
  }

  /** Selecting with a stronger predicate is selecting again from the weaker one's result. */
  lemma {:induction false} SelectNarrower(cs: seq<Complaint>, narrow: Complaint -> bool, wide: Complaint -> bool)
    requires forall c :: narrow(c) ==> wide(c)
    ensures Select(cs, narrow) == Select(Select(cs, wide), narrow)
  {
    if cs != [] {
      SelectNarrower(cs[1..], narrow, wide);
      var w := Select(cs, wide);
      if wide(cs[0]) {
        assert w == [cs[0]] + Select(cs[1..], wide);
        assert w[0] == cs[0] && w[1..] == Select(cs[1..], wide);
      } else {
        assert !narrow(cs[0]);
        assert w == Select(cs[1..], wide);
      }
    }
  }

  /** Predicates that agree everywhere select alike. */
  lemma {:induction false} SelectAgreeing(cs: seq<Complaint>, keep1: Complaint -> bool, keep2: Complaint -> bool)
    requires forall c :: keep1(c) == keep2(c)
    ensures Select(cs, keep1) == Select(cs, keep2)
  {
    if cs != [] {
      SelectAgreeing(cs[1..], keep1, keep2);
    }
  }

  /** `filteredComplaints`. */
  function FilterComplaints(cs: seq<Complaint>, text: string, category: Selector<Category>, status: Selector<Status>)
    : (r: seq<Complaint>)
    ensures |r| <= |cs|
    ensures forall c :: c in r <==> c in cs && Keeps(c, text, category, status)
  {
    Select(cs, KeepsFunction(text, category, status))
  }

  /**
   * The filtered list is the input read at the positions of the complaints
   * that pass all three tests, in order: an order-preserving subsequence.
   */
  lemma FilterReadsKeptPositions(cs: seq<Complaint>, text: string, category: Selector<Category>,
                                 status: Selector<Status>)
    ensures var r, p := FilterComplaints(cs, text, category, status),
                        KeptPositions(cs, KeepsFunction(text, category, status));
            |r| == |p| && forall k :: 0 <= k < |p| ==> r[k] == cs[p[k]]
    ensures var p := KeptPositions(cs, KeepsFunction(text, category, status));
            forall i :: 0 <= i < |cs| ==> (i in p <==> Keeps(cs[i], text, category, status))
  {
    SelectReadsKeptPositions(cs, KeepsFunction(text, category, status));
  }

  /** With no search text and both selectors on `all`, the table shows the whole list. */
  lemma NoFilterKeepsAll(cs: seq<Complaint>)
    ensures FilterComplaints(cs, "", All, All) == cs
  {
    forall c | c in cs ensures KeepsFunction("", All, All)(c) {
      assert Lower("") == "";
      assert OccursAt(Lower(c.roomNumber), "", 0);
    }
    SelectAll(cs, KeepsFunction("", All, All));
  }

  /** `narrow` selects no more than `wide`: `wide` is `all` or the same choice. */
  predicate Narrows<T(==)>(narrow: Selector<T>, wide: Selector<T>)
  {
    wide.All? || narrow == wide
  }

  /**
   * Narrowing a selector (from `all` to one value) filters the previous
   * result further: the new view is the old view filtered again, hence a
   * subsequence of it.
   */
  lemma NarrowingRefilters(cs: seq<Complaint>, text: string,
                           category: Selector<Category>, wideCategory: Selector<Category>,
                           status: Selector<Status>, wideStatus: Selector<Status>)
    requires Narrows(category, wideCategory) && Narrows(status, wideStatus)
    ensures FilterComplaints(cs, text, category, status) ==
            FilterComplaints(FilterComplaints(cs, text, wideCategory, wideStatus), text, category, status)
  {
    SelectNarrower(cs, KeepsFunction(text, category, status), KeepsFunction(text, wideCategory, wideStatus));
  }

  /** The search is case-insensitive: texts that agree once lowercased filter alike. */
  lemma FilterIgnoresCase(cs: seq<Complaint>, text1: string, text2: string,
                          category: Selector<Category>, status: Selector<Status>)
    requires Lower(text1) == Lower(text2)
    ensures FilterComplaints(cs, text1, category, status) == FilterComplaints(cs, text2, category, status)
  {
    SelectAgreeing(cs, KeepsFunction(text1, category, status), KeepsFunction(text2, category, status));
  }

  /** The "No complaints found." row replaces the rows when the filtered list is empty. */
  function ShowsNoComplaintsRow(filtered: seq<Complaint>): (b: bool)
    ensures b <==> filtered == []
  {
    !(|filtered| > 0)
  }

  /** The empty-table row appears exactly when no complaint passes the filter. */
  lemma NoComplaintsRowIff(cs: seq<Complaint>, text: string, category: Selector<Category>, status: Selector<Status>)
    ensures ShowsNoComplaintsRow(FilterComplaints(cs, text, category, status)) <==>
            forall i :: 0 <= i < |cs| ==> !Keeps(cs[i], text, category, status)
  {
    var r := FilterComplaints(cs, text, category, status);
    if |r| > 0 {
      assert r[0] in r;
    }
  }

  // ---------------------------------------------------------------------
  // Status badge and status menu
  // ---------------------------------------------------------------------

  datatype BadgeColor = Green | Yellow | Blue | Gray

  /** The class names the badge receives for each colour. */
  function BadgeClasses(color: BadgeColor): string
  {
    match color
    case Green => "bg-green-100 text-green-800 border-green-200 hover:bg-green-100"
    case Yellow => "bg-yellow-100 text-yellow-800 border-yellow-200 hover:bg-yellow-100"
    case Blue => "bg-blue-100 text-blue-800 border-blue-200 hover:bg-blue-100"
    case Gray => "bg-gray-100 text-gray-800 border-gray-200 hover:bg-gray-100"
  }

  /** `getStatusColor`, which takes any string; unknown strings fall back to gray. */
  function StatusColor(status: string): (r: BadgeColor)
    ensures r == Green <==> status == "Resolved"
    ensures r == Yellow <==> status == "In Progress"
    ensures r == Blue <==> status == "Assigned"
    ensures r == Gray <==> status !in ["Resolved", "In Progress", "Assigned"]
  {
    match status
    case "Resolved" => Green
    case "In Progress" => Yellow
    case "Assigned" => Blue
    case _ => Gray
  }

  /** Each of the four statuses gets a badge colour of its own, `Reported` the gray one. */
  lemma StatusColorsDistinct(s1: Status, s2: Status)
    ensures StatusColor(StatusName(Reported)) == Gray
    ensures s1 != s2 ==> StatusColor(StatusName(s1)) != StatusColor(StatusName(s2))
  {
  }

  /** A status-menu item is disabled while an update is pending, or when it is the current status. */
  function ItemDisabled(current: Status, item: Status, pending: bool): (b: bool)
    ensures pending ==> b
    ensures !pending ==> (b <==> item == current)
  {
    pending || current == item
  }

  /**
   * The statuses the menu offers, in menu order: with no update pending,
   * the menu with the current status taken out.
   */
  function EnabledItems(current: Status, pending: bool): (r: seq<Status>)
    ensures forall s :: s in r <==> s in Statuses && !ItemDisabled(current, s, pending)
    ensures pending ==> r == []
    ensures !pending ==> exists i :: 0 <= i < |Statuses| && Statuses[i] == current &&
                                     r == Statuses[..i] + Statuses[i + 1..]
  {
    var i := MenuPosition(current);
    RemovesOnlyCurrent(current, Statuses, i);
    EnabledAmong(current, pending, Statuses)
  }

  /** Where a status stands in the menu; no other item is that status. */
  function MenuPosition(s: Status): (i: nat)
    ensures i < |Statuses| && Statuses[i] == s
    ensures forall k :: 0 <= k < |Statuses| && k != i ==> Statuses[k] != s
  {
    match s
    case Reported => 0
    case Assigned => 1
    case InProgress => 2
    case Resolved => 3
  }

  /** The items of `items` that are not disabled, in their order. */
  function EnabledAmong(current: Status, pending: bool, items: seq<Status>): (r: seq<Status>)
    ensures forall s :: s in r <==> s in items && !ItemDisabled(current, s, pending)
    ensures pending ==> r == []
  {
    if items == [] then []
    else
      assert items == [items[0]] + items[1..];
      (if ItemDisabled(current, items[0], pending) then [] else [items[0]]) +
      EnabledAmong(current, pending, items[1..])
  }

  /** With no update pending, a list without the current status is offered whole. */
  lemma {:induction false} NoneDisabled(current: Status, items: seq<Status>)
    requires forall k :: 0 <= k < |items| ==> items[k] != current
    ensures EnabledAmong(current, false, items) == items
  {
    if items != [] {
      NoneDisabled(current, items[1..]);
      assert items == [items[0]] + items[1..];
    }
  }

  /** With no update pending, exactly the one occurrence of the current status is taken out. */
  lemma {:induction false} RemovesOnlyCurrent(current: Status, items: seq<Status>, i: nat)
    requires i < |items| && items[i] == current
    requires forall k :: 0 <= k < |items| && k != i ==> items[k] != current
    ensures EnabledAmong(current, false, items) == items[..i] + items[i + 1..]
  {
    if i == 0 {
      NoneDisabled(current, items[1..]);
      assert EnabledAmong(current, false, items) == EnabledAmong(current, false, items[1..]);
      assert items[..0] + items[1..] == items[1..];
    } else {
      var tail := items[1..];
      calc {
        EnabledAmong(current, false, items);
        { assert !ItemDisabled(current, items[0], false); }
        [items[0]] + EnabledAmong(current, false, tail);
        { assert forall k :: 0 <= k < |tail| && k != i - 1 ==> tail[k] == items[k + 1];
          RemovesOnlyCurrent(current, tail, i - 1); }
        [items[0]] + (tail[..i - 1] + tail[i..]);
        ([items[0]] + tail[..i - 1]) + tail[i..];
        { assert items[..i] == [items[0]] + tail[..i - 1];
          assert items[i + 1..] == tail[i..]; }
        items[..i] + items[i + 1..];
      }
    }
  }

  /** With no update pending, every status but the current one can be chosen: three items. */
  lemma ThreeItemsEnabled(current: Status)
    ensures |EnabledItems(current, false)| == 3
  {
  }
}
