/**
 * `/getLocationHistory` of backend/index.js. It reads the live table
 * user_locations (there is no separate history table):
 * user_locations JOIN circle_members JOIN circles
 * `WHERE cm.circle_id IN (circles the requester is a member of) AND ul.email = target
 *  ORDER BY ul.timestamp DESC`.
 */
module History {
  import opened Wrappers
  import opened Schema
  import opened Memberships
  import KeyedTable

  datatype HistoryRow = HistoryRow(email: Email, latitude: Coordinate, longitude: Coordinate, timestamp: int)

  /** The target is a member of a stored circle among `mine`. */
  ghost predicate JoinsOneOf(circles: map<CircleId, Circle>, members: seq<MemberRow>, mine: set<CircleId>, target: Email)
  {
    exists c :: c in circles && c in mine && MemberRow(c, target) in members
  }

  /** The copies of one location row the join makes: one per qualifying membership row. */
  function JoinedCopies(
    members: seq<MemberRow>, circles: map<CircleId, Circle>, mine: set<CircleId>, target: Email, row: HistoryRow)
    : (r: seq<HistoryRow>)
    ensures forall k :: 0 <= k < |r| ==> r[k] == row
    ensures r != [] <==> JoinsOneOf(circles, members, mine, target)
  {
    if members == [] then []
    else
      var m := members[0];
      var rest := JoinedCopies(members[1..], circles, mine, target, row);
      assert JoinsOneOf(circles, members[1..], mine, target) ==> JoinsOneOf(circles, members, mine, target) by {
        if JoinsOneOf(circles, members[1..], mine, target) {
          var c :| c in circles && c in mine && MemberRow(c, target) in members[1..];
          assert MemberRow(c, target) in members;
        }
      }
      assert JoinsOneOf(circles, members, mine, target) ==>
        (m.member == target && m.circleId in circles && m.circleId in mine) || JoinsOneOf(circles, members[1..], mine, target) by {
        if JoinsOneOf(circles, members, mine, target) {
          var c :| c in circles && c in mine && MemberRow(c, target) in members;
          if m != MemberRow(c, target) {
            assert MemberRow(c, target) in members[1..];
          }
        }
      }
      (if Qualifies(m, circles, mine, target) then [row] else []) + rest
  }

  /** A membership row the join keeps: the target's, in a stored circle among `mine`. */
  predicate Qualifies(m: MemberRow, circles: map<CircleId, Circle>, mine: set<CircleId>, target: Email)
  {
    m.member == target && m.circleId in circles && m.circleId in mine
  }

  /** The positions of the membership rows the join keeps. */
  ghost function QualifyingRows(members: seq<MemberRow>, circles: map<CircleId, Circle>, mine: set<CircleId>, target: Email)
    : set<int>
  {
    set i | 0 <= i < |members| && Qualifies(members[i], circles, mine, target)
  }

  /** Appending a membership row appends its copy, if it qualifies. */
  lemma {:induction false} JoinedCopiesAppend(
    members: seq<MemberRow>, m: MemberRow, circles: map<CircleId, Circle>, mine: set<CircleId>, target: Email, row: HistoryRow)
    ensures JoinedCopies(members + [m], circles, mine, target, row) ==
      JoinedCopies(members, circles, mine, target, row) + (if Qualifies(m, circles, mine, target) then [row] else [])
  {
    if members != [] {
      assert (members + [m])[1..] == members[1..] + [m];
      JoinedCopiesAppend(members[1..], m, circles, mine, target, row);
    }
  }

  /** Appending a membership row adds its position to the kept ones, if it qualifies. */
  lemma QualifyingRowsAppend(
    front: seq<MemberRow>, m: MemberRow, circles: map<CircleId, Circle>, mine: set<CircleId>, target: Email)
    ensures QualifyingRows(front + [m], circles, mine, target) ==
      QualifyingRows(front, circles, mine, target) + (if Qualifies(m, circles, mine, target) then {|front|} else {})
    ensures |front| !in QualifyingRows(front, circles, mine, target)
  {
    forall i | 0 <= i < |front| ensures (front + [m])[i] == front[i] {}
  }

  /** The join makes exactly one copy of the location row per membership row it keeps. */
  lemma {:induction false} JoinedCopiesCount(
    members: seq<MemberRow>, circles: map<CircleId, Circle>, mine: set<CircleId>, target: Email, row: HistoryRow)
    ensures |JoinedCopies(members, circles, mine, target, row)| == |QualifyingRows(members, circles, mine, target)|
  {
    if members == [] {
      assert QualifyingRows(members, circles, mine, target) == {};
    } else {
      var n := |members| - 1;
      var front := members[..n];
      assert members == front + [members[n]];
      JoinedCopiesCount(front, circles, mine, target, row);
      JoinedCopiesAppend(front, members[n], circles, mine, target, row);
      QualifyingRowsAppend(front, members[n], circles, mine, target);
    }
  }

  function RowOf(l: KeyedTable.Row<Sample>): HistoryRow
  {
    HistoryRow(l.key, l.value.latitude, l.value.longitude, l.value.timestamp)
  }

  /** The joined and filtered rows, before ORDER BY. */
  function HistoryRows(
    locations: seq<KeyedTable.Row<Sample>>, circles: map<CircleId, Circle>, members: seq<MemberRow>,
    mine: set<CircleId>, target: Email): (r: seq<HistoryRow>)
    ensures forall h :: h in r ==>
      && h.email == target
      && KeyedTable.Row(target, Sample(h.latitude, h.longitude, h.timestamp)) in locations
      && JoinsOneOf(circles, members, mine, target)
    ensures r != [] <==>
      JoinsOneOf(circles, members, mine, target) && exists s :: KeyedTable.Row(target, s) in locations
  {
    if locations == [] then []
    else
      var l := locations[0];
      var here := if l.key == target then JoinedCopies(members, circles, mine, target, RowOf(l)) else [];
      var rest := HistoryRows(locations[1..], circles, members, mine, target);
      assert forall h :: h in here ==> h == RowOf(l) && l.key == target;
      assert l.key == target ==> l == KeyedTable.Row(target, Sample(l.value.latitude, l.value.longitude, l.value.timestamp));
      assert (exists s :: KeyedTable.Row(target, s) in locations) ==>
        l.key == target || exists s :: KeyedTable.Row(target, s) in locations[1..] by {
        if exists s :: KeyedTable.Row(target, s) in locations {
          var s :| KeyedTable.Row(target, s) in locations;
          if l.key != target {
            assert KeyedTable.Row(target, s) in locations[1..];
          }
        }
      }
      assert l.key == target ==> KeyedTable.Row(target, l.value) in locations;
      here + rest
  }

  predicate NewestFirst(s: seq<HistoryRow>)
  {
    forall i, j :: 0 <= i < j < |s| ==> s[i].timestamp >= s[j].timestamp
  }

  function InsertNewestFirst(x: HistoryRow, s: seq<HistoryRow>): (r: seq<HistoryRow>)
    requires NewestFirst(s)
    ensures NewestFirst(r)
    ensures multiset(r) == multiset(s) + multiset{x}
    ensures |r| == |s| + 1 && (r[0] == x || (s != [] && r[0] == s[0]))
  {
    if s == [] || x.timestamp >= s[0].timestamp then
      [x] + s
    else
      var tail := InsertNewestFirst(x, s[1..]);
      assert s == [s[0]] + s[1..];
      [s[0]] + tail
  }

  /** `ORDER BY timestamp DESC`: newest first, the same rows. */
  function SortNewestFirst(s: seq<HistoryRow>): (r: seq<HistoryRow>)
    ensures NewestFirst(r)
    ensures multiset(r) == multiset(s)
  {
    if s == [] then []
    else
      assert s == [s[0]] + s[1..];
      InsertNewestFirst(s[0], SortNewestFirst(s[1..]))
  }

  function LocationHistory(
    circles: map<CircleId, Circle>, members: seq<MemberRow>, locations: seq<KeyedTable.Row<Sample>>,
    requester: Email, target: Email): seq<HistoryRow>
  {
    SortNewestFirst(HistoryRows(locations, circles, members, MemberCircles(members, requester), target))
  }

  /** Requester and target are both members of one stored circle. */
  ghost predicate ShareJoinedCircle(circles: map<CircleId, Circle>, members: seq<MemberRow>, requester: Email, target: Email)
  {
    exists c :: c in circles && MemberRow(c, requester) in members && MemberRow(c, target) in members
  }

  /**
   * `/getLocationHistory` returns, newest first, only stored samples of the target,
   * and returns something exactly when the target has a sample and is a member of
   * a circle the requester is a member of; otherwise the result is empty, not an error.
   */
  lemma LocationHistoryIsScoped(
    circles: map<CircleId, Circle>, members: seq<MemberRow>, locations: seq<KeyedTable.Row<Sample>>,
    requester: Email, target: Email)
    ensures NewestFirst(LocationHistory(circles, members, locations, requester, target))
    ensures forall h :: h in LocationHistory(circles, members, locations, requester, target) ==>
      && h.email == target
      && KeyedTable.Row(target, Sample(h.latitude, h.longitude, h.timestamp)) in locations
    ensures LocationHistory(circles, members, locations, requester, target) != [] <==>
      ShareJoinedCircle(circles, members, requester, target) && exists s :: KeyedTable.Row(target, s) in locations
  {
    var mine := MemberCircles(members, requester);
    var rows := HistoryRows(locations, circles, members, mine, target);
    var r := LocationHistory(circles, members, locations, requester, target);
    assert forall h :: h in r <==> h in rows by {
      assert multiset(r) == multiset(rows);
      forall h ensures h in r <==> h in rows {
        assert h in r <==> h in multiset(r);
      }
    }
    assert r != [] <==> rows != [] by {
      if rows != [] { assert rows[0] in rows; }
      if r != [] { assert r[0] in r; }
    }
    assert JoinsOneOf(circles, members, mine, target) <==> ShareJoinedCircle(circles, members, requester, target);
  }

  /**
   * The "history" holds only the latest sample: with one row per user, every
   * row returned is the target's current location.
   */
  lemma HistoryIsLatestSampleOnly(
    circles: map<CircleId, Circle>, members: seq<MemberRow>, locations: seq<KeyedTable.Row<Sample>>,
    requester: Email, target: Email, s: Sample)
    requires KeyedTable.UniqueKeys(locations)
    requires KeyedTable.Lookup(locations, target) == Some(s)
    ensures forall h :: h in LocationHistory(circles, members, locations, requester, target) ==>
      h == HistoryRow(target, s.latitude, s.longitude, s.timestamp)
  {
    LocationHistoryIsScoped(circles, members, locations, requester, target);
    forall h | h in LocationHistory(circles, members, locations, requester, target)
      ensures h == HistoryRow(target, s.latitude, s.longitude, s.timestamp)
    {
      KeyedTable.LookupUnique(locations, target, Sample(h.latitude, h.longitude, h.timestamp));
    }
  }

  /** Two location updates in a row: only the second sample can be seen in the history. */
  lemma SecondUpdateReplacesFirst(
    circles: map<CircleId, Circle>, members: seq<MemberRow>, locations: seq<KeyedTable.Row<Sample>>,
    requester: Email, target: Email, first: Sample, second: Sample)
    requires KeyedTable.UniqueKeys(locations)
    ensures var after := KeyedTable.Replace(KeyedTable.Replace(locations, target, first), target, second);
      forall h :: h in LocationHistory(circles, members, after, requester, target) ==>
        h == HistoryRow(target, second.latitude, second.longitude, second.timestamp)
  {
    var once := KeyedTable.Replace(locations, target, first);
    KeyedTable.ReplaceIsUpsert(locations, target, first);
    KeyedTable.ReplaceIsUpsert(once, target, second);
    HistoryIsLatestSampleOnly(circles, members, KeyedTable.Replace(once, target, second), requester, target, second);
  }
}
