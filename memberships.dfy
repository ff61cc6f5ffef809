/** Reads and deletes on `circle_members` shared by several handlers of backend/index.js. */
module Memberships {
  import opened Schema

  /** `SELECT circle_id FROM circle_members WHERE member_email = e`. */
  function MemberCircles(members: seq<MemberRow>, e: Email): (r: set<CircleId>)
    ensures forall c :: c in r <==> MemberRow(c, e) in members
  {
    set i | 0 <= i < |members| && members[i].member == e :: members[i].circleId
  }

  /** `SELECT leader_email FROM circles WHERE id IN ids`. */
  function LeadersOf(circles: map<CircleId, Circle>, ids: set<CircleId>): (r: set<Email>)
    ensures forall x :: x in r <==> exists c :: c in ids && c in circles && circles[c].leader == x
  {
    set c | c in ids && c in circles :: circles[c].leader
  }

  /**
   * `DELETE FROM circle_members WHERE circle_id = c AND member_email = e`:
   * every (c, e) row goes, every other row stays, as often as it was there.
   */
  function DeleteMembership(members: seq<MemberRow>, c: CircleId, e: Email): (r: seq<MemberRow>)
    ensures multiset(r) == multiset(members)[MemberRow(c, e) := 0]
  {
    if members == [] then []
    else
      assert members == [members[0]] + members[1..];
      if members[0] == MemberRow(c, e) then DeleteMembership(members[1..], c, e)
      else [members[0]] + DeleteMembership(members[1..], c, e)
  }

  /** Deleting a membership twice is the same as deleting it once. */
  lemma {:induction false} DeleteMembershipIdempotent(members: seq<MemberRow>, c: CircleId, e: Email)
    ensures DeleteMembership(DeleteMembership(members, c, e), c, e) == DeleteMembership(members, c, e)
  {
    if members != [] {
      DeleteMembershipIdempotent(members[1..], c, e);
    }
  }

  /** Leaving removes exactly that circle from the caller's circles and no one else's. */
  lemma LeaveDropsOneCircle(members: seq<MemberRow>, c: CircleId, e: Email, x: Email)
    ensures MemberCircles(DeleteMembership(members, c, e), x) ==
      if x == e then MemberCircles(members, x) - {c} else MemberCircles(members, x)
  {
    var after := DeleteMembership(members, c, e);
    forall d: CircleId ensures MemberRow(d, x) in after <==> MemberRow(d, x) in members && MemberRow(d, x) != MemberRow(c, e) {
      assert MemberRow(d, x) in after <==> MemberRow(d, x) in multiset(after);
      assert MemberRow(d, x) in members <==> MemberRow(d, x) in multiset(members);
    }
  }

  /** An inserted membership adds exactly that circle to the joining user's circles. */
  lemma JoinAddsOneCircle(members: seq<MemberRow>, c: CircleId, e: Email, x: Email)
    ensures MemberCircles(members + [MemberRow(c, e)], x) ==
      if x == e then MemberCircles(members, x) + {c} else MemberCircles(members, x)
  {
    forall d: CircleId ensures MemberRow(d, x) in members + [MemberRow(c, e)] <==> MemberRow(d, x) in members || MemberRow(d, x) == MemberRow(c, e) {
    }
  }

  /**
   * The audience relation the code computes for a viewer: `x` is in a circle
   * the viewer is a MEMBER of, as a member or as its leader. Circles the viewer
   * only leads do not count.
   */
  ghost predicate SharesMemberCircle(circles: map<CircleId, Circle>, members: seq<MemberRow>, viewer: Email, x: Email)
  {
    exists c :: MemberRow(c, viewer) in members && (MemberRow(c, x) in members || (c in circles && circles[c].leader == x))
  }
}
