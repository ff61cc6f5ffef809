/**
 * The read endpoints of backend/index.js (`/getUserCircles`, `/getCircleMembers`,
 * `/getCircleLocations`) and the audience query of `/sendSOS`, each written the
 * way its SQL joins and filters the tables. The lemmas say what the results mean.
 * Results are sets: the multiplicity of rows a join can repeat is not kept.
 */
module Queries {
  import opened Wrappers
  import opened Schema
  import opened Memberships
  import KeyedTable

  datatype CircleSummary = CircleSummary(id: CircleId, name: string)
  datatype MemberInfo = MemberInfo(email: Email, name: string, pushToken: Option<Token>)
  datatype AudienceRow = AudienceRow(email: Email, name: string, pushToken: Option<Token>)
  datatype LocationView = LocationView(
    email: Email, latitude: Coordinate, longitude: Coordinate, circleName: string, photoUrl: Option<string>)

  predicate HasNoMembers(members: seq<MemberRow>, c: CircleId)
  {
    forall i :: 0 <= i < |members| ==> members[i].circleId != c
  }

  predicate HasNoMembership(members: seq<MemberRow>, e: Email)
  {
    forall i :: 0 <= i < |members| ==> members[i].member != e
  }

  /** `circles c LEFT JOIN circle_members cm ON c.id = cm.circle_id`, as (c.id, cm.member_email or NULL). */
  function CirclesLeftJoinMembers(circles: map<CircleId, Circle>, members: seq<MemberRow>): set<(CircleId, Option<Email>)>
  {
    (set i | 0 <= i < |members| && members[i].circleId in circles :: (members[i].circleId, Some(members[i].member)))
    + (set c | c in circles && HasNoMembers(members, c) :: (c, None))
  }

  /** `users u LEFT JOIN circle_members cm ON u.email = cm.member_email`, as (u.email, cm.circle_id or NULL). */
  function UsersLeftJoinMembers(users: map<Email, User>, members: seq<MemberRow>): set<(Email, Option<CircleId>)>
  {
    (set i | 0 <= i < |members| && members[i].member in users :: (members[i].member, Some(members[i].circleId)))
    + (set u | u in users && HasNoMembership(members, u) :: (u, None))
  }

  /** `/getUserCircles`: `... WHERE c.leader_email = e OR cm.member_email = e`. */
  function UserCircles(circles: map<CircleId, Circle>, members: seq<MemberRow>, e: Email): set<CircleSummary>
  {
    set p | p in CirclesLeftJoinMembers(circles, members) && p.0 in circles
        && (circles[p.0].leader == e || p.1 == Some(e))
      :: CircleSummary(p.0, circles[p.0].name)
  }

  /** The circles of `/getUserCircles` are exactly those the caller leads plus those the caller joined. */
  lemma UserCirclesAreLedOrJoined(circles: map<CircleId, Circle>, members: seq<MemberRow>, e: Email)
    ensures forall s :: s in UserCircles(circles, members, e) <==>
      s.id in circles && s.name == circles[s.id].name && (circles[s.id].leader == e || MemberRow(s.id, e) in members)
  {
    var joined := CirclesLeftJoinMembers(circles, members);
    forall s: CircleSummary | s.id in circles && s.name == circles[s.id].name && (circles[s.id].leader == e || MemberRow(s.id, e) in members)
      ensures s in UserCircles(circles, members, e)
    {
      if MemberRow(s.id, e) in members {
        var i :| 0 <= i < |members| && members[i] == MemberRow(s.id, e);
        assert (s.id, Some(e)) in joined;
      } else if HasNoMembers(members, s.id) {
        assert (s.id, None) in joined;
      } else {
        var i :| 0 <= i < |members| && members[i].circleId == s.id;
        assert (s.id, Some(members[i].member)) in joined;
      }
    }
    forall s | s in UserCircles(circles, members, e)
      ensures MemberRow(s.id, e) in members || circles[s.id].leader == e
    {
      var p :| p in joined && p.0 in circles && (circles[p.0].leader == e || p.1 == Some(e))
        && s == CircleSummary(p.0, circles[p.0].name);
      if p.1 == Some(e) && circles[p.0].leader != e {
        var i :| 0 <= i < |members| && members[i].circleId in circles
          && p == (members[i].circleId, Some(members[i].member));
        assert members[i] == MemberRow(s.id, e);
      }
    }
  }

  /**
   * `/getCircleMembers`: users LEFT JOIN circle_members LEFT JOIN push_tokens
   * `WHERE cm.circle_id = c OR u.email = (SELECT leader_email FROM circles WHERE id = c)`.
   */
  function CircleMembers(
    users: map<Email, User>, circles: map<CircleId, Circle>, members: seq<MemberRow>,
    tokens: seq<KeyedTable.Row<Token>>, c: CircleId): set<MemberInfo>
  {
    set p | p in UsersLeftJoinMembers(users, members) && p.0 in users
        && (p.1 == Some(c) || (c in circles && p.0 == circles[c].leader))
      :: MemberInfo(p.0, users[p.0].name, KeyedTable.Lookup(tokens, p.0))
  }

  /**
   * `/getCircleMembers` lists the registered users with a membership row for the
   * circle and its leader, each with their push token or NULL.
   */
  lemma CircleMembersAreMembersAndLeader(
    users: map<Email, User>, circles: map<CircleId, Circle>, members: seq<MemberRow>,
    tokens: seq<KeyedTable.Row<Token>>, c: CircleId)
    ensures forall m :: m in CircleMembers(users, circles, members, tokens, c) <==>
      && m.email in users
      && m.name == users[m.email].name
      && m.pushToken == KeyedTable.Lookup(tokens, m.email)
      && (MemberRow(c, m.email) in members || (c in circles && circles[c].leader == m.email))
  {
    var joined := UsersLeftJoinMembers(users, members);
    forall m: MemberInfo | && m.email in users && m.name == users[m.email].name
               && m.pushToken == KeyedTable.Lookup(tokens, m.email)
               && (MemberRow(c, m.email) in members || (c in circles && circles[c].leader == m.email))
      ensures m in CircleMembers(users, circles, members, tokens, c)
    {
      if MemberRow(c, m.email) in members {
        var i :| 0 <= i < |members| && members[i] == MemberRow(c, m.email);
        assert (m.email, Some(c)) in joined;
      } else if HasNoMembership(members, m.email) {
        assert (m.email, None) in joined;
      } else {
        var i :| 0 <= i < |members| && members[i].member == m.email;
        assert (m.email, Some(members[i].circleId)) in joined;
      }
    }
    forall m | m in CircleMembers(users, circles, members, tokens, c)
      ensures MemberRow(c, m.email) in members || (c in circles && circles[c].leader == m.email)
    {
      var p :| p in joined && p.0 in users && (p.1 == Some(c) || (c in circles && p.0 == circles[c].leader))
        && m == MemberInfo(p.0, users[p.0].name, KeyedTable.Lookup(tokens, p.0));
      if p.1 == Some(c) && !(c in circles && p.0 == circles[c].leader) {
        var i :| 0 <= i < |members| && members[i].member in users
          && p == (members[i].member, Some(members[i].circleId));
        assert members[i] == MemberRow(c, m.email);
      }
    }
  }

  /** A circle nobody has joined still lists its leader (when registered), and only the leader. */
  lemma EmptyCircleListsLeader(
    users: map<Email, User>, circles: map<CircleId, Circle>, members: seq<MemberRow>,
    tokens: seq<KeyedTable.Row<Token>>, c: CircleId)
    requires c in circles && HasNoMembers(members, c)
    ensures CircleMembers(users, circles, members, tokens, c) ==
      var leader := circles[c].leader;
      if leader in users then {MemberInfo(leader, users[leader].name, KeyedTable.Lookup(tokens, leader))} else {}
  {
    CircleMembersAreMembersAndLeader(users, circles, members, tokens, c);
    assert forall x :: MemberRow(c, x) !in members;
  }

  /**
   * The audience query of `/sendSOS`: users LEFT JOIN circle_members LEFT JOIN push_tokens
   * `WHERE cm.circle_id IN (circles of e) OR u.email IN (leaders of circles of e)`,
   * where "circles of e" are those e is a member of.
   */
  function SosAudience(
    users: map<Email, User>, circles: map<CircleId, Circle>, members: seq<MemberRow>,
    tokens: seq<KeyedTable.Row<Token>>, e: Email): set<AudienceRow>
  {
    var mine := MemberCircles(members, e);
    set p | p in UsersLeftJoinMembers(users, members) && p.0 in users
        && ((p.1.Some? && p.1.value in mine) || p.0 in LeadersOf(circles, mine))
      :: AudienceRow(p.0, users[p.0].name, KeyedTable.Lookup(tokens, p.0))
  }

  /** The SOS audience is every registered user who shares a member-circle with the caller, once each. */
  lemma SosAudienceIsSharedCircles(
    users: map<Email, User>, circles: map<CircleId, Circle>, members: seq<MemberRow>,
    tokens: seq<KeyedTable.Row<Token>>, e: Email)
    ensures forall a :: a in SosAudience(users, circles, members, tokens, e) <==>
      && a.email in users
      && a.name == users[a.email].name
      && a.pushToken == KeyedTable.Lookup(tokens, a.email)
      && SharesMemberCircle(circles, members, e, a.email)
  {
    var joined := UsersLeftJoinMembers(users, members);
    var mine := MemberCircles(members, e);
    forall a: AudienceRow | && a.email in users && a.name == users[a.email].name
               && a.pushToken == KeyedTable.Lookup(tokens, a.email)
               && SharesMemberCircle(circles, members, e, a.email)
      ensures a in SosAudience(users, circles, members, tokens, e)
    {
      var c :| MemberRow(c, e) in members
        && (MemberRow(c, a.email) in members || (c in circles && circles[c].leader == a.email));
      if MemberRow(c, a.email) in members {
        var i :| 0 <= i < |members| && members[i] == MemberRow(c, a.email);
        assert (a.email, Some(c)) in joined;
      } else {
        assert a.email in LeadersOf(circles, mine);
        if HasNoMembership(members, a.email) {
          assert (a.email, None) in joined;
        } else {
          var i :| 0 <= i < |members| && members[i].member == a.email;
          assert (a.email, Some(members[i].circleId)) in joined;
        }
      }
    }
    forall a | a in SosAudience(users, circles, members, tokens, e)
      ensures SharesMemberCircle(circles, members, e, a.email)
    {
      var p :| p in joined && p.0 in users
        && ((p.1.Some? && p.1.value in mine) || p.0 in LeadersOf(circles, mine))
        && a == AudienceRow(p.0, users[p.0].name, KeyedTable.Lookup(tokens, p.0));
      if p.1.Some? && p.1.value in mine {
        var i :| 0 <= i < |members| && members[i].member in users
          && p == (members[i].member, Some(members[i].circleId));
        assert members[i] == MemberRow(p.1.value, a.email);
      } else {
        var c :| c in mine && c in circles && circles[c].leader == a.email;
        assert MemberRow(c, e) in members;
      }
    }
  }

  /** The caller is not left out: a registered caller who joined a circle is in their own audience. */
  lemma CallerIsInOwnAudience(
    users: map<Email, User>, circles: map<CircleId, Circle>, members: seq<MemberRow>,
    tokens: seq<KeyedTable.Row<Token>>, e: Email, c: CircleId)
    requires e in users && MemberRow(c, e) in members
    ensures AudienceRow(e, users[e].name, KeyedTable.Lookup(tokens, e)) in SosAudience(users, circles, members, tokens, e)
  {
    SosAudienceIsSharedCircles(users, circles, members, tokens, e);
  }

  /** A caller who leads circles but has joined none has nobody to alert. */
  lemma LeaderOnlyHasNoAudience(
    users: map<Email, User>, circles: map<CircleId, Circle>, members: seq<MemberRow>,
    tokens: seq<KeyedTable.Row<Token>>, e: Email)
    requires HasNoMembership(members, e)
    ensures SosAudience(users, circles, members, tokens, e) == {}
  {
    SosAudienceIsSharedCircles(users, circles, members, tokens, e);
    assert forall c :: MemberRow(c, e) !in members;
    assert forall x :: !SharesMemberCircle(circles, members, e, x);
  }

  /**
   * `/getCircleLocations`: user_locations JOIN circle_members JOIN circles JOIN users
   * `WHERE cm.circle_id IN (circles of e) OR ul.email IN (leaders of circles of e)`.
   * The circle name is that of the joined membership row.
   */
  function CircleLocations(
    users: map<Email, User>, circles: map<CircleId, Circle>, members: seq<MemberRow>,
    locations: seq<KeyedTable.Row<Sample>>, e: Email): set<LocationView>
  {
    var mine := MemberCircles(members, e);
    set i, j | 0 <= i < |locations| && 0 <= j < |members|
        && members[j].member == locations[i].key
        && members[j].circleId in circles
        && locations[i].key in users
        && (members[j].circleId in mine || locations[i].key in LeadersOf(circles, mine))
      :: LocationView(locations[i].key, locations[i].value.latitude, locations[i].value.longitude,
                      circles[members[j].circleId].name, users[locations[i].key].photoUrl)
  }

  /**
   * Visibility: every location `/getCircleLocations` returns is the stored sample
   * of a registered user who shares a member-circle with the caller.
   */
  lemma CircleLocationsAreScoped(
    users: map<Email, User>, circles: map<CircleId, Circle>, members: seq<MemberRow>,
    locations: seq<KeyedTable.Row<Sample>>, e: Email)
    ensures forall v :: v in CircleLocations(users, circles, members, locations, e) ==>
      && v.email in users
      && SharesMemberCircle(circles, members, e, v.email)
      && exists t :: KeyedTable.Row(v.email, Sample(v.latitude, v.longitude, t)) in locations
  {
    var mine := MemberCircles(members, e);
    forall v | v in CircleLocations(users, circles, members, locations, e)
      ensures && v.email in users
              && SharesMemberCircle(circles, members, e, v.email)
              && exists t :: KeyedTable.Row(v.email, Sample(v.latitude, v.longitude, t)) in locations
    {
      var i, j :| 0 <= i < |locations| && 0 <= j < |members|
        && members[j].member == locations[i].key
        && members[j].circleId in circles
        && locations[i].key in users
        && (members[j].circleId in mine || locations[i].key in LeadersOf(circles, mine))
        && v == LocationView(locations[i].key, locations[i].value.latitude, locations[i].value.longitude,
                             circles[members[j].circleId].name, users[locations[i].key].photoUrl);
      assert locations[i] == KeyedTable.Row(v.email, Sample(v.latitude, v.longitude, locations[i].value.timestamp));
      if members[j].circleId in mine {
        assert MemberRow(members[j].circleId, e) in members;
        assert MemberRow(members[j].circleId, v.email) in members by { assert members[j] == MemberRow(members[j].circleId, v.email); }
      } else {
        var c :| c in mine && c in circles && circles[c].leader == v.email;
        assert MemberRow(c, e) in members;
      }
    }
  }

  /** Every member of a circle the caller joined who has a stored location is shown, with that circle's name. */
  lemma CircleLocationsShowCircleMates(
    users: map<Email, User>, circles: map<CircleId, Circle>, members: seq<MemberRow>,
    locations: seq<KeyedTable.Row<Sample>>, e: Email, c: CircleId, x: Email, s: Sample)
    requires c in circles && MemberRow(c, e) in members && MemberRow(c, x) in members
    requires x in users && KeyedTable.Row(x, s) in locations
    ensures LocationView(x, s.latitude, s.longitude, circles[c].name, users[x].photoUrl)
         in CircleLocations(users, circles, members, locations, e)
  {
    var i :| 0 <= i < |locations| && locations[i] == KeyedTable.Row(x, s);
    var j :| 0 <= j < |members| && members[j] == MemberRow(c, x);
    assert c in MemberCircles(members, e);
  }

  /**
   * A user who belongs to no circle as a member never appears in `/getCircleLocations`,
   * even as the leader of the caller's circle: the inner join on circle_members drops them.
   */
  lemma UnjoinedLeaderIsHidden(
    users: map<Email, User>, circles: map<CircleId, Circle>, members: seq<MemberRow>,
    locations: seq<KeyedTable.Row<Sample>>, e: Email, x: Email)
    requires HasNoMembership(members, x)
    ensures forall v :: v in CircleLocations(users, circles, members, locations, e) ==> v.email != x
  {
  }

  /** Whoever `/getCircleLocations` shows, `/sendSOS` alerts. */
  lemma LocationsWithinSosAudience(
    users: map<Email, User>, circles: map<CircleId, Circle>, members: seq<MemberRow>,
    locations: seq<KeyedTable.Row<Sample>>, tokens: seq<KeyedTable.Row<Token>>, e: Email, v: LocationView)
    requires v in CircleLocations(users, circles, members, locations, e)
    ensures AudienceRow(v.email, users[v.email].name, KeyedTable.Lookup(tokens, v.email))
         in SosAudience(users, circles, members, tokens, e)
  {
    CircleLocationsAreScoped(users, circles, members, locations, e);
    SosAudienceIsSharedCircles(users, circles, members, tokens, e);
  }

  /** Once a user has joined, the circle's member list shows them, with their token or NULL. */
  lemma JoinedUserIsListed(
    users: map<Email, User>, circles: map<CircleId, Circle>, members: seq<MemberRow>,
    tokens: seq<KeyedTable.Row<Token>>, c: CircleId, x: Email)
    requires x in users
    ensures MemberInfo(x, users[x].name, KeyedTable.Lookup(tokens, x))
         in CircleMembers(users, circles, members + [MemberRow(c, x)], tokens, c)
  {
    CircleMembersAreMembersAndLeader(users, circles, members + [MemberRow(c, x)], tokens, c);
    assert MemberRow(c, x) in members + [MemberRow(c, x)];
  }

  /** After leaving, the circle is still among the caller's circles only if the caller leads it. */
  lemma LeftCircleIsGone(circles: map<CircleId, Circle>, members: seq<MemberRow>, c: CircleId, e: Email)
    requires c in circles
    ensures CircleSummary(c, circles[c].name) in UserCircles(circles, DeleteMembership(members, c, e), e)
        <==> circles[c].leader == e
  {
    var after := DeleteMembership(members, c, e);
    UserCirclesAreLedOrJoined(circles, after, e);
    assert MemberRow(c, e) !in after by {
      assert multiset(after)[MemberRow(c, e)] == 0;
    }
  }
}
