/**
 * The state-changing handlers of backend/index.js and `/sendSOS`, as methods of
 * one object that holds the MySQL tables they touch. The caller's email is the
 * one the bearer token resolved to; the clock `now` counts seconds; every
 * storage call that can fail takes a flag (or a fault) saying whether it does.
 */
module Backend {
  import opened Wrappers
  import opened Schema
  import opened Memberships
  import opened InviteCodes
  import opened Queries
  import opened Fanout
  import KeyedTable

  /** Where the `/generateInviteCode` transaction stops, if it does. */
  datatype TxFault = NoFault | BeginFails | CircleInsertFails | CodeInsertFails | CommitFails

  /** What `/sendSOS` answers, what it builds, and what it attempts to deliver. */
  datatype SosReport = SosReport(
    status: Status,
    messages: seq<PushMessage>,
    emails: seq<Email>,
    pushAttempts: seq<seq<PushMessage>>,
    failedChunks: seq<nat>,
    mails: seq<MailMessage>,
    failedMails: seq<Email>)

  class Database {
    var users: map<Email, User>
    var circles: map<CircleId, Circle>
    /** The next AUTO_INCREMENT value of `circles.id`. */
    var nextCircleId: CircleId
    var members: seq<MemberRow>
    var invites: seq<InviteRow>
    var locations: seq<KeyedTable.Row<Sample>>
    var pushTokens: seq<KeyedTable.Row<Token>>

    /**
     * Ids come from the counter; every invite code and every membership names
     * a stored circle; user_locations and push_tokens have one row per email.
     */
    ghost predicate Valid()
      reads this
    {
      && nextCircleId >= 1
      && (forall id :: id in circles ==> 1 <= id < nextCircleId)
      && (forall i :: 0 <= i < |invites| ==> invites[i].circleId in circles)
      && (forall i :: 0 <= i < |members| ==> members[i].circleId in circles)
      && KeyedTable.UniqueKeys(locations)
      && KeyedTable.UniqueKeys(pushTokens)
    }

    /** A database with the given registered users and nothing else. */
    constructor (registered: map<Email, User>)
      ensures Valid()
      ensures users == registered && circles == map[] && members == [] && invites == []
      ensures locations == [] && pushTokens == []
    {
      users := registered;
      circles := map[];
      nextCircleId := 1;
      members := [];
      invites := [];
      locations := [];
      pushTokens := [];
    }

    /**
     * `/generateInviteCode`: create the circle led by the caller and its invite
     * code in one transaction. On success exactly one circle and one code row
     * are added, the code valid for two days; on any failure every table is as
     * before (the AUTO_INCREMENT value a rolled-back insert took stays used).
     */
    method GenerateInviteCode(circleName: string, caller: Email, now: int, draws: seq<int>, fault: TxFault)
      returns (status: Status, code: Option<string>)
      requires Valid()
      requires |draws| == CodeLength && forall i :: 0 <= i < |draws| ==> 0 <= draws[i] < |Alphabet|
      modifies this
      ensures Valid()
      ensures status == Ok <==> fault == NoFault
      ensures status != Ok ==> status == InternalError && code == None
      ensures status == Ok ==>
        && code.Some? && IsInviteCode(code.value)
        && old(nextCircleId) !in old(circles)
        && circles == old(circles)[old(nextCircleId) := Circle(circleName, caller)]
        && invites == old(invites) + [InviteRow(code.value, old(nextCircleId), now + InviteLifetime)]
      ensures status != Ok ==> circles == old(circles) && invites == old(invites)
      ensures nextCircleId == if fault in {BeginFails, CircleInsertFails} then old(nextCircleId) else old(nextCircleId) + 1
      ensures users == old(users) && members == old(members)
      ensures locations == old(locations) && pushTokens == old(pushTokens)
    {
      var inviteCode := GenerateCode(draws);
      var expiresAt := now + InviteLifetime;
      if fault == BeginFails {
        return InternalError, None;
      }
      // What a rollback restores.
      var circlesBefore, invitesBefore := circles, invites;
      if fault == CircleInsertFails {
        return InternalError, None;
      }
      var circleId := nextCircleId;
      circles := circles[circleId := Circle(circleName, caller)];
      nextCircleId := nextCircleId + 1;
      if fault == CodeInsertFails {
        circles, invites := circlesBefore, invitesBefore;
        return InternalError, None;
      }
      invites := invites + [InviteRow(inviteCode, circleId, expiresAt)];
      if fault == CommitFails {
        circles, invites := circlesBefore, invitesBefore;
        return InternalError, None;
      }
      return Ok, Some(inviteCode);
    }

    /**
     * `/joinCircle`: admit the caller to the circle of the first stored row
     * whose code matches and has not expired; 404 when there is none. Invite
     * codes are never changed, so a code admits any number of users until it
     * expires. The insert itself can fail (a duplicate membership, say): 500.
     */
    method JoinCircle(inviteCode: string, caller: Email, now: int, selectFails: bool, insertFails: bool)
      returns (status: Status)
      requires Valid()
      modifies this
      ensures Valid()
      ensures var found := FirstUsableInvite(old(invites), inviteCode, now);
        && (status == Ok <==> !selectFails && found.Some? && !insertFails)
        && (status == NotFound <==> !selectFails && found.None?)
        && (status == Ok ==> members == old(members) + [MemberRow(found.value, caller)])
      ensures status != Ok ==> members == old(members)
      ensures users == old(users) && circles == old(circles) && nextCircleId == old(nextCircleId)
      ensures invites == old(invites) && locations == old(locations) && pushTokens == old(pushTokens)
    {
      if selectFails {
        return InternalError;
      }
      var found := FirstUsableInvite(invites, inviteCode, now);
      if found.None? {
        return NotFound;
      }
      if insertFails {
        return InternalError;
      }
      var i :| IsFirstUsable(invites, inviteCode, now, i) && invites[i].circleId == found.value;
      members := members + [MemberRow(found.value, caller)];
      return Ok;
    }

    /**
     * `/leaveCircle`: delete the caller's membership rows for the circle and
     * nothing else; 200 even when no row matched, so leaving again changes nothing.
     */
    method LeaveCircle(circleId: CircleId, caller: Email, deleteFails: bool) returns (status: Status)
      requires Valid()
      modifies this
      ensures Valid()
      ensures status == if deleteFails then InternalError else Ok
      ensures members == if deleteFails then old(members) else DeleteMembership(old(members), circleId, caller)
      ensures users == old(users) && circles == old(circles) && nextCircleId == old(nextCircleId)
      ensures invites == old(invites) && locations == old(locations) && pushTokens == old(pushTokens)
    {
      if deleteFails {
        return InternalError;
      }
      var before := members;
      members := DeleteMembership(members, circleId, caller);
      forall i | 0 <= i < |members| ensures members[i].circleId in circles {
        assert members[i] in multiset(members);
        assert members[i] in multiset(before);
      }
      return Ok;
    }

    /**
     * `/updateLocation`: REPLACE the caller's row of user_locations with the
     * new position stamped `now`; no other user's row changes.
     */
    method UpdateLocation(caller: Email, latitude: Coordinate, longitude: Coordinate, now: int, replaceFails: bool)
      returns (status: Status)
      requires Valid()
      modifies this
      ensures Valid()
      ensures status == if replaceFails then InternalError else Ok
      ensures locations == if replaceFails then old(locations)
                           else KeyedTable.Replace(old(locations), caller, Sample(latitude, longitude, now))
      ensures !replaceFails ==> KeyedTable.Lookup(locations, caller) == Some(Sample(latitude, longitude, now))
      ensures forall other :: other != caller ==> KeyedTable.Lookup(locations, other) == KeyedTable.Lookup(old(locations), other)
      ensures users == old(users) && circles == old(circles) && nextCircleId == old(nextCircleId)
      ensures members == old(members) && invites == old(invites) && pushTokens == old(pushTokens)
    {
      if replaceFails {
        return InternalError;
      }
      KeyedTable.ReplaceIsUpsert(locations, caller, Sample(latitude, longitude, now));
      locations := KeyedTable.Replace(locations, caller, Sample(latitude, longitude, now));
      return Ok;
    }

    /** `/savePushToken`: REPLACE the caller's push token; at most one token per user. */
    method SavePushToken(caller: Email, token: Token, replaceFails: bool) returns (status: Status)
      requires Valid()
      modifies this
      ensures Valid()
      ensures status == if replaceFails then InternalError else Ok
      ensures pushTokens == if replaceFails then old(pushTokens)
                            else KeyedTable.Replace(old(pushTokens), caller, token)
      ensures !replaceFails ==> KeyedTable.Lookup(pushTokens, caller) == Some(token)
      ensures forall other :: other != caller ==> KeyedTable.Lookup(pushTokens, other) == KeyedTable.Lookup(old(pushTokens), other)
      ensures users == old(users) && circles == old(circles) && nextCircleId == old(nextCircleId)
      ensures members == old(members) && invites == old(invites) && locations == old(locations)
    {
      if replaceFails {
        return InternalError;
      }
      KeyedTable.ReplaceIsUpsert(pushTokens, caller, token);
      pushTokens := KeyedTable.Replace(pushTokens, caller, token);
      return Ok;
    }
  
    /**
     * `/sendSOS`: 500 when a query fails, 404 when the caller has no user row;
     * otherwise one email per audience row and one push message per row with a
     * usable token, every push chunk attempted even after one throws, every
     * email attempted, and 200 whatever is delivered. `order` is the order in
     * which the database returned the audience rows.
     */
    method SendSOS(
      caller: Email, userQueryFails: bool, audienceQueryFails: bool,
      isPushToken: Token -> bool,
      chunk: seq<PushMessage> -> seq<seq<PushMessage>>,
      pushDelivered: seq<PushMessage> -> bool,
      mailDelivered: MailMessage -> bool)
      returns (report: SosReport, ghost order: seq<AudienceRow>)
      ensures report.status ==
        if userQueryFails then InternalError
        else if caller !in users then NotFound
        else if audienceQueryFails then InternalError
        else Ok
      ensures report.status != Ok ==>
        report.messages == [] && report.emails == [] && report.pushAttempts == [] && report.failedChunks == []
        && report.mails == [] && report.failedMails == []
      ensures report.status == Ok ==>
        && IsEnumeration(order, SosAudience(users, circles, members, pushTokens, caller))
        && report.emails == EmailsOf(order)
        && (forall i, j :: 0 <= i < j < |report.emails| ==> report.emails[i] != report.emails[j])
        && report.messages == PushesFor(order, SosText(users[caller].name), isPushToken)
        && |report.messages| <= |report.emails|
        && report.pushAttempts == chunk(report.messages)
        && (forall k :: k in report.failedChunks <==>
              0 <= k < |report.pushAttempts| && !pushDelivered(report.pushAttempts[k]))
        && |report.mails| == |report.emails|
        && (forall k :: 0 <= k < |report.mails| ==>
              report.mails[k] == MailMessage(report.emails[k], SosSubject(users[caller].name), SosText(users[caller].name)))
        && (forall x :: x in report.failedMails <==>
              exists k :: 0 <= k < |report.mails| && report.mails[k].to == x && !mailDelivered(report.mails[k]))
    {
      report := SosReport(InternalError, [], [], [], [], [], []);
      order := [];
      if userQueryFails {
        return;
      }
      if caller !in users {
        report := report.(status := NotFound);
        return;
      }
      var name := users[caller].name;
      if audienceQueryFails {
        return;
      }
      var audience := SosAudience(users, circles, members, pushTokens, caller);
      var messages, emails;
      messages, emails, order := BuildFanout(audience, SosText(name), isPushToken);
      SosAudienceIsSharedCircles(users, circles, members, pushTokens, caller);
      EnumerationEmailsDistinct(order, audience);
      var attempts, failedChunks := SendChunks(chunk(messages), pushDelivered);
      var mails, failedMails := SendMails(emails, SosSubject(name), SosText(name), mailDelivered);
      report := SosReport(Ok, messages, emails, attempts, failedChunks, mails, failedMails);
    }
  }
}
