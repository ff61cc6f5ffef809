/**
 * The notification fan-out of `/sendSOS` in backend/index.js: the forEach that
 * builds the push messages and the email list from the audience rows, the
 * sequential loop over push chunks, and the loop that sends one mail per
 * address. Token check, chunking and both transports are foreign code and are
 * parameters; a delivery outcome is a parameter too.
 */
module Fanout {
  import opened Wrappers
  import opened Schema
  import opened Queries

  datatype PushMessage = PushMessage(to: Token, body: string)
  datatype MailMessage = MailMessage(to: Email, subject: string, text: string)

  function SosText(name: string): string
  {
    name + " has triggered an SOS. View their current location in the SheSecure application."
  }

  function SosSubject(name: string): string
  {
    name + " needs help"
  }

  /** `member.pushToken && Expo.isExpoPushToken(member.pushToken)`: an empty token is falsy. */
  predicate HasPushToken(a: AudienceRow, isPushToken: Token -> bool)
  {
    a.pushToken.Some? && a.pushToken.value != "" && isPushToken(a.pushToken.value)
  }

  /** `rows` lists every row of `audience` exactly once. */
  ghost predicate IsEnumeration(rows: seq<AudienceRow>, audience: set<AudienceRow>)
  {
    && (forall a :: a in rows <==> a in audience)
    && (forall i, j :: 0 <= i < j < |rows| ==> rows[i] != rows[j])
  }

  /** The push messages the forEach builds from rows visited in this order. */
  function PushesFor(rows: seq<AudienceRow>, text: string, isPushToken: Token -> bool): (r: seq<PushMessage>)
    ensures |r| <= |rows|
  {
    if rows == [] then []
    else (if HasPushToken(rows[0], isPushToken) then [PushMessage(rows[0].pushToken.value, text)] else [])
         + PushesFor(rows[1..], text, isPushToken)
  }

  /**
   * Every message carries the SOS text and the token of a visited row with a
   * usable token, and every such row has its message.
   */
  lemma {:induction false} PushesForContents(rows: seq<AudienceRow>, text: string, isPushToken: Token -> bool)
    ensures forall m :: m in PushesFor(rows, text, isPushToken) ==>
      m.body == text && exists a :: a in rows && HasPushToken(a, isPushToken) && a.pushToken == Some(m.to)
    ensures forall a :: a in rows && HasPushToken(a, isPushToken) ==> PushMessage(a.pushToken.value, text) in PushesFor(rows, text, isPushToken)
  {
    if rows != [] {
      PushesForContents(rows[1..], text, isPushToken);
      assert forall a :: a in rows[1..] ==> a in rows;
      assert forall a :: a in rows ==> a == rows[0] || a in rows[1..];
    }
  }

  /** The email list the forEach builds: one address per row, in visiting order. */
  function EmailsOf(rows: seq<AudienceRow>): seq<Email>
  {
    seq(|rows|, k requires 0 <= k < |rows| => rows[k].email)
  }

  lemma {:induction false} PushesForAppend(rows: seq<AudienceRow>, a: AudienceRow, text: string, isPushToken: Token -> bool)
    ensures PushesFor(rows + [a], text, isPushToken) ==
      PushesFor(rows, text, isPushToken) + (if HasPushToken(a, isPushToken) then [PushMessage(a.pushToken.value, text)] else [])
  {
    var last := if HasPushToken(a, isPushToken) then [PushMessage(a.pushToken.value, text)] else [];
    if rows == [] {
      assert PushesFor([a], text, isPushToken) == last + PushesFor([], text, isPushToken);
    } else {
      var head := if HasPushToken(rows[0], isPushToken) then [PushMessage(rows[0].pushToken.value, text)] else [];
      assert (rows + [a])[0] == rows[0];
      assert (rows + [a])[1..] == rows[1..] + [a];
      PushesForAppend(rows[1..], a, text, isPushToken);
      assert PushesFor(rows + [a], text, isPushToken) == head + PushesFor(rows[1..] + [a], text, isPushToken);
      assert PushesFor(rows, text, isPushToken) == head + PushesFor(rows[1..], text, isPushToken);
    }
  }

  /** `order` has visited the rows of `audience` not in `remaining`, each once. */
  ghost predicate VisitedOnce(order: seq<AudienceRow>, remaining: set<AudienceRow>, audience: set<AudienceRow>)
  {
    && remaining <= audience
    && (forall a :: a in order <==> a in audience && a !in remaining)
    && (forall i, j :: 0 <= i < j < |order| ==> order[i] != order[j])
    && |order| + |remaining| == |audience|
  }

  /** Visiting one more remaining row keeps every row visited once. */
  lemma VisitOne(order: seq<AudienceRow>, remaining: set<AudienceRow>, audience: set<AudienceRow>, a: AudienceRow)
    requires VisitedOnce(order, remaining, audience) && a in remaining
    ensures VisitedOnce(order + [a], remaining - {a}, audience)
  {
    assert forall i :: 0 <= i < |order| ==> order[i] in order;
    assert |remaining - {a}| == |remaining| - 1;
  }

  /**
   * `membersResult.forEach(...)`: visits every audience row once, in an order
   * the database chooses, pushing an email for each and a message for each
   * row with a usable token.
   */
  method BuildFanout(audience: set<AudienceRow>, text: string, isPushToken: Token -> bool)
    returns (messages: seq<PushMessage>, emails: seq<Email>, ghost order: seq<AudienceRow>)
    ensures IsEnumeration(order, audience) && |order| == |audience|
    ensures emails == EmailsOf(order)
    ensures messages == PushesFor(order, text, isPushToken)
    ensures |emails| == |audience|
    ensures forall e :: e in emails <==> exists a :: a in audience && a.email == e
    ensures forall m :: m in messages ==>
      m.body == text && exists a :: a in audience && HasPushToken(a, isPushToken) && a.pushToken == Some(m.to)
    ensures forall a :: a in audience && HasPushToken(a, isPushToken) ==> PushMessage(a.pushToken.value, text) in messages
  {
    messages, emails, order := [], [], [];
    var remaining := audience;
    while remaining != {}
      invariant VisitedOnce(order, remaining, audience)
      invariant emails == EmailsOf(order)
      invariant messages == PushesFor(order, text, isPushToken)
      decreases |remaining|
    {
      var a :| a in remaining;
      PushesForAppend(order, a, text, isPushToken);
      if HasPushToken(a, isPushToken) {
        messages := messages + [PushMessage(a.pushToken.value, text)];
      }
      assert EmailsOf(order + [a]) == EmailsOf(order) + [a.email];
      emails := emails + [a.email];
      VisitOne(order, remaining, audience, a);
      order := order + [a];
      remaining := remaining - {a};
    }
    PushesForContents(order, text, isPushToken);
    forall e | e in emails ensures exists a :: a in audience && a.email == e {
      var k :| 0 <= k < |emails| && emails[k] == e;
      assert order[k] in order;
    }
    forall a | a in audience ensures a.email in emails {
      var k :| 0 <= k < |order| && order[k] == a;
      assert emails[k] == a.email;
    }
  }

  /**
   * The async loop over `expo.chunkPushNotifications(messages)`: each chunk is
   * sent in turn and one that throws is logged; all chunks are attempted.
   */
  method SendChunks(chunks: seq<seq<PushMessage>>, pushDelivered: seq<PushMessage> -> bool)
    returns (attempted: seq<seq<PushMessage>>, failed: seq<nat>)
    ensures attempted == chunks
    ensures forall k :: k in failed <==> 0 <= k < |chunks| && !pushDelivered(chunks[k])
  {
    attempted, failed := [], [];
    for i := 0 to |chunks|
      invariant attempted == chunks[..i]
      invariant forall k :: k in failed <==> 0 <= k < i && !pushDelivered(chunks[k])
    {
      attempted := attempted + [chunks[i]];
      if !pushDelivered(chunks[i]) {
        failed := failed + [i];
      }
    }
  }

  /** `emails.forEach(email => transporter.sendMail(...))`: one mail per address; failures are logged only. */
  method SendMails(emails: seq<Email>, subject: string, text: string, mailDelivered: MailMessage -> bool)
    returns (mails: seq<MailMessage>, failed: seq<Email>)
    ensures |mails| == |emails|
    ensures forall k :: 0 <= k < |mails| ==> mails[k] == MailMessage(emails[k], subject, text)
    ensures forall x :: x in failed <==> exists k :: 0 <= k < |mails| && mails[k].to == x && !mailDelivered(mails[k])
  {
    mails, failed := [], [];
    for i := 0 to |emails|
      invariant |mails| == i
      invariant forall k :: 0 <= k < i ==> mails[k] == MailMessage(emails[k], subject, text)
      invariant forall x :: x in failed <==> exists k :: 0 <= k < i && mails[k].to == x && !mailDelivered(mails[k])
    {
      var mail := MailMessage(emails[i], subject, text);
      mails := mails + [mail];
      if !mailDelivered(mail) {
        failed := failed + [emails[i]];
      }
    }
  }

  /** Rows that differ have different emails, so the email list of an enumeration has no repeats. */
  lemma EnumerationEmailsDistinct(order: seq<AudienceRow>, audience: set<AudienceRow>)
    requires IsEnumeration(order, audience)
    requires forall a, b :: a in audience && b in audience && a.email == b.email ==> a == b
    ensures forall i, j :: 0 <= i < j < |EmailsOf(order)| ==> EmailsOf(order)[i] != EmailsOf(order)[j]
  {
    forall i, j | 0 <= i < j < |EmailsOf(order)| ensures EmailsOf(order)[i] != EmailsOf(order)[j] {
      assert order[i] in audience && order[j] in audience;
    }
  }
}
