/**
 * Invite codes of backend/index.js: `generateCode` and the lookup
 * `SELECT * FROM invite_codes WHERE code = ? AND expires_at > NOW()` of `/joinCircle`.
 */
module InviteCodes {
  import opened Wrappers
  import opened Schema

  const Alphabet: string := "ABCDEFGHIJKLMNOPQRSTUVWXYZ0123456789"
  const CodeLength: nat := 6

  /** `expiresAt.setDate(expiresAt.getDate() + 2)`, on a clock counted in seconds. */
  const InviteLifetime: int := 2 * 24 * 60 * 60

  predicate IsCodeChar(c: char)
  {
    'A' <= c <= 'Z' || '0' <= c <= '9'
  }

  /** What `generateCode` can return: six characters from A-Z and 0-9. */
  predicate IsInviteCode(s: string)
  {
    |s| == CodeLength && forall i :: 0 <= i < |s| ==> IsCodeChar(s[i])
  }

  /** The position of a code character in `Alphabet`. */
  function AlphabetIndex(c: char): (i: nat)
    requires IsCodeChar(c)
    ensures i < |Alphabet| && Alphabet[i] == c
  {
    AlphabetLayout();
    if 'A' <= c <= 'Z' then (c as int) - ('A' as int) else 26 + (c as int) - ('0' as int)
  }

  /** The alphabet is A-Z then 0-9, 36 symbols, each once. */
  lemma AlphabetLayout()
    ensures |Alphabet| == 36
    ensures forall i :: 0 <= i < 26 ==> Alphabet[i] as int == 'A' as int + i
    ensures forall i :: 26 <= i < 36 ==> Alphabet[i] as int == '0' as int + i - 26
  {
  }

  /** Every symbol of the alphabet is a code character. */
  lemma AlphabetSymbolsAreCodeChars(i: int)
    requires 0 <= i < |Alphabet|
    ensures IsCodeChar(Alphabet[i]) && AlphabetIndex(Alphabet[i]) == i
  {
    AlphabetLayout();
  }

  /**
   * `generateCode`: six draws, each `Math.floor(Math.random() * 36)`, each
   * picking one symbol. The code is a valid invite code and the draws can be
   * read back from it, so different draws give different codes.
   */
  method GenerateCode(draws: seq<int>) returns (code: string)
    requires |draws| == CodeLength
    requires forall i :: 0 <= i < |draws| ==> 0 <= draws[i] < |Alphabet|
    ensures IsInviteCode(code)
    ensures forall i :: 0 <= i < CodeLength ==> AlphabetIndex(code[i]) == draws[i]
  {
    code := "";
    for i := 0 to CodeLength
      invariant |code| == i
      invariant forall j :: 0 <= j < i ==> IsCodeChar(code[j]) && AlphabetIndex(code[j]) == draws[j]
    {
      AlphabetSymbolsAreCodeChars(draws[i]);
      code := code + [Alphabet[draws[i]]];
    }
  }

  /** The draws that produce a given code: every valid code can be generated. */
  function DrawsFor(code: string): (draws: seq<int>)
    requires IsInviteCode(code)
    ensures |draws| == CodeLength
    ensures forall i :: 0 <= i < CodeLength ==> 0 <= draws[i] < |Alphabet| && Alphabet[draws[i]] == code[i]
  {
    seq(CodeLength, i requires 0 <= i < CodeLength => AlphabetIndex(code[i]))
  }

  /** A row the lookup of `/joinCircle` accepts at time `now`: expiry is strict. */
  predicate IsUsable(row: InviteRow, code: string, now: int)
  {
    row.code == code && row.expiresAt > now
  }

  /** Row `i` is the first row the lookup accepts. */
  predicate IsFirstUsable(invites: seq<InviteRow>, code: string, now: int, i: int)
  {
    && 0 <= i < |invites|
    && IsUsable(invites[i], code, now)
    && forall j :: 0 <= j < i ==> !IsUsable(invites[j], code, now)
  }

  /**
   * The circle of the first row the lookup returns (`result[0].circle_id`),
   * or None when no stored code matches and is unexpired.
   */
  function FirstUsableInvite(invites: seq<InviteRow>, code: string, now: int): (r: Option<CircleId>)
    ensures r.None? <==> forall i :: 0 <= i < |invites| ==> !IsUsable(invites[i], code, now)
    ensures r.Some? ==> exists i :: IsFirstUsable(invites, code, now, i) && invites[i].circleId == r.value
  {
    if invites == [] then None
    else if IsUsable(invites[0], code, now) then
      assert IsFirstUsable(invites, code, now, 0);
      Some(invites[0].circleId)
    else
      var r := FirstUsableInvite(invites[1..], code, now);
      assert forall j :: 0 < j < |invites| ==> invites[j] == invites[1..][j - 1];
      if r.Some? then
        var i :| IsFirstUsable(invites[1..], code, now, i) && invites[1..][i].circleId == r.value;
        assert IsFirstUsable(invites, code, now, i + 1);
        r
      else
        r
  }

  /** Expiry is permanent: a code refused at some time is refused at every later time. */
  lemma {:induction false} ExpiredStaysExpired(invites: seq<InviteRow>, code: string, t: int, later: int)
    requires t <= later
    requires FirstUsableInvite(invites, code, t).None?
    ensures FirstUsableInvite(invites, code, later).None?
  {
  }

  /**
   * Codes are never checked for collisions: a fresh row whose code an older,
   * still usable row already carries admits to the OLDER row's circle.
   */
  lemma {:induction false} OlderInviteWins(invites: seq<InviteRow>, row: InviteRow, now: int)
    requires FirstUsableInvite(invites, row.code, now).Some?
    ensures FirstUsableInvite(invites + [row], row.code, now) == FirstUsableInvite(invites, row.code, now)
  {
    if !IsUsable(invites[0], row.code, now) {
      assert (invites + [row])[1..] == invites[1..] + [row];
      OlderInviteWins(invites[1..], row, now);
    }
  }

  /** A newly issued code admits to its own circle until it expires, unless an older usable row shares it. */
  lemma {:induction false} NewInviteAdmits(invites: seq<InviteRow>, row: InviteRow, now: int)
    requires FirstUsableInvite(invites, row.code, now).None?
    ensures FirstUsableInvite(invites + [row], row.code, now)
         == if now < row.expiresAt then Some(row.circleId) else None
  {
    if invites != [] {
      assert (invites + [row])[1..] == invites[1..] + [row];
      NewInviteAdmits(invites[1..], row, now);
    }
  }
}
