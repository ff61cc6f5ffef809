/**
 * The client-side checks of the registration screen (screens/RegistrationScreen.js):
 * the e-mail pattern, the label shown for a password-strength score, whether the
 * Continue button is enabled, and what pressing it does. The score itself comes
 * from the zxcvbn library and is an input here.
 */
module Registration {
  import opened Wrappers

  /** The characters JavaScript's `\s` class matches. */
  predicate IsJsWhitespace(c: char)
  {
    || c == '\t' || c == '\n' || c == '\U{000B}' || c == '\U{000C}' || c == '\r' || c == ' '
    || c == '\U{00A0}' || c == '\U{1680}' || ('\U{2000}' <= c <= '\U{200A}')
    || c == '\U{2028}' || c == '\U{2029}' || c == '\U{202F}' || c == '\U{205F}'
    || c == '\U{3000}' || c == '\U{FEFF}'
  }

  /** One `[^\s@]+` run of the e-mail pattern. */
  ghost predicate Segment(s: string)
  {
    |s| > 0 && forall k :: 0 <= k < |s| ==> !IsJsWhitespace(s[k]) && s[k] != '@'
  }

  /** The pattern `^[^\s@]+@[^\s@]+\.[^\s@]+$`, as the regular expression denotes it. */
  ghost predicate MatchesEmailPattern(s: string)
  {
    exists a, b, c :: Segment(a) && Segment(b) && Segment(c) && s == a + "@" + b + "." + c
  }

  /**
   * The e-mail check, by its conditions: no whitespace, exactly one `@` with
   * something before it, and a `.` after the `@` that is neither the first
   * nor the last character of the domain part.
   */
  predicate IsValidEmail(s: string)
  {
    && (forall k :: 0 <= k < |s| ==> !IsJsWhitespace(s[k]))
    && exists i :: 0 < i < |s| && s[i] == '@' && OnlyAtSign(s, i) && HasInnerDot(s[i + 1..])
  }

  predicate OnlyAtSign(s: string, i: int)
  {
    forall k :: 0 <= k < |s| && k != i ==> s[k] != '@'
  }

  predicate HasInnerDot(d: string)
  {
    exists k :: 0 < k < |d| - 1 && d[k] == '.'
  }

  /** The scanning check accepts exactly the strings the regular expression matches. */
  lemma EmailCheckMatchesPattern(s: string)
    ensures IsValidEmail(s) <==> MatchesEmailPattern(s)
  {
    if IsValidEmail(s) {
      ValidEmailMatches(s);
    }
    if MatchesEmailPattern(s) {
      var a, b, c :| Segment(a) && Segment(b) && Segment(c) && s == a + "@" + b + "." + c;
      MatchIsValidEmail(a, b, c);
    }
  }

  /** A slice free of whitespace and `@` is a segment. */
  lemma SliceIsSegment(s: string, lo: int, hi: int)
    requires 0 <= lo < hi <= |s|
    requires forall k :: lo <= k < hi ==> !IsJsWhitespace(s[k]) && s[k] != '@'
    ensures Segment(s[lo..hi])
  {
    forall j | 0 <= j < hi - lo ensures !IsJsWhitespace(s[lo..hi][j]) && s[lo..hi][j] != '@' {
      assert s[lo..hi][j] == s[lo + j];
    }
  }

  /** Cutting a string at an `@` and at a later `.` gives the pattern's three runs. */
  lemma SplitAtSigns(s: string, i: int, k: int)
    requires 0 <= i && i + 1 + k < |s| && 0 <= k
    requires s[i] == '@' && s[i + 1 + k] == '.'
    ensures s == s[..i] + "@" + s[i + 1..i + 1 + k] + "." + s[i + 2 + k..]
  {
    assert s == s[..i] + [s[i]] + s[i + 1..i + 1 + k] + [s[i + 1 + k]] + s[i + 2 + k..];
  }

  lemma ValidEmailMatches(s: string)
    requires IsValidEmail(s)
    ensures MatchesEmailPattern(s)
  {
    var i :| 0 < i < |s| && s[i] == '@' && OnlyAtSign(s, i) && HasInnerDot(s[i + 1..]);
    var d := s[i + 1..];
    var k :| 0 < k < |d| - 1 && d[k] == '.';
    assert d[k] == s[i + 1 + k];
    SplitAtSigns(s, i, k);
    assert forall j :: 0 <= j < |s| && j != i ==> !IsJsWhitespace(s[j]) && s[j] != '@';
    SliceIsSegment(s, 0, i);
    SliceIsSegment(s, i + 1, i + 1 + k);
    SliceIsSegment(s, i + 2 + k, |s|);
    var a, b, c := s[..i], s[i + 1..i + 1 + k], s[i + 2 + k..];
    assert a == s[0..i] && c == s[i + 2 + k..|s|];
    assert Segment(a) && Segment(b) && Segment(c) && s == a + "@" + b + "." + c;
  }

  lemma MatchIsValidEmail(a: string, b: string, c: string)
    requires Segment(a) && Segment(b) && Segment(c)
    ensures IsValidEmail(a + "@" + b + "." + c)
  {
    var s := a + "@" + b + "." + c;
    var i := |a|;
    assert s[i] == '@';
    forall k | 0 <= k < |s| ensures !IsJsWhitespace(s[k]) && (k != i ==> s[k] != '@') {
      if k < i {
        assert s[k] == a[k];
      } else if i < k < i + 1 + |b| {
        assert s[k] == b[k - i - 1];
      } else if k == i + 1 + |b| {
        assert s[k] == '.';
      } else if k > i + 1 + |b| {
        assert s[k] == c[k - i - 2 - |b|];
      }
    }
    var d := s[i + 1..];
    assert d == b + "." + c;
    assert d[|b|] == '.';
    assert HasInnerDot(d);
    assert OnlyAtSign(s, i);
  }

  /** The label shown under the password field for a zxcvbn score. */
  function StrengthLabel(score: int): (text: string)
    ensures text != "" <==> 0 <= score <= 4
  {
    match score
    case 0 => "Very Weak"
    case 1 => "Weak"
    case 2 => "Fair"
    case 3 => "Good"
    case 4 => "Strong"
    case _ => ""
  }

  /**
   * Different scores in 0..4 get different labels, and the labels "Good" and
   * "Strong" are shown exactly for the scores that pass the strength check of
   * `HandleRegister`.
   */
  lemma StrengthLabelsDistinguishScores(s1: int, s2: int)
    requires 0 <= s1 <= 4 && 0 <= s2 <= 4
    ensures StrengthLabel(s1) == StrengthLabel(s2) ==> s1 == s2
    ensures StrengthLabel(s1) in {"Good", "Strong"} <==> s1 >= 3
  {
  }

  datatype Form = Form(name: string, email: string, password: string, confirmPassword: string, strength: int)

  datatype Alert = InvalidEmail | WeakPassword | PasswordMismatch

  /** The body of the POST /register call; the confirmation is not sent. */
  datatype RegisterRequest = RegisterRequest(name: string, email: string, password: string)

  /** The alerts raised, in order, and the request sent if any. */
  datatype Submission = Submission(alerts: seq<Alert>, request: Option<RegisterRequest>)

  /** The Continue button is enabled when no field is empty (JavaScript truthiness of strings). */
  predicate IsFormComplete(f: Form)
  {
    f.name != "" && f.email != "" && f.password != "" && f.confirmPassword != ""
  }

  /**
   * The press handler: the e-mail check only raises an alert, then the strength
   * check comes before the confirmation check, and only when both pass is the
   * request sent.
   */
  function HandleRegister(f: Form): (s: Submission)
    ensures s.request.Some? <==> f.strength >= 3 && f.password == f.confirmPassword
    ensures s.request.Some? ==> s.request.value == RegisterRequest(f.name, f.email, f.password)
    ensures InvalidEmail in s.alerts <==> !IsValidEmail(f.email)
    ensures WeakPassword in s.alerts <==> f.strength < 3
    ensures PasswordMismatch in s.alerts <==> f.strength >= 3 && f.password != f.confirmPassword
  {
    var emailAlerts := if IsValidEmail(f.email) then [] else [InvalidEmail];
    if f.strength < 3 then
      Submission(emailAlerts + [WeakPassword], None)
    else if f.password != f.confirmPassword then
      Submission(emailAlerts + [PasswordMismatch], None)
    else
      Submission(emailAlerts, Some(RegisterRequest(f.name, f.email, f.password)))
  }

  /** Pressing Continue: nothing happens while the button is disabled. */
  function PressContinue(f: Form): (s: Option<Submission>)
    ensures s.Some? <==> IsFormComplete(f)
    ensures s.Some? && s.value.request.Some? ==>
      f.name != "" && f.email != "" && f.strength >= 3 && f.password == f.confirmPassword && f.password != ""
  {
    if IsFormComplete(f) then Some(HandleRegister(f)) else None
  }

  /** Whether a request is sent does not depend on the e-mail passing its check. */
  lemma EmailCheckDoesNotGate(f: Form, email: string)
    requires email != ""
    ensures PressContinue(f.(email := email)).Some? == PressContinue(f).Some? || f.email == ""
    ensures IsFormComplete(f) ==>
      PressContinue(f.(email := email)).value.request.Some? == PressContinue(f).value.request.Some?
  {
  }

  /** A concrete case: an address without a domain is still registered. */
  lemma InvalidEmailStillRegisters()
    ensures !IsValidEmail("jane")
    ensures PressContinue(Form("Jane", "jane", "s3cret!!", "s3cret!!", 3)).value.request
         == Some(RegisterRequest("Jane", "jane", "s3cret!!"))
  {
    assert !HasInnerDot("jane"[1..]);
  }
}
