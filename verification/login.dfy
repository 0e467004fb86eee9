/** The login form of Login.tsx: the validation schema (the explicit
    e-mail pattern, the 8-character password minimum, both fields
    required) and what a submission does with the server's answer. */
module LoginForm {
  import opened Wrappers
  import opened Text
  import opened Session
  import opened Notify
  import ApiSlice

  /** `[A-Z0-9._%+-]` under the `i` flag. */
  predicate LocalChar(c: char) {
    IsLetter(c) || IsDigit(c) || c == '.' || c == '_' || c == '%' || c == '+' || c == '-'
  }

  /** `[A-Z0-9.-]` under the `i` flag. */
  predicate DomainChar(c: char) {
    IsLetter(c) || IsDigit(c) || c == '.' || c == '-'
  }

  /** `s` splits as local part `s[..at]`, '@', domain `s[at+1..dot]`, '.',
      and a final run of at least two letters. */
  predicate EmailSplit(s: string, at: int, dot: int) {
    && 0 < at && at + 1 < dot && dot + 2 < |s|
    && (forall i :: 0 <= i < at ==> LocalChar(s[i]))
    && s[at] == '@'
    && (forall i :: at < i < dot ==> DomainChar(s[i]))
    && s[dot] == '.'
    && (forall i :: dot < i < |s| ==> IsLetter(s[i]))
  }

  /** `/^[A-Z0-9._%+-]+@[A-Z0-9.-]+\.[A-Z]{2,}$/i` matches `s`. */
  predicate EmailShape(s: string) {
    exists at, dot | 0 <= at < |s| && 0 <= dot < |s| :: EmailSplit(s, at, dot)
  }

  /** Decides the e-mail pattern in one left-to-right pass: the local part
      runs to the first character outside its class, which must be '@';
      the rest must be domain characters whose last '.' is followed by at
      least two letters only. */
  method MatchesEmail(s: string) returns (ok: bool)
    ensures ok <==> EmailShape(s)
  {
    var at := 0;
    while at < |s| && LocalChar(s[at])
      invariant 0 <= at <= |s|
      invariant forall i :: 0 <= i < at ==> LocalChar(s[i])
    {
      at := at + 1;
    }
    // Any split must put its '@' exactly at `at`.
    assert forall a, d :: EmailSplit(s, a, d) ==> a == at by {
      forall a, d | EmailSplit(s, a, d)
        ensures a == at
      {
        assert !LocalChar(s[a]);
        assert at < |s| ==> !LocalChar(s[at]);
      }
    }
    if at == 0 || at == |s| || s[at] != '@' {
      return false;
    }
    var dot := -1;
    var i := at + 1;
    while i < |s|
      invariant at + 1 <= i <= |s|
      invariant forall j :: at < j < i ==> DomainChar(s[j])
      invariant dot == -1 ==> forall j :: at < j < i ==> s[j] != '.'
      invariant dot != -1 ==> at < dot < i && s[dot] == '.'
      invariant dot != -1 ==> forall j :: dot < j < i ==> s[j] != '.'
    {
      if !DomainChar(s[i]) {
        assert forall a, d :: !EmailSplit(s, a, d) by {
          forall a, d | 0 <= a < |s| && 0 <= d < |s|
            ensures !EmailSplit(s, a, d)
          {
            assert !IsLetter(s[i]) && s[i] != '.';
          }
        }
        return false;
      }
      if s[i] == '.' {
        dot := i;
      }
      i := i + 1;
    }
    // Any split must put its '.' exactly at `dot`, the last '.'.
    assert forall a, d :: EmailSplit(s, a, d) ==> d == dot by {
      forall a, d | EmailSplit(s, a, d)
        ensures d == dot
      {
        assert s[d] == '.' && !IsLetter(s[d]);
        assert dot != -1 ==> !IsLetter(s[dot]);
      }
    }
    if dot == -1 || dot <= at + 1 || dot + 2 >= |s| {
      return false;
    }
    var k := dot + 1;
    while k < |s|
      invariant dot + 1 <= k <= |s|
      invariant forall j :: dot < j < k ==> IsLetter(s[j])
    {
      if !IsLetter(s[k]) {
        assert forall a, d :: !EmailSplit(s, a, d) by {
          forall a, d | 0 <= a < |s| && 0 <= d < |s|
            ensures !EmailSplit(s, a, d)
          {
            assert !IsLetter(s[k]);
          }
        }
        return false;
      }
      k := k + 1;
    }
    assert EmailSplit(s, at, dot);
    return true;
  }

  /** The character classes of the pattern do not depend on letter case. */
  lemma ClassesIgnoreCase(c: char, d: char)
    requires ToLower(c) == ToLower(d)
    ensures LocalChar(c) <==> LocalChar(d)
    ensures DomainChar(c) <==> DomainChar(d)
    ensures IsLetter(c) <==> IsLetter(d)
    ensures c == '@' <==> d == '@'
    ensures c == '.' <==> d == '.'
  {
  }

  /** Changing letter case never changes whether an address matches. */
  lemma {:induction false} EmailShapeIgnoresCase(s: string, t: string)
    requires SameUpToCase(s, t)
    ensures EmailShape(s) <==> EmailShape(t)
  {
    forall i | 0 <= i < |s|
      ensures LocalChar(s[i]) <==> LocalChar(t[i])
      ensures DomainChar(s[i]) <==> DomainChar(t[i])
      ensures IsLetter(s[i]) <==> IsLetter(t[i])
      ensures s[i] == '@' <==> t[i] == '@'
      ensures s[i] == '.' <==> t[i] == '.'
    {
      ClassesIgnoreCase(s[i], t[i]);
    }
    if EmailShape(s) {
      var at, dot :| 0 <= at < |s| && 0 <= dot < |s| && EmailSplit(s, at, dot);
      assert EmailSplit(t, at, dot);
    }
    if EmailShape(t) {
      var at, dot :| 0 <= at < |t| && 0 <= dot < |t| && EmailSplit(t, at, dot);
      assert EmailSplit(s, at, dot);
    }
  }

  /** What a matching address looks like: exactly one '@', preceded by a
      non-empty local part, followed by domain characters only, and ending
      in '.' and at least two letters. */
  lemma EmailParts(s: string)
    requires EmailShape(s)
    ensures exists at :: 0 < at < |s| && s[at] == '@'
              && (forall i :: 0 <= i < |s| && s[i] == '@' ==> i == at)
              && (forall i :: 0 <= i < at ==> LocalChar(s[i]))
              && (forall i :: at < i < |s| ==> DomainChar(s[i]))
    ensures exists dot :: 0 < dot < |s| - 2 && s[dot] == '.'
              && (forall i :: dot < i < |s| ==> IsLetter(s[i]))
  {
    var at, dot :| 0 <= at < |s| && 0 <= dot < |s| && EmailSplit(s, at, dot);
    assert forall i :: at < i < |s| ==> DomainChar(s[i]) by {
      forall i | at < i < |s| ensures DomainChar(s[i]) {
        if i > dot { assert IsLetter(s[i]); }
      }
    }
    assert forall i :: 0 <= i < |s| && s[i] == '@' ==> i == at by {
      forall i | 0 <= i < |s| && s[i] == '@' ensures i == at {
        assert !LocalChar(s[i]) && !DomainChar(s[i]);
      }
    }
  }

  datatype LoginValues = LoginValues(email: string, password: string)

  datatype FormField = EmailField | PasswordField

  const MinPasswordLength := 8

  /** The fields the schema rejects. Yup's own `.email()` check, whose
      code is not part of this model, is the parameter `builtinEmail`. */
  method Validate(v: LoginValues, builtinEmail: string -> bool) returns (rejected: set<FormField>)
    ensures v.email == "" ==> EmailField in rejected
    ensures EmailField in rejected <==> v.email == "" || !builtinEmail(v.email) || !EmailShape(v.email)
    ensures PasswordField in rejected <==> |v.password| < MinPasswordLength
    ensures v.password == "" ==> PasswordField in rejected
  {
    var shaped := MatchesEmail(v.email);
    rejected := {};
    if v.email == "" || !builtinEmail(v.email) || !shaped {
      rejected := rejected + {EmailField};
    }
    if v.password == "" || |v.password| < MinPasswordLength {
      rejected := rejected + {PasswordField};
    }
  }

  /** What `loginUser(...).unwrap()` settles with. */
  datatype LoginReply = LoginOk(accessToken: Option<string>) | LoginFailed(data: Option<ErrorData>)

  /** The effect of `onSubmit`: signed in and sent home, a toast, or an
      exception thrown from the `catch` block when the error has no `data`. */
  datatype SubmitEffect = SignedIn(auth: AuthState, navigateTo: string) | Notified(toast: Toast) | Uncaught

  const TryAgain := "oops, please try again!"

  function OnSubmit(reply: LoginReply): (e: SubmitEffect)
    ensures reply.LoginOk? <==> e.SignedIn?
    ensures reply.LoginOk? ==> e == SignedIn(LoggedIn(reply.accessToken), "/")
    ensures reply.LoginFailed? && reply.data.Some? && Truthy(reply.data.value.message) ==>
              e == Notified(Toast(ErrorToast, reply.data.value.message, reply.data.value.subMessage))
    ensures reply.LoginFailed? && reply.data.Some? && !Truthy(reply.data.value.message) ==>
              e == Notified(Toast(ErrorToast, Some(TryAgain), None))
    ensures e.Notified? ==> e.toast.status == ErrorToast && Truthy(e.toast.title)
    ensures reply.LoginFailed? && reply.data.None? ==> e == Uncaught
  {
    match reply
    case LoginOk(token) => SignedIn(LoggedIn(token), "/")
    case LoginFailed(data) =>
      if data.None? then Uncaught
      else if Truthy(data.value.message) then
        Notified(Toast(ErrorToast, data.value.message, data.value.subMessage))
      else Notified(Toast(ErrorToast, Some(TryAgain), None))
  }

  /** After a successful login with a non-empty token, every request
      carries that token as its bearer header. */
  lemma LoginSetsBearer(token: string)
    requires token != ""
    ensures OnSubmit(LoginOk(Some(token))).SignedIn?
    ensures ApiSlice.BearerOf(OnSubmit(LoginOk(Some(token))).auth) == Some("Bearer " + token)
  {
    var b := ApiSlice.BearerOf(LoggedIn(Some(token))).value;
    assert b == b[..7] + b[7..];
  }
}
