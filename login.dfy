/**
 * The sign-in / sign-up form (src/components/Login.tsx). There is no
 * password check against anything: a submit that passes the sign-up
 * confirmation guard creates a user on the spot.
 */
module Login {
  import opened Types
  import opened Text
  import opened AppContext

  datatype LoginForm = LoginForm(email: string, password: string, name: string, confirmPassword: string)

  datatype LoginField = EmailInput | PasswordInput | NameInput | ConfirmPasswordInput

  /** The text an input of the form shows. */
  function FieldText(f: LoginForm, field: LoginField): string {
    match field
    case EmailInput => f.email
    case PasswordInput => f.password
    case NameInput => f.name
    case ConfirmPasswordInput => f.confirmPassword
  }

  /** A change event on one input: that input takes the value, the others keep theirs. */
  function LoginInput(f: LoginForm, field: LoginField, value: string): (g: LoginForm)
    ensures FieldText(g, field) == value
    ensures forall other: LoginField :: other != field ==> FieldText(g, other) == FieldText(f, other)
  {
    match field
    case EmailInput => f.(email := value)
    case PasswordInput => f.(password := value)
    case NameInput => f.(name := value)
    case ConfirmPasswordInput => f.(confirmPassword := value)
  }

  /** The entered name, or else the email text before its first '@'. */
  function DisplayName(f: LoginForm): (r: string)
    ensures f.name != "" ==> r == f.name
    ensures f.name == "" ==> r <= f.email && '@' !in r && (|r| < |f.email| ==> f.email[|r|] == '@')
  {
    if f.name != "" then f.name else UpTo(f.email, '@')
  }

  /**
   * The submit: in sign-up mode differing passwords dispatch nothing;
   * otherwise exactly one SET_USER with a fresh user carrying the entered
   * email, the display name and "now".
   */
  function HandleSubmit(f: LoginForm, isSignup: bool, freshId: Id, now: Date): (r: Option<Action>)
    ensures r.None? <==> isSignup && f.password != f.confirmPassword
    ensures r.Some? ==> r.value.SetUser? && r.value.user.Some?
    ensures r.Some? ==>
      (r.value.user.value.id == freshId && r.value.user.value.email == f.email
       && r.value.user.value.createdAt == now)
  {
    if isSignup && f.password != f.confirmPassword then None
    else Some(SetUser(Some(User(freshId, f.email, DisplayName(f), now))))
  }

  /** Sign-in mode never compares the passwords: every submit signs in. */
  lemma SignInAlwaysDispatches(f: LoginForm, freshId: Id, now: Date)
    ensures HandleSubmit(f, false, freshId, now).Some?
  {
  }

  /**
   * With no name entered, the user is named after the part of the email
   * before its first '@', or the whole email when it has none.
   */
  lemma {:induction false} NameFromEmail(f: LoginForm, local: string, domain: string)
    requires f.name == "" && '@' !in local
    ensures f.email == local + ['@'] + domain ==> DisplayName(f) == local
    ensures '@' !in f.email ==> DisplayName(f) == f.email
  {
    if f.email == local + ['@'] + domain {
      SplitAtFirst(local, '@', domain);
    }
    if '@' !in f.email {
      UpToNone(f.email, '@');
    }
  }

  /** Text without `c` is all before its first `c`. */
  lemma {:induction false} UpToNone(s: string, c: char)
    requires c !in s
    ensures UpTo(s, c) == s
  {
    if s != [] {
      UpToNone(s[1..], c);
      assert s == [s[0]] + s[1..];
    }
  }

  /**
   * The user record carries no password: two submits that differ only in
   * the password texts, and both pass the guard, dispatch the same action.
   */
  lemma PasswordNotStored(f: LoginForm, g: LoginForm, isSignup: bool, freshId: Id, now: Date)
    requires f.email == g.email && f.name == g.name
    requires HandleSubmit(f, isSignup, freshId, now).Some? && HandleSubmit(g, isSignup, freshId, now).Some?
    ensures HandleSubmit(f, isSignup, freshId, now) == HandleSubmit(g, isSignup, freshId, now)
  {
  }

  /** After the SET_USER is reduced, the new user is signed in and nothing else changed. */
  lemma SignedInAfterSubmit(s: AppState, f: LoginForm, isSignup: bool, freshId: Id, now: Date)
    requires HandleSubmit(f, isSignup, freshId, now).Some?
    ensures var r := Reduce(s, HandleSubmit(f, isSignup, freshId, now).value);
      r.currentUser == Some(User(freshId, f.email, DisplayName(f), now))
      && r.children == s.children && r.feedingEntries == s.feedingEntries
      && r.selectedChild == s.selectedChild
  {
  }
}
