/**
 * The account settings dialog (src/components/AccountSettings.tsx): a
 * name/email buffer started from the current user and an UPDATE_USER on
 * submit.
 */
module AccountSettings {
  import opened Types
  import opened AppContext

  datatype SettingsForm = SettingsForm(name: string, email: string)

  datatype SettingsField = NameInput | EmailInput

  /** The buffer starts from the current user's name and email, or empty texts. */
  function InitialSettingsForm(currentUser: Option<User>): (f: SettingsForm)
    ensures currentUser.None? ==> f == SettingsForm("", "")
    ensures currentUser.Some? ==> f.name == currentUser.value.name && f.email == currentUser.value.email
  {
    if currentUser.Some? then SettingsForm(currentUser.value.name, currentUser.value.email)
    else SettingsForm("", "")
  }

  /** The text an input of the form shows. */
  function FieldText(f: SettingsForm, field: SettingsField): string {
    match field
    case NameInput => f.name
    case EmailInput => f.email
  }

  /** A change event on one input: that input takes the value, the other keeps its own. */
  function SettingsInput(f: SettingsForm, field: SettingsField, value: string): (g: SettingsForm)
    ensures FieldText(g, field) == value
    ensures forall other: SettingsField :: other != field ==> FieldText(g, other) == FieldText(f, other)
  {
    match field
    case NameInput => f.(name := value)
    case EmailInput => f.(email := value)
  }

  /** The user with the form's name and email; id and creation time are kept. */
  function UpdatedUser(u: User, f: SettingsForm): (v: User)
    ensures v.id == u.id && v.createdAt == u.createdAt
    ensures v.name == f.name && v.email == f.email
  {
    u.(name := f.name, email := f.email)
  }

  /** The submit: UPDATE_USER when someone is signed in, nothing otherwise. */
  function HandleSubmit(currentUser: Option<User>, f: SettingsForm): (r: Option<Action>)
    ensures r.Some? <==> currentUser.Some?
    ensures r.Some? ==> r.value.UpdateUser? && r.value.updated.id == currentUser.value.id
  {
    if currentUser.Some? then Some(UpdateUser(UpdatedUser(currentUser.value, f))) else None
  }

  /** Submitting the form as it opened gives back the same user. */
  lemma UntouchedFormKeepsUser(u: User)
    ensures UpdatedUser(u, InitialSettingsForm(Some(u))) == u
  {
  }

  /**
   * After UPDATE_USER is reduced, the current user is the updated user and
   * the children, the entries and the selection are unchanged.
   */
  lemma SettingsApplied(s: AppState, f: SettingsForm)
    requires s.currentUser.Some?
    ensures var r := Reduce(s, HandleSubmit(s.currentUser, f).value);
      r.currentUser == Some(UpdatedUser(s.currentUser.value, f))
      && r.children == s.children && r.feedingEntries == s.feedingEntries
      && r.selectedChild == s.selectedChild
  {
  }
}
