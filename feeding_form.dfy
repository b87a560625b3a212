/**
 * The feeding form (src/components/FeedingForm.tsx): the text buffer it
 * starts from, the updates its inputs make to that buffer, and the entry
 * and the single action its submit builds.
 *
 * The day text of the date input is read with `parseDay` (`new Date(text)`)
 * and written with `showDay` (`toISOString().split('T')[0]`); the fresh id,
 * "now", today's date text and the current time text are parameters.
 */
module FeedingForm {
  import opened Types
  import opened Text
  import opened AppContext

  /** The form buffer: every number is still the text of its input. */
  datatype FormData = FormData(
    date: string,
    time: string,
    feedingType: FeedingType,
    amountMl: string,
    leftBreastMinutes: string,
    rightBreastMinutes: string,
    notes: string,
    spitUp: bool,
    peed: bool,
    pooped: bool)

  /** The inputs of the form, by their `name` attribute. */
  datatype Field =
    | DateInput | TimeInput | AmountInput | LeftBreastInput | RightBreastInput | NotesInput
    | SpitUpBox | PeedBox | PoopedBox

  /** The text an optional number shows in its input: its decimal text, or empty when absent. */
  function NumberText(n: Option<nat>): (t: string)
    ensures t == "" <==> n.None?
  {
    if n.Some? then NatToString(n.value) else ""
  }

  /**
   * The buffer the form opens with: the edited entry's fields as text, or
   * today's date, the current time, bottle, empty texts and cleared boxes.
   */
  function InitialFormData(editEntry: Option<FeedingEntry>, today: string, nowTime: string,
                           showDay: Date -> string): (f: FormData)
    ensures editEntry.None? ==> f == FormData(today, nowTime, Bottle, "", "", "", "", false, false, false)
  {
    if editEntry.None? then FormData(today, nowTime, Bottle, "", "", "", "", false, false, false)
    else
      var e := editEntry.value;
      FormData(showDay(e.date), e.time, e.feedingType,
        NumberText(e.amountMl), NumberText(e.leftBreastMinutes), NumberText(e.rightBreastMinutes),
        if e.notes.Some? then e.notes.value else "",
        e.spitUp, e.peed, e.pooped)
  }

  predicate IsBox(field: Field) {
    field.SpitUpBox? || field.PeedBox? || field.PoopedBox?
  }

  /** The text a text input shows; empty for a check box. */
  function TextOf(f: FormData, field: Field): string {
    match field
    case DateInput => f.date
    case TimeInput => f.time
    case AmountInput => f.amountMl
    case LeftBreastInput => f.leftBreastMinutes
    case RightBreastInput => f.rightBreastMinutes
    case NotesInput => f.notes
    case _ => ""
  }

  /** Whether a check box is ticked; false for a text input. */
  function BoxOf(f: FormData, field: Field): bool {
    match field
    case SpitUpBox => f.spitUp
    case PeedBox => f.peed
    case PoopedBox => f.pooped
    case _ => false
  }

  /**
   * A change event on one input: a text input takes `value`, a check box
   * takes `checked`; every other input and the feeding type stay.
   */
  function ApplyInput(f: FormData, field: Field, value: string, checked: bool): (g: FormData)
    ensures !IsBox(field) ==> TextOf(g, field) == value
    ensures IsBox(field) ==> BoxOf(g, field) == checked
    ensures forall other: Field :: other != field ==> TextOf(g, other) == TextOf(f, other)
    ensures forall other: Field :: other != field ==> BoxOf(g, other) == BoxOf(f, other)
    ensures g.feedingType == f.feedingType
  {
    match field
    case DateInput => f.(date := value)
    case TimeInput => f.(time := value)
    case AmountInput => f.(amountMl := value)
    case LeftBreastInput => f.(leftBreastMinutes := value)
    case RightBreastInput => f.(rightBreastMinutes := value)
    case NotesInput => f.(notes := value)
    case SpitUpBox => f.(spitUp := checked)
    case PeedBox => f.(peed := checked)
    case PoopedBox => f.(pooped := checked)
  }

  /** Choosing bottle or breast changes only the type; the other type's texts stay in the buffer. */
  function ChangeFeedingType(f: FormData, t: FeedingType): (g: FormData)
    ensures g.feedingType == t
    ensures g.amountMl == f.amountMl && g.leftBreastMinutes == f.leftBreastMinutes
      && g.rightBreastMinutes == f.rightBreastMinutes
    ensures g.(feedingType := f.feedingType) == f
  {
    f.(feedingType := t)
  }

  /** A number field of the entry: present only for its own type and a non-empty text. */
  function NumberField(f: FormData, forType: FeedingType, text: string): (n: Option<nat>)
    ensures n.Some? <==> f.feedingType == forType && text != ""
    ensures n.Some? ==> n.value == ParseInt(text)
  {
    if f.feedingType == forType && text != "" then Some(ParseInt(text)) else None
  }

  /**
   * The entry the submit builds for the selected child and the current user.
   * An edited entry keeps its id and creation time; a new one gets the fresh
   * id and "now".
   */
  function BuildEntry(editEntry: Option<FeedingEntry>, child: Child, user: User, f: FormData,
                      freshId: Id, now: Date, parseDay: string -> Date): (e: FeedingEntry)
    ensures e.id == (if editEntry.Some? then editEntry.value.id else freshId)
    ensures e.createdAt == (if editEntry.Some? then editEntry.value.createdAt else now)
    ensures e.childId == child.id && e.userId == user.id
    ensures e.date == parseDay(f.date) && e.time == f.time && e.feedingType == f.feedingType
    ensures e.amountMl.Some? <==> f.feedingType == Bottle && f.amountMl != ""
    ensures e.amountMl.Some? ==> e.amountMl.value == ParseInt(f.amountMl)
    ensures e.leftBreastMinutes.Some? <==> f.feedingType == Breast && f.leftBreastMinutes != ""
    ensures e.leftBreastMinutes.Some? ==> e.leftBreastMinutes.value == ParseInt(f.leftBreastMinutes)
    ensures e.rightBreastMinutes.Some? <==> f.feedingType == Breast && f.rightBreastMinutes != ""
    ensures e.rightBreastMinutes.Some? ==> e.rightBreastMinutes.value == ParseInt(f.rightBreastMinutes)
    ensures e.notes.None? <==> f.notes == ""
    ensures e.notes.Some? ==> e.notes.value == f.notes
    ensures e.spitUp == f.spitUp && e.peed == f.peed && e.pooped == f.pooped
    ensures FieldsMatchType(e)
  {
    FeedingEntry(
      if editEntry.Some? then editEntry.value.id else freshId,
      child.id,
      user.id,
      parseDay(f.date),
      f.time,
      f.feedingType,
      NumberField(f, Bottle, f.amountMl),
      NumberField(f, Breast, f.leftBreastMinutes),
      NumberField(f, Breast, f.rightBreastMinutes),
      if f.notes == "" then None else Some(f.notes),
      f.spitUp,
      f.peed,
      f.pooped,
      if editEntry.Some? then editEntry.value.createdAt else now)
  }

  /**
   * The one action a submit dispatches: UPDATE_FEEDING_ENTRY when editing,
   * ADD_FEEDING_ENTRY otherwise. A child must be selected and a user signed in.
   */
  function SubmitAction(s: AppState, editEntry: Option<FeedingEntry>, f: FormData,
                        freshId: Id, now: Date, parseDay: string -> Date): (a: Action)
    requires s.selectedChild.Some? && s.currentUser.Some?
    ensures editEntry.Some? ==> a.UpdateFeedingEntry? && a.changedEntry.id == editEntry.value.id
    ensures editEntry.None? ==> a.AddFeedingEntry? && a.entry.id == freshId
    ensures (if editEntry.Some? then a.changedEntry else a.entry)
         == BuildEntry(editEntry, s.selectedChild.value, s.currentUser.value, f, freshId, now, parseDay)
  {
    var e := BuildEntry(editEntry, s.selectedChild.value, s.currentUser.value, f, freshId, now, parseDay);
    if editEntry.Some? then UpdateFeedingEntry(e) else AddFeedingEntry(e)
  }

  /**
   * No built entry has both a bottle amount and breast minutes, whatever
   * texts the buffer holds and however often the type was switched.
   */
  lemma AmountAndBreastExclusive(editEntry: Option<FeedingEntry>, child: Child, user: User, f: FormData,
                                 t: FeedingType, freshId: Id, now: Date, parseDay: string -> Date)
    ensures var e := BuildEntry(editEntry, child, user, ChangeFeedingType(f, t), freshId, now, parseDay);
      !(e.amountMl.Some? && (e.leftBreastMinutes.Some? || e.rightBreastMinutes.Some?))
  {
  }

  /**
   * Switching the type away and back builds the same entry as before:
   * the buffered texts of both types survive the switches.
   */
  lemma SwitchBackRestores(editEntry: Option<FeedingEntry>, child: Child, user: User, f: FormData,
                           t: FeedingType, freshId: Id, now: Date, parseDay: string -> Date)
    ensures BuildEntry(editEntry, child, user, ChangeFeedingType(ChangeFeedingType(f, t), f.feedingType),
                       freshId, now, parseDay)
         == BuildEntry(editEntry, child, user, f, freshId, now, parseDay)
  {
    assert ChangeFeedingType(ChangeFeedingType(f, t), f.feedingType) == f;
  }

  /** The text of a number read back with `parseInt` is the number. */
  lemma NumberTextRoundTrip(n: Option<nat>)
    ensures n.Some? ==> ParseInt(NumberText(n)) == n.value
  {
    if n.Some? {
      ParseIntRoundTrip(n.value);
    }
  }

  /**
   * Opening the form on an entry and submitting it unchanged rebuilds that
   * entry, when its optional fields match its type, its notes are not the
   * empty text, it belongs to the given child and user, and the day text is
   * read back as the same day.
   */
  lemma EditUnchangedRebuilds(e: FeedingEntry, child: Child, user: User, today: string, nowTime: string,
                              freshId: Id, now: Date, showDay: Date -> string, parseDay: string -> Date)
    requires FieldsMatchType(e) && e.notes != Some("")
    requires child.id == e.childId && user.id == e.userId
    requires parseDay(showDay(e.date)) == e.date
    ensures BuildEntry(Some(e), child, user, InitialFormData(Some(e), today, nowTime, showDay),
                       freshId, now, parseDay) == e
  {
    var f := InitialFormData(Some(e), today, nowTime, showDay);
    var r := BuildEntry(Some(e), child, user, f, freshId, now, parseDay);
    NumberTextRoundTrip(e.amountMl);
    NumberTextRoundTrip(e.leftBreastMinutes);
    NumberTextRoundTrip(e.rightBreastMinutes);
    assert r.amountMl == e.amountMl;
    assert r.leftBreastMinutes == e.leftBreastMinutes;
    assert r.rightBreastMinutes == e.rightBreastMinutes;
    assert r.notes == e.notes;
  }

  /**
   * A new entry submitted lands last in the store's entries, for the
   * selected child and the current user.
   */
  lemma SubmitNewAppends(s: AppState, f: FormData, freshId: Id, now: Date, parseDay: string -> Date)
    requires s.selectedChild.Some? && s.currentUser.Some?
    ensures var r := Reduce(s, SubmitAction(s, None, f, freshId, now, parseDay)).feedingEntries;
      |r| == |s.feedingEntries| + 1 && r[..|s.feedingEntries|] == s.feedingEntries
      && r[|s.feedingEntries|].id == freshId
      && r[|s.feedingEntries|].childId == s.selectedChild.value.id
      && r[|s.feedingEntries|].userId == s.currentUser.value.id
  {
    AddFeedingEntryAppends(s, SubmitAction(s, None, f, freshId, now, parseDay).entry);
  }
}
