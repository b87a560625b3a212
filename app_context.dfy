/**
 * The application store (src/contexts/AppContext.tsx): the reducer over
 * the nine actions, the initial state, the revival of a saved snapshot on
 * mount, and the store object the views dispatch into.
 */
module AppContext {
  import opened Types
  import opened Seqs

  /**
   * The store's actions. `Unrecognised` stands for any action whose tag
   * the reducer's switch does not list (its `default:` branch).
   */
  datatype Action =
    | SetUser(user: Option<User>)
    | UpdateUser(updated: User)
    | AddChild(child: Child)
    | UpdateChild(changed: Child)
    | SelectChild(selected: Option<Child>)
    | AddFeedingEntry(entry: FeedingEntry)
    | UpdateFeedingEntry(changedEntry: FeedingEntry)
    | DeleteFeedingEntry(entryId: Id)
    | LoadData(snapshot: AppState)
    | Unrecognised(tag: string)

  /** No user, no children, no entries, nothing selected. */
  const InitialState := AppState(None, [], [], None)

  function ChildIdIs(id: Id): Child -> bool {
    (c: Child) => c.id == id
  }

  function EntryIdIs(id: Id): FeedingEntry -> bool {
    (e: FeedingEntry) => e.id == id
  }

  function EntryIdIsNot(id: Id): FeedingEntry -> bool {
    (e: FeedingEntry) => e.id != id
  }

  /** `selectedChild` after UPDATE_CHILD: the payload when it has the selected child's id. */
  function RefreshSelection(selected: Option<Child>, changed: Child): Option<Child> {
    if selected.Some? && selected.value.id == changed.id then Some(changed) else selected
  }

  /**
   * The reducer. Each field changes only under the actions that name it;
   * every other action leaves it as it was.
   */
  function Reduce(s: AppState, a: Action): (r: AppState)
    ensures a.SetUser? || a.UpdateUser? || a.LoadData? || r.currentUser == s.currentUser
    ensures a.AddChild? || a.UpdateChild? || a.LoadData? || r.children == s.children
    ensures a.AddFeedingEntry? || a.UpdateFeedingEntry? || a.DeleteFeedingEntry? || a.LoadData?
      || r.feedingEntries == s.feedingEntries
    ensures a.UpdateChild? || a.SelectChild? || a.LoadData? || r.selectedChild == s.selectedChild
  {
    match a
    case SetUser(u) => s.(currentUser := u)
    case UpdateUser(u) => s.(currentUser := Some(u))
    case AddChild(c) => s.(children := s.children + [c])
    case UpdateChild(c) =>
      s.(children := Replace(s.children, ChildIdIs(c.id), c),
         selectedChild := RefreshSelection(s.selectedChild, c))
    case SelectChild(c) => s.(selectedChild := c)
    case AddFeedingEntry(e) => s.(feedingEntries := s.feedingEntries + [e])
    case UpdateFeedingEntry(e) => s.(feedingEntries := Replace(s.feedingEntries, EntryIdIs(e.id), e))
    case DeleteFeedingEntry(id) => s.(feedingEntries := Filter(s.feedingEntries, EntryIdIsNot(id)))
    case LoadData(p) => p
    case Unrecognised(_) => s
  }

  /** SET_USER, UPDATE_USER and SELECT_CHILD each set one field to the payload. */
  lemma OneFieldActions(s: AppState, u: Option<User>, v: User, c: Option<Child>)
    ensures Reduce(s, SetUser(u)) == s.(currentUser := u)
    ensures Reduce(s, UpdateUser(v)) == s.(currentUser := Some(v))
    ensures Reduce(s, SelectChild(c)) == s.(selectedChild := c)
  {
  }

  /** ADD_CHILD appends: one more child, the payload last, the others where they were. */
  lemma AddChildAppends(s: AppState, c: Child)
    ensures var r := Reduce(s, AddChild(c)).children;
      |r| == |s.children| + 1 && r[|s.children|] == c && r[..|s.children|] == s.children
  {
  }

  /** ADD_FEEDING_ENTRY appends: one more entry, the payload last, the others where they were. */
  lemma AddFeedingEntryAppends(s: AppState, e: FeedingEntry)
    ensures var r := Reduce(s, AddFeedingEntry(e)).feedingEntries;
      |r| == |s.feedingEntries| + 1 && r[|s.feedingEntries|] == e
      && r[..|s.feedingEntries|] == s.feedingEntries
  {
  }

  /** UPDATE_CHILD replaces, position by position, every child with the payload's id. */
  lemma UpdateChildReplaces(s: AppState, c: Child)
    ensures var r := Reduce(s, UpdateChild(c)).children;
      |r| == |s.children|
      && (forall i :: 0 <= i < |s.children| && s.children[i].id == c.id ==> r[i] == c)
      && (forall i :: 0 <= i < |s.children| && s.children[i].id != c.id ==> r[i] == s.children[i])
  {
    var r := Reduce(s, UpdateChild(c)).children;
    forall i | 0 <= i < |s.children| && s.children[i].id == c.id
      ensures r[i] == c
    {
      assert ChildIdIs(c.id)(s.children[i]);
    }
  }

  /** UPDATE_CHILD with an id no child has leaves the children as they were. */
  lemma UpdateChildNoMatch(s: AppState, c: Child)
    requires forall i :: 0 <= i < |s.children| ==> s.children[i].id != c.id
    ensures Reduce(s, UpdateChild(c)).children == s.children
  {
    ReplaceMissIsIdentity(s.children, ChildIdIs(c.id), c);
  }

  /**
   * UPDATE_CHILD sets the selection to the payload exactly when a child is
   * selected and has the payload's id; otherwise the selection (also none)
   * is kept.
   */
  lemma UpdateChildSelection(s: AppState, c: Child)
    ensures s.selectedChild.Some? && s.selectedChild.value.id == c.id
      ==> Reduce(s, UpdateChild(c)).selectedChild == Some(c)
    ensures !(s.selectedChild.Some? && s.selectedChild.value.id == c.id)
      ==> Reduce(s, UpdateChild(c)).selectedChild == s.selectedChild
  {
  }

  /** UPDATE_FEEDING_ENTRY replaces, position by position, every entry with the payload's id. */
  lemma UpdateFeedingEntryReplaces(s: AppState, e: FeedingEntry)
    ensures var r := Reduce(s, UpdateFeedingEntry(e)).feedingEntries;
      |r| == |s.feedingEntries|
      && (forall i :: 0 <= i < |s.feedingEntries| && s.feedingEntries[i].id == e.id ==> r[i] == e)
      && (forall i :: 0 <= i < |s.feedingEntries| && s.feedingEntries[i].id != e.id
            ==> r[i] == s.feedingEntries[i])
  {
    var r := Reduce(s, UpdateFeedingEntry(e)).feedingEntries;
    forall i | 0 <= i < |s.feedingEntries| && s.feedingEntries[i].id == e.id
      ensures r[i] == e
    {
      assert EntryIdIs(e.id)(s.feedingEntries[i]);
    }
  }

  /** UPDATE_FEEDING_ENTRY with an id no entry has leaves the entries as they were. */
  lemma UpdateFeedingEntryNoMatch(s: AppState, e: FeedingEntry)
    requires forall i :: 0 <= i < |s.feedingEntries| ==> s.feedingEntries[i].id != e.id
    ensures Reduce(s, UpdateFeedingEntry(e)).feedingEntries == s.feedingEntries
  {
    ReplaceMissIsIdentity(s.feedingEntries, EntryIdIs(e.id), e);
  }

  /**
   * DELETE_FEEDING_ENTRY keeps exactly the entries with another id, every
   * copy of each, in their original relative order, and adds nothing.
   */
  lemma DeleteRemovesId(s: AppState, id: Id)
    ensures var r := Reduce(s, DeleteFeedingEntry(id)).feedingEntries;
      (forall i :: 0 <= i < |r| ==> r[i].id != id)
      && (forall i :: 0 <= i < |s.feedingEntries| && s.feedingEntries[i].id != id
            ==> s.feedingEntries[i] in r)
      && Subsequence(r, s.feedingEntries)
      && (forall x: FeedingEntry :: multiset(r)[x] == if x.id != id then multiset(s.feedingEntries)[x] else 0)
  {
    var r := Reduce(s, DeleteFeedingEntry(id)).feedingEntries;
    FilterIsSubsequence(s.feedingEntries, EntryIdIsNot(id));
    FilterCounts(s.feedingEntries, EntryIdIsNot(id));
    forall x: FeedingEntry
      ensures multiset(r)[x] == if x.id != id then multiset(s.feedingEntries)[x] else 0
    {
      assert EntryIdIsNot(id)(x) == (x.id != id);
    }
    forall i | 0 <= i < |s.feedingEntries| && s.feedingEntries[i].id != id
      ensures s.feedingEntries[i] in r
    {
      assert EntryIdIsNot(id)(s.feedingEntries[i]);
    }
    forall i | 0 <= i < |r|
      ensures r[i].id != id
    {
      assert EntryIdIsNot(id)(r[i]);
    }
  }

  /** Deleting an id no entry has changes nothing. */
  lemma DeleteAbsentIsNoOp(s: AppState, id: Id)
    requires forall i :: 0 <= i < |s.feedingEntries| ==> s.feedingEntries[i].id != id
    ensures Reduce(s, DeleteFeedingEntry(id)) == s
  {
    forall i | 0 <= i < |s.feedingEntries|
      ensures EntryIdIsNot(id)(s.feedingEntries[i])
    {
    }
    FilterKeepsAll(s.feedingEntries, EntryIdIsNot(id));
  }

  /** Deleting the same id twice is deleting it once. */
  lemma DeleteIdempotent(s: AppState, id: Id)
    ensures Reduce(Reduce(s, DeleteFeedingEntry(id)), DeleteFeedingEntry(id))
      == Reduce(s, DeleteFeedingEntry(id))
  {
    FilterIdempotent(s.feedingEntries, EntryIdIsNot(id));
  }

  /** LOAD_DATA yields its payload; an unlisted action yields the state it was given. */
  lemma LoadAndDefault(s: AppState, p: AppState, tag: string)
    ensures Reduce(s, LoadData(p)) == p
    ensures Reduce(s, Unrecognised(tag)) == s
  {
  }

  /** The selected child, when there is one, is one of the children. */
  predicate SelectionConsistent(s: AppState) {
    s.selectedChild.None? || s.selectedChild.value in s.children
  }

  /**
   * Every action keeps the selection among the children, provided a
   * selection or a loaded snapshot it brings in is consistent itself.
   * In particular UPDATE_CHILD always keeps it.
   */
  lemma ReducePreservesSelection(s: AppState, a: Action)
    requires SelectionConsistent(s)
    requires a.SelectChild? ==> a.selected.None? || a.selected.value in s.children
    requires a.LoadData? ==> SelectionConsistent(a.snapshot)
    ensures SelectionConsistent(Reduce(s, a))
  {
    match a
    case UpdateChild(c) =>
      if s.selectedChild.Some? {
        var k :| 0 <= k < |s.children| && s.children[k] == s.selectedChild.value;
        UpdateChildReplaces(s, c);
        var r := Reduce(s, a);
        assert r.children[k] == r.selectedChild.value;
      }
    case _ =>
  }

  /**
   * Adding a child, selecting it and then updating it leaves the updated
   * child selected, and it is the last child.
   */
  lemma AddSelectUpdate(s: AppState, c: Child, c2: Child)
    requires c2.id == c.id
    ensures var r := Reduce(Reduce(Reduce(s, AddChild(c)), SelectChild(Some(c))), UpdateChild(c2));
      r.selectedChild == Some(c2) && r.children[|s.children|] == c2
  {
    var s1 := Reduce(s, AddChild(c));
    var s2 := Reduce(s1, SelectChild(Some(c)));
    UpdateChildReplaces(s2, c2);
  }

  // ---------------------------------------------------------------------
  // Revival of the saved snapshot
  // ---------------------------------------------------------------------

  /** A user as the parsed JSON holds it: the date is still text. */
  datatype RawUser = RawUser(id: Id, email: string, name: string, createdAt: string)

  /** A child as the parsed JSON holds it. */
  datatype RawChild = RawChild(id: Id, name: string, dateOfBirth: string, parentIds: seq<Id>, createdAt: string)

  /** A feeding entry as the parsed JSON holds it. */
  datatype RawEntry = RawEntry(
    id: Id,
    childId: Id,
    userId: Id,
    date: string,
    time: string,
    feedingType: FeedingType,
    amountMl: Option<nat>,
    leftBreastMinutes: Option<nat>,
    rightBreastMinutes: Option<nat>,
    notes: Option<string>,
    spitUp: bool,
    peed: bool,
    pooped: bool,
    createdAt: string)

  /**
   * The parsed snapshot. A missing or null user or selection is `None`;
   * `children` or `feedingEntries` missing (or not an array) is `None`.
   */
  datatype RawState = RawState(
    currentUser: Option<RawUser>,
    children: Option<seq<RawChild>>,
    feedingEntries: Option<seq<RawEntry>>,
    selectedChild: Option<RawChild>)

  function ReviveUser(u: RawUser, parseDate: string -> Date): User {
    User(u.id, u.email, u.name, parseDate(u.createdAt))
  }

  function ReviveChild(c: RawChild, parseDate: string -> Date): Child {
    Child(c.id, c.name, parseDate(c.dateOfBirth), c.parentIds, parseDate(c.createdAt))
  }

  function ReviveEntry(e: RawEntry, parseDate: string -> Date): FeedingEntry {
    FeedingEntry(e.id, e.childId, e.userId, parseDate(e.date), e.time, e.feedingType,
      e.amountMl, e.leftBreastMinutes, e.rightBreastMinutes, e.notes,
      e.spitUp, e.peed, e.pooped, parseDate(e.createdAt))
  }

  function ReviveOption<R, T>(x: Option<R>, f: R -> T): Option<T> {
    if x.Some? then Some(f(x.value)) else None
  }

  function ReviveUsers(u: Option<RawUser>, parseDate: string -> Date): Option<User> {
    ReviveOption(u, (v: RawUser) => ReviveUser(v, parseDate))
  }

  function ReviveSelection(c: Option<RawChild>, parseDate: string -> Date): Option<Child> {
    ReviveOption(c, (v: RawChild) => ReviveChild(v, parseDate))
  }

  function ReviveChildren(cs: seq<RawChild>, parseDate: string -> Date): seq<Child> {
    seq(|cs|, i requires 0 <= i < |cs| => ReviveChild(cs[i], parseDate))
  }

  function ReviveEntries(es: seq<RawEntry>, parseDate: string -> Date): seq<FeedingEntry> {
    seq(|es|, i requires 0 <= i < |es| => ReviveEntry(es[i], parseDate))
  }

  /**
   * The action the load effect dispatches for the saved text, if any.
   * `parse` is JSON parsing (`None`: it throws, or the value is null);
   * nothing is saved, an empty text, a failed parse, or a snapshot without
   * its `children` or `feedingEntries` array dispatch nothing.
   */
  function HydrateAction(saved: Option<string>, parse: string -> Option<RawState>, parseDate: string -> Date)
    : (r: Option<Action>)
    ensures r.Some? ==> r.value.LoadData?
    ensures r.Some? <==>
      (saved.Some? && saved.value != "" && parse(saved.value).Some?
       && parse(saved.value).value.children.Some? && parse(saved.value).value.feedingEntries.Some?)
  {
    if saved.None? || saved.value == "" then None
    else
      var parsed := parse(saved.value);
      if parsed.None? || parsed.value.children.None? || parsed.value.feedingEntries.None? then None
      else
        var raw := parsed.value;
        Some(LoadData(AppState(
          ReviveUsers(raw.currentUser, parseDate),
          ReviveChildren(raw.children.value, parseDate),
          ReviveEntries(raw.feedingEntries.value, parseDate),
          ReviveSelection(raw.selectedChild, parseDate))))
  }

  /**
   * A revived snapshot keeps every field of what was parsed and only turns
   * the date texts into dates.
   */
  lemma HydrateOnlyRevivesDates(t: string, parse: string -> Option<RawState>, parseDate: string -> Date)
    requires t != "" && parse(t).Some?
    requires parse(t).value.children.Some? && parse(t).value.feedingEntries.Some?
    ensures var raw := parse(t).value;
      var p := HydrateAction(Some(t), parse, parseDate).value.snapshot;
      && (raw.currentUser.None? <==> p.currentUser.None?)
      && (raw.currentUser.Some? ==>
            (p.currentUser.value.id == raw.currentUser.value.id
             && p.currentUser.value.email == raw.currentUser.value.email
             && p.currentUser.value.name == raw.currentUser.value.name
             && p.currentUser.value.createdAt == parseDate(raw.currentUser.value.createdAt)))
      && |p.children| == |raw.children.value|
      && (forall i :: 0 <= i < |p.children| ==>
            var c, rc := p.children[i], raw.children.value[i];
            c.id == rc.id && c.name == rc.name && c.parentIds == rc.parentIds
            && c.dateOfBirth == parseDate(rc.dateOfBirth) && c.createdAt == parseDate(rc.createdAt))
      && |p.feedingEntries| == |raw.feedingEntries.value|
      && (forall i :: 0 <= i < |p.feedingEntries| ==>
            var e, re := p.feedingEntries[i], raw.feedingEntries.value[i];
            e.id == re.id && e.childId == re.childId && e.userId == re.userId && e.time == re.time
            && e.feedingType == re.feedingType && e.amountMl == re.amountMl
            && e.leftBreastMinutes == re.leftBreastMinutes && e.rightBreastMinutes == re.rightBreastMinutes
            && e.notes == re.notes && e.spitUp == re.spitUp && e.peed == re.peed && e.pooped == re.pooped
            && e.date == parseDate(re.date) && e.createdAt == parseDate(re.createdAt))
      && (raw.selectedChild.None? <==> p.selectedChild.None?)
      && (raw.selectedChild.Some? ==>
            (p.selectedChild.value.id == raw.selectedChild.value.id
             && p.selectedChild.value.name == raw.selectedChild.value.name
             && p.selectedChild.value.parentIds == raw.selectedChild.value.parentIds
             && p.selectedChild.value.dateOfBirth == parseDate(raw.selectedChild.value.dateOfBirth)
             && p.selectedChild.value.createdAt == parseDate(raw.selectedChild.value.createdAt)))
  {
  }

  // The save effect's side: what JSON.stringify writes, with dates as text.

  function SerializeUser(u: User, showDate: Date -> string): RawUser {
    RawUser(u.id, u.email, u.name, showDate(u.createdAt))
  }

  function SerializeChild(c: Child, showDate: Date -> string): RawChild {
    RawChild(c.id, c.name, showDate(c.dateOfBirth), c.parentIds, showDate(c.createdAt))
  }

  function SerializeEntry(e: FeedingEntry, showDate: Date -> string): RawEntry {
    RawEntry(e.id, e.childId, e.userId, showDate(e.date), e.time, e.feedingType,
      e.amountMl, e.leftBreastMinutes, e.rightBreastMinutes, e.notes,
      e.spitUp, e.peed, e.pooped, showDate(e.createdAt))
  }

  /** The snapshot the save effect writes; both arrays are always present. */
  function Serialize(s: AppState, showDate: Date -> string): (raw: RawState)
    ensures raw.children.Some? && raw.feedingEntries.Some?
    ensures |raw.children.value| == |s.children| && |raw.feedingEntries.value| == |s.feedingEntries|
  {
    RawState(
      ReviveOption(s.currentUser, (u: User) => SerializeUser(u, showDate)),
      Some(seq(|s.children|, i requires 0 <= i < |s.children| => SerializeChild(s.children[i], showDate))),
      Some(seq(|s.feedingEntries|, i requires 0 <= i < |s.feedingEntries| =>
        SerializeEntry(s.feedingEntries[i], showDate))),
      ReviveOption(s.selectedChild, (c: Child) => SerializeChild(c, showDate)))
  }

  /**
   * Saving a state and loading it back yields LOAD_DATA of that very state,
   * provided reading a date's text gives the date back and the JSON text
   * parses back to what was written.
   */
  lemma SaveThenLoad(s: AppState, t: string, showDate: Date -> string,
                     parse: string -> Option<RawState>, parseDate: string -> Date)
    requires forall d :: parseDate(showDate(d)) == d
    requires t != "" && parse(t) == Some(Serialize(s, showDate))
    ensures HydrateAction(Some(t), parse, parseDate) == Some(LoadData(s))
  {
    var raw := Serialize(s, showDate);
    var p := HydrateAction(Some(t), parse, parseDate).value.snapshot;
    assert p.children == s.children;
    assert p.feedingEntries == s.feedingEntries;
  }

  /** The state after the load effect: the saved snapshot when one is dispatched, else unchanged. */
  function AfterLoad(s: AppState, saved: Option<string>, parse: string -> Option<RawState>, parseDate: string -> Date)
    : (r: AppState)
    ensures HydrateAction(saved, parse, parseDate).None? ==> r == s
  {
    var a := HydrateAction(saved, parse, parseDate);
    if a.Some? then Reduce(s, a.value) else s
  }

  /**
   * The store the views dispatch into: the current state and the dispatch
   * function of the reducer hook.
   */
  class Store {
    var state: AppState

    constructor()
      ensures state == InitialState
    {
      state := InitialState;
    }

    /** Runs the reducer on the current state. */
    method Dispatch(a: Action)
      modifies this
      ensures state == Reduce(old(state), a)
    {
      state := Reduce(state, a);
    }

    /**
     * The load effect: read the saved text, parse it, revive the dates field
     * by field and dispatch LOAD_DATA; any failure (nothing saved, a parse
     * error, a missing array) leaves the state as it was.
     */
    method Load(saved: Option<string>, parse: string -> Option<RawState>, parseDate: string -> Date)
      modifies this
      ensures state == AfterLoad(old(state), saved, parse, parseDate)
    {
      if saved.None? || saved.value == "" {
        return;
      }
      var parsed := parse(saved.value);
      if parsed.None? {
        return;
      }
      var raw := parsed.value;
      var user := None;
      if raw.currentUser.Some? {
        user := Some(ReviveUser(raw.currentUser.value, parseDate));
      }
      if raw.children.None? {
        return;
      }
      var children := ReviveChildren(raw.children.value, parseDate);
      if raw.feedingEntries.None? {
        return;
      }
      var entries := ReviveEntries(raw.feedingEntries.value, parseDate);
      var selected := None;
      if raw.selectedChild.Some? {
        selected := Some(ReviveChild(raw.selectedChild.value, parseDate));
      }
      Dispatch(LoadData(AppState(user, children, entries, selected)));
    }
  }
}
