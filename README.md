# Baby feeding tracker — a Dafny model of its store and view handlers

The tracker keeps one application state: the signed-in user, the children,
the feeding entries and the selected child. A reducer applies one of nine
actions to that state. The views build those actions from form buffers,
confirmation answers, fresh ids and the current time. This project models
the following:

- **Entities** (`Types`): users, children, feeding entries and the
  application state.
- **Reducer and load effect** (`AppContext`): the reducer, and the load
  effect that revives a saved snapshot. A `Store` class holds the state and
  runs the reducer on each dispatch.
- **Display helpers** (`Utils`): 12-hour clock text, duration text, and the
  most-recent-first order of entries. The order is defined as a stable
  insertion sort. It is also implemented as an in-place insertion sort on a
  fresh array, proved equal to that definition.
- **View handlers**, one module per component (`FeedingForm`,
  `ChildProfile`, `ChildSelector`, `FeedingList`, `Login`,
  `AccountSettings`, `Header`). Each handler is a function from its inputs
  to the action it dispatches. The Header handlers (`Header.HandleLogout`, which
  dispatches two actions in a row, and `Header.HandleBackToChildren`) dispatch
  into the store, so they are module-level methods that take the `Store`. The child selector's local
  state is a `SelectorView` class. Lemmas compose the handlers
  with the reducer.
- **Shared helpers**: `Seqs` (filter, replace-by-predicate, subsequence)
  and `Text` (decimal text, `parseInt`, `split` on one character).

Modelling choices:

- **Dates** are abstract integers (`Date`). Turning text into a date
  (`new Date(text)`) and a date into text (`toISOString`) are function
  parameters: `parseDate`, `parseDay`, `showDate`, `showDay`.
- **Ids and time**: fresh ids (`generateId`), "now", today's date text and
  the current time text are also parameters.
- **Confirmations**: the answer to `window.confirm` is a boolean input.
- **Integers**: amounts and minutes are natural numbers, so JavaScript
  number semantics do not arise.
- **Sort key**: an entry's moment is (day, minute of the day), read from
  its `date` and its "HH:MM" `time`.

The system's specification and its code agree on every point modelled here,
with one nuance. The specification says the view never lets a removal empty
`parentIds`. The code's guard counts entries before it filters, so this holds
only for distinct parent ids (`ChildProfile.DistinctRemovalKeepsAParent`).
`ChildProfile.DuplicatesDefeatGuard` shows that a child listing the same parent
twice loses both. The model follows the code.

## Model

| member | source | states |
|---|---|---|
| AppContext.Reduce | src/contexts/AppContext.tsx:28-65 | each state field changes only under the actions that name it; all other actions leave it as it was |
| AppContext.OneFieldActions | src/contexts/AppContext.tsx:30-33 | SET_USER, UPDATE_USER and SELECT_CHILD set exactly their one field to the payload, and nothing else changes |
| AppContext.AddChildAppends | src/contexts/AppContext.tsx:34-35 | ADD_CHILD: one more child, the payload last, every earlier child at its index |
| AppContext.AddFeedingEntryAppends | src/contexts/AppContext.tsx:46-47 | ADD_FEEDING_ENTRY: one more entry, the payload last, every earlier entry at its index |
| AppContext.UpdateChildReplaces | src/contexts/AppContext.tsx:36-41 | UPDATE_CHILD keeps the length; every child with the payload's id becomes the payload and every other child stays at its index |
| AppContext.UpdateChildNoMatch | src/contexts/AppContext.tsx:39-41 | UPDATE_CHILD with an id no child has leaves the children unchanged |
| AppContext.UpdateChildSelection | src/contexts/AppContext.tsx:42 | the selection becomes the payload iff a child is selected and has the payload's id; otherwise it is unchanged, including none |
| AppContext.UpdateFeedingEntryReplaces | src/contexts/AppContext.tsx:48-54 | UPDATE_FEEDING_ENTRY keeps the length, replaces exactly the entries with the payload's id, and keeps the others at their index |
| AppContext.UpdateFeedingEntryNoMatch | src/contexts/AppContext.tsx:51-53 | with no entry of that id, the entries are unchanged |
| AppContext.DeleteRemovesId | src/contexts/AppContext.tsx:55-59 | after DELETE_FEEDING_ENTRY no entry has the id; every copy of each entry with another id survives (its count is unchanged, that of an entry with the id drops to 0); the survivors keep their order |
| AppContext.DeleteAbsentIsNoOp | src/contexts/AppContext.tsx:55-59 | deleting an id that no entry has returns the same state |
| AppContext.DeleteIdempotent | src/contexts/AppContext.tsx:55-59 | deleting the same id twice gives the same state as deleting it once |
| AppContext.LoadAndDefault | src/contexts/AppContext.tsx:60-63 | LOAD_DATA yields its payload exactly; an action the switch does not list yields the state unchanged |
| AppContext.ReducePreservesSelection | src/contexts/AppContext.tsx:37-45 | "selection is none or one of the children" is kept by every action, provided a selected or loaded payload is itself consistent; UPDATE_CHILD always keeps it |
| AppContext.AddSelectUpdate | src/contexts/AppContext.tsx:34-45 | ADD_CHILD(C), SELECT_CHILD(C), UPDATE_CHILD(C') with C'.id == C.id leaves C' selected and C' as the last child |
| AppContext.HydrateAction | src/contexts/AppContext.tsx:71-98 | LOAD_DATA is dispatched iff there is saved text, it parses, and it has both arrays; otherwise nothing is dispatched |
| AppContext.HydrateOnlyRevivesDates | src/contexts/AppContext.tsx:77-93 | the revived snapshot keeps every parsed field, turns each createdAt, dateOfBirth and entry date into a date, and keeps each array's length and order |
| AppContext.Serialize | src/contexts/AppContext.tsx:102-108 | the saved snapshot always has both arrays, of the state's lengths |
| AppContext.SaveThenLoad | src/contexts/AppContext.tsx:71-108 | saving a state and loading the saved text back dispatches LOAD_DATA of that same state, when reading a date's text gives the date back |
| AppContext.AfterLoad | src/contexts/AppContext.tsx:71-99 | when the load dispatches nothing, for example over the initial state, the state stays as it was |
| AppContext.Store.constructor | src/contexts/AppContext.tsx:21-26 | a new store holds the initial state: no user, no children, no entries, nothing selected |
| AppContext.Store.Dispatch | src/contexts/AppContext.tsx:68 | the new state is the reducer applied to the old state and the action |
| AppContext.Store.Load | src/contexts/AppContext.tsx:71-99 | the field-by-field revival in place gives the state that `AfterLoad` describes |
| Utils.DisplayHour | src/utils/index.ts:17-19 | the displayed hour is in 1..12 and agrees with the hour modulo 12: 0 and 12 show as 12, 13-23 lose twelve, 1-11 stay |
| Utils.FormatTime | src/utils/index.ts:15-21 | for every text, the result ends in the three-character suffix: " PM" when the leading digits of the hour part read 12 or more, " AM" otherwise, including no digits (NaN) |
| Utils.FormatTimeReadsBack | src/utils/index.ts:15-21 | for every text: the shown hour has no leading zero and reads back as the 12-hour hour (12 when the hour part has no leading digits), then ':', then the minutes after the first ':' up to the next one ("undefined" when there is no ':'), then the suffix |
| Utils.ClockHour | src/utils/index.ts:16-17 | for "digits:minutes" text, `parseInt` of the hour part is its full decimal value and the minutes part is the text after ':' |
| Utils.ClockTextDisplay | src/utils/index.ts:15-21 | "digits:minutes" text shows as the 12-hour hour, ':', the minutes verbatim, and " PM" from hour 12 on, " AM" before |
| Utils.ClockParts | src/utils/index.ts:16-17 | an hour run of digits and a minutes part joined by ':' split back into that hour value and that minutes part |
| Utils.FormatTimeMorning | src/utils/index.ts:15-21 | "08:05" shows as "8:05 AM" |
| Utils.FormatTimeMidnight | src/utils/index.ts:15-21 | "00:15" shows as "12:15 AM" |
| Utils.FormatTimeNoon | src/utils/index.ts:15-21 | "12:30" shows as "12:30 PM" |
| Utils.FormatTimeEvening | src/utils/index.ts:15-21 | "23:59" shows as "11:59 PM" |
| Utils.FormatTimeNotANumber | src/utils/index.ts:17-20 | an hour part that is not a number (NaN) shows as 12 and as AM: "ab:cd" shows as "12:cd AM" |
| Utils.FormatTimeNoColon | src/utils/index.ts:16-20 | text without ':' is read entirely as the hour and its minutes print as "undefined": "0830" shows as "2:undefined PM" |
| Utils.FormatTimeTrailingLetter | src/utils/index.ts:17 | `parseInt` stops at the first non-digit: "8a:05" shows as "8:05 AM" |
| Utils.FormatDuration | src/utils/index.ts:23-30 | the text contains 'h' iff the duration is at least an hour; it ends in 'h' for whole hours and in 'm' otherwise |
| Utils.DurationRoundTrip | src/utils/index.ts:23-30 | reading the hours before 'h' and the minutes before 'm' back from the duration text gives exactly the minutes it was made from (60·h + m = n); from an hour on, the hours read as n div 60 and the minutes as n mod 60, below 60 |
| Utils.DurationText | src/utils/index.ts:23-30 | below an hour the text is the decimal minutes and 'm'; otherwise the text before 'h' is the decimal n div 60, and after it comes nothing when n mod 60 is 0, else a space, the decimal n mod 60 and 'm' |
| Utils.FormatDurationExamples | src/utils/index.ts:23-30 | 45 is "45m", 60 is "1h", 90 is "1h 30m" |
| Utils.InsertPermutes | src/utils/index.ts:41-45 | inserting an entry into a list adds exactly that entry to its multiset |
| Utils.InsertOrdered | src/utils/index.ts:41-45 | inserting into a most-recent-first list keeps it most-recent-first |
| Utils.InsertKeepsMoments | src/utils/index.ts:41-45 | the inserted entry goes behind every entry of the same moment |
| Utils.SortByRecency | src/utils/index.ts:40-46 | the sorted list has as many entries as the input |
| Utils.SortPermutes | src/utils/index.ts:40-41 | the sorted list is a permutation of the input: the same multiset |
| Utils.SortOrders | src/utils/index.ts:41-45 | no entry of the sorted list is followed by a later one |
| Utils.SortIsStable | src/utils/index.ts:41-45 | for every moment, the entries at that moment appear in the sorted list in their input order |
| Utils.SortKeepsOrdered | src/utils/index.ts:40-46 | a list that is already most-recent-first is returned unchanged |
| Utils.SortIdempotent | src/utils/index.ts:40-46 | sorting a sorted output returns it unchanged |
| Utils.InsertInPlace | src/utils/index.ts:41-45 | shifting older entries up and dropping the entry into the gap makes the prefix the insertion of that entry, and leaves the rest of the array alone |
| Utils.SortFeedingEntries | src/utils/index.ts:40-46 | sorting a fresh copy in place gives the stable most-recent-first order of the input; the input is a value and is not changed |
| Utils.SortExample | src/utils/index.ts:40-46 | day 100 at 08:00, day 100 at 20:00 and day 101 at 06:00, in that order, sort to day 101 06:00, day 100 20:00, day 100 08:00 |
| FeedingForm.NumberText | src/components/FeedingForm.tsx:18-20 | an optional number shows as empty text exactly when it is absent |
| FeedingForm.InitialFormData | src/components/FeedingForm.tsx:14-25 | with nothing edited the buffer holds today, the current time, bottle, empty texts and cleared boxes |
| FeedingForm.ApplyInput | src/components/FeedingForm.tsx:56-62 | a text field takes the typed value and a check box takes the checked state; every other field, and the feeding type, keep their values |
| FeedingForm.ChangeFeedingType | src/components/FeedingForm.tsx:64-69 | choosing a type sets it, and every other field of the buffer (date, time, the texts of both types, notes and the three boxes) is kept |
| FeedingForm.NumberField | src/components/FeedingForm.tsx:37-39 | a number field is present iff the type is its own and its text is non-empty; it is then `parseInt` of the text |
| FeedingForm.BuildEntry | src/components/FeedingForm.tsx:30-45 | the entry keeps an edited entry's id and createdAt (else fresh id and now); it has the child's and user's ids; its type and time are the buffer's and its date is the buffer's day text parsed; amount and breast minutes are present iff type and text allow, and then hold `parseInt` of the text; notes are absent iff empty, else the buffer's text; the three flags are the buffer's; the fields match the type |
| FeedingForm.SubmitAction | src/components/FeedingForm.tsx:47-51 | editing dispatches UPDATE_FEEDING_ENTRY with the edited id; otherwise ADD_FEEDING_ENTRY with the fresh id; either way the payload is the entry `BuildEntry` makes of the buffer for the selected child and the signed-in user |
| FeedingForm.AmountAndBreastExclusive | src/components/FeedingForm.tsx:37-39 | no built entry has both an amount and breast minutes, whatever the buffer holds after any type switch |
| FeedingForm.SwitchBackRestores | src/components/FeedingForm.tsx:64-69 | switching the type away and back builds the same entry as before |
| FeedingForm.NumberTextRoundTrip | src/components/FeedingForm.tsx:18-20 | `parseInt` of a number's text is the number |
| FeedingForm.EditUnchangedRebuilds | src/components/FeedingForm.tsx:14-45 | opening an entry and submitting it unchanged rebuilds that entry, when its fields match its type, its notes are not empty text, its day text reads back as its day, and the submitting user and selected child are the entry's own (`user.id == e.userId`, `child.id == e.childId`). The source sets `userId` to the editor's id (line 33), so an entry made by another parent is rebuilt with the editor's id instead |
| FeedingForm.SubmitNewAppends | src/components/FeedingForm.tsx:30-50 | a new entry lands last in the store with the fresh id, the selected child's id and the user's id; earlier entries are kept |
| ChildProfile.InitialProfileForm | src/components/ChildProfile.tsx:15-18 | the profile buffer starts from the child's name and its birth day shown as text |
| ChildProfile.SaveProfile | src/components/ChildProfile.tsx:21-31 | only name and dateOfBirth change; id, parentIds and createdAt are kept |
| ChildProfile.UntouchedProfileKeepsChild | src/components/ChildProfile.tsx:15-31 | saving the profile form as it opened gives back the same child, when the birth day's text reads back as that day |
| ChildProfile.InviteParent | src/components/ChildProfile.tsx:41-57 | parentIds become the old parentIds followed by the fresh id; nothing else changes |
| ChildProfile.RemoveParent | src/components/ChildProfile.tsx:64-78 | an action exists iff there are more than one parent ids and the removal is confirmed; it targets the child's id |
| ChildProfile.RemovalPayload | src/components/ChildProfile.tsx:70-77 | the removed id occurs nowhere; every copy of every other parent id is kept (its count is unchanged), in order; the other fields are unchanged |
| ChildProfile.DistinctRemovalKeepsAParent | src/components/ChildProfile.tsx:65-73 | with distinct parent ids, a removal that passes the guard leaves at least one parent |
| ChildProfile.DuplicatesDefeatGuard | src/components/ChildProfile.tsx:65-73 | with parentIds ["p", "p"] the guard passes and the removal leaves no parent |
| ChildProfile.RemovableParents | src/components/ChildProfile.tsx:193-216 | a parent id is offered for removal iff it is one of the child's parent ids and not the current user's; each offered id is offered as often as it occurs, and in order |
| ChildProfile.OfferedRemovalKeepsCurrentUser | src/components/ChildProfile.tsx:208-216 | the current user is never offered for removal, so a removal from the dialog keeps the current user's access |
| ChildProfile.CurrentChild | src/components/ChildSelector.tsx:162-167 | the corrected lookup that the Findings row proposes (the source passes the `editingChild` record instead): the store's version of the dialog's child has its id; it is the child at the unique index with that id, or the dialog's own record when the store has none |
| ChildProfile.DialogSave | src/components/ChildProfile.tsx:21-31 | the corrected save: UPDATE_CHILD of the opened child's id, with the store's current parent ids and createdAt and the form's name and parsed birth day |
| ChildProfile.DialogInvite | src/components/ChildProfile.tsx:41-57 | the corrected invite: UPDATE_CHILD of the opened child's id, whose parent ids are the store's current parent ids followed by the fresh id; name, birth day and createdAt are the store's current ones |
| ChildProfile.DialogRemove | src/components/ChildProfile.tsx:64-78 | the corrected removal: an action exists iff the store's current version of the child has more than one parent id and the removal is confirmed; it is UPDATE_CHILD of the opened child's id, in which the removed id occurs nowhere, every other parent id of the store's current version keeps its count and order, and the other fields are that version's |
| ChildProfile.UpdateAt | src/contexts/AppContext.tsx:36-41 | UPDATE_CHILD of a child whose id is unique at k changes index k only, and the id stays unique |
| ChildProfile.StaleDialogDropsInvite | src/components/ChildProfile.tsx:52-57 | two invites from one open dialog, built from the record it was opened with, leave only the second invited id |
| ChildProfile.FreshDialogKeepsBothInvites | src/components/ChildProfile.tsx:52-57 | the same two invites built from the store's current version of the child keep both ids, in order |
| ChildSelector.AccessibleExactly | src/components/ChildSelector.tsx:19-21 | accessible children are exactly the children listing the user, each as often as in the store, and in store order |
| ChildSelector.NewChild | src/components/ChildSelector.tsx:26-32 | the new child has the fresh id, the creator as its only parent, the form's name and parsed birth day, and createdAt now |
| ChildSelector.NewChildVisibleLast | src/components/ChildSelector.tsx:19-34 | after ADD_CHILD the creator's accessible children are the old ones followed by the new child |
| ChildSelector.ChooseAccessible | src/components/ChildSelector.tsx:59-66 | selecting an accessible child selects one of the children that lists the user, and the selection is consistent |
| ChildSelector.SelectorView.constructor | src/components/ChildSelector.tsx:10-16 | the view starts with an empty buffer, the add form closed and no profile open |
| ChildSelector.SelectorView.SetShowAddForm | src/components/ChildSelector.tsx:96-98 | the add card opens the form and cancel closes it; nothing else changes |
| ChildSelector.SelectorView.Input | src/components/ChildSelector.tsx:39-44 | a change event replaces exactly the named field of the buffer |
| ChildSelector.SelectorView.Submit | src/components/ChildSelector.tsx:23-37 | dispatches ADD_CHILD of the new child built from the old buffer, then empties the buffer and closes the form |
| ChildSelector.SelectorView.Choose | src/components/ChildSelector.tsx:64-67 | dispatches SELECT_CHILD of the k-th accessible child |
| ChildSelector.SelectorView.EditChild | src/components/ChildSelector.tsx:84-87 | the settings button opens the profile on that child's record |
| ChildSelector.SelectorView.CloseProfile | src/components/ChildSelector.tsx:162-167 | closing the profile forgets the record |
| FeedingList.ChildEntriesExactly | src/components/FeedingList.tsx:15-16 | the child's entries are exactly the entries with its id, each as often as in the store, in store order; none with no child selected |
| FeedingList.TypeFilterExactly | src/components/FeedingList.tsx:18-21 | "all" changes nothing; a type keeps exactly the entries of that type, each as often as before, in order |
| FeedingList.DisplayedIsSortedView | src/components/FeedingList.tsx:23-24 | the displayed list is a permutation of the filtered list, newest first, with equal moments in store order |
| FeedingList.DisplayCounts | src/components/FeedingList.tsx:16-24 | displayed count ≤ the child's entry count ≤ the store's entry count |
| FeedingList.ShownIsStored | src/components/FeedingList.tsx:16-24 | every displayed entry is an entry of the store |
| FeedingList.HandleDelete | src/components/FeedingList.tsx:26-30 | DELETE_FEEDING_ENTRY with that id iff the delete is confirmed |
| FeedingList.DeletedEntryLeavesList | src/components/FeedingList.tsx:26-30 | after a confirmed delete the entry is shown under no tab |
| Login.LoginInput | src/components/Login.tsx:35-40 | a change event sets exactly the named field of the buffer to the typed value; the other fields are kept |
| Login.DisplayName | src/components/Login.tsx:28 | a non-empty entered name is the name; otherwise the name is a prefix of the email with no '@', followed in the email by '@' when it is shorter |
| Login.HandleSubmit | src/components/Login.tsx:16-33 | nothing is dispatched iff signing up with unequal passwords; otherwise one SET_USER of a user with the fresh id, the entered email and now |
| Login.SignInAlwaysDispatches | src/components/Login.tsx:19-22 | sign-in mode compares no passwords and always dispatches |
| Login.NameFromEmail | src/components/Login.tsx:28 | with no name entered the user is named after the email text before its first '@', or the whole email when it has none |
| Login.PasswordNotStored | src/components/Login.tsx:25-30 | submits differing only in the passwords dispatch the same action |
| Login.SignedInAfterSubmit | src/components/Login.tsx:25-32 | after the SET_USER the new user is signed in and nothing else changed |
| AccountSettings.InitialSettingsForm | src/components/AccountSettings.tsx:12-15 | the buffer starts from the current user's name and email, or empty texts with no user |
| AccountSettings.SettingsInput | src/components/AccountSettings.tsx:33-38 | a change event sets exactly the named field of the buffer to the typed value; the other field is kept |
| AccountSettings.UpdatedUser | src/components/AccountSettings.tsx:21-25 | id and createdAt are kept; name and email come from the form |
| AccountSettings.HandleSubmit | src/components/AccountSettings.tsx:17-31 | UPDATE_USER of the current user's id iff someone is signed in |
| AccountSettings.UntouchedFormKeepsUser | src/components/AccountSettings.tsx:12-25 | submitting the form as it opened gives back the same user |
| AccountSettings.SettingsApplied | src/components/AccountSettings.tsx:27 | after UPDATE_USER the current user is the updated user; children, entries and selection are unchanged |
| Header.LogoutClears | src/components/Header.tsx:15-16 | SET_USER(null) then SELECT_CHILD(null) clears user and selection, keeps children and entries, and leaves the selection consistent |
| Header.HandleLogout | src/components/Header.tsx:13-18 | confirmed: the two dispatches in order, after which user and selection are none and children and entries are kept; unconfirmed: the state is unchanged |
| Header.HandleBackToChildren | src/components/Header.tsx:20-22 | the selection is cleared; user, children and entries are kept |
| Seqs.FilterIsSubsequence | src/contexts/AppContext.tsx:58 | a filtered sequence is a subsequence of the original: its order is preserved |
| Seqs.FilterCounts | src/contexts/AppContext.tsx:58 | a filter keeps every copy of an accepted value and no copy of a rejected one |
| Text.ParseIntRoundTrip | src/components/FeedingForm.tsx:37-39 | `parseInt` of a natural number's decimal text gives the number |

## Left out

- `localStorage` reading and writing, `JSON.parse` and `JSON.stringify`: I/O and
  library code. The read is the `saved` text. JSON parsing is the `parse` parameter,
  which returns none when parsing throws or gives null. The write is modelled only as
  the value `Serialize` produces. Errors caught and logged to the console are not
  modelled, beyond leaving the state unchanged.
- React scheduling (`useReducer`, `useEffect`, batching, re-rendering): framework
  behaviour. `Store.Dispatch` applies each action at once, in call order.
- `Date` semantics (`new Date(text)`, `toISOString`, `toDateString`, time zones, the
  UTC/local day shift): dates are abstract integers, and text to date and back are
  parameters.
- `Utils.TimeOfDay`: reads "digits:minutes" text as 60 times the hour plus the
  decimal value of the minutes part (the text after the first ':' up to the next one,
  a non-digit counting as 0), and any other text as minute 0. No range is checked:
  hours above 23 and minutes above 59 count on past the hour or the day ("08:75" is
  9:15), and a seconds part is dropped ("8:05:30" ties with "8:05"). In the source
  the time text goes into `new Date(...)`: seconds there order entries within a minute,
  and out-of-range or malformed text gives an invalid date whose comparison is NaN,
  which leaves the sort order unspecified.
- `generateId` (`Math.random`): ids are parameters. `formatDate`, `getCurrentDate`
  and `getCurrentTime` read the locale and the wall clock: their results are
  parameters.
- `Text.ParseInt`: reads the leading decimal digits only, and text without leading
  digits reads as 0 where JavaScript's `parseInt` gives NaN. Leading whitespace and a
  sign are not modelled. The amount and minutes inputs are `type="number" min="0"`
  (src/components/FeedingForm.tsx:159-162, 179-182, 195-198), so they submit either
  empty text, which the form never parses, or a non-negative decimal number. For such
  text the leading digits give `parseInt`'s value ("1.5" and "1e3" both read as 1).
- `Utils.FormatTime`: `parseInt` of the hour part skips leading whitespace and reads a
  sign in JavaScript. Here the hour is the leading digits only, so " 8:05" shows as
  "12:05 AM" where the source shows "8:05 AM", and "-1:00" shows as "12:00 AM" where the
  source shows "-1:00 AM". JavaScript's `parseInt` also returns a double, while the
  hour here is an unbounded natural number. Hours above 2^53 are rounded there
  ("9007199254740993:00" reads as 2^53 and shows "8:00 PM"; the model shows "9:00 PM"),
  and a run of digits too long for a double reads as Infinity, whose remainder is
  NaN, so the source shows "12:… PM". Other text, including text with no digits or
  no ':', is modelled as the source formats it when its hour value is at most 2^53.
- `window.confirm` and `alert`: the confirmation answer is a boolean input, and
  alerts are not modelled.
- `onClose` and `onEditEntry` callbacks, and the tab state of ChildProfile and
  FeedingList (`setActiveTab`, `setFilter`): UI navigation that changes no store
  state. The tab choice of the feeding list is the `TypeFilter` argument.
- ChildProfile's `handleInputChange` and `setInviteEmail`: plain buffer updates of
  the same shape as the other forms' input handlers. The invited parent is only
  its fresh id, because the source builds a user record for the invite and then
  discards it.
- Login's `setIsSignup` toggle: the mode is the `isSignup` input of `Login.HandleSubmit`.
- All JSX rendering and the routing in src/App.tsx.

## Findings

| source | as written | input that shows it | evidently intended | confidence | as-written member | corrected member |
|---|---|---|---|---|---|---|
| src/components/ChildProfile.tsx:52-55 | the invite (and the save and removal at 24-28 and 71-74) builds the UPDATE_CHILD payload from the `child` prop, which is the `editingChild` record taken when the dialog opened (src/components/ChildSelector.tsx:86,164) and never refreshed | open the dialog on a child with parents [p], invite f1, then invite f2 without closing it: the store ends with [p, f2], and f1 is lost | build each payload from the store's current version of the child (looked up by id in `children`), so that the result is [p, f1, f2] | not executed | ChildProfile.StaleDialogDropsInvite | ChildProfile.FreshDialogKeepsBothInvites |
