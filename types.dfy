/**
 * The records of the feeding tracker (src/types/index.ts) as values.
 *
 * Dates and instants are abstract numbers (`Date`): the model never looks
 * inside them, it only compares them and passes them through.
 */
module Types {

  datatype Option<+T> = None | Some(value: T)

  /** A calendar day or an instant; only its order matters to the model. */
  type Date = int

  /** An opaque identifier, as produced by the id generator. */
  type Id = string

  /** A caregiver account. There is no password field. */
  datatype User = User(id: Id, email: string, name: string, createdAt: Date)

  /** A child; `parentIds` is the ordered list of the users who may see it. */
  datatype Child = Child(id: Id, name: string, dateOfBirth: Date, parentIds: seq<Id>, createdAt: Date)

  datatype FeedingType = Bottle | Breast

  /**
   * One recorded feeding. `time` is the wall-clock text ("HH:MM") kept apart
   * from `date`; the amount and the breast minutes are optional numbers, the
   * three flags are always present.
   */
  datatype FeedingEntry = FeedingEntry(
    id: Id,
    childId: Id,
    userId: Id,
    date: Date,
    time: string,
    feedingType: FeedingType,
    amountMl: Option<nat>,
    leftBreastMinutes: Option<nat>,
    rightBreastMinutes: Option<nat>,
    notes: Option<string>,
    spitUp: bool,
    peed: bool,
    pooped: bool,
    createdAt: Date)

  /** The whole snapshot held by the store and persisted as one blob. */
  datatype AppState = AppState(
    currentUser: Option<User>,
    children: seq<Child>,
    feedingEntries: seq<FeedingEntry>,
    selectedChild: Option<Child>)

  /** Only the fields of the entry's own feeding type are present. */
  predicate FieldsMatchType(e: FeedingEntry) {
    match e.feedingType
    case Bottle => e.leftBreastMinutes.None? && e.rightBreastMinutes.None?
    case Breast => e.amountMl.None?
  }
}
