/**
 * The child selector (src/components/ChildSelector.tsx): the children the
 * signed-in user may see, the new-child form and its submit, choosing a
 * child, and opening a child's profile dialog.
 */
module ChildSelector {
  import opened Types
  import opened Seqs
  import opened AppContext

  /** The add form's buffer; `parentEmail` has no input and stays empty. */
  datatype SelectorForm = SelectorForm(name: string, dateOfBirth: string, parentEmail: string)

  const EmptyForm := SelectorForm("", "", "")

  datatype SelectorField = NameInput | BirthInput

  function HasParent(id: Id): Child -> bool {
    (c: Child) => id in c.parentIds
  }

  /** The children that list `user` among their parents, in store order. */
  function AccessibleChildren(children: seq<Child>, user: User): seq<Child> {
    Filter(children, HasParent(user.id))
  }

  /** Exactly the children listing the user are accessible, every copy of each, in their order. */
  lemma AccessibleExactly(children: seq<Child>, user: User)
    ensures var r := AccessibleChildren(children, user);
      && (forall i :: 0 <= i < |r| ==> r[i] in children && user.id in r[i].parentIds)
      && (forall i :: 0 <= i < |children| && user.id in children[i].parentIds ==> children[i] in r)
      && Subsequence(r, children)
      && (forall c: Child :: multiset(r)[c] == if user.id in c.parentIds then multiset(children)[c] else 0)
  {
    var r := AccessibleChildren(children, user);
    FilterIsSubsequence(children, HasParent(user.id));
    FilterCounts(children, HasParent(user.id));
    forall c: Child
      ensures multiset(r)[c] == if user.id in c.parentIds then multiset(children)[c] else 0
    {
      assert HasParent(user.id)(c) == (user.id in c.parentIds);
    }
    forall i | 0 <= i < |r|
      ensures user.id in r[i].parentIds
    {
      assert HasParent(user.id)(r[i]);
    }
    forall i | 0 <= i < |children| && user.id in children[i].parentIds
      ensures children[i] in r
    {
      assert HasParent(user.id)(children[i]);
    }
  }

  /** The child the add form creates: a fresh id, the creator as its only parent, created "now". */
  function NewChild(f: SelectorForm, user: User, freshId: Id, now: Date, parseDay: string -> Date): (c: Child)
    ensures c.id == freshId && c.parentIds == [user.id] && c.createdAt == now
    ensures c.name == f.name && c.dateOfBirth == parseDay(f.dateOfBirth)
  {
    Child(freshId, f.name, parseDay(f.dateOfBirth), [user.id], now)
  }

  /**
   * Once its ADD_CHILD is reduced, a new child is the last of the children
   * its creator may see; the ones seen before stay in front of it.
   */
  lemma NewChildVisibleLast(s: AppState, f: SelectorForm, user: User, freshId: Id, now: Date,
                            parseDay: string -> Date)
    ensures var c := NewChild(f, user, freshId, now, parseDay);
      AccessibleChildren(Reduce(s, AddChild(c)).children, user) == AccessibleChildren(s.children, user) + [c]
  {
    var c := NewChild(f, user, freshId, now, parseDay);
    FilterAppend(s.children, [c], HasParent(user.id));
    FilterSingleton(c, HasParent(user.id));
    assert HasParent(user.id)(c);
  }

  /**
   * Choosing the `k`-th accessible child selects a child of the store that
   * lists the user as a parent, and keeps the selection among the children.
   */
  lemma ChooseAccessible(s: AppState, user: User, k: nat)
    requires k < |AccessibleChildren(s.children, user)|
    ensures var r := Reduce(s, SelectChild(Some(AccessibleChildren(s.children, user)[k])));
      r.selectedChild.Some? && r.selectedChild.value in s.children
      && user.id in r.selectedChild.value.parentIds && SelectionConsistent(r)
  {
    AccessibleExactly(s.children, user);
  }

  /** What the selector view holds between renders. */
  class SelectorView {
    var formData: SelectorForm
    var showAddForm: bool
    var editingChild: Option<Child>

    constructor()
      ensures formData == EmptyForm && !showAddForm && editingChild.None?
    {
      formData := EmptyForm;
      showAddForm := false;
      editingChild := None;
    }

    /** The "add child" card opens the form; its cancel button closes it. */
    method SetShowAddForm(show: bool)
      modifies this
      ensures showAddForm == show
      ensures formData == old(formData) && editingChild == old(editingChild)
    {
      showAddForm := show;
    }

    /** A change event on one of the form's inputs. */
    method Input(field: SelectorField, value: string)
      modifies this
      ensures formData == match field
        case NameInput => old(formData).(name := value)
        case BirthInput => old(formData).(dateOfBirth := value)
      ensures showAddForm == old(showAddForm) && editingChild == old(editingChild)
    {
      match field
      case NameInput => formData := formData.(name := value);
      case BirthInput => formData := formData.(dateOfBirth := value);
    }

    /**
     * The submit: dispatch ADD_CHILD with the new child, then empty the
     * buffer and close the form.
     */
    method Submit(store: Store, freshId: Id, now: Date, parseDay: string -> Date)
      requires store.state.currentUser.Some?
      modifies this, store
      ensures store.state
        == Reduce(old(store.state), AddChild(NewChild(old(formData), old(store.state).currentUser.value,
                                                     freshId, now, parseDay)))
      ensures formData == EmptyForm && !showAddForm && editingChild == old(editingChild)
    {
      var c := NewChild(formData, store.state.currentUser.value, freshId, now, parseDay);
      store.Dispatch(AddChild(c));
      formData := EmptyForm;
      showAddForm := false;
    }

    /** A click on an accessible child's card selects it. */
    method Choose(store: Store, k: nat)
      requires store.state.currentUser.Some?
      requires k < |AccessibleChildren(store.state.children, store.state.currentUser.value)|
      modifies store
      ensures store.state == Reduce(old(store.state),
        SelectChild(Some(AccessibleChildren(old(store.state).children, old(store.state).currentUser.value)[k])))
    {
      var c := AccessibleChildren(store.state.children, store.state.currentUser.value)[k];
      store.Dispatch(SelectChild(Some(c)));
    }

    /** The settings button opens the profile dialog on that child's record as it is now. */
    method EditChild(c: Child)
      modifies this
      ensures editingChild == Some(c)
      ensures formData == old(formData) && showAddForm == old(showAddForm)
    {
      editingChild := Some(c);
    }

    /** Closing the profile dialog forgets the record it was opened on. */
    method CloseProfile()
      modifies this
      ensures editingChild.None?
      ensures formData == old(formData) && showAddForm == old(showAddForm)
    {
      editingChild := None;
    }
  }
}
