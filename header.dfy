/**
 * The header's two store-changing buttons (src/components/Header.tsx):
 * log out, which dispatches two actions in a row, and back to the child
 * list.
 */
module Header {
  import opened Types
  import opened AppContext

  /** The state after SET_USER(null) and then SELECT_CHILD(null). */
  lemma LogoutClears(s: AppState)
    ensures var r := Reduce(Reduce(s, SetUser(None)), SelectChild(None));
      r.currentUser.None? && r.selectedChild.None?
      && r.children == s.children && r.feedingEntries == s.feedingEntries
      && SelectionConsistent(r)
  {
  }

  /** A confirmed logout dispatches SET_USER(null) then SELECT_CHILD(null); otherwise nothing. */
  method HandleLogout(store: Store, confirmed: bool)
    modifies store
    ensures confirmed ==> store.state == Reduce(Reduce(old(store.state), SetUser(None)), SelectChild(None))
    ensures confirmed ==>
      (store.state.currentUser.None? && store.state.selectedChild.None?
       && store.state.children == old(store.state.children)
       && store.state.feedingEntries == old(store.state.feedingEntries))
    ensures !confirmed ==> store.state == old(store.state)
  {
    if confirmed {
      store.Dispatch(SetUser(None));
      store.Dispatch(SelectChild(None));
    }
  }

  /** Back to the child list: the selection is cleared, the user stays signed in. */
  method HandleBackToChildren(store: Store)
    modifies store
    ensures store.state == Reduce(old(store.state), SelectChild(None))
    ensures store.state.selectedChild.None? && store.state.currentUser == old(store.state.currentUser)
      && store.state.children == old(store.state.children)
      && store.state.feedingEntries == old(store.state.feedingEntries)
  {
    store.Dispatch(SelectChild(None));
  }
}
