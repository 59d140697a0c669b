/** The contact-inquiry admin page: the list filter, the two counters, the
    selection updates after a status change or a delete, and the `cn`
    class-name helper. Loading the list from the server is left out; the
    page state is what it holds between loads. */
module ContactsPage {
  import opened Wrappers
  import opened Text
  import opened Lists
  import Store

  /** A contact inquiry as the page receives it; any field may be null. */
  datatype Contact = Contact(id: Store.Id, name: Option<string>, email: Option<string>,
                             subject: Option<string>, status: Option<string>)

  const AllStatuses: string := "All"

  /** The search half of the filter: name, email or subject contains the term. */
  predicate MatchesSearch(c: Contact, term: string) {
    MatchesFolded(c.name, term) || MatchesFolded(c.email, term) || MatchesFolded(c.subject, term)
  }

  /** The status half: "All", or exactly the chosen status. */
  predicate MatchesStatus(c: Contact, filter: string) {
    filter == AllStatuses || c.status == Some(filter)
  }

  /** `filteredContacts`. */
  function FilteredContacts(contacts: seq<Contact>, term: string, filter: string): (r: seq<Contact>)
    ensures IsSubsequence(r, contacts)
    ensures forall c :: c in r <==> c in contacts && MatchesSearch(c, term) && MatchesStatus(c, filter)
  {
    var keep := (c: Contact) => MatchesSearch(c, term) && MatchesStatus(c, filter);
    FilterIsSubsequence(contacts, keep);
    forall c ensures c in Filter(contacts, keep) <==> c in contacts && keep(c) {
      FilterMembership(contacts, keep, c);
    }
    Filter(contacts, keep)
  }

  /** With "All" and an empty search, a contact is listed exactly when it has
      a name, an email or a subject. */
  lemma EmptySearchKeepsContactsWithText(contacts: seq<Contact>, c: Contact)
    ensures c in FilteredContacts(contacts, "", AllStatuses) <==>
              c in contacts && (c.name.Some? || c.email.Some? || c.subject.Some?)
  {
    if c.name.Some? { MatchesFoldedCase(c.name.value, ""); }
    if c.email.Some? { MatchesFoldedCase(c.email.value, ""); }
    if c.subject.Some? { MatchesFoldedCase(c.subject.value, ""); }
  }

  /** Narrowing the status never adds a contact to the list. */
  lemma StatusFilterNarrows(contacts: seq<Contact>, term: string, filter: string, c: Contact)
    ensures c in FilteredContacts(contacts, term, filter) ==> c in FilteredContacts(contacts, term, AllStatuses)
  {
  }

  predicate IsPending(c: Contact) { c.status == Some("pending") }
  predicate IsReplied(c: Contact) { c.status == Some("replied") }

  /** `pendingCount` and `repliedCount`: no contact is counted twice. */
  lemma CountsWithinTotal(contacts: seq<Contact>)
    ensures Count(contacts, IsPending) + Count(contacts, IsReplied) <= |contacts|
  {
    DisjointCounts(contacts, IsPending, IsReplied);
  }

  /* ---------------------------------------------------------------------- */
  /* The detail view                                                        */
  /* ---------------------------------------------------------------------- */

  /** `handleStatusUpdate(id, status)` once `updateContactStatus` has
      answered with `error`. The handler compares the selection it captured
      when it was created (`captured`), not the one on screen when the
      answer arrives (`current`): with no truthy error and a captured
      contact with that id, it shows the captured contact with the new
      status, whatever is on screen now. */
  function SelectionAfterStatusUpdate(captured: Option<Contact>, current: Option<Contact>, id: Store.Id,
                                      status: string, error: Option<string>): (r: Option<Contact>)
    ensures Store.Truthy(error) || captured.None? || captured.value.id != id ==> r == current
    ensures !Store.Truthy(error) && captured.Some? && captured.value.id == id ==>
              r.Some? && r.value.status == Some(status) && r.value.(status := captured.value.status) == captured.value
  {
    if !Store.Truthy(error) && captured.Some? && captured.value.id == id then
      Some(captured.value.(status := Some(status)))
    else current
  }

  /** The "Mark as Replied" button of the detail view showing `c`: it starts
      `handleStatusUpdate(c.id, 'replied')` and at once closes the view;
      `error` is the answer that arrives afterwards. */
  function MarkAsRepliedInView(c: Contact, error: Option<string>): Option<Contact> {
    SelectionAfterStatusUpdate(Some(c), None, c.id, "replied", error)
  }

  /** The view closed by "Mark as Replied" opens again once the update
      succeeds, showing the contact as replied. */
  lemma MarkAsRepliedReopens(c: Contact, error: Option<string>)
    ensures !Store.Truthy(error) ==> MarkAsRepliedInView(c, error) == Some(c.(status := Some("replied")))
    ensures Store.Truthy(error) ==> MarkAsRepliedInView(c, error).None?
  {
  }

  /** The evidently intended update: the selection on screen when the answer
      arrives is updated in place (`setSelectedContact(prev => ...)`), so the
      update never opens or closes the detail view. */
  function SelectionAfterStatusUpdateIntended(current: Option<Contact>, id: Store.Id, status: string,
                                              error: Option<string>): (r: Option<Contact>)
    ensures r.None? <==> current.None?
    ensures !Store.Truthy(error) && current.Some? && current.value.id == id ==>
              r == Some(current.value.(status := Some(status)))
    ensures Store.Truthy(error) || current.None? || current.value.id != id ==> r == current
  {
    if !Store.Truthy(error) && current.Some? && current.value.id == id then
      Some(current.value.(status := Some(status)))
    else current
  }

  /** With the intended update the view closed by "Mark as Replied" stays
      closed; and when the selection does not change while the update is
      pending, the code as written already agrees with it. */
  lemma IntendedViewStaysClosed(c: Contact, sel: Option<Contact>, id: Store.Id, status: string,
                                error: Option<string>)
    ensures SelectionAfterStatusUpdateIntended(None, c.id, "replied", error).None?
    ensures SelectionAfterStatusUpdate(sel, sel, id, status, error) ==
              SelectionAfterStatusUpdateIntended(sel, id, status, error)
  {
  }

  /** `handleDelete(id)`: a cancelled `confirm` returns at once; otherwise,
      once `deleteContact` answers with `error`, the view closes when the
      captured selection had that id. */
  function SelectionAfterDelete(captured: Option<Contact>, current: Option<Contact>, id: Store.Id,
                                confirmed: bool, error: Option<string>): (r: Option<Contact>)
    ensures !confirmed || Store.Truthy(error) || captured.None? || captured.value.id != id ==> r == current
    ensures confirmed && !Store.Truthy(error) && captured.Some? && captured.value.id == id ==> r.None?
  {
    if confirmed && !Store.Truthy(error) && captured.Some? && captured.value.id == id then None
    else current
  }

  /** The Delete button of the detail view showing `c`: it starts
      `handleDelete(c.id)` and at once closes the view. */
  function DeleteInView(c: Contact, confirmed: bool, error: Option<string>): Option<Contact> {
    SelectionAfterDelete(Some(c), None, c.id, confirmed, error)
  }

  /** Delete in the detail view always closes it, also when the user cancels
      the confirmation or the delete fails; a delete from the list leaves an
      open view on another contact alone. */
  lemma DeleteInViewCloses(c: Contact, other: Contact, confirmed: bool, error: Option<string>)
    ensures DeleteInView(c, confirmed, error).None?
    ensures other.id != c.id ==> SelectionAfterDelete(Some(other), Some(other), c.id, confirmed, error) == Some(other)
  {
  }

  /** `Boolean` as the filter of `cn`: a string is truthy when non-empty. */
  predicate NonEmpty(c: string) {
    c != ""
  }

  /** `cn(...classes)`: drops empty strings and joins the rest with one space.
      The result is empty exactly when every class name is. */
  function Cn(classes: seq<string>): (r: string)
    ensures r == "" <==> forall i :: 0 <= i < |classes| ==> classes[i] == ""
  {
    var kept := Filter(classes, NonEmpty);
    JoinEmptyIff(kept, " ");
    NothingKeptIff(classes);
    Join(kept, " ")
  }

  /** `filter(Boolean)` keeps nothing exactly when every name is empty. */
  lemma NothingKeptIff(classes: seq<string>)
    ensures Filter(classes, NonEmpty) == [] <==> forall i :: 0 <= i < |classes| ==> classes[i] == ""
  {
    var kept := Filter(classes, NonEmpty);
    if kept != [] {
      FilterMembership(classes, NonEmpty, kept[0]);
    }
    forall i | 0 <= i < |classes| && classes[i] != "" ensures kept != [] {
      FilterMembership(classes, NonEmpty, classes[i]);
    }
  }

  /** `cn` one class name at a time: an empty name adds nothing, the first
      non-empty one is the whole result, and every later one is added after
      a single space. With `cn()` being empty this fixes `cn` on every
      list. */
  lemma CnAppendOne(classes: seq<string>, a: string)
    ensures Cn([]) == ""
    ensures Cn(classes + [a]) ==
              if a == "" then Cn(classes)
              else if Cn(classes) == "" then a
              else Cn(classes) + " " + a
  {
    var kept := Filter(classes, NonEmpty);
    assert Cn(classes) == Join(kept, " ");
    FilterAppend(classes, [a], NonEmpty);
    assert Filter([a], NonEmpty) == if a == "" then [] else [a];
    if a == "" {
      assert kept + [] == kept;
    } else if kept == [] {
      assert Filter(classes + [a], NonEmpty) == [a];
    } else {
      assert Filter(classes + [a], NonEmpty) == kept + [a];
      JoinSnoc(kept, a, " ");
    }
  }

  /** An empty class name anywhere in the list, such as a condition that
      did not hold, leaves the result unchanged. */
  lemma CnDropsEmpty(before: seq<string>, after: seq<string>)
    ensures Cn(before + [""] + after) == Cn(before + after)
  {
    FilterAppend(before + [""], after, NonEmpty);
    FilterAppend(before, [""], NonEmpty);
    FilterAppend(before, after, NonEmpty);
    assert Filter([""], NonEmpty) == [];
    assert Filter(before, NonEmpty) + [] == Filter(before, NonEmpty);
    assert Filter(before + [""] + after, NonEmpty) == Filter(before + after, NonEmpty);
  }

  /** The two status badges call `cn` with the base classes and the colour
      classes of the status, both non-empty and each holding spaces: the
      result is the two joined by one space. */
  lemma BadgeClasses(base: string, colour: string)
    requires base != "" && colour != ""
    ensures Cn([base, colour]) == base + " " + colour
  {
    CnAppendOne([], base);
    CnAppendOne([base], colour);
    assert [] + [base] == [base];
    assert [base] + [colour] == [base, colour];
  }

  /** When no class name holds a space, splitting the result on spaces gives
      back the non-empty names in order. */
  lemma CnSplits(classes: seq<string>)
    requires forall i :: 0 <= i < |classes| ==> ' ' !in classes[i]
    requires exists i :: 0 <= i < |classes| && classes[i] != ""
    ensures Split(Cn(classes), ' ') == Filter(classes, NonEmpty)
  {
    var kept := Filter(classes, NonEmpty);
    var i :| 0 <= i < |classes| && classes[i] != "";
    FilterMembership(classes, NonEmpty, classes[i]);
    forall j | 0 <= j < |kept| ensures ' ' !in kept[j] {
      FilterMembership(classes, NonEmpty, kept[j]);
    }
    SplitJoin(kept, ' ');
  }
}
