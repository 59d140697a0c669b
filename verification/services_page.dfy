/** The services admin page: the list filter, the icon lookup, and the
    modal with its create-or-update submit. */
module ServicesPage {
  import opened Wrappers
  import opened Text
  import opened Lists
  import opened Store
  import Services

  /** The search looks at the title and the description. */
  predicate MatchesSearch(s: Services.Service, term: string) {
    MatchesFolded(s.title, term) || MatchesFolded(s.description, term)
  }

  /** `filteredServices`: there is no other filter. */
  function FilteredServices(services: seq<Services.Service>, term: string): (r: seq<Services.Service>)
    ensures IsSubsequence(r, services)
    ensures forall s :: s in r <==> s in services && MatchesSearch(s, term)
  {
    var keep := (s: Services.Service) => MatchesSearch(s, term);
    FilterIsSubsequence(services, keep);
    forall s ensures s in Filter(services, keep) <==> s in services && keep(s) {
      FilterMembership(services, keep, s);
    }
    Filter(services, keep)
  }

  /** An empty search keeps exactly the services with a title or a
      description, in order. */
  lemma EmptySearchKeepsServicesWithText(services: seq<Services.Service>)
    ensures FilteredServices(services, "") ==
              Filter(services, (s: Services.Service) => s.title.Some? || s.description.Some?)
  {
    var keep := (s: Services.Service) => MatchesSearch(s, "");
    var hasText := (s: Services.Service) => s.title.Some? || s.description.Some?;
    forall i | 0 <= i < |services| ensures keep(services[i]) == hasText(services[i]) {
      var s := services[i];
      if s.title.Some? { MatchesFoldedCase(s.title.value, ""); }
      if s.description.Some? { MatchesFoldedCase(s.description.value, ""); }
    }
    FilterCongruent(services, keep, hasText);
  }

  /** The six icons of `iconMap`. */
  datatype Icon = Car | Home | Camera | Map | Star | ShieldCheck

  /** The key of each icon in `iconMap`. */
  function IconName(i: Icon): string {
    match i
    case Car => "Car"
    case Home => "Home"
    case Camera => "Camera"
    case Map => "Map"
    case Star => "Star"
    case ShieldCheck => "ShieldCheck"
  }

  /** `iconMap[service.icon] || Car`. */
  function IconFor(name: Option<string>): (r: Icon)
    ensures forall i: Icon :: name == Some(IconName(i)) ==> r == i
    // any other name, or none, falls back to Car
    ensures r != Car ==> name == Some(IconName(r))
  {
    match name
    case Some("Home") => Home
    case Some("Camera") => Camera
    case Some("Map") => Map
    case Some("Star") => Star
    case Some("ShieldCheck") => ShieldCheck
    case _ => Car
  }

  /** Every icon is found under its own name, and the names are distinct. */
  lemma IconNamesRoundTrip(i: Icon, j: Icon)
    ensures IconFor(Some(IconName(i))) == i
    ensures IconName(i) == IconName(j) ==> i == j
  {
  }

  /** The modal: open or closed, and the service being edited (None when
      adding a new one). */
  datatype Modal = Modal(open: bool, editing: Option<Id>)

  /** `handleEdit(service)`. */
  function Edit(m: Modal, id: Id): (r: Modal)
    ensures r.open && r.editing == Some(id)
  {
    Modal(true, Some(id))
  }

  /** `handleAddNew()`. */
  function AddNew(m: Modal): (r: Modal)
    ensures r.open && r.editing.None?
  {
    Modal(true, None)
  }

  /** The action `handleSubmit` calls: `updateService` for the edited
      service, otherwise `createService`. */
  function Save(m: Modal, services: Services.ServiceTable, users: Users, user: Option<Id>, form: Services.Form,
                newId: Id, now: int, refused: Option<DbError>): Write<Services.Service, Services.Service>
  {
    if m.editing.Some? then Services.UpdateService(services, users, user, m.editing.value, form, refused)
    else Services.CreateService(services, users, user, form, newId, now, refused)
  }

  /** `handleSubmit`: the modal closes unless the action's `error` is
      truthy, so an empty error text closes it too; the edited id is kept
      either way. */
  function Submit(m: Modal, services: Services.ServiceTable, users: Users, user: Option<Id>, form: Services.Form,
                  newId: Id, now: int, refused: Option<DbError>): (r: (Modal, Services.ServiceTable))
    ensures var w := Save(m, services, users, user, form, newId, now, refused);
            && r.1 == w.table
            && (r.0.open <==> m.open && Truthy(ErrorOf(w.answer)))
    ensures r.0.editing == m.editing
    // a modal left open always goes with an unchanged table
    ensures r.0.open ==> r.1 == services
    // editing never adds a service; adding adds at most the new one
    ensures m.editing.Some? ==> r.1.Keys == services.Keys
    ensures m.editing.None? ==> r.1.Keys <= services.Keys + {newId}
  {
    var w := Save(m, services, users, user, form, newId, now, refused);
    (if Truthy(ErrorOf(w.answer)) then m else m.(open := false), w.table)
  }

  /** Saving after `handleEdit(id)` rewrites only the service `id`, with the
      submitted form, and closes the modal exactly when the update succeeds
      or is refused with an empty message. */
  lemma EditThenSubmit(m: Modal, id: Id, services: Services.ServiceTable, users: Users, user: Option<Id>,
                       form: Services.Form, newId: Id, now: int, refused: Option<DbError>)
    ensures var (after, table) := Submit(Edit(m, id), services, users, user, form, newId, now, refused);
            && after.editing == Some(id)
            && table.Keys == services.Keys
            && OnlyKeyChanges(services, table, id)
            && (!after.open <==>
                  IsAdmin(users, user) && (if refused.Some? then refused.value.message == "" else id in services))
            && (IsAdmin(users, user) && refused.None? && id in services ==>
                  table[id] == Services.Overwrite(services[id], form))
  {
    var w := Services.UpdateService(services, users, user, id, form, refused);
    assert Save(Edit(m, id), services, users, user, form, newId, now, refused) == w;
    if IsAdmin(users, user) && refused.None? && id !in services {
      assert w.answer == Failure(NoRows.message);
    }
  }

  /** Saving after `handleAddNew()` inserts the decoded form under the new
      id and nothing else, and closes the modal exactly when the insert
      succeeds or is refused with an empty message. */
  lemma AddNewThenSubmit(m: Modal, services: Services.ServiceTable, users: Users, user: Option<Id>,
                         form: Services.Form, newId: Id, now: int, refused: Option<DbError>)
    ensures var (after, table) := Submit(AddNew(m), services, users, user, form, newId, now, refused);
            && after.editing.None?
            && (!after.open <==>
                  IsAdmin(users, user) && (if refused.Some? then refused.value.message == "" else newId !in services))
            && (!after.open && refused.None? ==> table == services[newId := Services.NewService(form, now)])
            && (after.open || refused.Some? ==> table == services)
  {
    var w := Services.CreateService(services, users, user, form, newId, now, refused);
    assert Save(AddNew(m), services, users, user, form, newId, now, refused) == w;
    if IsAdmin(users, user) && refused.None? && newId in services {
      assert InsertRow(services, newId, Services.NewService(form, now), refused) == Failure(DuplicateKey);
    }
  }

  /** A refusal whose message is empty reads as success: the modal closes
      although nothing was saved. */
  lemma EmptyRefusalClosesModal(m: Modal, services: Services.ServiceTable, users: Users, user: Option<Id>,
                                form: Services.Form, newId: Id, now: int, code: string)
    requires m.open && IsAdmin(users, user)
    ensures var (after, table) := Submit(m, services, users, user, form, newId, now, Some(DbError(code, "")));
            !after.open && table == services
  {
  }

  /** A visitor who is not an admin cannot save: the modal stays open and the
      table is unchanged. */
  lemma NonAdminSubmitStaysOpen(m: Modal, services: Services.ServiceTable, users: Users, user: Option<Id>,
                                form: Services.Form, newId: Id, now: int, refused: Option<DbError>)
    requires m.open && !IsAdmin(users, user)
    ensures Submit(m, services, users, user, form, newId, now, refused) == (m, services)
  {
  }
}
