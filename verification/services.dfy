/** The service server actions: the public `getServices` and
    `getServiceById`, and the admin-only `createService`, `updateService`
    and `deleteService`, which decode a submitted form. */
module Services {
  import opened Wrappers
  import opened Store

  /** A submitted `FormData`, field name to text; a missing field is absent. */
  type Form = map<string, string>

  /** `formData.get(name)`: the value, or None for `null`. */
  function Field(form: Form, name: string): (r: Option<string>)
    ensures r.Some? <==> name in form
    ensures r.Some? ==> r.value == form[name]
  {
    if name in form then Some(form[name]) else None
  }

  /** A row of the `services` table; the text columns may be null. */
  datatype Service = Service(title: Option<string>, description: Option<string>, icon: Option<string>,
                             featured: bool, status: Option<string>, createdAt: int)

  type ServiceTable = map<Id, Service>

  const ActiveStatus: string := "active"

  /** `formData.get('featured') === 'true'`. */
  function Featured(form: Form): (r: bool)
    ensures r <==> "featured" in form && form["featured"] == "true"
  {
    Field(form, "featured") == Some("true")
  }

  /** `formData.get('status') as string || 'active'`: the create default. */
  function StatusOrActive(form: Form): (r: string)
    ensures r != ""
    ensures "status" in form && form["status"] != "" ==> r == form["status"]
    ensures "status" !in form || form["status"] == "" ==> r == ActiveStatus
  {
    match Field(form, "status")
    case Some(s) => if s == "" then ActiveStatus else s
    case None => ActiveStatus
  }

  /** The row `createService` inserts, created at `now`. */
  function NewService(form: Form, now: int): (s: Service)
    ensures s.title == Field(form, "title") && s.description == Field(form, "description")
    ensures s.icon == Field(form, "icon") && s.featured == Featured(form)
    ensures s.status == Some(StatusOrActive(form)) && s.createdAt == now
  {
    Service(Field(form, "title"), Field(form, "description"), Field(form, "icon"),
            Featured(form), Some(StatusOrActive(form)), now)
  }

  /** The five columns `updateService` overwrites; the status has no default. */
  function Overwrite(s: Service, form: Form): (r: Service)
    ensures r.title == Field(form, "title") && r.description == Field(form, "description")
    ensures r.icon == Field(form, "icon") && r.featured == Featured(form)
    ensures r.status == Field(form, "status")
    ensures r.createdAt == s.createdAt
  {
    s.(title := Field(form, "title"), description := Field(form, "description"), icon := Field(form, "icon"),
       featured := Featured(form), status := Field(form, "status"))
  }

  /** `getServices()`: every service, newest first, to anyone. */
  method GetServices(services: ServiceTable, listError: Option<DbError>) returns (r: Result<seq<Id>, DbError>)
    ensures listError.Some? ==> r == Failure(listError.value)
    ensures listError.None? ==> r.Success?
    ensures r.Success? ==>
              && |r.value| == |services|
              && (forall k :: k in services <==> k in r.value)
              && (forall i :: 0 <= i < |r.value| ==> r.value[i] in services)
              && (forall i, j :: 0 <= i < j < |r.value| ==>
                    r.value[i] != r.value[j]
                    && services[r.value[i]].createdAt >= services[r.value[j]].createdAt)
  {
    if listError.Some? {
      return Failure(listError.value);
    }
    var ids := NewestFirst(services, (s: Service) => s.createdAt);
    ListingHasEveryKeyOnce(ids, services);
    return Success(ids);
  }

  /** `getServiceById(id)`, ungated; an unknown id is the `.single()` error. */
  function GetServiceById(services: ServiceTable, id: Id, fetchError: Option<DbError>): (r: Result<Service, DbError>)
    ensures r.Success? <==> fetchError.None? && id in services
    ensures r.Success? ==> r.value == services[id]
    ensures fetchError.None? && id !in services ==> r == Failure(NoRows)
  {
    if fetchError.Some? then Failure(fetchError.value)
    else if id !in services then Failure(NoRows)
    else Success(services[id])
  }

  /** `createService(formData)`. `newId` and `now` are the id and creation
      time the database assigns; `refused` is a refusal of the insert. */
  function CreateService(services: ServiceTable, users: Users, user: Option<Id>, form: Form,
                         newId: Id, now: int, refused: Option<DbError>): (r: Write<Service, Service>)
    ensures !IsAdmin(users, user) ==> r == Write(Failure(UnauthorizedText), services)
    ensures r.answer.Failure? ==> r.table == services
    ensures r.answer.Success? <==> IsAdmin(users, user) && refused.None? && newId !in services
    ensures r.answer.Success? ==>
              r.answer.value == NewService(form, now) && r.table == services[newId := NewService(form, now)]
  {
    if !IsAdmin(users, user) then Write(Failure(UnauthorizedText), services)
    else
      match InsertRow(services, newId, NewService(form, now), refused)
      case Success(after) => Write(Success(NewService(form, now)), after)
      case Failure(e) => Write(Failure(e.message), services)
  }

  /** `updateService(id, formData)`: an unknown id is the `.single()` error. */
  function UpdateService(services: ServiceTable, users: Users, user: Option<Id>, id: Id, form: Form,
                         refused: Option<DbError>): (r: Write<Service, Service>)
    ensures !IsAdmin(users, user) ==> r == Write(Failure(UnauthorizedText), services)
    ensures r.answer.Failure? ==> r.table == services
    ensures r.answer.Success? <==> IsAdmin(users, user) && refused.None? && id in services
    ensures IsAdmin(users, user) && refused.None? && id !in services ==> r.answer == Failure(NoRows.message)
    // the five columns of that one row are overwritten, nothing else
    ensures OnlyKeyChanges(services, r.table, id)
    ensures r.answer.Success? ==>
              id in r.table && r.table[id] == Overwrite(services[id], form) && r.answer.value == r.table[id]
  {
    if !IsAdmin(users, user) then Write(Failure(UnauthorizedText), services)
    else
      match UpdateRow(services, id, (s: Service) => Overwrite(s, form), refused)
      case Success(after) => Write(Success(after[id]), after)
      case Failure(e) => Write(Failure(e.message), services)
  }

  /** `deleteService(id)`. */
  function DeleteService(services: ServiceTable, users: Users, user: Option<Id>, id: Id,
                         refused: Option<DbError>): Write<(), Service>
  {
    AdminDelete(services, users, user, id, refused)
  }

  /** A created service reads back with status "active" when the form left
      it empty, while an update with the same form writes a null status. */
  lemma StatusDefaultsOnlyOnCreate(services: ServiceTable, users: Users, user: Option<Id>, form: Form,
                                   newId: Id, now: int)
    requires IsAdmin(users, user) && newId !in services
    requires "status" !in form
    ensures var created := CreateService(services, users, user, form, newId, now, None).table;
            && GetServiceById(created, newId, None) == Success(NewService(form, now))
            && NewService(form, now).status == Some(ActiveStatus)
            && UpdateService(created, users, user, newId, form, None).table[newId].status == None
  {
  }

  /** An updated service reads back with the five submitted columns and its
      old creation time, and every other service reads back as before. */
  lemma UpdatedServiceReadsBack(services: ServiceTable, users: Users, user: Option<Id>, id: Id, form: Form,
                                other: Id)
    requires IsAdmin(users, user) && id in services && other != id
    ensures var after := UpdateService(services, users, user, id, form, None).table;
            && GetServiceById(after, id, None) == Success(Overwrite(services[id], form))
            && GetServiceById(after, id, None).value.createdAt == services[id].createdAt
            && GetServiceById(after, other, None) == GetServiceById(services, other, None)
  {
  }

  /** Updating twice with the same form is the same as updating once. */
  lemma UpdateIdempotent(services: ServiceTable, users: Users, user: Option<Id>, id: Id, form: Form)
    requires IsAdmin(users, user) && id in services
    ensures var once := UpdateService(services, users, user, id, form, None).table;
            UpdateService(once, users, user, id, form, None).table == once
  {
  }

  /** A deleted service no longer reads back, and the others still do. */
  lemma DeletedServiceIsGone(services: ServiceTable, users: Users, user: Option<Id>, id: Id, other: Id)
    requires IsAdmin(users, user) && other != id
    ensures var after := DeleteService(services, users, user, id, None).table;
            && GetServiceById(after, id, None) == Failure(NoRows)
            && GetServiceById(after, other, None) == GetServiceById(services, other, None)
  {
  }
}
