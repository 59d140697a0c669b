/** The booking server actions: `createBooking` (public) and the admin-only
    `getBookings`, `getBookingById`, `updateBookingStatus` and
    `deleteBooking`. The session user, the ids and creation times the
    database assigns, and its refusals enter as inputs. */
module Bookings {
  import opened Wrappers
  import opened Text
  import opened Store

  /** A row of the `packages` table, as far as bookings read it; title and
      price may be null. */
  datatype Package = Package(title: Option<string>, price: Option<real>)

  /** A row of the `bookings` table. */
  datatype Booking = Booking(packageId: Id, name: string, email: string, phone: string, date: string,
                             persons: int, message: Option<string>, status: string, createdAt: int)

  type Packages = map<Id, Package>
  type Bookings = map<Id, Booking>

  /** The booking form as the client sends it; `message` is optional. */
  datatype BookingRequest = BookingRequest(packageId: Id, name: string, email: string, phone: string,
                                           date: string, persons: int, message: Option<string>)

  const RequiredText: string := "All required fields must be filled"
  const PackageNotFoundText: string := "Package not found"
  const CreateFailedText: string := "Failed to create booking"
  const PendingStatus: string := "pending"
  const MissingPackageName: string := "Package Not Found"

  /** The required-field check: every text field non-empty and persons not 0. */
  predicate Complete(req: BookingRequest) {
    req.name != "" && req.email != "" && req.phone != "" && req.date != "" && req.persons != 0
  }

  /** `formData.message?.trim() || null`. */
  function StoredMessage(message: Option<string>): (r: Option<string>)
    ensures r.None? <==> message.None? || Trim(message.value) == ""
    ensures r.Some? ==> r.value == Trim(message.value)
  {
    match message
    case None => None
    case Some(m) => if Trim(m) == "" then None else Some(Trim(m))
  }

  /** `createBooking(formData)`. `packageError` says the package lookup
      failed; `newId` and `now` are the id and creation time the database
      assigns; `refused` is a refusal of the insert. */
  function CreateBooking(bookings: Bookings, packages: Packages, req: BookingRequest, packageError: bool,
                         newId: Id, now: int, refused: Option<DbError>): (r: Write<Booking, Booking>)
    // validation comes first, on the untrimmed values
    ensures !Complete(req) ==> r == Write(Failure(RequiredText), bookings)
    ensures Complete(req) && (packageError || req.packageId !in packages) ==>
              r == Write(Failure(PackageNotFoundText), bookings)
    ensures r.answer.Failure? ==> r.table == bookings
    // a created booking is the trimmed request, pending, stored under the new id
    ensures r.answer.Success? ==>
              && Complete(req) && !packageError && req.packageId in packages
              && r.table == bookings[newId := r.answer.value]
              && r.answer.value == Booking(req.packageId, Trim(req.name), Trim(req.email), Trim(req.phone),
                                           req.date, req.persons, StoredMessage(req.message), PendingStatus, now)
    ensures Complete(req) && !packageError && req.packageId in packages && refused.None? && newId !in bookings ==>
              r.answer.Success?
  {
    if !Complete(req) then Write(Failure(RequiredText), bookings)
    else if packageError || req.packageId !in packages then Write(Failure(PackageNotFoundText), bookings)
    else
      var row := Booking(req.packageId, Trim(req.name), Trim(req.email), Trim(req.phone),
                         req.date, req.persons, StoredMessage(req.message), PendingStatus, now);
      match InsertRow(bookings, newId, row, refused)
      case Success(after) => Write(Success(row), after)
      case Failure(e) => Write(Failure(MessageOr(e.message, CreateFailedText)), bookings)
  }

  /** A name of spaces only passes validation and is stored empty; a
      negative number of persons is stored as it is. */
  lemma BlankNameStoredEmpty(bookings: Bookings, packages: Packages, req: BookingRequest, newId: Id, now: int)
    requires req.name != "" && forall i :: 0 <= i < |req.name| ==> IsSpace(req.name[i])
    requires req.email != "" && req.phone != "" && req.date != "" && req.persons < 0
    requires req.packageId in packages && newId !in bookings
    ensures var r := CreateBooking(bookings, packages, req, false, newId, now, None);
            r.answer.Success? && r.answer.value.name == "" && r.answer.value.persons == req.persons
  {
    TrimAllSpaces(req.name);
  }

  /* ---------------------------------------------------------------------- */
  /* Reading bookings                                                       */
  /* ---------------------------------------------------------------------- */

  /** A booking joined with its package: `packageName`, `packagePrice` and
      `totalAmount` added to the row. */
  datatype BookingView = BookingView(id: Id, booking: Booking, packageName: string, packagePrice: real, totalAmount: real)

  /** `packages?.title || 'Package Not Found'`. */
  function PackageName(p: Option<Package>): (r: string)
    ensures r != ""
    ensures p.Some? && p.value.title.Some? && p.value.title.value != "" ==> r == p.value.title.value
    ensures r != MissingPackageName ==> p.Some? && p.value.title == Some(r)
  {
    if p.Some? && p.value.title.Some? && p.value.title.value != "" then p.value.title.value else MissingPackageName
  }

  /** `packages?.price || 0`: a missing package or price counts as 0. */
  function PackagePrice(p: Option<Package>): (r: real)
    ensures p.None? || p.value.price.None? ==> r == 0.0
    ensures p.Some? && p.value.price.Some? ==> r == p.value.price.value
  {
    if p.Some? && p.value.price.Some? then p.value.price.value else 0.0
  }

  /** The package a booking points at, if it still exists. */
  function PackageOf(b: Booking, packages: Packages): Option<Package> {
    if b.packageId in packages then Some(packages[b.packageId]) else None
  }

  /** The transform of `getBookings` and `getBookingById`. */
  function ViewOf(id: Id, b: Booking, packages: Packages): (v: BookingView)
    ensures v.id == id && v.booking == b
    ensures v.totalAmount == v.packagePrice * b.persons as real
    ensures b.packageId !in packages ==> v == BookingView(id, b, MissingPackageName, 0.0, 0.0)
    ensures b.packageId in packages ==>
              v.packageName == PackageName(Some(packages[b.packageId]))
              && v.packagePrice == PackagePrice(Some(packages[b.packageId]))
  {
    var p := PackageOf(b, packages);
    BookingView(id, b, PackageName(p), PackagePrice(p), PackagePrice(p) * b.persons as real)
  }

  /** `getBookings()`: admins get every booking, newest first, joined with
      its package. `listError` is a failure of the listing query. */
  method GetBookings(bookings: Bookings, packages: Packages, users: Users, user: Option<Id>,
                     listError: Option<DbError>) returns (r: Result<seq<BookingView>, string>)
    ensures !IsAdmin(users, user) ==> r == Failure(UnauthorizedText)
    ensures IsAdmin(users, user) && listError.Some? ==> r == Failure(listError.value.message)
    ensures IsAdmin(users, user) && listError.None? ==> r.Success?
    ensures r.Success? ==>
              && |r.value| == |bookings|
              && (forall k :: k in bookings <==> exists i :: 0 <= i < |r.value| && r.value[i].id == k)
              && (forall i :: 0 <= i < |r.value| ==>
                    r.value[i].id in bookings && r.value[i] == ViewOf(r.value[i].id, bookings[r.value[i].id], packages))
              && (forall i, j :: 0 <= i < j < |r.value| ==>
                    r.value[i].id != r.value[j].id
                    && r.value[i].booking.createdAt >= r.value[j].booking.createdAt)
  {
    if !IsAdmin(users, user) {
      return Failure(UnauthorizedText);
    }
    if listError.Some? {
      return Failure(listError.value.message);
    }
    var ids := NewestFirst(bookings, CreatedAt);
    var views := ViewsOf(ids, bookings, packages);
    ViewsOfListing(ids, bookings, packages);
    return Success(views);
  }

  function CreatedAt(b: Booking): int {
    b.createdAt
  }

  /** The views of the bookings listed by `ids`, in the same order. */
  function ViewsOf(ids: seq<Id>, bookings: Bookings, packages: Packages): (views: seq<BookingView>)
    requires forall i :: 0 <= i < |ids| ==> ids[i] in bookings
    ensures |views| == |ids|
    ensures forall i :: 0 <= i < |ids| ==> views[i] == ViewOf(ids[i], bookings[ids[i]], packages)
  {
    seq(|ids|, i requires 0 <= i < |ids| => ViewOf(ids[i], bookings[ids[i]], packages))
  }

  /** The views of a newest-first listing of every booking: each booking
      once, in order of creation, newest first. */
  lemma ViewsOfListing(ids: seq<Id>, bookings: Bookings, packages: Packages)
    requires multiset(ids) == multiset(bookings.Keys)
    requires NewestFirstOrder(ids, bookings, CreatedAt)
    ensures var views := ViewsOf(ids, bookings, packages);
            && |views| == |bookings|
            && (forall k :: k in bookings <==> exists i :: 0 <= i < |views| && views[i].id == k)
            && (forall i :: 0 <= i < |views| ==>
                  views[i].id in bookings && views[i] == ViewOf(views[i].id, bookings[views[i].id], packages))
            && (forall i, j :: 0 <= i < j < |views| ==>
                  views[i].id != views[j].id
                  && views[i].booking.createdAt >= views[j].booking.createdAt)
  {
    ListingHasEveryKeyOnce(ids, bookings);
    var views := ViewsOf(ids, bookings, packages);
    forall k | k in bookings
      ensures exists i :: 0 <= i < |views| && views[i].id == k
    {
      var i :| 0 <= i < |ids| && ids[i] == k;
      assert views[i].id == k;
    }
    forall i, j | 0 <= i < j < |views|
      ensures views[i].booking.createdAt >= views[j].booking.createdAt
    {
      assert CreatedAt(bookings[ids[i]]) >= CreatedAt(bookings[ids[j]]);
    }
  }

  /** `getBookingById(id)`: the booking with that id, joined with its
      package, for admins. `fetchError` is a failure of the query. */
  function GetBookingById(bookings: Bookings, packages: Packages, users: Users, user: Option<Id>,
                          id: Id, fetchError: Option<DbError>): (r: Result<BookingView, string>)
    ensures !IsAdmin(users, user) ==> r == Failure(UnauthorizedText)
    ensures r.Success? <==> IsAdmin(users, user) && fetchError.None? && id in bookings
    ensures r.Success? ==> r.value == ViewOf(id, bookings[id], packages)
    ensures IsAdmin(users, user) && fetchError.None? && id !in bookings ==> r == Failure(NoRows.message)
  {
    if !IsAdmin(users, user) then Failure(UnauthorizedText)
    else if fetchError.Some? then Failure(fetchError.value.message)
    else if id !in bookings then Failure(NoRows.message)
    else Success(ViewOf(id, bookings[id], packages))
  }

  /* ---------------------------------------------------------------------- */
  /* Changing bookings                                                      */
  /* ---------------------------------------------------------------------- */

  /** `updateBookingStatus(id, status)`. The update has no `.single()`, so
      an unknown id is no error and changes nothing. */
  function UpdateBookingStatus(bookings: Bookings, users: Users, user: Option<Id>, id: Id, status: string,
                               refused: Option<DbError>): (r: Write<(), Booking>)
    ensures !IsAdmin(users, user) ==> r == Write(Failure(UnauthorizedText), bookings)
    ensures r.answer.Failure? ==> r.table == bookings
    ensures r.answer.Success? <==> IsAdmin(users, user) && refused.None?
    // only the status of the booking with that id changes
    ensures OnlyKeyChanges(bookings, r.table, id)
    ensures id in bookings <==> id in r.table
    ensures id in bookings && r.answer.Success? ==>
              r.table[id].status == status && r.table[id] == bookings[id].(status := status)
  {
    if !IsAdmin(users, user) then Write(Failure(UnauthorizedText), bookings)
    else if refused.Some? then Write(Failure(refused.value.message), bookings)
    else if id in bookings then Write(Success(()), bookings[id := bookings[id].(status := status)])
    else Write(Success(()), bookings)
  }

  /** `deleteBooking(id)`. */
  function DeleteBooking(bookings: Bookings, users: Users, user: Option<Id>, id: Id,
                         refused: Option<DbError>): Write<(), Booking>
  {
    AdminDelete(bookings, users, user, id, refused)
  }

  /** A booking created by `createBooking` reads back through
      `getBookingById` with its package's name and the total price. */
  lemma CreatedBookingReadsBack(bookings: Bookings, packages: Packages, req: BookingRequest,
                                newId: Id, now: int, users: Users, user: Option<Id>)
    requires CreateBooking(bookings, packages, req, false, newId, now, None).answer.Success?
    requires IsAdmin(users, user)
    ensures var w := CreateBooking(bookings, packages, req, false, newId, now, None);
            var v := GetBookingById(w.table, packages, users, user, newId, None);
            && v.Success?
            && v.value.booking.status == PendingStatus
            && v.value.packageName == PackageName(Some(packages[req.packageId]))
            && v.value.totalAmount == PackagePrice(Some(packages[req.packageId])) * req.persons as real
  {
  }

  /** A status written by `updateBookingStatus` is the one `getBookingById`
      reports afterwards; every other field is unchanged. */
  lemma UpdatedStatusReadsBack(bookings: Bookings, packages: Packages, users: Users, user: Option<Id>,
                               id: Id, status: string)
    requires IsAdmin(users, user) && id in bookings
    ensures var after := UpdateBookingStatus(bookings, users, user, id, status, None).table;
            var v := GetBookingById(after, packages, users, user, id, None);
            && v.Success?
            && v.value.booking.status == status
            && v.value.booking.(status := bookings[id].status) == bookings[id]
  {
  }

  /** A deleted booking no longer reads back, and the others still do. */
  lemma DeletedBookingIsGone(bookings: Bookings, packages: Packages, users: Users, user: Option<Id>,
                             id: Id, other: Id)
    requires IsAdmin(users, user) && other != id && other in bookings
    ensures var after := DeleteBooking(bookings, users, user, id, None).table;
            && GetBookingById(after, packages, users, user, id, None) == Failure(NoRows.message)
            && GetBookingById(after, packages, users, user, other, None)
               == GetBookingById(bookings, packages, users, user, other, None)
  {
  }
}
