# Travel-agency admin core, modelled in Dafny

This project models the core of a Next.js travel-agency site backed by a
Supabase (PostgreSQL) database:

- the route guard on `/admin` pages and the admin layout;
- the user-profile server actions (`registerAdmin`, `createOrUpdateUser`,
  `checkUserRole`);
- the booking and service server actions;
- the date formatters and the client-side image checks;
- the logic of four admin pages (contacts, journeys, services, new journey)
  and of the public booking form.

Each database table is a `map` from id to row. Every answer from the outside
world is a parameter of the operation that receives it: the session user,
sign-up, the `is_admin` RPC, refusals by the database, and the ids and
creation times the database assigns. So is the browser work of image
compression (reading, decoding, canvas encoding).

Modules, one per source file plus shared ones:

| module | file | models |
|---|---|---|
| `Wrappers` | wrappers.dfy | `Option`, `Result` |
| `Text` | text.dfy | `toLowerCase` (on `A`-`Z`), `trim`, `includes`, `startsWith`, `split`/`join`, `String(n)`, `padStart` |
| `Lists` | lists.dfy | `filter`, order-preserving subsequences, counting, removal at an index |
| `Store` | store.dfy | users table, database errors, the admin gate of the server actions, `insert(...).single()`, `update(...).single()`, newest-first listings |
| `Middleware` | middleware.dfy | `src/middleware.ts` |
| `AdminLayout` | admin_layout.dfy | `src/app/admin/layout.tsx` |
| `DateFormat` | date_format.dfy | `src/lib/utils/date-format.ts` |
| `ImageCompression` | image_compression.dfy | `src/lib/utils/image-compression.ts` |
| `Auth` | auth.dfy | `src/lib/actions/auth.ts` |
| `Bookings` | bookings.dfy | `src/lib/actions/bookings.ts` |
| `Services` | services.dfy | `src/lib/actions/services.ts` |
| `ContactsPage` | contacts_page.dfy | `src/app/admin/contacts/page.tsx` |
| `JourneysPage` | journeys_page.dfy | `src/app/admin/journeys/page.tsx` |
| `ServicesPage` | services_page.dfy | `src/app/admin/services/page.tsx` |
| `NewJourneyPage` | new_journey_page.dfy | `src/app/admin/journeys/new/page.tsx` |
| `BookingForm` | booking_form.dfy | `src/components/packages/BookingForm.tsx` |

Every formatter has an independent reader next to it (`ReadDate`,
`ReadReadable`, `ReadDateTime`), and the round trip through it is proved.
The write actions are paired with the read actions that observe them:
`createBooking`, `updateBookingStatus` and `deleteBooking` with
`getBookingById`; `createService`, `updateService` and `deleteService` with
`getServiceById`; `registerAdmin` and `createOrUpdateUser` with
`checkUserRole`.

Four behaviours of the code are easy to miss:

- The route guard and `checkUserRole` trim and lower-case the stored role.
  The admin gate of the other server actions compares it raw.
- The public branch of the guard also compares the raw role.
- `updateBookingStatus`, `deleteBooking` and `deleteService` have no
  `.single()`, so an unknown id is not an error.
- `updateService` writes the submitted status as it is. Only
  `createService` falls back to `"active"`.

## Model

| member | source | states |
|---|---|---|
| Text.Trim | src/middleware.ts:82 | `trim()`: the result occurs in the input with only white space around it, and starts and ends with a non-space character |
| Text.TrimIdempotent | src/middleware.ts:82 | trimming twice is the same as trimming once |
| Text.IncludesIff | src/app/admin/contacts/page.tsx:59-61 | `includes` holds exactly when the term occurs at some position of the text |
| Text.MatchesFoldedCase | src/app/admin/contacts/page.tsx:59-61 | lower-casing both sides decides the same match again, and the empty term matches every present field |
| Text.PadStart | src/lib/utils/date-format.ts:14-15 | `padStart`: the text ends the result, the fill is in front of it, and the length is the larger of the width and the text's length |
| Text.TwoDigits | src/lib/utils/date-format.ts:14-15 | `String(n).padStart(2, '0')` for n below 100: two digits that read back as n |
| Lists.RemoveIndex | src/app/admin/journeys/new/page.tsx:69-70 | `filter((_, i) => i !== index)`: the element at the index is removed; an index outside the list removes nothing |
| Lists.FilterMembership | src/app/admin/contacts/page.tsx:58 | `filter` keeps an element exactly when it is in the list and satisfies the test |
| Store.InsertRow | src/lib/actions/auth.ts:46-55 | an insert succeeds exactly when nothing refuses it and the id is new; then the table gains exactly that row; an existing id fails as a duplicate key |
| Store.UpdateRow | src/lib/actions/auth.ts:60-69 | an update by id through `.single()` succeeds exactly when nothing refuses it and the row exists; then only that row is rewritten; a missing row is the "no rows" error |
| Store.InsertNewestFirst | src/lib/actions/bookings.ts:92 | inserting one id into a newest-first listing keeps it newest first and adds exactly that id (multiset equality) |
| Store.NewestFirst | src/lib/actions/services.ts:9-12 | `order('created_at', { ascending: false })`: the listing is a permutation of the table's keys, newest first |
| Store.ListingHasEveryKeyOnce | src/lib/actions/services.ts:9-12 | a listing whose multiset is the key set has every key exactly once and as many entries as the table |
| Middleware.Decide | src/middleware.ts:33-93 | paths outside `/admin` pass; the three public pages pass unless a signed-in user's raw role is "admin", which goes to `/admin`; other admin pages pass exactly for a user whose role trims and lower-cases to "admin", and everything else goes to `/admin/login` |
| Middleware.NoRedirectLoop | src/middleware.ts:42-90 | following any redirect of the guard with the same session lands on a page the guard lets through |
| Middleware.BouncedAdminIsAdmitted | src/middleware.ts:53-54 | a user sent from a public page to `/admin` is admitted there |
| Middleware.LookupExceptionAsymmetry | src/middleware.ts:56-58 | a thrown role lookup lets a public page through but sends a protected page to the login page |
| Middleware.RoleComparisonAsymmetry | src/middleware.ts:53 | a role such as " Admin " is admitted to protected pages but not bounced off the login page, because the two branches compare differently |
| Middleware.PaddedAdminNormalises | src/middleware.ts:82 | a witness for the asymmetry lemma: the stored role " Admin " is not "admin" but trims and lower-cases to it |
| AdminLayout.AfterEffect | src/app/admin/layout.tsx:19-22 | after the effect the layout is mounted, and the page is public exactly when the pathname is one of the five listed |
| AdminLayout.RenderOf | src/app/admin/layout.tsx:25-44 | the sidebar is shown exactly when mounted and not public |
| AdminLayout.SidebarAfterMount | src/app/admin/layout.tsx:8-27 | after mounting, the sidebar is left out exactly on the five listed pages; a missing pathname gets the sidebar |
| AdminLayout.BareBeforeMount | src/app/admin/layout.tsx:16-26 | before the effect runs every page renders bare |
| AdminLayout.PublicListsDiffer | src/app/admin/layout.tsx:8 | the guard's public pages are all public to the layout; `/admin/fix-user` and `/admin/setup-demo` render bare yet the guard sends visitors without a session to the login page |
| DateFormat.FormatDate | src/lib/utils/date-format.ts:5-19 | "Invalid Date" exactly for an invalid date; otherwise only digits and dashes, dashes 3 and 6 places from the end, and 10 characters for a four-digit year |
| DateFormat.FormatDateRoundTrip | src/lib/utils/date-format.ts:14-18 | splitting the text at `-` gives back the year (negative ones included), the one-based month and the day |
| DateFormat.FormatDateReadable | src/lib/utils/date-format.ts:25-42 | "Invalid Date" exactly for an invalid date; otherwise it starts with the month's name and a space, and a one-digit day is not padded |
| DateFormat.FormatDateReadableRoundTrip | src/lib/utils/date-format.ts:32-41 | month index, day and year can all be read back from the text |
| DateFormat.MonthNamesDistinct | src/lib/utils/date-format.ts:32-35 | no two months share a name, so the name identifies the month |
| DateFormat.MonthIndex | src/lib/utils/date-format.ts:32-38 | the lookup finds the index whose name is given, or none when the name is not in the table |
| DateFormat.FormatDateTime | src/lib/utils/date-format.ts:47-59 | "Invalid Date" exactly for an invalid date; otherwise it starts with `formatDate` of the same date and a space, and is 6 characters longer with `:` 3 from the end |
| DateFormat.FormatDateTimeRoundTrip | src/lib/utils/date-format.ts:54-58 | the date fields, hours and minutes can all be read back |
| ImageCompression.ValidateImageFile | src/lib/utils/image-compression.ts:121-135 | a file passes exactly when its type starts with `image/` and its size is at most the limit; the type is checked first |
| ImageCompression.ValidateBoundary | src/lib/utils/image-compression.ts:122-130 | the limit is inclusive: a file of exactly `maxSizeMB * 1048576` bytes passes and one byte more fails |
| ImageCompression.ShrinkRatio | src/lib/utils/image-compression.ts:35 | for an image larger than the box, the ratio lies strictly between 0 and 1, fits both sides, and one side meets the box exactly |
| ImageCompression.FitWithin | src/lib/utils/image-compression.ts:31-38 | the new size fits the box, keeps the aspect ratio and never grows; an image inside the box keeps its size |
| ImageCompression.FromBlob | src/lib/utils/image-compression.ts:64-67 | the compressed file keeps the original name, takes the blob's size and always has a type |
| ImageCompression.CompressImage | src/lib/utils/image-compression.ts:10-113 | a file within the limit comes back unchanged; the only rejection is a canvas without a 2D context; read or decode failures return the original; once drawn at the fitted size, a null blob returns the original, a first blob within the limit becomes the new file, and an oversized one leads to the original at quality 0.5 or below, else to the second encoding (or the original when that blob is null) |
| ImageCompression.SecondEncodingUnchecked | src/lib/utils/image-compression.ts:71-82 | the second encoding is returned without a size check |
| ImageCompression.LowQualityKeepsOriginal | src/lib/utils/image-compression.ts:87-90 | at quality 0.5 or below an oversized first encoding gives back the original |
| Auth.CreateOrUpdateUser | src/lib/actions/auth.ts:127-184 | a lookup error other than PGRST116 is returned before any write; a failure leaves the table alone; only the user's row changes; a saved user has the requested role (default "customer") in the table and the answer; a write happens only when the row is missing or has another role |
| Auth.CreateOrUpdateUserSettles | src/lib/actions/auth.ts:144-162 | repeating a successful call writes nothing |
| Auth.SavedUserReadsBack | src/lib/actions/auth.ts:144-183 | a user saved by `createOrUpdateUser` is read back by `checkUserRole` with the requested role, and is an admin exactly when that role normalises to "admin" |
| Auth.MatchingRoleKeepsStoredEmail | src/lib/actions/auth.ts:162 | when the role already matches, the answer carries the passed email while the stored row keeps its own |
| Auth.CheckUserRole | src/lib/actions/auth.ts:186-288 | the four guards fail in order with their messages; with a clean lookup the user is found exactly when the row exists, and is an admin exactly when the role normalises to "admin"; after a failed lookup the user is known only through a permission refusal and an `is_admin` RPC answering true |
| Auth.CheckAgreesWithGuard | src/lib/actions/auth.ts:269-270 | with a clean lookup, `checkUserRole` calls a user an admin exactly when the route guard admits that user to `/admin` |
| Auth.GateStricterThanCheck | src/lib/actions/auth.ts:269-270 | every user the raw admin gate admits is an admin for `checkUserRole`, but a role that only normalises to "admin" fails the gate |
| Auth.NoPermissionInDuplicateKey | src/lib/actions/auth.ts:59 | a duplicate-key error is not taken for a permission refusal, so it reaches the `23505` branch |
| Auth.RegisterAdmin | src/lib/actions/auth.ts:6-125 | an existing account is reported as USER_EXISTS; every failure leaves the table alone; only the new user's row changes; a registration leaves an admin row with the given name and answers with it; the permission fallback rewrites the email, the duplicate-key update keeps it |
| Auth.RegisteredIsAdmin | src/lib/actions/auth.ts:46-118 | a registered account passes the action gate, `checkUserRole` and the route guard |
| Bookings.StoredMessage | src/lib/actions/bookings.ts:44 | the stored message is the trimmed text, or null exactly when it is missing or blank |
| Bookings.CreateBooking | src/lib/actions/bookings.ts:6-61 | validation runs first, on untrimmed values; a missing package fails; a failure leaves the table alone; a created booking is the trimmed request with status "pending", stored under the new id |
| Bookings.BlankNameStoredEmpty | src/lib/actions/bookings.ts:19-39 | a name of spaces passes validation and is stored empty; a negative number of persons is stored as it is |
| Bookings.ViewOf | src/lib/actions/bookings.ts:100-105 | the view carries the booking and its id; an existing package gives its title (or "Package Not Found" when the title is empty) and its price (or 0 when null); a missing package reads as "Package Not Found" at price 0; the total is the price times the persons |
| Bookings.GetBookings | src/lib/actions/bookings.ts:63-112 | non-admins are refused; admins get every booking exactly once, newest first, each joined with its package |
| Bookings.ViewsOfListing | src/lib/actions/bookings.ts:92-105 | the views of a newest-first listing hold each booking once, in order of creation time |
| Bookings.GetBookingById | src/lib/actions/bookings.ts:114-165 | an admin gets the booking exactly when it exists and the query does not fail; an unknown id is the "no rows" error |
| Bookings.UpdateBookingStatus | src/lib/actions/bookings.ts:167-200 | only the status of that booking changes; an unknown id succeeds and changes nothing |
| Store.AdminDelete | src/lib/actions/bookings.ts:202-235 | `deleteBooking`, and `deleteService` (services.ts:131-162), which is the same action: non-admins are refused; success exactly for an admin with no refusal; the row with that id is gone and nothing else changes; an unknown id succeeds |
| Bookings.CreatedBookingReadsBack | src/lib/actions/bookings.ts:35-56 | a created booking reads back as pending, with its package's name and total |
| Bookings.UpdatedStatusReadsBack | src/lib/actions/bookings.ts:186-189 | the status written is the one read back, and every other field is unchanged |
| Bookings.DeletedBookingIsGone | src/lib/actions/bookings.ts:221-224 | a deleted booking no longer reads back; the others still do |
| Services.Featured | src/lib/actions/services.ts:60 | featured exactly when the field is the text "true" |
| Services.StatusOrActive | src/lib/actions/services.ts:61 | a missing or empty status becomes "active"; any other is kept |
| Services.NewService | src/lib/actions/services.ts:57-71 | the inserted row holds the decoded title, description, icon, featured flag and defaulted status |
| Services.Overwrite | src/lib/actions/services.ts:103-117 | the update overwrites the five columns, with no status default, and keeps the creation time |
| Services.GetServices | src/lib/actions/services.ts:6-20 | anyone gets every service exactly once, newest first; a query error is returned as it is |
| Services.GetServiceById | src/lib/actions/services.ts:22-36 | the service is returned exactly when it exists and the query does not fail |
| Services.CreateService | src/lib/actions/services.ts:38-82 | non-admins are refused; success exactly for an admin, no refusal and a new id; then the table gains exactly the decoded row |
| Services.UpdateService | src/lib/actions/services.ts:84-129 | non-admins are refused; only that row changes; an unknown id is the "no rows" error |
| Services.UpdatedServiceReadsBack | src/lib/actions/services.ts:109-124 | an updated service reads back with the submitted columns and its old creation time; the others read back as before |
| Services.StatusDefaultsOnlyOnCreate | src/lib/actions/services.ts:61-107 | a form without a status creates an "active" service, but updating with the same form writes a null status |
| Services.UpdateIdempotent | src/lib/actions/services.ts:109-120 | updating twice with the same form is the same as updating once |
| Services.DeletedServiceIsGone | src/lib/actions/services.ts:150-153 | a deleted service no longer reads back; the others still do |
| ContactsPage.FilteredContacts | src/app/admin/contacts/page.tsx:58-64 | the list keeps its order, and a contact is shown exactly when its name, email or subject contains the term (ignoring case) and its status matches |
| ContactsPage.EmptySearchKeepsContactsWithText | src/app/admin/contacts/page.tsx:58-64 | with an empty search and "All", a contact is shown exactly when it has a name, an email or a subject |
| ContactsPage.StatusFilterNarrows | src/app/admin/contacts/page.tsx:62 | choosing a status never shows a contact that "All" hides |
| ContactsPage.CountsWithinTotal | src/app/admin/contacts/page.tsx:66-67 | no contact is counted as both pending and replied |
| ContactsPage.SelectionAfterStatusUpdate | src/app/admin/contacts/page.tsx:32-42 | with no truthy error and a captured contact with that id, the view shows the captured contact with only its status changed, whatever is on screen now; otherwise the current selection stays |
| ContactsPage.MarkAsRepliedReopens | src/app/admin/contacts/page.tsx:327-330 | the detail view closed by "Mark as Replied" opens again on the contact, marked replied, once the update succeeds |
| ContactsPage.SelectionAfterStatusUpdateIntended | src/app/admin/contacts/page.tsx:36-38 | updating the selection on screen never opens or closes the view, and changes only the status of a matching contact |
| ContactsPage.IntendedViewStaysClosed | src/app/admin/contacts/page.tsx:36-38 | with the intended update a closed view stays closed; when the selection does not change during the update, the code as written agrees with it |
| ContactsPage.SelectionAfterDelete | src/app/admin/contacts/page.tsx:44-56 | a cancelled confirmation or a truthy error leaves the current selection; otherwise the view closes when the captured selection had that id |
| ContactsPage.DeleteInViewCloses | src/app/admin/contacts/page.tsx:338-341 | Delete in the detail view always closes it, also when the user cancels or the delete fails; a delete from the list leaves a view on another contact open |
| ContactsPage.Cn | src/app/admin/contacts/page.tsx:356-358 | the class string is empty exactly when every class name is |
| ContactsPage.CnAppendOne | src/app/admin/contacts/page.tsx:356-358 | for every list: an empty name adds nothing, the first non-empty one is the whole result, and each later one follows a single space; with `cn()` empty this determines `cn` everywhere |
| ContactsPage.CnDropsEmpty | src/app/admin/contacts/page.tsx:356-358 | an empty class name anywhere in the list leaves the result unchanged |
| ContactsPage.BadgeClasses | src/app/admin/contacts/page.tsx:167-173 | the badge calls give the base classes and the status colour classes joined by one space, whatever spaces each holds |
| ContactsPage.CnSplits | src/app/admin/contacts/page.tsx:356-358 | when no class name holds a space and one is non-empty, splitting the result on spaces gives back the non-empty names in order |
| JourneysPage.FilteredJourneys | src/app/admin/journeys/page.tsx:48-53 | the list keeps its order, and a journey is shown exactly when its title or location contains the term and its category matches |
| JourneysPage.EmptySearchKeepsJourneysWithText | src/app/admin/journeys/page.tsx:48-53 | an empty search shows the journeys of the category that have a title or a location |
| JourneysPage.CategoryNotSearched | src/app/admin/journeys/page.tsx:48-53 | changing a journey's category never changes whether it matches the term; under "All" a journey is listed exactly when its title or location contains the term |
| JourneysPage.StatusLabel | src/app/admin/journeys/page.tsx:152 | the badge text is never empty: the status, or "active" |
| JourneysPage.MissingStatusLooksInactive | src/app/admin/journeys/page.tsx:148-153 | a journey without a status is labelled "active" but gets the grey badge |
| ServicesPage.FilteredServices | src/app/admin/services/page.tsx:90-93 | the list keeps its order, and a service is shown exactly when its title or description contains the term |
| ServicesPage.EmptySearchKeepsServicesWithText | src/app/admin/services/page.tsx:90-93 | an empty search keeps exactly the services with a title or a description, in order |
| ServicesPage.IconFor | src/app/admin/services/page.tsx:13-20 | each of the six names finds its icon; anything else, or no name, falls back to Car |
| ServicesPage.IconNamesRoundTrip | src/app/admin/services/page.tsx:13-20 | every icon is found under its own name, and no two icons share a name |
| ServicesPage.EditThenSubmit | src/app/admin/services/page.tsx:43-46 | after `handleEdit(id)` a save rewrites only the service `id` with the form and adds no key; the modal closes exactly for an admin whose update finds the row or is refused with an empty message |
| ServicesPage.AddNewThenSubmit | src/app/admin/services/page.tsx:48-51 | after `handleAddNew()` a save inserts the decoded form under the new id and nothing else; the modal closes exactly for an admin whose insert goes through or is refused with an empty message; otherwise the table is unchanged |
| ServicesPage.EmptyRefusalClosesModal | src/app/admin/services/page.tsx:72-80 | a refusal with an empty message closes the modal although nothing was saved |
| ServicesPage.Submit | src/app/admin/services/page.tsx:64-88 | the table is what the chosen action leaves; the modal stays open exactly when the action's error text is truthy, so an empty one closes it; an open modal means an unchanged table; editing never adds a service |
| ServicesPage.NonAdminSubmitStaysOpen | src/app/admin/services/page.tsx:64-88 | a non-admin's submit leaves the modal open and the table unchanged |
| NewJourneyPage.ChangeMainImage | src/app/admin/journeys/new/page.tsx:25-58 | no file changes nothing; an invalid file only sets the error; a valid one becomes the file `compressImage` resolves with (the chosen file when it rejects), and the preview shows it; a file within 2 MB is kept as chosen |
| NewJourneyPage.AddAdditionalImages | src/app/admin/journeys/new/page.tsx:60-66 | every chosen file is appended in order, but only the last one's preview is added |
| NewJourneyPage.StalePreviews | src/app/admin/journeys/new/page.tsx:63-65 | each update spreads the same rendered list, so only the last file's preview remains |
| NewJourneyPage.PreviewsFallBehind | src/app/admin/journeys/new/page.tsx:60-66 | with two or more files the images outnumber the previews, and aligned lists stop being aligned |
| NewJourneyPage.AddAdditionalImagesIntended | src/app/admin/journeys/new/page.tsx:60-66 | with one preview per file, the images and previews both grow by the number of files |
| NewJourneyPage.IntendedAlignmentKept | src/app/admin/journeys/new/page.tsx:60-66 | with one preview per file, aligned lists stay aligned for any number of files |
| NewJourneyPage.RemoveAdditionalImage | src/app/admin/journeys/new/page.tsx:68-71 | the same index leaves both lists, and nothing else changes |
| NewJourneyPage.AlignmentKept | src/app/admin/journeys/new/page.tsx:60-71 | adding one file, or removing any index, keeps each preview next to its image |
| NewJourneyPage.AssembleForm | src/app/admin/journeys/new/page.tsx:78-84 | the form keeps its own fields first, then the main image if set, then every additional image |
| NewJourneyPage.AssembledFormReadsBack | src/app/admin/journeys/new/page.tsx:78-84 | reading the submitted form gives back the additional images in order, and the main image once if set |
| NewJourneyPage.Submit | src/app/admin/journeys/new/page.tsx:86-93 | the page goes to the journeys list exactly when the error text is not truthy (none, or empty); a page that stays shows the non-empty error, stops loading and keeps the chosen images and previews |
| NewJourneyPage.ResubmitSendsSameForm | src/app/admin/journeys/new/page.tsx:78-93 | after a failed submit the page assembles the same form again, and images stay aligned with their previews |
| NewJourneyPage.EmptyErrorLeavesPage | src/app/admin/journeys/new/page.tsx:88 | an empty error text goes to the journeys list |
| BookingForm.JsParseInt | src/components/packages/BookingForm.tsx:36 | `parseInt` is NaN exactly when no digit follows the leading white space and sign; a value without digits is NaN |
| BookingForm.ParseIntOfString | src/components/packages/BookingForm.tsx:36 | `parseInt(String(n))` gives back `n` for every integer |
| BookingForm.DecimalReadsIntegerPart | src/components/packages/BookingForm.tsx:36 | `parseInt` of a decimal stops at the point |
| BookingForm.ParsePersons | src/components/packages/BookingForm.tsx:36 | the result is never 0: NaN and 0 become 1, any other number is kept |
| BookingForm.PersonsFromTypedNumber | src/components/packages/BookingForm.tsx:36 | typing a number keeps it (negative ones too) except 0, which becomes 1; a decimal keeps its integer part |
| BookingForm.Change | src/components/packages/BookingForm.tsx:32-38 | only the named field changes; persons gets the parsed value, never 0 |
| BookingForm.PersonsNeverZero | src/components/packages/BookingForm.tsx:32-38 | no change through the form sets persons to 0 |
| BookingForm.Request | src/components/packages/BookingForm.tsx:47-55 | the request carries the form fields and the package id unchanged |
| BookingForm.Submitted | src/components/packages/BookingForm.tsx:40-77 | loading always ends, and the success banner shows exactly when no error text does; with no truthy error text (none, or empty) every field resets and the banner shows; a truthy error keeps the fields and shows it; a thrown error shows its message or the fallback |
| BookingForm.BannerMeansStored | src/components/packages/BookingForm.tsx:47-72 | after a submit through the form the banner shows exactly when `createBooking` stored the booking, and a refused booking keeps what was typed |
| BookingForm.BlankFormRejected | src/components/packages/BookingForm.tsx:20-27 | submitting the untouched form is refused for its empty fields, and the form keeps its values |
| BookingForm.EmptyMessageStoredAsNull | src/components/packages/BookingForm.tsx:47-72 | an empty message box stores no message, and after success the button stays disabled |

## Left out

- Network, cookies, `revalidatePath`, `console` output, `alert`, `confirm`
  and navigation are not modelled. Their results enter as parameters where
  the logic depends on them.
- The outer `try`/`catch` blocks of the server actions are left out. Only
  the guard's thrown role lookup, the booking form's thrown submit and the
  rejected compression on the new-journey page are modelled.
- The 500 ms wait in `registerAdmin` and the 5 s success timer of the
  booking form are left out: they are timers only.
- The password of `registerAdmin` only reaches the auth service, whose
  answer is the `signUp` parameter.
- `loadContacts`, `loadServices`, `loadJourneys` and the loading spinners
  are left out. The journeys page's delete handler is left out too; it only
  calls an action whose source is not part of this model.
- `createJourney`, `getContacts`, `updateContactStatus` and `deleteContact`
  are not part of this model. Their answers are parameters.
- Text.Lower: `toLowerCase` folds `A`-`Z` only; other upper-case letters
  are left as they are. `trim` removes exactly the ECMAScript white space
  and line terminator characters.
- ImageCompression.ValidateImageFile: the size message is the value
  `TooLarge(maxSizeMB, size)`, because `toFixed(2)` formatting is not
  modelled.
- ImageCompression.CompressImage: canvas sizes are real numbers, not
  rounded to whole pixels. `lastModified` is not modelled.
- BookingForm.JsParseInt: hexadecimal `0x` prefixes and radix handling are
  not modelled, because a number input's value never holds them.
- ServicesPage.IconFor: names such as `constructor`, which an object
  literal inherits from its prototype, are treated like unknown names.
- ServicesPage.Submit: the `saving` flag is not modelled, because it is
  only set and reset around the call.
- ContactsPage.CnSplits: reading the names back by splitting on spaces is
  stated only for names without spaces. The strings the page passes hold
  several names each; for those, CnAppendOne and BadgeClasses state the
  result instead.
- Bookings.CreateBooking: the number of persons is an integer and is stored
  as it is. The source stores `parseInt(persons.toString())` and computes
  `price * persons` on JavaScript numbers. For every integer that round
  trip gives the number back (BookingForm.ParseIntOfString), and the form
  only sends integers. A request sent around the form with a fraction (2.5
  is stored as 2), with an exponent form (1e21 is stored as 1), or beyond
  2^53 is not modelled.
- Services.NewService: the form's File values are not modelled. Every
  field is text.
- DateFormat: parsing date strings and time zones is not modelled. The
  date enters already split into the values of its local-time getters.
- The dashboard, the public pages and the journey edit page are context
  only.

## Findings

| source | as written | input that shows it | evidently intended | confidence | as-written member | corrected member |
|---|---|---|---|---|---|---|
| src/app/admin/contacts/page.tsx:36-37 | `handleStatusUpdate` compares and spreads the `selectedContact` it captured before the await; the detail view's "Mark as Replied" button closes the view right after starting it | mark a pending contact as replied from its detail view, with the update succeeding: the closed view opens again | the selection on screen when the answer arrives is updated, so a closed view stays closed | medium, not executed | ContactsPage.MarkAsRepliedReopens | ContactsPage.IntendedViewStaysClosed |
| src/app/admin/journeys/new/page.tsx:63-65 | every `setAdditionalPreviews([...additionalPreviews, url])` in the `forEach` spreads the same list from the render, so only the last file's preview is added | choosing two files at once on an empty page: two images, one preview | one preview per chosen file, appended together | medium, not executed | NewJourneyPage.PreviewsFallBehind | NewJourneyPage.IntendedAlignmentKept |
