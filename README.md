# ReserveNow, modelled in Dafny

ReserveNow is a restaurant-reservation system with these parts:

- **Diners** browse restaurants, book tables, cancel bookings, review restaurants and keep favourites.
- **Managers** (role 1) own restaurants and their tables and handle the bookings made there.
- **Waiters** (role 3) apply to a manager's staff. Once approved, they act on that manager's bookings.
- **Administrators** (role 0) see and change everything.
- A Spring service layer answers each request with a `Result` of a code, a message and optional data.
- A Vue router guards the pages of the web front end.
- A small date formatter renders the times it shows.

This project models the core of that system:

- the response envelope;
- the booking life cycle: creation checks, cancel, confirm, reject, complete, and the waiter's overwrite;
- the listings: SQL conditions, ordering, paging and the lenient and strict status filters;
- the management services for restaurants, tables, users, staff, reviews and favourites;
- the statistics dashboard;
- the diner-facing catalogue of the second backend;
- the admin controllers;
- the front end's route guard and `formatDate`.

How the model is built:

- **Tables** are sequences of rows in physical order. An `id` that is unique by invariant is the primary key.
- **Service methods that write** are pure functions returning the response and the new table. Each has a class (`…Store`) whose methods update a `seq` field in place and are proved equal to that function.
- **Java exceptions** become `Except<T>`.
- **Java `int` arithmetic** is wrapped to 32 bits explicitly where the code computes a page offset itself, for a `.last("LIMIT … OFFSET …")` clause or a mapper's SQL. MyBatis-Plus `selectPage` would compute its offset as a `long`. In the hd application it does not page at all: its own `SqlSessionFactory` is built without the pagination interceptor (hd/src/main/java/com/room/hd/config/MybatisPlusConfig.java:53-64), so `selectPage` returns every matching row with a total of 0. The services that call it are modelled that way.
- **Parameters:** the current time, generated ids, the JWT parser, the BCrypt hash and check functions, and aggregate SQL queries.

Modules, in dependency order:

- **Foundations:**
  - `Common`: the `Result` envelope.
  - `JavaText`: `trim`, `hasText`, `Integer.parseInt`, `String.valueOf`, `split`, `join`, and the `|`-separated photo lists.
  - `Entities`: the rows and `selectById`.
  - `Query`: WHERE, COUNT, selectOne, ORDER BY, DISTINCT, LIMIT/OFFSET, MyBatis-Plus pages, page defaults.
  - `Auth`: roles, claims, the Bearer header and the password functions.
- **Mappers:** `ReservationMapper`, `ReviewMapper`, `UserMapper`, `RestaurantMapper`.
- **Services:** `ReservationService`, `RestaurantManageService`, `RestaurantTableService`, `StaffService`, `ReviewService`, `FavoriteService`, `AdminUserService`, `UserService`, `AdminService`, and the catalogue `BackendRestaurantService`.
- **Controllers:** `AdminReservationController`, `StaffReservationController`, `AdminStatisticsController`.
- **Front end:** `Router` (the route table, vue-router matching, JavaScript `parseInt` and the `beforeEach` guard) and `DateFormat` (`formatDate`).

Some behaviours differ from what the code's own comments, messages or sibling methods suggest. The model follows the code:

- **Manager scope.** The comment at hd/src/main/java/com/room/hd/service/impl/ReservationServiceImpl.java:478 says the restaurant is checked against the manager. Yet a restaurant outside the scope gives an empty list (:485-491), not a refusal.
- **Waiter scope.** A waiter asking for such a restaurant gets the `IllegalArgumentException` "No permission …" (:808-811). The controller answers it with 500 rather than 403.
- **Waiter overwrite.** The overwrite (:860-862) sets only the status. Confirm, reject and complete stamp `updatedAt` (:639, :705, :766); the overwrite does not.
- **Illegal transition.** It is answered with `validateFailed`, a plain 400 (:632-635).
- **Statistics gate.** The gate is named `checkAdminRole`, and its refusal says "No permission to access administrator interface" (hd/src/main/java/com/room/hd/controller/admin/AdminStatisticsController.java:48-51). Yet any readable token passes (:134-155). A waiter whose application was rejected (status 2) passes the `status == 0` test (:63) and sees the statistics of the manager they applied to.

## Model

| member | source | states |
|---|---|---|
| Common.SuccessWith | hd/src/main/java/com/room/hd/common/Result.java:56-62 | code 200 with the given data and message, which isSuccess accepts |
| Common.Success | hd/src/main/java/com/room/hd/common/Result.java:45-47 | code 200, message "Operation successful", the data, accepted by isSuccess |
| Common.Error | hd/src/main/java/com/room/hd/common/Result.java:71-76 | exactly the code and message with no data; not a success unless the code is 200 |
| Common.ValidateFailed | hd/src/main/java/com/room/hd/common/Result.java:84-86 | code 400 with the message, never a success |
| Common.UnauthorizedIs401 | hd/src/main/java/com/room/hd/common/Result.java:93-95 | code 401, "Not logged in or token expired", no data, not a success |
| Common.ForbiddenIs403 | hd/src/main/java/com/room/hd/common/Result.java:102-104 | code 403, "No permission", no data, not a success |
| Common.NotFoundIs404 | hd/src/main/java/com/room/hd/common/Result.java:121-123 | code 404, "Requested resource does not exist", no data, not a success |
| Common.ServerErrorIs500 | hd/src/main/java/com/room/hd/common/Result.java:130-132 | code 500, "Internal server error", no data, not a success |
| Common.ForbiddenWith | hd/src/main/java/com/room/hd/common/Result.java:112-114 | code 403 with the given message |
| Common.CatchAll | hd/src/main/java/com/room/hd/controller/admin/AdminReservationController.java:66-68 | a thrown exception becomes a 500 that is not a success; a returned response passes unchanged |
| JavaText.Wrap32 | hd/src/main/java/com/room/hd/service/impl/ReservationServiceImpl.java:417 | the result lies in the int range and differs from the exact value by a multiple of 2^32 |
| JavaText.TrimEmptyIff | hd/src/main/java/com/room/hd/service/impl/ReservationServiceImpl.java:676-678 | trim() is empty exactly when every character is at or below U+0020 |
| JavaText.ParseIntOfIntToString | hd/src/main/java/com/room/hd/service/impl/ReservationServiceImpl.java:206-210 | Integer.parseInt reads back every integer that String.valueOf prints |
| JavaText.SplitJoinRoundTrip | hd/src/main/java/com/room/hd/service/impl/RestaurantManageServiceImpl.java:184 | split on a separator undoes join for non-empty parts without the separator |
| JavaText.PipeListRoundTrip | hd/src/main/java/com/room/hd/service/impl/RestaurantManageServiceImpl.java:502 | a photo list joined with "\|" splits back into the same list |
| Entities.SelectById | hd/src/main/java/com/room/hd/service/impl/ReservationServiceImpl.java:288 | the row found has the requested id; none is found exactly when no row has it |
| Entities.IndexOfUnique | hd/src/main/java/com/room/hd/service/impl/ReservationServiceImpl.java:288 | under a primary key the row at a position is the one selectById returns for its id |
| Query.Where | backend/src/main/java/com/room/backend/mapper/ReservationMapper.java:39-54 | exactly the rows meeting the condition, in table order |
| Query.CountIsWhereLength | backend/src/main/java/com/room/backend/mapper/ReservationMapper.java:62-72 | a COUNT under a condition equals the length of the unpaged list under it |
| Query.CountOneMatch | hd/src/main/java/com/room/hd/mapper/ReviewMapper.java:48-49 | a condition met by one row only counts 1 |
| Query.SelectOne | hd/src/main/java/com/room/hd/service/impl/FavoriteServiceImpl.java:65 | no match is null, one match is that row, more matches throw TooManyResults |
| Query.SelectOneOfOnlyMatch | hd/src/main/java/com/room/hd/service/impl/FavoriteServiceImpl.java:109 | selectOne returns the row that alone meets the condition |
| Query.OrderBy | backend/src/main/java/com/room/backend/mapper/ReservationMapper.java:28 | ORDER BY gives a sorted permutation of the rows |
| Query.OrderByDesc | backend/src/main/java/com/room/backend/mapper/ReservationMapper.java:39-54 | ORDER BY … DESC gives a permutation in non-increasing key order |
| Query.Distinct | backend/src/main/java/com/room/backend/service/impl/RestaurantServiceImpl.java:221-232 | each value once, holding exactly the values of the input |
| Query.DistinctKeepsFirstAppearanceOrder | backend/src/main/java/com/room/backend/service/impl/RestaurantServiceImpl.java:221-232 | the distinct values keep the order of their first appearance |
| Query.LimitOffset | hd/src/main/java/com/room/hd/service/impl/RestaurantManageServiceImpl.java:82 | a negative OFFSET, then a negative LIMIT, is refused by PostgreSQL with its own message; otherwise the slice of at most limit rows from offset |
| Query.SelectPageDescRowsMatch | backend/src/main/java/com/room/backend/mapper/ReservationMapper.java:39-54 | every row on a page is a table row meeting the condition |
| Query.SelectPageDescOrdered | backend/src/main/java/com/room/backend/mapper/ReservationMapper.java:39-54 | a page is newest first |
| Query.SelectPageDescLength | backend/src/main/java/com/room/backend/mapper/ReservationMapper.java:39-54 | a page holds min(limit, matches - offset) rows when the offset lies inside the matches |
| Query.SelectPageSound | hd/src/main/java/com/room/hd/config/MybatisPlusConfig.java:34-40 | with the pagination interceptor, a page holds at most size matching rows, newest first, with the count of all matches as its total; a negative size skips the count and the LIMIT, giving every match and total 0 |
| Query.SelectPageUnintercepted | hd/src/main/java/com/room/hd/config/MybatisPlusConfig.java:53-64 | without the interceptor, the records are exactly the matching rows, each as often as the table holds it, newest first, and the total stays 0 |
| Query.UninterceptedPageIgnoresSize | hd/src/main/java/com/room/hd/config/MybatisPlusConfig.java:53-64 | when more rows match than the size asked for, the unintercepted result is longer than that size and reports total 0 where the intercepted page reports the count |
| Query.NormalisePage | hd/src/main/java/com/room/hd/service/impl/RestaurantManageServiceImpl.java:50-55 | at least 1, and a positive page is kept |
| Query.NormalisePageSize | hd/src/main/java/com/room/hd/service/impl/RestaurantManageServiceImpl.java:50-55 | a null or non-positive size becomes 10, any other is kept |
| Query.Offset | hd/src/main/java/com/room/hd/service/impl/RestaurantManageServiceImpl.java:58 | (page - 1) * pageSize with 32-bit wrap-around |
| Query.NormalisedOffsetNonNegative | hd/src/main/java/com/room/hd/service/impl/RestaurantManageServiceImpl.java:50-58 | after the defaults, an offset that does not overflow is non-negative |
| Query.ConvertAll | hd/src/main/java/com/room/hd/service/impl/RestaurantManageServiceImpl.java:88-101 | the for-each conversion loop yields each row's view, in order |
| ReservationMapper.AdminPageMatchesFilters | backend/src/main/java/com/room/backend/mapper/ReservationMapper.java:39-54 | every booking on the administrator's page has a listed status and the given restaurant |
| ReservationMapper.ManagerPageMatchesFilters | backend/src/main/java/com/room/backend/mapper/ReservationMapper.java:82-99 | every booking on the scoped page has a listed status and a listed restaurant |
| ReservationMapper.AdminCountMatchesList | backend/src/main/java/com/room/backend/mapper/ReservationMapper.java:62-72 | the count is the size of the unpaged list: a page starting inside it holds the page size or every remaining matching row |
| ReservationMapper.AdminPageBeyondCountEmpty | backend/src/main/java/com/room/backend/mapper/ReservationMapper.java:62-72 | a page starting at or past the count is empty |
| ReservationMapper.EmptyListsImposeNothing | backend/src/main/java/com/room/backend/mapper/ReservationMapper.java:107-119 | an empty status or restaurant list filters like an absent one |
| ReservationMapper.GetFutureReservationsByTableId | backend/src/main/java/com/room/backend/mapper/ReservationMapper.java:28 | exactly that table's bookings with status 0, 1 or 2 at or after now, in time order |
| ReservationMapper.ManagerCountsBounded | backend/src/main/java/com/room/backend/mapper/ReservationMapper.java:124-154 | each manager count is at most its unscoped count, and pending is at most total |
| ReviewMapper.AdminReviewPageSound | hd/src/main/java/com/room/hd/mapper/ReviewMapper.java:20-40 | every review on a page matches the given restaurant and rating; the count covers the page |
| ReviewMapper.CheckReviewExistence | hd/src/main/java/com/room/hd/mapper/ReviewMapper.java:48-49 | positive exactly when this user has reviewed this restaurant |
| UserMapper.UserPageSound | hd/src/main/java/com/room/hd/mapper/UserMapper.java:29-41 | a page holds at most limit users, each matching keyword, role and status |
| UserMapper.UnfilteredCountIsAllUsers | hd/src/main/java/com/room/hd/mapper/UserMapper.java:54-67 | with no filter, or an empty keyword, every user is counted |
| RestaurantMapper.GetRestaurantIdsByStaffId | hd/src/main/java/com/room/hd/mapper/RestaurantMapper.java:99-102 | the `DISTINCT` ids of the join: no id appears twice |
| RestaurantMapper.StaffRestaurantIds | hd/src/main/java/com/room/hd/mapper/RestaurantMapper.java:99-102 | an id is in the result exactly when some restaurant with that id has an owner who approved this user (status 1) as staff |
| RestaurantMapper.UnapprovedStaffHasNoScope | hd/src/main/java/com/room/hd/mapper/RestaurantMapper.java:99-102 | without an approved row a waiter's scope is empty |
| RestaurantMapper.ApprovalGrantsOwnersRestaurants | hd/src/main/java/com/room/hd/mapper/RestaurantMapper.java:99-102 | an approved row for manager m brings every restaurant m owns into scope |
| RestaurantMapper.GetRestaurantTables | hd/src/main/java/com/room/hd/mapper/RestaurantMapper.java:43-44 | exactly the tables of that restaurant |
| RestaurantMapper.GetReviewCount | hd/src/main/java/com/room/hd/mapper/RestaurantMapper.java:35-36 | the number of reviews of that restaurant |
| RestaurantMapper.CountManagerRestaurants | hd/src/main/java/com/room/hd/mapper/RestaurantMapper.java:55-56 | the number of restaurants the user owns, at most the total |
| ReservationService.GetStatusName | hd/src/main/java/com/room/hd/service/impl/ReservationServiceImpl.java:158-177 | "Unknown" exactly for null or a status outside 0..4 |
| ReservationService.StatusNameRoundTrip | hd/src/main/java/com/room/hd/service/impl/ReservationServiceImpl.java:158-177 | the five labels are distinct: the label gives the status back |
| ReservationService.ViewOfReservation | hd/src/main/java/com/room/hd/service/impl/ReservationServiceImpl.java:558-596 | the view carries the booking, restaurant name, table type, status label and whether its diner reviewed the restaurant |
| ReservationService.ReviewedIsPerUserAndRestaurant | hd/src/main/java/com/room/hd/service/impl/ReservationServiceImpl.java:587-593 | two bookings of one diner at one restaurant show the same reviewed flag |
| ReservationService.CreateCheck | hd/src/main/java/com/room/hd/service/impl/ReservationServiceImpl.java:72-121 | the first failed check's message, or none exactly when every requirement holds |
| ReservationService.NewReservation | hd/src/main/java/com/room/hd/service/impl/ReservationServiceImpl.java:124-145 | the new row is Pending, the caller's, stamped now, with the requested table and time |
| ReservationService.BookingForNowIsNotPast | hd/src/main/java/com/room/hd/service/impl/ReservationServiceImpl.java:117-121 | a booking starting exactly now passes the time check |
| ReservationService.PastBookingRefused | hd/src/main/java/com/room/hd/service/impl/ReservationServiceImpl.java:117-121 | a booking before now is refused with its message |
| ReservationService.ForeignTableRefused | hd/src/main/java/com/room/hd/service/impl/ReservationServiceImpl.java:112-114 | a table of another restaurant is refused even when all else holds |
| ReservationService.TerminalHasNoLegalMove | hd/src/main/java/com/room/hd/service/impl/ReservationServiceImpl.java:299-302 | Cancelled, Completed and Rejected have no outgoing move |
| ReservationService.Transitioned | hd/src/main/java/com/room/hd/service/impl/ReservationServiceImpl.java:304-307 | status and update time are set, the reason only when one is given; every other field is kept |
| ReservationService.CancelFollowsTable | hd/src/main/java/com/room/hd/service/impl/ReservationServiceImpl.java:277-325 | a successful cancel is a legal move of exactly the addressed booking, all else unchanged |
| ReservationService.HandleFollowsTable | hd/src/main/java/com/room/hd/service/impl/ReservationServiceImpl.java:608-783 | a successful confirm, reject or complete is a legal move of exactly the addressed booking |
| ReservationService.TerminalStatusesAreFinal | hd/src/main/java/com/room/hd/service/impl/ReservationServiceImpl.java:608-783 | a terminal booking is never changed by cancel, confirm, reject or complete |
| ReservationService.CancelByOtherUserForbidden | hd/src/main/java/com/room/hd/service/impl/ReservationServiceImpl.java:294-297 | another diner gets 403 and nothing changes |
| ReservationService.OwnerMayCancelOpenBooking | hd/src/main/java/com/room/hd/service/impl/ReservationServiceImpl.java:277-325 | the booking's diner cancels any Pending or Confirmed booking |
| ReservationService.BlankRejectionRefusedFirst | hd/src/main/java/com/room/hd/service/impl/ReservationServiceImpl.java:676-678 | a null or blank reason is a 400 before the lookup |
| ReservationService.RejectStoresReason | hd/src/main/java/com/room/hd/service/impl/ReservationServiceImpl.java:702-705 | a successful reject stores its reason as the booking's cancel reason |
| ReservationService.ManagerOwnershipCheckedBeforeStatus | hd/src/main/java/com/room/hd/service/impl/ReservationServiceImpl.java:621-630 | a role-1 caller not owning the restaurant gets 403 whatever the status |
| ReservationService.OtherRolesSkipOwnership | hd/src/main/java/com/room/hd/service/impl/ReservationServiceImpl.java:621-630 | any role other than 1 moves a booking of any restaurant |
| ReservationService.StaffScopeMembers | hd/src/main/java/com/room/hd/service/impl/ReservationServiceImpl.java:855-858 | the restaurants the waiter's approving managers own; none for a null id |
| ReservationService.StaffOverwriteWithinScope | hd/src/main/java/com/room/hd/service/impl/ReservationServiceImpl.java:846-872 | the overwrite succeeds exactly inside the waiter's scope and changes only the status |
| ReservationService.StaffOverwriteMissing | hd/src/main/java/com/room/hd/service/impl/ReservationServiceImpl.java:849-852 | a missing booking throws and changes nothing |
| ReservationService.LenientStatuses | hd/src/main/java/com/room/hd/service/impl/ReservationServiceImpl.java:404-413 | never more statuses than tokens; with StatusCsvRoundTrip, the ints of a printed list are read back in order |
| ReservationService.StrictStatuses | hd/src/main/java/com/room/hd/service/impl/ReservationServiceImpl.java:806-808 | succeeds exactly when every token trims to an int, holding their values in order, one per token |
| ReservationService.StrictStatusesFirstBad | hd/src/main/java/com/room/hd/service/impl/ReservationServiceImpl.java:806-808 | otherwise the call throws the NumberFormatException of the first token that is not an int |
| ReservationService.StatusFilter | hd/src/main/java/com/room/hd/service/impl/ReservationServiceImpl.java:423-428 | an empty list is no filter |
| ReservationService.ParseStatusList | hd/src/main/java/com/room/hd/service/impl/ReservationServiceImpl.java:204-219 | the lenient loop equals LenientStatuses of the tokens |
| ReservationService.ParseStatusListStrict | hd/src/main/java/com/room/hd/service/impl/ReservationServiceImpl.java:803-809 | the strict loop equals StrictStatusFilter |
| ReservationService.ParseAllStaysThrown | hd/src/main/java/com/room/hd/service/impl/ReservationServiceImpl.java:806-808 | once a prefix throws, the whole list throws the same message |
| ReservationService.StatusCsvRoundTrip | hd/src/main/java/com/room/hd/service/impl/ReservationServiceImpl.java:206-210 | a comma-separated list of ints is read back as that list, trimmed or not |
| ReservationService.NoValidTokenNoFilter | hd/src/main/java/com/room/hd/service/impl/ReservationServiceImpl.java:423-428 | text without an int token imposes no filter |
| ReservationService.ToDinerView | hd/src/main/java/com/room/hd/service/impl/ReservationServiceImpl.java:229-252 | the diner's view: reviewed is whether the booking carries a review id |
| ReservationService.DinerSeesOwnBookingsOnly | hd/src/main/java/com/room/hd/service/impl/ReservationServiceImpl.java:200-225 | a diner's list holds exactly their own bookings with a requested status, as many as the count, newest first |
| ReservationService.DinerListIgnoresPageSize | hd/src/main/java/com/room/hd/config/MybatisPlusConfig.java:53-64 | as the application runs, a diner with more matching bookings than pageSize gets more than pageSize back, where the intercepted query would report a positive total |
| ReservationService.InterceptedDinerPage | hd/src/main/java/com/room/hd/service/impl/ReservationServiceImpl.java:197-225 | with the interceptor attached, a diner's page would hold at most pageSize of their own bookings with a requested status, newest first, with their count as the total |
| ReservationService.GetUserReservations | hd/src/main/java/com/room/hd/service/impl/ReservationServiceImpl.java:189-265 | a null user is refused; otherwise it succeeds with total 0 and every booking of the diner with a requested status, newest first, each as its view, whatever page and pageSize say |
| ReservationService.GetAllReservations | hd/src/main/java/com/room/hd/service/impl/ReservationServiceImpl.java:393-448 | fails exactly when the 32-bit offset is negative; otherwise the count and the page of matching bookings, each with its view |
| ReservationService.GetManagerReservations | hd/src/main/java/com/room/hd/service/impl/ReservationServiceImpl.java:461-550 | a null manager throws "Failed to get reservation list: Restaurant manager ID cannot be empty"; a failing query throws that prefix and the database's message; no owned restaurant (or a requested one not owned) gives total 0 and []; otherwise a Value exactly for a non-negative int offset, whose list is the mapper page over the owned scope and whose total is the mapper count |
| ReservationService.ScopedListing | backend/src/main/java/com/room/backend/mapper/ReservationMapper.java:82-119 | a Value exactly for a non-negative offset and size, otherwise the mapper's exception with the prefix; the listed rows are exactly the mapper page, each as its view, and the total the mapper count |
| ReservationService.GetStaffReservations | hd/src/main/java/com/room/hd/service/impl/ReservationServiceImpl.java:786-842 | an empty scope gives 0 and []; a restaurant outside it, or a bad status token, throws its message; otherwise a Value exactly for a non-negative offset, listing exactly the mapper page over the scope (or the requested restaurant) with its count, and else the database's refusal behind the listing's prefix |
| ReservationService.GetTableFutureReservations | hd/src/main/java/com/room/hd/service/impl/ReservationServiceImpl.java:334-381 | a null or unknown table is refused; otherwise its upcoming bookings in time order |
| ReservationService.ReservationStore.CreateReservation | hd/src/main/java/com/room/hd/service/impl/ReservationServiceImpl.java:69-150 | a refused request changes nothing; an accepted one appends its Pending row |
| ReservationService.ReservationStore.CancelReservation | hd/src/main/java/com/room/hd/service/impl/ReservationServiceImpl.java:277-325 | the table becomes the cancel outcome's table |
| ReservationService.ReservationStore.HandleReservation | hd/src/main/java/com/room/hd/service/impl/ReservationServiceImpl.java:608-783 | the table becomes the confirm, reject or complete outcome's table |
| ReservationService.ReservationStore.UpdateStaffReservationStatus | hd/src/main/java/com/room/hd/service/impl/ReservationServiceImpl.java:846-872 | the table becomes the overwrite outcome's table |
| RestaurantManageService.GetStatusText | hd/src/main/java/com/room/hd/service/impl/RestaurantManageServiceImpl.java:526-543 | "Unknown" exactly for null or a status outside 0..3 |
| RestaurantManageService.StatusTextRoundTrip | hd/src/main/java/com/room/hd/service/impl/RestaurantManageServiceImpl.java:526-543 | the label gives the status back |
| RestaurantManageService.PhotosRoundTrip | hd/src/main/java/com/room/hd/service/impl/RestaurantManageServiceImpl.java:183-186 | a photo list stored and listed again is the same list |
| RestaurantManageService.PipeInPhotoNameSplits | hd/src/main/java/com/room/hd/service/impl/RestaurantManageServiceImpl.java:501-504 | a photo name holding "\|" comes back as two names |
| RestaurantManageService.ToView | hd/src/main/java/com/room/hd/service/impl/RestaurantManageServiceImpl.java:86-99 | the view carries the row and its photo list; an owner name is the owner's own name, and a missing owner leaves it null |
| RestaurantManageService.GetRestaurantList | hd/src/main/java/com/room/hd/service/impl/RestaurantManageServiceImpl.java:47-113 | page and size defaulted; a Value exactly for a non-negative int offset, else 500 with the PostgreSQL message; the count of AdminListCondition (the source's ungrouped name OR address AND status) and exactly the LIMIT/OFFSET page of its matches, highest id first, each with its owner's view |
| RestaurantManageService.AdminListIgnoresStatusOnNameMatch | hd/src/main/java/com/room/hd/service/impl/RestaurantManageServiceImpl.java:64-73 | as written, a pending restaurant named "Pizza Place" passes the administrator's filter for keyword "Pizza" and approved restaurants, and fails the grouped one |
| RestaurantManageService.GroupedIsAdminConditionWithStatus | hd/src/main/java/com/room/hd/service/impl/RestaurantManageServiceImpl.java:437-450 | the grouped filter is the as-written filter with the status applied to every row; the two agree when the keyword is empty or no status is asked for |
| RestaurantManageService.GetManagerRestaurantList | hd/src/main/java/com/room/hd/service/impl/RestaurantManageServiceImpl.java:415-486 | a null manager is 400; otherwise a Value exactly for a non-negative int offset, whose total counts the manager's restaurants under the grouped keyword and status filter and whose list is exactly that page, each named by the manager |
| RestaurantManageService.ManagerName | hd/src/main/java/com/room/hd/service/impl/RestaurantManageServiceImpl.java:466-467 | the manager's name, which may be null, or "" when the manager is missing |
| RestaurantManageService.ManagerView | hd/src/main/java/com/room/hd/service/impl/RestaurantManageServiceImpl.java:470-473 | the view carries the row, its photo list and the manager's name |
| RestaurantManageService.GetRestaurantDetail | hd/src/main/java/com/room/hd/service/impl/RestaurantManageServiceImpl.java:116-145 | a null id and an unknown id are both 400; a known id succeeds with exactly that restaurant's view |
| RestaurantManageService.NewRestaurant | hd/src/main/java/com/room/hd/service/impl/RestaurantManageServiceImpl.java:163-196 | the new row is Pending, owned by the caller and stamped now |
| RestaurantManageService.Revised | hd/src/main/java/com/room/hd/service/impl/RestaurantManageServiceImpl.java:239-276 | for every form field, a supplied value replaces the column (photos joined with "\|") and an absent one keeps it; id, owner, status and creation are kept and the update time is now |
| RestaurantManageService.ApplyForm | hd/src/main/java/com/room/hd/service/impl/RestaurantManageServiceImpl.java:239-276 | the setter sequence equals Revised |
| RestaurantManageService.EmptyFormOnlyStamps | hd/src/main/java/com/room/hd/service/impl/RestaurantManageServiceImpl.java:239-276 | an empty form changes only the update time |
| RestaurantManageService.ChangeRefusal | hd/src/main/java/com/room/hd/service/impl/RestaurantManageServiceImpl.java:216-236 | refusal in order: missing ids, unknown restaurant or user, neither admin nor owner |
| RestaurantManageService.OnlyOwnerOrAdminChanges | hd/src/main/java/com/room/hd/service/impl/RestaurantManageServiceImpl.java:234-236 | a caller neither admin nor owner gets 403 from update, delete and status change, with nothing changed |
| RestaurantManageService.AdminUpdatesAnyRestaurant | hd/src/main/java/com/room/hd/service/impl/RestaurantManageServiceImpl.java:214-295 | an administrator updates any restaurant, keeping its id and owner |
| RestaurantManageService.StatusRangeCheckedFirst | hd/src/main/java/com/room/hd/service/impl/RestaurantManageServiceImpl.java:342-344 | a status outside 0..3 is 400 before the lookup |
| RestaurantManageService.NewRestaurantPendingAndOwned | hd/src/main/java/com/room/hd/service/impl/RestaurantManageServiceImpl.java:149-210 | an added restaurant is Pending, the caller's, and appended |
| RestaurantManageService.RestaurantStore.Add | hd/src/main/java/com/room/hd/service/impl/RestaurantManageServiceImpl.java:149-210 | the table becomes addRestaurant's table |
| RestaurantManageService.RestaurantStore.Update | hd/src/main/java/com/room/hd/service/impl/RestaurantManageServiceImpl.java:214-295 | the table becomes updateRestaurant's table |
| RestaurantManageService.RestaurantStore.Delete | hd/src/main/java/com/room/hd/service/impl/RestaurantManageServiceImpl.java:299-331 | the table becomes deleteRestaurant's table |
| RestaurantManageService.RestaurantStore.UpdateStatus | hd/src/main/java/com/room/hd/service/impl/RestaurantManageServiceImpl.java:335-379 | the table becomes updateRestaurantStatus's table |
| RestaurantManageService.CheckManagerRole | hd/src/main/java/com/room/hd/service/impl/RestaurantManageServiceImpl.java:382-412 | an empty token is 401; success exactly for readable claims with a user id and role 0 or 1, giving the claims; a waiter is refused 403 |
| RestaurantTableService.CheckRestaurantPermission | hd/src/main/java/com/room/hd/service/impl/RestaurantTableServiceImpl.java:325-366 | granted exactly to an administrator or the restaurant's owning manager |
| RestaurantTableService.DinersAndWaitersNeverGranted | hd/src/main/java/com/room/hd/service/impl/RestaurantTableServiceImpl.java:348-361 | roles 2 and 3 are never granted, even as recorded owner |
| RestaurantTableService.NameMapOfUnique | hd/src/main/java/com/room/hd/service/impl/RestaurantTableServiceImpl.java:94-97 | with unique ids the map names each restaurant by its own name |
| RestaurantTableService.NameMap | hd/src/main/java/com/room/hd/service/impl/RestaurantTableServiceImpl.java:94-97 | the put loop yields NameMapOf |
| RestaurantTableService.TableViews | hd/src/main/java/com/room/hd/service/impl/RestaurantTableServiceImpl.java:100-111 | each table's view with its restaurant's name from the map, in order |
| RestaurantTableService.GetAllTables | hd/src/main/java/com/room/hd/service/impl/RestaurantTableServiceImpl.java:41-123 | a Value exactly for a non-negative int offset, else 500 with the PostgreSQL message; exactly the page of matching tables, highest id first, each named by its restaurant, with their count, or total 0 and [] for a page past the count |
| RestaurantTableService.NamesOfListedRestaurants | hd/src/main/java/com/room/hd/service/impl/RestaurantTableServiceImpl.java:89-97 | the restaurants fetched by id name each listed table |
| RestaurantTableService.GetRestaurantTables | hd/src/main/java/com/room/hd/service/impl/RestaurantTableServiceImpl.java:126-192 | refused without permission; otherwise a Value exactly for a non-negative int offset, whose total counts that restaurant's tables and whose list is exactly their page, highest id first |
| RestaurantTableService.GetManagerAllTables | hd/src/main/java/com/room/hd/service/impl/RestaurantTableServiceImpl.java:369-460 | an unknown or non-manager caller is refused and no restaurant gives an empty list; otherwise a Value exactly for a non-negative int offset, with the count and exactly the page of the tables of the manager's restaurants |
| RestaurantTableService.GetTableDetail | hd/src/main/java/com/room/hd/service/impl/RestaurantTableServiceImpl.java:195-213 | a null id and an unknown id are both 400; success exactly for a known id, giving that table |
| RestaurantTableService.TableRefusal | hd/src/main/java/com/room/hd/service/impl/RestaurantTableServiceImpl.java:256-270 | refusal in order: missing ids, unknown table, missing permission |
| RestaurantTableService.RefusedChangesNothing | hd/src/main/java/com/room/hd/service/impl/RestaurantTableServiceImpl.java:231-234 | without permission add, update and delete answer 403 and leave the table unchanged |
| RestaurantTableService.UpdateTouchesOnlyTypeAndCapacity | hd/src/main/java/com/room/hd/service/impl/RestaurantTableServiceImpl.java:273-281 | a granted update sets a supplied type and a supplied capacity, keeps the rest of that table except its update time, and leaves the other tables alone |
| RestaurantTableService.NewTableStampedOnce | hd/src/main/java/com/room/hd/service/impl/RestaurantTableServiceImpl.java:237-239 | a new table is created and updated at the same instant, in the named restaurant |
| RestaurantTableService.TableStore.Add | hd/src/main/java/com/room/hd/service/impl/RestaurantTableServiceImpl.java:217-249 | the table becomes addTable's table |
| RestaurantTableService.TableStore.Update | hd/src/main/java/com/room/hd/service/impl/RestaurantTableServiceImpl.java:253-291 | the table becomes updateTable's table |
| RestaurantTableService.TableStore.Delete | hd/src/main/java/com/room/hd/service/impl/RestaurantTableServiceImpl.java:295-322 | the table becomes deleteTable's table |
| StaffService.ApplyForStaffSucceeds | hd/src/main/java/com/room/hd/service/impl/StaffServiceImpl.java:145-202 | an application succeeds exactly for an existing applicant without a staff row naming an existing manager, appending a pending row; otherwise 400 and nothing changes |
| StaffService.SameManagerCheckUnreachable | hd/src/main/java/com/room/hd/service/impl/StaffServiceImpl.java:175-181 | the same-manager check never decides anything |
| StaffService.ApplyKeepsOneRowPerUser | hd/src/main/java/com/room/hd/service/impl/StaffServiceImpl.java:168-172 | no user ever gets a second staff row |
| StaffService.ApplyKeepsIds | hd/src/main/java/com/room/hd/service/impl/StaffServiceImpl.java:184-189 | an application adds at most one row, with the next id |
| StaffService.UpdateStaffStatusOwnRowOnly | hd/src/main/java/com/room/hd/service/impl/StaffServiceImpl.java:59-76 | a manager sets the status of their own applicant only; otherwise false and no change |
| StaffService.DeleteStaffOnlyMatching | hd/src/main/java/com/room/hd/service/impl/StaffServiceImpl.java:80-91 | deletion removes exactly the rows matching both ids and reports whether any was |
| StaffService.WhereKeepsInvariants | hd/src/main/java/com/room/hd/service/impl/StaffServiceImpl.java:80-91 | removing rows keeps ids unique and users to one row |
| StaffService.GetManagerList | hd/src/main/java/com/room/hd/service/impl/StaffServiceImpl.java:94-141 | a negative int offset or size throws the PostgreSQL message; otherwise the list is exactly the page of active managers matching the keyword, newest first, each as its view, with their count |
| StaffService.StaffStore.Apply | hd/src/main/java/com/room/hd/service/impl/StaffServiceImpl.java:145-202 | the table becomes applyForStaff's table |
| StaffService.StaffStore.UpdateStatus | hd/src/main/java/com/room/hd/service/impl/StaffServiceImpl.java:59-76 | the table becomes updateStaffStatus's table |
| StaffService.StaffStore.Delete | hd/src/main/java/com/room/hd/service/impl/StaffServiceImpl.java:80-91 | the table becomes deleteStaff's table |
| ReviewService.OutOfRangeRatingIgnored | hd/src/main/java/com/room/hd/service/impl/ReviewServiceImpl.java:62-65 | a rating outside 1..5 lists the same reviews as no rating |
| ReviewService.GetRestaurantReviews | hd/src/main/java/com/room/hd/service/impl/ReviewServiceImpl.java:43-88 | a null restaurant is refused; otherwise it always succeeds with total 0 and every review of the restaurant (of the rating, when 1..5), newest first, each with its author's view, whatever page and pageSize say |
| ReviewService.LinkReservationChangesOne | hd/src/main/java/com/room/hd/service/impl/ReviewServiceImpl.java:122-131 | only the named booking changes, and only its review id |
| ReviewService.ReviewWithoutIdRejected | hd/src/main/java/com/room/hd/service/impl/ReviewServiceImpl.java:114-131 | as written, a valid review without an id is refused with 500 and nothing stored |
| ReviewService.NumericIdAsIntended | hd/src/main/java/com/room/hd/service/impl/ReviewServiceImpl.java:114-131 | with a numeric id the code as written agrees with the intended behaviour |
| ReviewService.AddReviewOutcome | hd/src/main/java/com/room/hd/service/impl/ReviewServiceImpl.java:92-138 | a review is stored exactly for a form with restaurant, user and a 1..5 rating |
| ReviewService.AddReviewKeepsIdsUnique | hd/src/main/java/com/room/hd/service/impl/ReviewServiceImpl.java:92-138 | a fresh id keeps review ids unique |
| ReviewService.DeleteOwnReviewOnlyOwn | hd/src/main/java/com/room/hd/service/impl/ReviewServiceImpl.java:141-170 | a user deletes a review exactly when its id is the decimal text of the given id and it is theirs; another's gives 403 |
| ReviewService.DeleteAnyReviewOutcome | hd/src/main/java/com/room/hd/service/impl/ReviewServiceImpl.java:197-213 | the administrator deletes exactly the reviews whose id is the decimal text of the given id, hearing whether one existed |
| ReviewService.UuidReviewNotDeletable | hd/src/main/java/com/room/hd/service/impl/ReviewServiceImpl.java:141-213 | a review with a UUID-shaped id never matches an Integer id, so neither delete path removes it |
| ReviewService.GetAdminReviews | hd/src/main/java/com/room/hd/service/impl/ReviewServiceImpl.java:173-194 | a negative int offset or size throws the PostgreSQL message; otherwise the list is exactly the mapper page at the 32-bit offset, with the filtered count |
| FavoriteService.IsFavorite | hd/src/main/java/com/room/hd/service/impl/FavoriteServiceImpl.java:174-182 | true exactly for two ids whose pair is stored |
| FavoriteService.OnePerPairCountsOne | hd/src/main/java/com/room/hd/service/impl/FavoriteServiceImpl.java:174-182 | with one row per pair, the count for a pair is at most 1 |
| FavoriteService.AddFavoriteOutcome | hd/src/main/java/com/room/hd/service/impl/FavoriteServiceImpl.java:44-90 | an add succeeds exactly for two ids, an existing restaurant and an absent pair |
| FavoriteService.RemoveFavoriteOutcome | hd/src/main/java/com/room/hd/service/impl/FavoriteServiceImpl.java:94-123 | a remove succeeds exactly for a stored pair, deleting its row only |
| FavoriteService.AddRemoveRoundTrip | hd/src/main/java/com/room/hd/service/impl/FavoriteServiceImpl.java:44-123 | adding a pair and removing it restores the table |
| FavoriteService.AddKeepsOnePerPair | hd/src/main/java/com/room/hd/service/impl/FavoriteServiceImpl.java:62-69 | adding keeps one row per pair |
| FavoriteService.WhereKeepsInvariants | hd/src/main/java/com/room/hd/service/impl/FavoriteServiceImpl.java:94-123 | removing keeps one row per pair and unique ids |
| FavoriteService.GetFavoriteList | hd/src/main/java/com/room/hd/service/impl/FavoriteServiceImpl.java:126-165 | a null user is refused; otherwise total 0 and an entry for every favourite of the user, newest first, each its restaurant's view or null when the restaurant is gone, whatever page and pageSize say |
| FavoriteService.FavoriteStore.Add | hd/src/main/java/com/room/hd/service/impl/FavoriteServiceImpl.java:44-90 | the table becomes addFavorite's table |
| FavoriteService.FavoriteStore.Remove | hd/src/main/java/com/room/hd/service/impl/FavoriteServiceImpl.java:94-123 | the table becomes removeFavorite's table |
| AdminUserService.EmailOfParts | hd/src/main/java/com/room/hd/service/impl/AdminUserServiceImpl.java:124 | a word, "@" and two or more dot-joined words is a valid address |
| AdminUserService.ValidEmailShape | hd/src/main/java/com/room/hd/service/impl/AdminUserServiceImpl.java:124 | a valid address has exactly one "@" and a dot after it |
| AdminUserService.GetUserList | hd/src/main/java/com/room/hd/service/impl/AdminUserServiceImpl.java:42-82 | a negative int offset is 500 with the PostgreSQL message; otherwise exactly the mapper's page at the 32-bit offset, each as its view, and the filtered count |
| AdminUserService.GetUserInfo | hd/src/main/java/com/room/hd/service/impl/AdminUserServiceImpl.java:85-112 | a null id is 400 "User ID cannot be empty", an unknown one 400 "User not found"; success exactly for a known id, with that user's UserVO |
| AdminUserService.ListedUserInfoAgrees | hd/src/main/java/com/room/hd/service/impl/AdminUserServiceImpl.java:85-112 | under the primary key, every user on a page of the user list is shown by getUserInfo exactly as the list shows it |
| AdminUserService.EmailTakenIff | hd/src/main/java/com/room/hd/service/impl/AdminUserServiceImpl.java:128-134 | the count check is whether some user has that address |
| AdminUserService.AddUserOutcome | hd/src/main/java/com/room/hd/service/impl/AdminUserServiceImpl.java:116-173 | a user is added exactly for a complete, well-formed, unused address, with the password hashed |
| AdminUserService.EmailTakenByOtherIff | hd/src/main/java/com/room/hd/service/impl/AdminUserServiceImpl.java:197-204 | the count check is whether another user has that address |
| AdminUserService.Revised | hd/src/main/java/com/room/hd/service/impl/AdminUserServiceImpl.java:191-232 | supplied fields replace the stored ones, a new password is hashed, id and creation kept |
| AdminUserService.ApplyUserForm | hd/src/main/java/com/room/hd/service/impl/AdminUserServiceImpl.java:191-232 | the setter sequence equals Revised |
| AdminUserService.UpdateUserKeepsEmailsUnique | hd/src/main/java/com/room/hd/service/impl/AdminUserServiceImpl.java:177-254 | an update keeps addresses unique |
| AdminUserService.UpdateUserEmailRule | hd/src/main/java/com/room/hd/service/impl/AdminUserServiceImpl.java:191-207 | a malformed address, or one held by another user, is 400 with nothing changed |
| AdminUserService.DeleteUserOutcome | hd/src/main/java/com/room/hd/service/impl/AdminUserServiceImpl.java:258-284 | deletes exactly the named non-administrator; an administrator is never deleted |
| AdminUserService.UpdateUserStatusNeverDisablesAdmin | hd/src/main/java/com/room/hd/service/impl/AdminUserServiceImpl.java:288-322 | no status update disables an administrator; others get the status |
| AdminUserService.UpdateUserRoleInRange | hd/src/main/java/com/room/hd/service/impl/AdminUserServiceImpl.java:326-359 | roles stay within 0..3 after any role update; a role outside it is 400 with the table unchanged |
| AdminUserService.ResetPasswordChecks | hd/src/main/java/com/room/hd/service/impl/AdminUserServiceImpl.java:363-387 | after a reset the user's password checks against "123456" and every other user is unchanged |
| AdminUserService.CheckAdminRole | hd/src/main/java/com/room/hd/service/impl/AdminUserServiceImpl.java:390-415 | success exactly for a non-empty token parsing to role 0 with a user id, giving that id; 403 exactly for readable claims of another role |
| AdminUserService.UserStore.Add | hd/src/main/java/com/room/hd/service/impl/AdminUserServiceImpl.java:116-173 | the table becomes addUser's table |
| AdminUserService.UserStore.Update | hd/src/main/java/com/room/hd/service/impl/AdminUserServiceImpl.java:177-254 | the table becomes updateUser's table |
| UserService.GetRoleName | hd/src/main/java/com/room/hd/service/impl/UserServiceImpl.java:214-231 | "Unknown" exactly for null or a role outside 0..3 |
| UserService.RoleNameRoundTrip | hd/src/main/java/com/room/hd/service/impl/UserServiceImpl.java:214-231 | the name gives the role back |
| UserService.LoginOutcome | hd/src/main/java/com/room/hd/service/impl/UserServiceImpl.java:58-98 | for a known address: a banned account is 400 "User is banned" and a wrong password 400 "Incorrect password"; success exactly for an active account whose password checks, with a token carrying id and role |
| UserService.LoginUnknownAddress | hd/src/main/java/com/room/hd/service/impl/UserServiceImpl.java:69-72 | an address no user has is 400 "User does not exist" |
| UserService.RegisterOutcome | hd/src/main/java/com/room/hd/service/impl/UserServiceImpl.java:102-156 | registration is accepted exactly for a complete, confirmed, well-formed, unused address; a diner is appended |
| UserService.RegisterThenLogin | hd/src/main/java/com/room/hd/service/impl/UserServiceImpl.java:58-156 | whoever registers can log in with the same address and password |
| UserService.GetUserInfo | hd/src/main/java/com/room/hd/service/impl/UserServiceImpl.java:159-176 | success exactly for a known user id, giving that user's profile; otherwise 400 |
| UserService.UpdateUserInfoPasswordRule | hd/src/main/java/com/room/hd/service/impl/UserServiceImpl.java:236-302 | a new password is stored hashed only with the right old password; a wrong one changes nothing |
| UserService.RepasswordNeverChangesPassword | hd/src/main/java/com/room/hd/service/impl/UserServiceImpl.java:305-311 | as written, no password change ever reaches the table |
| UserService.RepasswordTakesEffect | hd/src/main/java/com/room/hd/service/impl/UserServiceImpl.java:305-311 | as intended, after a change the new password checks |
| UserService.Accounts.RegisterAccount | hd/src/main/java/com/room/hd/service/impl/UserServiceImpl.java:102-156 | the table becomes register's table |
| UserService.Accounts.UpdateInfo | hd/src/main/java/com/room/hd/service/impl/UserServiceImpl.java:236-302 | the table becomes updateUserInfo's table |
| AdminService.DayOfWeek | hd/src/main/java/com/room/hd/service/impl/AdminServiceImpl.java:76-81 | a weekday index in 0..6 (WeekWindow shows Monday is 0 and Sunday 6) |
| AdminService.DayWindow | hd/src/main/java/com/room/hd/service/impl/AdminServiceImpl.java:130-136 | start of day a to end of day b holds exactly the instants dated a..b |
| AdminService.WeekWindow | hd/src/main/java/com/room/hd/service/impl/AdminServiceImpl.java:76-81 | the week runs Monday to Sunday and holds today |
| AdminService.GetStatistics | hd/src/main/java/com/room/hd/service/impl/AdminServiceImpl.java:57-120 | a null role is 500; an administrator's counters are the table sizes, the pending bookings and the bookings dated this week; anyone else's are the same counts over the restaurants they own |
| AdminService.WeeklyCountIsByDate | hd/src/main/java/com/room/hd/service/impl/AdminServiceImpl.java:75-83 | the weekly count is the bookings dated in the current week |
| AdminService.ManagerWeeklyCountIsByDate | hd/src/main/java/com/room/hd/service/impl/AdminServiceImpl.java:97-108 | the manager's weekly count is their restaurants' bookings dated in the current week |
| AdminService.ManagerStatisticsBounded | hd/src/main/java/com/room/hd/service/impl/AdminServiceImpl.java:57-120 | a non-administrator's counters never exceed the administrator's |
| AdminService.FirstCountIsFirst | hd/src/main/java/com/room/hd/service/impl/AdminServiceImpl.java:155-160 | toMap keeps the first row of a date |
| AdminService.NameCountsIsLast | hd/src/main/java/com/room/hd/service/impl/AdminServiceImpl.java:162-168 | put keeps the last row of a label |
| AdminService.UnknownStatusesOverwrite | hd/src/main/java/com/room/hd/service/impl/AdminServiceImpl.java:164-167 | two unlabelled statuses share "Unknown" and only the later count survives |
| AdminService.DateCountMap | hd/src/main/java/com/room/hd/service/impl/AdminServiceImpl.java:155-160 | the collected map gives each date its first row's count |
| AdminService.StatusCountMap | hd/src/main/java/com/room/hd/service/impl/AdminServiceImpl.java:162-168 | the loop gives each label its last row's count |
| AdminService.DateStatusMap | hd/src/main/java/com/room/hd/service/impl/AdminServiceImpl.java:170-179 | each date maps labels to counts of that date's rows |
| AdminService.SevenDays | hd/src/main/java/com/room/hd/service/impl/AdminServiceImpl.java:182-192 | seven entries ending today, oldest first, missing days read as 0 |
| AdminService.WeekShowsGroupedCounts | hd/src/main/java/com/room/hd/service/impl/AdminServiceImpl.java:182-192 | with grouped daily rows, each chart day shows that day's count |
| AdminService.GetReservationStatistics | hd/src/main/java/com/room/hd/service/impl/AdminServiceImpl.java:123-202 | the reservation chart equals Week over the caller's aggregates |
| AdminService.GetRestaurantStatistics | hd/src/main/java/com/room/hd/service/impl/AdminServiceImpl.java:205-284 | the restaurant chart equals Week over the caller's aggregates |
| AdminStatisticsController.CheckAdminRole | hd/src/main/java/com/room/hd/controller/admin/AdminStatisticsController.java:134-155 | a missing token or unreadable claims is 401; any role passes with its id and role |
| AdminStatisticsController.SelectStaffByUser | hd/src/main/java/com/room/hd/controller/admin/AdminStatisticsController.java:57-66 | selectOne on the staff table by user id |
| AdminStatisticsController.ResolveCaller | hd/src/main/java/com/room/hd/controller/admin/AdminStatisticsController.java:48-66 | the opening as run, equal to the resolved caller |
| AdminStatisticsController.NoRoleRestriction | hd/src/main/java/com/room/hd/controller/admin/AdminStatisticsController.java:134-155 | every role with a readable token reaches the statistics |
| AdminStatisticsController.StaffActsAsManager | hd/src/main/java/com/room/hd/controller/admin/AdminStatisticsController.java:57-66 | a waiter with one staff row acts as that row's manager |
| AdminStatisticsController.RejectedStaffSeesManagerStatistics | hd/src/main/java/com/room/hd/controller/admin/AdminStatisticsController.java:57-66 | a waiter whose application was rejected still sees the manager's statistics |
| AdminStatisticsController.Overview | hd/src/main/java/com/room/hd/controller/admin/AdminStatisticsController.java:46-68 | the overview endpoint's answer |
| AdminStatisticsController.ReservationStatistics | hd/src/main/java/com/room/hd/controller/admin/AdminStatisticsController.java:77-97 | the reservation chart endpoint's answer |
| AdminStatisticsController.RestaurantStatistics | hd/src/main/java/com/room/hd/controller/admin/AdminStatisticsController.java:106-126 | the restaurant chart endpoint's answer |
| AdminReservationController.Authenticate | hd/src/main/java/com/room/hd/controller/admin/AdminReservationController.java:51-53 | a missing or non-Bearer header is 401; otherwise the parsed claims or a 500 |
| AdminReservationController.ListAllReservations | hd/src/main/java/com/room/hd/controller/admin/AdminReservationController.java:42-70 | only a role-0 caller reaches the service; others get 403 |
| AdminReservationController.ListManagerReservations | hd/src/main/java/com/room/hd/controller/admin/AdminReservationController.java:82-111 | a missing header 401, other roles 403, a null user id 500 with both prefixes; for a manager: total 0 and [] without owned scope, otherwise success exactly for a non-negative offset, with the mapper count and exactly the mapper page, and a failing query 500 with both prefixes and the database's message |
| AdminReservationController.ActOnReservation | hd/src/main/java/com/room/hd/controller/admin/AdminReservationController.java:120-204 | the transition runs with the caller's id and role, exceptions becoming 500 |
| StaffReservationController.StaffGate | hd/src/main/java/com/room/hd/controller/admin/StaffReservationController.java:41-58 | a token that does not parse or has a null role is 500, null claims 401, any role other than 3 is 403; only a waiter (role 3) goes on with the claims |
| StaffReservationController.ListStaffReservations | hd/src/main/java/com/room/hd/controller/admin/StaffReservationController.java:32-65 | the gate's refusal, or exactly the service's outcome served: its listing with "Retrieved successfully", or 500 with the prefix and the exception's message |
| StaffReservationController.Served | hd/src/main/java/com/room/hd/controller/admin/StaffReservationController.java:60-64 | a listing is "Retrieved successfully" with that data; an exception is 500 with the prefix and its message |
| StaffReservationController.UpdateReservationStatus | hd/src/main/java/com/room/hd/controller/admin/StaffReservationController.java:71-100 | the waiter's overwrite, exceptions becoming 500 |
| BackendRestaurantService.StatusName | backend/src/main/java/com/room/backend/service/impl/RestaurantServiceImpl.java:161-178 | "Unknown" exactly for null or a status outside 0..3 |
| BackendRestaurantService.StatusNameRoundTrip | backend/src/main/java/com/room/backend/service/impl/RestaurantServiceImpl.java:161-178 | the name gives the status back |
| BackendRestaurantService.ToView | backend/src/main/java/com/room/backend/service/impl/RestaurantServiceImpl.java:114-154 | fails exactly when a coordinate is null or the owner is missing, with the JVM's unboxing NPE message for longitude, then latitude, then the missing-owner NPE; otherwise photos, status name, review count and owner name |
| BackendRestaurantService.ToViews | backend/src/main/java/com/room/backend/service/impl/RestaurantServiceImpl.java:81-89 | the views of a page, one per row and in order |
| BackendRestaurantService.ToViewsSucceedsIff | backend/src/main/java/com/room/backend/service/impl/RestaurantServiceImpl.java:81-89 | the conversion fails exactly when some row has a null coordinate or no owner |
| BackendRestaurantService.ToViewsFirstFailure | backend/src/main/java/com/room/backend/service/impl/RestaurantServiceImpl.java:81-89 | a failed conversion carries the failure of the first row that does not convert |
| BackendRestaurantService.ListPage | backend/src/main/java/com/room/backend/service/impl/RestaurantServiceImpl.java:64-78 | at most one page of matching rows |
| BackendRestaurantService.ConvertPage | backend/src/main/java/com/room/backend/service/impl/RestaurantServiceImpl.java:81-89 | the conversion loop equals ToViews |
| BackendRestaurantService.GetRestaurantList | backend/src/main/java/com/room/backend/service/impl/RestaurantServiceImpl.java:62-107 | the list method equals the list outcome |
| BackendRestaurantService.RestaurantListSound | backend/src/main/java/com/room/backend/service/impl/RestaurantServiceImpl.java:62-107 | one page of matching rows with views, total counting every match; 500 exactly when a row of the page has a null coordinate or no owner |
| BackendRestaurantService.GetRestaurantListWithFavorite | backend/src/main/java/com/room/backend/service/impl/RestaurantServiceImpl.java:203-219 | the list with the diner's favourite flags set |
| BackendRestaurantService.MarkList | backend/src/main/java/com/room/backend/service/impl/RestaurantServiceImpl.java:211-215 | each view's favourite flag becomes the diner's favourite relation for its restaurant, with every other field and the order kept |
| BackendRestaurantService.MarkFavoritesOnlyFlags | backend/src/main/java/com/room/backend/service/impl/RestaurantServiceImpl.java:203-219 | marking changes only the flags, each the diner's favourite relation |
| BackendRestaurantService.CuisinesWithText | backend/src/main/java/com/room/backend/service/impl/RestaurantServiceImpl.java:221-232 | exactly the cuisines with text |
| BackendRestaurantService.CuisineListOnceEach | backend/src/main/java/com/room/backend/service/impl/RestaurantServiceImpl.java:221-232 | every cuisine with text once, in first-appearance order |
| BackendRestaurantService.GetRestaurantDetail | backend/src/main/java/com/room/backend/service/impl/RestaurantServiceImpl.java:240-263 | a null id is 400, an unknown one 404; a found restaurant succeeds exactly when it converts, with its view and its tables, and is otherwise 500 with the conversion's message |
| BackendRestaurantService.DetailWithFavoriteAgrees | backend/src/main/java/com/room/backend/service/impl/RestaurantServiceImpl.java:272-304 | the favourite detail is the plain detail with the diner's flag; no diner is 400 |
| Router.ChildLeaves | frontend/src/router/index.js:67-162 | each child leaf's pattern is the parent path, "/", then the child path, matched through both records |
| Router.MatchIn | frontend/src/router/index.js:212 | the matched records of the first leaf whose pattern matches, or none |
| Router.MergedTitle | frontend/src/router/index.js:174 | some title exactly when a matched record has one |
| Router.ResolveAdminChild | frontend/src/router/index.js:67-162 | each admin path resolves to the admin record then that child |
| Router.ResolveRestaurantDetail | frontend/src/router/index.js:22-30 | "/restaurant/" and any non-empty segment resolves to the detail record |
| Router.ParseIntLeadingDigits | frontend/src/router/index.js:204 | parseInt reads leading decimal digits after whitespace, ignoring the rest |
| Router.ParseIntOfNumber | frontend/src/router/index.js:204 | parseInt reads back every integer's decimal text |
| Router.RegularUserNumber | frontend/src/router/index.js:204 | a numeric role is a regular user exactly when it is 2 |
| Router.AbsentRoleNotRegular | frontend/src/router/index.js:185-186 | an absent role is never a regular user |
| Router.LoginAlwaysAllowed | frontend/src/router/index.js:177-179 | the login page always proceeds |
| Router.SignedOutOnlyHome | frontend/src/router/index.js:188-199 | without a token only home proceeds; others redirect to login with the full path |
| Router.HomeByRole | frontend/src/router/index.js:202-210 | with a token, home proceeds exactly for regular users; others go to the dashboard |
| Router.HomeByNumericRole | frontend/src/router/index.js:202-210 | with a token and numeric role, home proceeds exactly for role 2 |
| Router.OtherRolesPass | frontend/src/router/index.js:212-226 | non-regular signed-in users proceed to every page but login and home |
| Router.RedirectTargets | frontend/src/router/index.js:172-227 | every redirect goes to login (with the path), home, or the dashboard |
| Router.UnmatchedTitle | frontend/src/router/index.js:174 | an unmatched path gets the default title |
| Router.AdminChildTitle | frontend/src/router/index.js:74-162 | every admin child record carries a non-empty title, the one GuardBelowAdmin shows |
| Router.GuardBelowAdmin | frontend/src/router/index.js:212-226 | under the admin record a regular user goes home and others proceed |
| Router.AdminChildrenClosedToRegularUsers | frontend/src/router/index.js:67-226 | every admin page redirects a signed-in regular user to home |
| Router.AdminChildrenOpenToOthers | frontend/src/router/index.js:67-226 | every admin page lets a signed-in non-regular user proceed |
| DateFormat.Quarter | frontend/src/utils/format.js:20 | months 0..11 map to quarters 1..4 |
| DateFormat.FirstRunOf | frontend/src/utils/format.js:29 | the regex finds the first, longest run of a letter |
| DateFormat.ReplaceFieldOnlyFirstRun | frontend/src/utils/format.js:29-33 | replacement changes only the first run, keeping what surrounds it |
| DateFormat.ReplaceFieldAbsent | frontend/src/utils/format.js:29 | a pattern without the letter is unchanged |
| DateFormat.ReplaceYearOnlyFirstRun | frontend/src/utils/format.js:24-26 | the year run becomes the last digits of the year, as many as the run is long |
| DateFormat.Pad2Digits | frontend/src/utils/format.js:32 | a two-letter field renders 0..99 as exactly two digits |
| DateFormat.YearStep | frontend/src/utils/format.js:24-26 | the year step equals ReplaceYear, whose first run of `y` takes the year's last digits |
| DateFormat.FormatDate | frontend/src/utils/format.js:7-38 | a missing date is ""; otherwise the pattern (default if none) with fields substituted |
| DateFormat.ApplyTable | frontend/src/utils/format.js:28-35 | the loop over the field table equals ApplyFields |
| DateFormat.DoubledLetters | frontend/src/utils/format.js:28-35 | doubled-letter fields separated by plain text render each field as two digits |
| DateFormat.ApplyFieldsConcat | frontend/src/utils/format.js:28-35 | applying fields a then b equals applying a + b in one pass |
| DateFormat.DefaultPatternLayout | frontend/src/utils/format.js:7-38 | the default pattern renders "yyyy-MM-dd HH:mm:ss" with month + 1 and two-digit fields |

## Left out

- SQL aggregates are parameters: the GROUP BY queries of the dashboards, the averages of ratings, and the count of a manager's staff. Their results come in as lists of rows.
- Time is whole seconds in UTC. Java `LocalDateTime` and the server's time zone are not modelled. `now` is a parameter.
- Generated ids are parameters: auto-increment ids and UUID review ids.
- BCrypt is a pair of parameters: a hash function and a check predicate.
- JWT signing and parsing is a parameter: it maps a token to its claims or to nothing.
- The captcha, file upload and every other I/O endpoint are left out.
- Floating point is left out. Average ratings are not modelled. Longitude and latitude are exact reals that may be null; only their nullness matters to the code modelled.
- `Entities`: the `Integer` columns `ownerId`, `status` and `role` are plain ints, so a null in them is not modelled. Two things are lost as a result. The first is the source's null guard on the owner id (backend/src/main/java/com/room/backend/service/impl/RestaurantServiceImpl.java:145). The second is the NullPointerException of unboxing a null. It can arise at `staff.getStatus() == 0` (hd/src/main/java/com/room/hd/controller/admin/AdminStatisticsController.java:63), at `user.getRole() == 1 && restaurant.getOwnerId().equals(userId)` (hd/src/main/java/com/room/hd/service/impl/RestaurantTableServiceImpl.java:356) and at `restaurant.getStatus().toString()` (hd/src/main/java/com/room/hd/service/impl/RestaurantManageServiceImpl.java:516).
- `ReviewService.DeleteOwnReviewOnlyOwn`: both delete paths take an `Integer` review id, but review ids are UUID strings. The model compares the id column as text with the decimal id (`HasId`). PostgreSQL may refuse to compare a varchar column with an integer, and the source answers that error with 500; the model answers 404 instead. `ReviewService.UuidReviewNotDeletable` proves that a review with a UUID id is never deleted through either path.
- `ReviewService.DeleteAnyReviewOutcome`: the same id comparison is assumed. Where PostgreSQL refuses the comparison, the source answers 500; the model answers `false`.
- SQL `LIKE` is exact substring search. The `%` and `_` wildcards inside a keyword are not modelled.
- MyBatis-Plus `Page` semantics are modelled as read from the library's documented behaviour, which is not part of this model. Without an interceptor, `selectPage` runs the wrapper's SQL unchanged and the `Page` keeps its initial total of 0. With the pagination interceptor, a page number below 1 starts at the beginning, the offset is a `long`, and a negative size skips both the count and the LIMIT. That Spring Boot does not attach the interceptor bean to a `SqlSessionFactory` the application builds itself is also taken from the library's documented behaviour.
- Database error messages: a 500 built from a failing query carries PostgreSQL's own text (for example "ERROR: OFFSET must not be negative"). In the program `e.getMessage()` is the message of the MyBatis and Spring exception that wraps it, which adds its own preamble and the SQL around that text. The wrapper's text is not modelled; the code and the service's prefix are exact.
- `BackendRestaurantService.RestaurantListSound`: the backend's getRestaurantList (backend/src/main/java/com/room/backend/service/impl/RestaurantServiceImpl.java:62-107) has no catch block, and no exception handler of the backend is part of this model; the detail methods catch every exception themselves and are modelled with that catch. A conversion failure is modelled as error(500, its message), the answer a handler like hd's GlobalExceptionHandler (hd/src/main/java/com/room/hd/config/GlobalExceptionHandler.java:42-45) gives.
- Concurrency and transactions are left out. Each request runs alone against the tables.
- StaffServiceImpl.getManagerStaffList is left out. It returns the mapper's join as is, and the mapper's SQL is not part of this model.
- Thin controllers other than the three admin controllers are left out. They only forward to the services that are modelled.
- The backend's FavoriteService.isFavorite is a parameter of the catalogue. Its own implementation is not part of this model.
- `JavaText.ParseInt` accepts ASCII digits only. Java also accepts other Unicode decimal digits.
- `Router.JsParseInt` works on integers. JavaScript's exponent form for numbers of 21 or more digits and fractional numbers are not modelled.
- JSON role values other than absent, a number or a string are not modelled.
- vue-router's trailing-slash matching, case-insensitive matching and route ranking are not modelled. No two patterns of the table overlap, so the first match is the ranked one.
- The token cookie and the stored user info are parameters of the guard: `document.cookie`, `localStorage` and `JSON.parse` are left out, and so is a `JSON.parse` failure.
- Assigning `document.title` is not modelled. The guard's decision carries the title instead.
- `DateFormat.FormatDate`: JavaScript `Date` string parsing is left out. The date's fields are given directly.
- `DateFormat.FormatDate`: the one-letter millisecond field `S` is rendered without padding, as the source does. Its value is not bounded by the model.

## Findings

`RestaurantManageService.GetRestaurantList` models the administrator's filter as written (`AdminListCondition`). The grouped filter, `ListCondition`, is the one the manager's list uses. The three hd listings that call `selectPage` are likewise modelled as the application runs them, without the interceptor (`Query.SelectPageUnintercepted`); `Query.SelectPage` is the paging the interceptor bean was declared for.

| source | as written | input that shows it | evidently intended | confidence | as-written member | corrected member |
|---|---|---|---|---|---|---|
| hd/src/main/java/com/room/hd/service/impl/ReviewServiceImpl.java:114-131 | the review's string id is parsed with Integer.valueOf to find the reservation to link, so a null or non-numeric id throws | a valid review (restaurant, user, rating 3) submitted without an id: 500, nothing stored | the link is optional, as the null check that follows shows; the review is stored and linked only when a reservation is named | not executed | ReviewService.ReviewWithoutIdRejected | ReviewService.AddReviewOutcome |
| hd/src/main/java/com/room/hd/service/impl/UserServiceImpl.java:305-311 | the stored BCrypt hash is compared as text with the plain old password, and the new hash is never saved | any account whose stored password is a hash: every change is refused or lost; the table never changes | the old password is checked with BCrypt and the new hash is written back | not executed | UserService.RepasswordNeverChangesPassword | UserService.RepasswordTakesEffect |
| hd/src/main/java/com/room/hd/service/impl/RestaurantManageServiceImpl.java:64-73 | the keyword adds `name LIKE k OR address LIKE k` to the wrapper without grouping, and the status adds `AND status = s`; SQL reads this as `name LIKE k OR (address LIKE k AND status = s)` | keyword "Pizza", status 1 (approved), and a pending restaurant named "Pizza Place" whose address lacks "Pizza": the administrator's list counts and shows it | the keyword test grouped, as getManagerRestaurantList groups it (:437-445), so the status filters every row | not executed | RestaurantManageService.AdminListIgnoresStatusOnNameMatch | RestaurantManageService.GroupedIsAdminConditionWithStatus |
| hd/src/main/java/com/room/hd/config/MybatisPlusConfig.java:53-64 | the application builds its own SqlSessionFactory and never passes it the MybatisPlusInterceptor bean declared at :34-40, so selectPage neither limits nor counts | a diner with 3 bookings asks for page 1 of size 1: all 3 bookings come back with total 0 | the pagination interceptor attached, giving one booking and total 3 | not executed | ReservationService.DinerListIgnoresPageSize | ReservationService.InterceptedDinerPage |
