// The rows of the database tables the services read and write. Timestamps
// are plain integers on one clock; string columns the services test for
// null are Option<string>. The coordinates are nullable numbers; only
// whether they are null matters to the services, and their values are
// carried as exact reals.

module Entities {
  import opened Common

  datatype User = User(
    id: int, name: Option<string>, email: string, password: string,
    role: int, avatar: Option<string>, status: int,
    createdAt: int, updatedAt: int)

  datatype Restaurant = Restaurant(
    id: int, ownerId: int, name: string, description: Option<string>,
    address: string, longitude: Option<real>, latitude: Option<real>,
    phone: Option<string>, businessLicense: Option<string>,
    photos: Option<string>, status: int, businessHours: Option<string>,
    cuisine: Option<string>, createdAt: int, updatedAt: int)

  datatype Table = Table(
    id: int, restaurantId: int, tableType: string, capacity: int,
    createdAt: int, updatedAt: int)

  /** A booking. `duration` is the column the source calls reservationDate. */
  datatype Reservation = Reservation(
    id: int, restaurantId: int, userId: int, tableId: int,
    reviewId: Option<string>, reservationTime: int, duration: int,
    personCount: int, remarks: Option<string>, status: int,
    cancelReason: Option<string>, createdAt: int, updatedAt: int)

  /** A staff application or membership: userId works for managerId once
    * status is 1 (approved); 0 is pending. */
  datatype Staff = Staff(
    id: int, managerId: Option<int>, userId: int, status: int,
    createdAt: int, updatedAt: int)

  datatype Review = Review(
    id: string, restaurantId: int, userId: int, content: Option<string>,
    photos: Option<string>, videos: Option<string>, rating: int,
    createdAt: int, updatedAt: int)

  datatype Favorite = Favorite(id: int, restaurantId: int, userId: int, createdAt: int)

  /** A primary key: no two rows share an id. */
  predicate UniqueIds<T>(rows: seq<T>, idOf: T -> int) {
    forall i, j :: 0 <= i < j < |rows| ==> idOf(rows[i]) != idOf(rows[j])
  }

  /** selectById: the position of the row with that id, if any. */
  function IndexOf<T>(rows: seq<T>, idOf: T -> int, id: int): (r: Option<nat>)
    ensures r.Some? ==> r.value < |rows| && idOf(rows[r.value]) == id
    ensures r.None? ==> forall i :: 0 <= i < |rows| ==> idOf(rows[i]) != id
  {
    if rows == [] then None
    else if idOf(rows[0]) == id then Some(0)
    else match IndexOf(rows[1..], idOf, id)
      case None => None
      case Some(k) => Some(k + 1)
  }

  /** selectById: the row with that id, or null. */
  function SelectById<T>(rows: seq<T>, idOf: T -> int, id: int): (r: Option<T>)
    ensures r.Some? ==> r.value in rows && idOf(r.value) == id
    ensures r.None? ==> forall i :: 0 <= i < |rows| ==> idOf(rows[i]) != id
  {
    match IndexOf(rows, idOf, id)
    case None => None
    case Some(k) => Some(rows[k])
  }

  /** Under a primary key, the row found is the only one with that id. */
  lemma {:induction false} IndexOfUnique<T>(rows: seq<T>, idOf: T -> int, id: int, k: nat)
    requires UniqueIds(rows, idOf)
    requires k < |rows| && idOf(rows[k]) == id
    ensures IndexOf(rows, idOf, id) == Some(k)
  {
    if k > 0 {
      assert idOf(rows[0]) != id;
      IndexOfUnique(rows[1..], idOf, id, k - 1);
    }
  }

  function UserId(u: User): int { u.id }
  function RestaurantId(r: Restaurant): int { r.id }
  function TableId(t: Table): int { t.id }
  function ReservationId(r: Reservation): int { r.id }
  function StaffId(s: Staff): int { s.id }
  function FavoriteId(f: Favorite): int { f.id }
}
