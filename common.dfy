/**
 * Shared vocabulary of the content site: optional values, form fields as the
 * framework's validated data carries them, timestamps, roles and the viewer
 * of a request.
 */
module Common {

  datatype Option<T> = None | Some(value: T)

  /**
   * A field of a request's validated data: not sent at all, sent as null, or
   * sent with a value. `isset` is false for the first two.
   */
  datatype Field<T> = Absent | Null | Given(value: T)

  /** What a nullable column holds after writing the field on create. */
  function FieldOrNull<T>(f: Field<T>): (r: Option<T>)
    ensures r.Some? <==> f.Given?
    ensures f.Given? ==> r.value == f.value
  {
    match f
    case Given(v) => Some(v)
    case _ => None
  }

  /** What a nullable column holds after writing the field on update: an absent field keeps the old value. */
  function FieldOver<T>(f: Field<T>, previous: Option<T>): (r: Option<T>)
    ensures f.Absent? ==> r == previous
    ensures f.Null? ==> r == None
    ensures f.Given? ==> r == Some(f.value)
  {
    match f
    case Absent => previous
    case Null => None
    case Given(v) => Some(v)
  }

  /** What a non-nullable column holds after writing an optional field: absent keeps `previous`. */
  function OptionOver<T>(o: Option<T>, previous: T): (r: T)
    ensures o.Some? ==> r == o.value
    ensures o.None? ==> r == previous
  {
    match o
    case Some(v) => v
    case None => previous
  }

  /** Timestamps (and dates) are whole numbers; "now" is always a parameter. */
  type Time = nat

  /** The `role` column of the users table: an enum of 'admin' and 'user'. */
  datatype Role = AdminRole | UserRole

  /** The viewer of a request: nobody logged in, or an authenticated user. */
  datatype Viewer = Guest | User(role: Role, id: nat)

  /** `isAdmin()` on the authenticated user: the role is 'admin'. */
  predicate IsAdmin(v: Viewer)
  {
    v.User? && v.role == AdminRole
  }

  function Min(a: int, b: int): (r: int)
    ensures r <= a && r <= b
    ensures r == a || r == b
  {
    if a <= b then a else b
  }
}
