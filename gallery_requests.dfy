/**
 * The form requests that guard creating and updating a gallery. Both declare
 * the same rules; they differ in who may send them.
 */
module GalleryRequests {
  import opened Common
  import opened Entities
  import opened Validation

  /**
   * `authorize` of the store request: an administrator, or a user whose role
   * is 'user'. Every role is one of the two, so every signed-in user may
   * create a gallery.
   */
  function AuthorizeStoreGallery(actor: Viewer): (r: bool)
    requires actor.User?
    ensures r
  {
    IsAdmin(actor) || actor.role == UserRole
  }

  /**
   * `authorize` of the update request: an administrator, or the user whose id
   * is the gallery's `user_id` (a strict comparison of the two ids).
   */
  function AuthorizeUpdateGallery(actor: Viewer, g: Gallery): (r: bool)
    requires actor.User?
    ensures actor.role == AdminRole ==> r
    ensures actor.id == g.userId ==> r
    ensures actor.role == UserRole && actor.id != g.userId ==> !r
  {
    IsAdmin(actor) || actor.id == g.userId
  }

  /** `rules` of both requests, in declaration order. */
  const GalleryRules: Rules := [
    ("title", [Required, IsString, MaxSize(255)]),
    ("description", [Nullable, IsString, MaxSize(1000)]),
    ("cover_image", [Nullable, IsString, MaxSize(255)]),
    ("is_active", [IsBoolean]),
    ("is_featured", [IsBoolean]),
    ("sort_order", [IsInteger, MinSize(0)]),
    ("event_date", [Nullable, IsDate])
  ]

  /** What the gallery forms accept, stated field by field on the request. */
  predicate GalleryAccepts(req: Request, parseDate: string -> Option<Time>)
  {
    && RequiredString(req, "title", Some(255))
    && OptionalString(req, "description", 1000)
    && OptionalString(req, "cover_image", 255)
    && OptionalBoolean(req, "is_active")
    && OptionalBoolean(req, "is_featured")
    && OptionalNonNegative(req, "sort_order")
    && OptionalDate(req, "event_date", parseDate)
  }

  /** The rules accept a request exactly when it has the shape above. */
  lemma GalleryRulesMeaning(req: Request, parseDate: string -> Option<Time>)
    ensures Passes(req, GalleryRules, parseDate) <==> GalleryAccepts(req, parseDate)
  {
    var rs := GalleryRules;
    RequiredStringMaxRules(req, "title", 255, parseDate);
    NullableStringRules(req, "description", 1000, parseDate);
    NullableStringRules(req, "cover_image", 255, parseDate);
    BooleanRules(req, "is_active", parseDate);
    BooleanRules(req, "is_featured", parseDate);
    NonNegativeIntegerRules(req, "sort_order", parseDate);
    NullableDateRules(req, "event_date", parseDate);
    if Passes(req, rs, parseDate) {
      assert FieldPasses(req, rs[0].0, rs[0].1, parseDate);
      assert FieldPasses(req, rs[1].0, rs[1].1, parseDate);
      assert FieldPasses(req, rs[2].0, rs[2].1, parseDate);
      assert FieldPasses(req, rs[3].0, rs[3].1, parseDate);
      assert FieldPasses(req, rs[4].0, rs[4].1, parseDate);
      assert FieldPasses(req, rs[5].0, rs[5].1, parseDate);
      assert FieldPasses(req, rs[6].0, rs[6].1, parseDate);
    }
  }

  /**
   * No rule names `user_id`, so the validated data never carries an owner:
   * a request cannot choose or change who owns a gallery.
   */
  lemma GalleryDataHasNoOwner(req: Request)
    ensures "user_id" !in Validated(req, GalleryRules)
    ensures "slug" !in Validated(req, GalleryRules)
  {
    assert "user_id" !in Fields(GalleryRules);
    assert "slug" !in Fields(GalleryRules);
  }

  /** The gallery columns the validated data carries. */
  datatype GalleryData = GalleryData(
    title: string,
    description: Field<string>,
    coverImage: Field<string>,
    isActive: Option<bool>,
    isFeatured: Option<bool>,
    sortOrder: Option<int>,
    eventDate: Field<Time>)

  /** The typed reading of the validated data of an accepted request. */
  function GalleryDataOf(data: Request, parseDate: string -> Option<Time>): (d: GalleryData)
    ensures "title" in data && data["title"].RStr? ==> d.title == data["title"].s
    ensures d.description.Absent? <==> "description" !in data
    ensures d.coverImage.Absent? <==> "cover_image" !in data
    ensures d.isActive.Some? <==> "is_active" in data
    ensures d.isFeatured.Some? <==> "is_featured" in data
    ensures d.sortOrder.Some? <==> "sort_order" in data
    ensures d.eventDate.Absent? <==> "event_date" !in data
  {
    GalleryData(
      AsString(ValueOf(data, "title")),
      StringField(data, "description"),
      StringField(data, "cover_image"),
      BoolField(data, "is_active"),
      BoolField(data, "is_featured"),
      IntField(data, "sort_order"),
      DateField(data, "event_date", parseDate))
  }

  /**
   * An accepted gallery form hands the controller the title as sent, within
   * its limit, and the event date the parser reads from the sent string.
   */
  lemma AcceptedGalleryData(req: Request, parseDate: string -> Option<Time>)
    requires Passes(req, GalleryRules, parseDate)
    ensures GalleryAccepts(req, parseDate)
    ensures GalleryDataOf(Validated(req, GalleryRules), parseDate).title == req["title"].s
    ensures |GalleryDataOf(Validated(req, GalleryRules), parseDate).title| <= 255
    ensures "event_date" in req && req["event_date"].RStr? && parseDate(req["event_date"].s).Some? ==>
              GalleryDataOf(Validated(req, GalleryRules), parseDate).eventDate == Given(parseDate(req["event_date"].s).value)
  {
    GalleryRulesMeaning(req, parseDate);
    var rs := GalleryRules;
    assert rs[0].0 == "title" && rs[6].0 == "event_date";
    assert "title" in Fields(rs) && "event_date" in Fields(rs);
  }
}
