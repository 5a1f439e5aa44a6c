/** The form request that guards creating a page: who may send it and what it accepts. */
module PageRequests {
  import opened Common
  import opened Validation

  /** `authorize`: only an administrator may create a page. */
  function AuthorizeStorePage(actor: Viewer): (r: bool)
    requires actor.User?
    ensures r <==> actor.role == AdminRole
    ensures actor.role == UserRole ==> !r
  {
    IsAdmin(actor)
  }

  /** `rules`, field by field in the order the request declares them. */
  const StorePageRules: Rules := [
    ("title", [Required, IsString, MaxSize(255)]),
    ("content", [Required, IsString]),
    ("excerpt", [Nullable, IsString, MaxSize(500)]),
    ("template", [Required, IsString, MaxSize(50)]),
    ("is_active", [IsBoolean]),
    ("show_in_menu", [IsBoolean]),
    ("menu_order", [IsInteger, MinSize(0)]),
    ("meta_data", [Nullable, IsArray])
  ]

  /** What the page form accepts, stated field by field on the request itself. */
  predicate StorePageAccepts(req: Request)
  {
    && RequiredString(req, "title", Some(255))
    && RequiredString(req, "content", None)
    && OptionalString(req, "excerpt", 500)
    && RequiredString(req, "template", Some(50))
    && OptionalBoolean(req, "is_active")
    && OptionalBoolean(req, "show_in_menu")
    && OptionalNonNegative(req, "menu_order")
    && OptionalArray(req, "meta_data")
  }

  /** The rules accept a request exactly when it has the shape above. */
  lemma StorePageRulesMeaning(req: Request, parseDate: string -> Option<Time>)
    ensures Passes(req, StorePageRules, parseDate) <==> StorePageAccepts(req)
  {
    var rs := StorePageRules;
    RequiredStringMaxRules(req, "title", 255, parseDate);
    RequiredStringRules(req, "content", parseDate);
    NullableStringRules(req, "excerpt", 500, parseDate);
    RequiredStringMaxRules(req, "template", 50, parseDate);
    BooleanRules(req, "is_active", parseDate);
    BooleanRules(req, "show_in_menu", parseDate);
    NonNegativeIntegerRules(req, "menu_order", parseDate);
    NullableArrayRules(req, "meta_data", parseDate);
    if Passes(req, rs, parseDate) {
      assert FieldPasses(req, rs[0].0, rs[0].1, parseDate);
      assert FieldPasses(req, rs[1].0, rs[1].1, parseDate);
      assert FieldPasses(req, rs[2].0, rs[2].1, parseDate);
      assert FieldPasses(req, rs[3].0, rs[3].1, parseDate);
      assert FieldPasses(req, rs[4].0, rs[4].1, parseDate);
      assert FieldPasses(req, rs[5].0, rs[5].1, parseDate);
      assert FieldPasses(req, rs[6].0, rs[6].1, parseDate);
      assert FieldPasses(req, rs[7].0, rs[7].1, parseDate);
    }
  }

  /**
   * The page columns the validated data carries. `template` is required, so
   * it is always there; the flags and the menu order may be left out, and
   * then the column defaults apply.
   */
  datatype PageData = PageData(
    title: string,
    content: string,
    excerpt: Field<string>,
    template: string,
    isActive: Option<bool>,
    showInMenu: Option<bool>,
    menuOrder: Option<int>)

  /** The typed reading of the validated data of an accepted request. */
  function PageDataOf(data: Request): (d: PageData)
    ensures "title" in data && data["title"].RStr? ==> d.title == data["title"].s
    ensures "content" in data && data["content"].RStr? ==> d.content == data["content"].s
    ensures "template" in data && data["template"].RStr? ==> d.template == data["template"].s
    ensures d.excerpt.Absent? <==> "excerpt" !in data
    ensures d.isActive.Some? <==> "is_active" in data
    ensures d.showInMenu.Some? <==> "show_in_menu" in data
    ensures d.menuOrder.Some? <==> "menu_order" in data
  {
    PageData(
      AsString(ValueOf(data, "title")),
      AsString(ValueOf(data, "content")),
      StringField(data, "excerpt"),
      AsString(ValueOf(data, "template")),
      BoolField(data, "is_active"),
      BoolField(data, "show_in_menu"),
      IntField(data, "menu_order"))
  }

  /**
   * An accepted request hands the controller a title, content and template
   * within their limits, exactly as sent, and a menu order that is never
   * negative.
   */
  lemma AcceptedPageData(actor: Viewer, req: Request, parseDate: string -> Option<Time>)
    requires actor.User?
    requires Resolve(AuthorizeStorePage(actor), req, StorePageRules, parseDate).Accepted?
    ensures IsAdmin(actor)
    ensures StorePageAccepts(req)
    ensures PageDataOf(Validated(req, StorePageRules)).title == req["title"].s
    ensures |PageDataOf(Validated(req, StorePageRules)).title| <= 255
    ensures PageDataOf(Validated(req, StorePageRules)).content == req["content"].s
    ensures PageDataOf(Validated(req, StorePageRules)).template == req["template"].s
    ensures |PageDataOf(Validated(req, StorePageRules)).template| <= 50
    ensures "menu_order" in req && req["menu_order"].RInt? ==> PageDataOf(Validated(req, StorePageRules)).menuOrder == Some(req["menu_order"].i) && req["menu_order"].i >= 0
  {
    StorePageRulesMeaning(req, parseDate);
    var rs := StorePageRules;
    assert rs[0].0 == "title" && rs[1].0 == "content" && rs[3].0 == "template" && rs[6].0 == "menu_order";
    assert "title" in Fields(rs) && "content" in Fields(rs) && "template" in Fields(rs) && "menu_order" in Fields(rs);
  }
}
