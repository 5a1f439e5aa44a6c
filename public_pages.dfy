/** The public static page: an inactive page is shown to admins only. */
module PublicPages {
  import opened Common
  import opened Query
  import opened Entities

  /** The gate of `show`. */
  predicate CanViewPage(p: Page, v: Viewer)
  {
    p.isActive || IsAdmin(v)
  }

  /**
   * Route-model binding by slug followed by the gate: the page that `show`
   * renders, or nothing (a 404). The result is a value; nothing is written.
   */
  function ShowPage(pages: seq<Page>, slug: string, v: Viewer): (r: Option<Page>)
    ensures r.Some? ==> r.value in pages && r.value.slug == slug
    ensures r.Some? ==> r.value.isActive || IsAdmin(v)
    ensures (forall p :: p in pages ==> p.slug != slug) ==> r.None?
    ensures IsAdmin(v) ==> (r.Some? <==> exists p :: p in pages && p.slug == slug)
  {
    match FindBy(pages, PageSlug, slug)
    case None => None
    case Some(p) => if CanViewPage(p, v) then Some(p) else None
  }

  /**
   * With unique slugs (a unique index on pages) the page with the slug is
   * shown exactly when it is active or the viewer is an admin: an active page
   * to everyone, an inactive one to neither a guest nor a non-admin user.
   */
  lemma ShowPageGate(pages: seq<Page>, p: Page, v: Viewer)
    requires DistinctBy(pages, PageSlug) && p in pages
    ensures ShowPage(pages, p.slug, v) == (if p.isActive || IsAdmin(v) then Some(p) else None)
    ensures p.isActive ==> ShowPage(pages, p.slug, v) == Some(p)
    ensures !p.isActive && v == Guest ==> ShowPage(pages, p.slug, v).None?
    ensures !p.isActive && v.User? && v.role == UserRole ==> ShowPage(pages, p.slug, v).None?
  {
    FindByUnique(pages, PageSlug, p);
  }
}
