/** The public gallery index and gallery page. */
module PublicGalleries {
  import opened Common
  import opened Query
  import opened Entities
  import opened GalleryModel

  const GalleryPageSize: nat := 12
  const ImagesPerCard: nat := 4

  /**
   * `Gallery::active()->latest('event_date')->paginate(12)`: a page of at most
   * twelve active galleries, latest event first (galleries without a date
   * last); empty exactly when the page starts past the last active gallery.
   */
  function GalleryIndexList(galleries: seq<Gallery>, page: int): (r: seq<Gallery>)
    ensures |r| <= GalleryPageSize
    ensures forall g :: g in r ==> g in galleries && g.isActive
    ensures SortedDesc(r, EventDateKey)
    ensures r == [] <==> PageStart(page, GalleryPageSize) >= Count(galleries, Active)
    ensures PageStart(page, GalleryPageSize) < Count(galleries, Active) ==>
              |r| == Min(GalleryPageSize, Count(galleries, Active) - PageStart(page, GalleryPageSize))
  {
    PageWhere(galleries, Active, EventDateKey, page, GalleryPageSize)
  }

  /** No gallery on a later page of the listing ranks above one on an earlier page. */
  lemma GalleryIndexListOrdered(galleries: seq<Gallery>, p1: int, p2: int, x: Gallery, y: Gallery)
    requires 1 <= p1 < p2
    requires x in GalleryIndexList(galleries, p1) && y in GalleryIndexList(galleries, p2)
    ensures EventDateKey(y) <= EventDateKey(x)
  {
    PageWhereOrdered(galleries, Active, EventDateKey, GalleryPageSize, p1, p2, x, y);
  }

  /** The first page shows the leading galleries: none left off it is newer than one shown. */
  lemma GalleryIndexListFirst(galleries: seq<Gallery>)
    ensures forall x, y :: x in GalleryIndexList(galleries, 1) && y in galleries && Active(y) && y !in GalleryIndexList(galleries, 1) ==>
              EventDateKey(y) <= EventDateKey(x)
  {
    PageWhereFirst(galleries, Active, EventDateKey, GalleryPageSize);
  }

  /** Every active gallery is on one of the index pages. */
  lemma GalleryIndexCovers(galleries: seq<Gallery>, g: Gallery)
    requires g in galleries && g.isActive
    ensures exists page :: page >= 1 && g in GalleryIndexList(galleries, page)
  {
    PageWhereCovers(galleries, Active, EventDateKey, GalleryPageSize, g);
    var page :| page >= 1 && g in PageWhere(galleries, Active, EventDateKey, page, GalleryPageSize);
    assert g in GalleryIndexList(galleries, page);
  }

  /** `index`: the same page, each gallery with the first four of its images (`with(['images' => take(4)])`). */
  function GalleryIndex(galleries: seq<Gallery>, images: seq<GalleryImage>, page: int): (r: seq<GalleryCard>)
    ensures |r| == |GalleryIndexList(galleries, page)|
    ensures forall i :: 0 <= i < |r| ==> r[i] == Card(GalleryIndexList(galleries, page)[i], images, ImagesPerCard)
  {
    WithImages(GalleryIndexList(galleries, page), images, ImagesPerCard)
  }

  /**
   * `show`: the gallery with the slug together with all of its images, or
   * nothing (a 404) when no gallery has the slug; `is_active` is not consulted.
   */
  function ShowGallery(galleries: seq<Gallery>, images: seq<GalleryImage>, slug: string): (r: Option<GalleryCard>)
    ensures r.Some? <==> exists g :: g in galleries && g.slug == slug
    ensures r.Some? ==> r.value.gallery in galleries && r.value.gallery.slug == slug
    ensures r.Some? ==> r.value.images == Images(r.value.gallery, images)
  {
    match FindBy(galleries, GallerySlug, slug)
    case None => None
    case Some(g) => Some(GalleryCard(g, Images(g, images)))
  }

  /**
   * With unique slugs, every gallery is shown by its slug, active or not, and
   * the page carries every one of its images.
   */
  lemma ShowGalleryShowsAll(galleries: seq<Gallery>, images: seq<GalleryImage>, g: Gallery)
    requires DistinctBy(galleries, GallerySlug) && g in galleries
    ensures ShowGallery(galleries, images, g.slug) == Some(GalleryCard(g, Images(g, images)))
    ensures |ShowGallery(galleries, images, g.slug).value.images| == Count(images, BelongsTo(g.id))
  {
    FindByUnique(galleries, GallerySlug, g);
  }
}
