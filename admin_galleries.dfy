/**
 * The admin gallery controller's record-building rules, its listing, and the
 * images a gallery's deletion leaves (the foreign key cascades).
 */
module AdminGalleries {
  import opened Common
  import opened Query
  import opened Entities
  import opened Validation
  import opened GalleryRequests

  /**
   * The gallery `store` creates: owned by the acting user, slug derived from
   * the title; a flag or order the form left out takes the column default
   * (active, not featured, order 0).
   */
  function NewGallery(data: GalleryData, id: nat, ownerId: nat, now: Time, slugify: string -> string): (g: Gallery)
    ensures g.id == id && g.userId == ownerId && g.createdAt == now
    ensures g.slug == slugify(data.title) && g.title == data.title
    ensures g.description == FieldOrNull(data.description) && g.coverImage == FieldOrNull(data.coverImage)
    ensures g.isActive == OptionOver(data.isActive, true)
    ensures g.isFeatured == OptionOver(data.isFeatured, false)
    ensures g.sortOrder == OptionOver(data.sortOrder, 0)
    ensures g.eventDate == FieldOrNull(data.eventDate)
  {
    Gallery(id, data.title, slugify(data.title), FieldOrNull(data.description), FieldOrNull(data.coverImage),
            OptionOver(data.isActive, true), OptionOver(data.isFeatured, false), OptionOver(data.sortOrder, 0),
            FieldOrNull(data.eventDate), ownerId, now)
  }

  /**
   * The gallery after `update`: the slug is derived again from the new
   * title; the owner is kept (the validated data has no `user_id`), and so
   * are the id and creation time; a field the form left out keeps its value.
   */
  function UpdatedGallery(g: Gallery, data: GalleryData, slugify: string -> string): (u: Gallery)
    ensures u.id == g.id && u.userId == g.userId && u.createdAt == g.createdAt
    ensures u.slug == slugify(data.title) && u.title == data.title
    ensures u.description == FieldOver(data.description, g.description)
    ensures u.coverImage == FieldOver(data.coverImage, g.coverImage)
    ensures u.isActive == OptionOver(data.isActive, g.isActive)
    ensures u.isFeatured == OptionOver(data.isFeatured, g.isFeatured)
    ensures u.sortOrder == OptionOver(data.sortOrder, g.sortOrder)
    ensures u.eventDate == FieldOver(data.eventDate, g.eventDate)
  {
    g.(title := data.title, slug := slugify(data.title),
       description := FieldOver(data.description, g.description),
       coverImage := FieldOver(data.coverImage, g.coverImage),
       isActive := OptionOver(data.isActive, g.isActive), isFeatured := OptionOver(data.isFeatured, g.isFeatured),
       sortOrder := OptionOver(data.sortOrder, g.sortOrder), eventDate := FieldOver(data.eventDate, g.eventDate))
  }

  /**
   * However the form is filled in, an accepted update leaves the gallery
   * with the owner it had.
   */
  lemma UpdateKeepsOwner(g: Gallery, req: Request, parseDate: string -> Option<Time>, slugify: string -> string)
    ensures UpdatedGallery(g, GalleryDataOf(Validated(req, GalleryRules), parseDate), slugify).userId == g.userId
    ensures "user_id" !in Validated(req, GalleryRules)
  {
    GalleryDataHasNoOwner(req);
  }

  /** A gallery with its `images_count` (from `withCount('images')`). */
  datatype GalleryCount = GalleryCount(gallery: Gallery, imagesCount: nat)

  /** `withCount('images')` on a list of galleries, which keeps its order. */
  function WithImageCounts(galleries: seq<Gallery>, images: seq<GalleryImage>): (r: seq<GalleryCount>)
    ensures |r| == |galleries|
    ensures forall i :: 0 <= i < |r| ==> r[i].gallery == galleries[i]
    ensures forall i :: 0 <= i < |r| ==> r[i].imagesCount == Count(images, BelongsTo(galleries[i].id))
  {
    if galleries == [] then []
    else [GalleryCount(galleries[0], Count(images, BelongsTo(galleries[0].id)))] + WithImageCounts(galleries[1..], images)
  }

  /** `latest()->paginate(15)` on every gallery, active or not. */
  function AdminGalleryList(galleries: seq<Gallery>, page: int): (r: seq<Gallery>)
    ensures |r| <= AdminPageSize
    ensures forall g :: g in r ==> g in galleries
    ensures SortedDesc(r, GalleryCreatedKey)
    ensures r == [] <==> PageStart(page, AdminPageSize) >= |galleries|
    ensures PageStart(page, AdminPageSize) < |galleries| ==>
              |r| == Min(AdminPageSize, |galleries| - PageStart(page, AdminPageSize))
  {
    PageDesc(galleries, GalleryCreatedKey, page, AdminPageSize)
  }

  /** No gallery on a later page of the listing ranks above one on an earlier page. */
  lemma AdminGalleryListOrdered(galleries: seq<Gallery>, p1: int, p2: int, x: Gallery, y: Gallery)
    requires 1 <= p1 < p2
    requires x in AdminGalleryList(galleries, p1) && y in AdminGalleryList(galleries, p2)
    ensures GalleryCreatedKey(y) <= GalleryCreatedKey(x)
  {
    PageDescOrdered(galleries, GalleryCreatedKey, AdminPageSize, p1, p2, x, y);
  }

  /** The first page shows the leading galleries: none left off it is newer than one shown. */
  lemma AdminGalleryListFirst(galleries: seq<Gallery>)
    ensures forall x, y :: x in AdminGalleryList(galleries, 1) && y in multiset(galleries) - multiset(AdminGalleryList(galleries, 1)) ==>
              GalleryCreatedKey(y) <= GalleryCreatedKey(x)
  {
    PageDescFirst(galleries, GalleryCreatedKey, AdminPageSize);
  }

  /** `Gallery::withCount('images')->latest()->paginate(15)`: the page above, each gallery with its image count. */
  function AdminGalleryIndex(galleries: seq<Gallery>, images: seq<GalleryImage>, page: int): (r: seq<GalleryCount>)
    ensures |r| == |AdminGalleryList(galleries, page)|
    ensures forall i :: 0 <= i < |r| ==> r[i].gallery == AdminGalleryList(galleries, page)[i]
    ensures forall i :: 0 <= i < |r| ==> r[i].imagesCount == Count(images, BelongsTo(r[i].gallery.id))
  {
    WithImageCounts(AdminGalleryList(galleries, page), images)
  }

  /** Every gallery, inactive ones included, is on some page of the admin index. */
  lemma AdminGalleryListCovers(galleries: seq<Gallery>, g: Gallery)
    requires g in galleries
    ensures exists page :: page >= 1 && g in AdminGalleryList(galleries, page)
  {
    PageDescCovers(galleries, GalleryCreatedKey, AdminPageSize, g);
    var page :| page >= 1 && g in PageDesc(galleries, GalleryCreatedKey, page, AdminPageSize);
    assert g in AdminGalleryList(galleries, page);
  }

  /** The images of other galleries. */
  function NotIn(galleryId: nat): GalleryImage -> bool
  {
    (img: GalleryImage) => img.galleryId != galleryId
  }

  /**
   * The images left after a gallery is deleted: none of its own and every
   * image of another gallery, in their order.
   */
  function KeptImages(images: seq<GalleryImage>, galleryId: nat): (r: seq<GalleryImage>)
    ensures forall img :: img in r <==> img in images && img.galleryId != galleryId
    ensures |r| + Count(images, BelongsTo(galleryId)) == |images|
  {
    CountComplement(images, BelongsTo(galleryId), NotIn(galleryId));
    Filter(images, NotIn(galleryId))
  }
}
