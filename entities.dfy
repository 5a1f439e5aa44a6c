/**
 * The stored records of the site (posts, categories, pages, galleries,
 * gallery images and users), the sort keys the listings use, and the query
 * scopes of the models whose own files are not part of this model
 * (`Post::published`, `Post::featured`, `Category::active`, `Page::active`,
 * `Page::inMenu`, `User::admins`, `User::active`), each written as the
 * column test its name describes.
 */
module Entities {
  import opened Common

  /** The `status` column of posts. */
  datatype Status = Draft | Published | Archived

  datatype Post = Post(
    id: nat,
    title: string,
    slug: string,
    excerpt: Option<string>,
    content: string,
    featuredImage: Option<string>,
    status: Status,
    isFeatured: bool,
    views: nat,
    publishedAt: Option<Time>,
    userId: nat,
    categoryId: nat,
    createdAt: Time)

  datatype Category = Category(
    id: nat,
    name: string,
    slug: string,
    description: Option<string>,
    color: string,
    isActive: bool,
    sortOrder: int,
    createdAt: Time)

  datatype Page = Page(
    id: nat,
    title: string,
    slug: string,
    content: string,
    excerpt: Option<string>,
    template: string,
    isActive: bool,
    showInMenu: bool,
    menuOrder: int,
    userId: nat,
    createdAt: Time)

  datatype Gallery = Gallery(
    id: nat,
    title: string,
    slug: string,
    description: Option<string>,
    coverImage: Option<string>,
    isActive: bool,
    isFeatured: bool,
    sortOrder: int,
    eventDate: Option<Time>,
    userId: nat,
    createdAt: Time)

  /** A row of gallery_images; `galleryId` is a foreign key with cascading delete. */
  datatype GalleryImage = GalleryImage(
    id: nat,
    galleryId: nat,
    imagePath: string,
    altText: Option<string>,
    caption: Option<string>,
    sortOrder: int,
    isFeatured: bool)

  /** A category with its `posts_count` (from `withCount`). */
  datatype CategoryCount = CategoryCount(category: Category, postsCount: nat)

  datatype UserRecord = UserRecord(id: nat, name: string, role: Role, isActive: bool)

  // Scopes of models outside this model, as the column tests their names describe.

  /** `Post::published()`. */
  predicate IsPublished(p: Post) { p.status == Published }

  predicate IsDraft(p: Post) { p.status == Draft }

  /** `Post::published()->featured()`. */
  predicate IsPublishedFeatured(p: Post) { IsPublished(p) && p.isFeatured }

  /** `Category::active()`. */
  predicate CategoryIsActive(c: Category) { c.isActive }

  /** `Page::active()`. */
  predicate PageIsActive(p: Page) { p.isActive }

  /** `Page::active()->inMenu()`. */
  predicate InMenu(p: Page) { p.isActive && p.showInMenu }

  /** `User::admins()`. */
  predicate UserIsAdmin(u: UserRecord) { u.role == AdminRole }

  /** `User::active()`. */
  predicate UserIsActive(u: UserRecord) { u.isActive }

  /** `where('category_id', c)` on posts of any status. */
  function InCategory(categoryId: nat): Post -> bool
  {
    (p: Post) => p.categoryId == categoryId
  }

  /** `published()->where('category_id', c)`. */
  function PublishedIn(categoryId: nat): Post -> bool
  {
    (p: Post) => IsPublished(p) && p.categoryId == categoryId
  }

  /** The images whose `gallery_id` is `galleryId`. */
  function BelongsTo(galleryId: nat): GalleryImage -> bool
  {
    (img: GalleryImage) => img.galleryId == galleryId
  }

  // Sort keys. A missing timestamp reads as -1, below every real time, so it
  // comes last in a descending order, as NULL does in MySQL and SQLite.

  function PublishedKey(p: Post): int
  {
    match p.publishedAt
    case None => -1
    case Some(t) => t
  }

  function PostCreatedKey(p: Post): int { p.createdAt }

  function PageCreatedKey(p: Page): int { p.createdAt }

  function GalleryCreatedKey(g: Gallery): int { g.createdAt }

  function EventDateKey(g: Gallery): int
  {
    match g.eventDate
    case None => -1
    case Some(t) => t
  }

  function CategoryOrderKey(c: Category): int { c.sortOrder }

  function ImageOrderKey(img: GalleryImage): int { img.sortOrder }

  /** Every admin listing is paginated fifteen to a page. */
  const AdminPageSize: nat := 15

  // Columns, as functions, for the uniqueness invariants.

  function PostId(p: Post): nat { p.id }
  function PostSlug(p: Post): string { p.slug }
  function CategoryId(c: Category): nat { c.id }
  function CategorySlug(c: Category): string { c.slug }
  function PageId(p: Page): nat { p.id }
  function PageSlug(p: Page): string { p.slug }
  function GalleryId(g: Gallery): nat { g.id }
  function GallerySlug(g: Gallery): string { g.slug }
  function UserId(u: UserRecord): nat { u.id }

  /** Whether `users` holds the user `id` (a foreign key target). */
  predicate HasUser(users: seq<UserRecord>, id: nat)
  {
    exists u :: u in users && u.id == id
  }
}
