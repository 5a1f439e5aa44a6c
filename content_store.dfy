/**
 * The stored tables and the controller actions that change them: creating,
 * updating and deleting posts, categories, pages and galleries, and showing a
 * post, which raises its view counter. Each action first binds its route
 * parameter (by id for the admin resources, by slug for the public post) and
 * answers "not found" when nothing matches; form requests are resolved before
 * the controller body runs.
 */
module ContentStore {
  import opened Common
  import opened Query
  import opened Entities
  import opened Validation
  import opened PublicPosts
  import opened AdminPosts
  import opened AdminCategories
  import opened PageRequests
  import opened AdminPages
  import opened GalleryRequests
  import opened AdminGalleries
  import opened Dashboard

  /** What an action answers. */
  datatype Outcome =
    | Created(id: nat)
    | Updated
    | Deleted
    | NotFound
    | Forbidden
    | Invalid(fields: seq<string>)
    | SlugTaken
    | HasPosts

  /** Every id in the table is below the next id the table hands out. */
  predicate IdsBelow<T>(s: seq<T>, key: T -> nat, next: nat)
  {
    forall i :: 0 <= i < |s| ==> key(s[i]) < next
  }

  predicate PostsOwned(posts: seq<Post>, users: seq<UserRecord>)
  {
    forall i :: 0 <= i < |posts| ==> HasUser(users, posts[i].userId)
  }

  predicate PagesOwned(pages: seq<Page>, users: seq<UserRecord>)
  {
    forall i :: 0 <= i < |pages| ==> HasUser(users, pages[i].userId)
  }

  predicate GalleriesOwned(galleries: seq<Gallery>, users: seq<UserRecord>)
  {
    forall i :: 0 <= i < |galleries| ==> HasUser(users, galleries[i].userId)
  }

  predicate HasGallery(galleries: seq<Gallery>, id: nat)
  {
    exists g :: g in galleries && g.id == id
  }

  /** The foreign key of gallery_images: every image belongs to a stored gallery. */
  predicate ImagesLinked(images: seq<GalleryImage>, galleries: seq<Gallery>)
  {
    forall i :: 0 <= i < |images| ==> HasGallery(galleries, images[i].galleryId)
  }

  /** A fresh id is unlike every stored one, so appending the record keeps ids unique and below the new counter. */
  lemma AppendFresh<T(!new)>(s: seq<T>, x: T, key: T -> nat, next: nat)
    requires DistinctBy(s, key) && IdsBelow(s, key, next) && key(x) == next
    ensures DistinctBy(s + [x], key) && IdsBelow(s + [x], key, next + 1)
  {
    DistinctAppend(s, x, key);
  }

  /** Replacing a record by one with the same id keeps ids unique and below the counter. */
  lemma ReplaceSameId<T(!new)>(s: seq<T>, k: nat, x: T, key: T -> nat, next: nat)
    requires k < |s| && DistinctBy(s, key) && IdsBelow(s, key, next) && key(x) == key(s[k])
    ensures DistinctBy(s[k := x], key) && IdsBelow(s[k := x], key, next)
  {
    DistinctReplace(s, k, x, key);
  }

  /** Removing a record keeps ids unique and below the counter. */
  lemma RemoveKeeps<T(!new)>(s: seq<T>, k: nat, key: T -> nat, next: nat)
    requires k < |s| && DistinctBy(s, key) && IdsBelow(s, key, next)
    ensures DistinctBy(RemoveAt(s, k), key) && IdsBelow(RemoveAt(s, k), key, next)
  {
    DistinctRemove(s, k, key);
  }

  /** Adding a gallery keeps every image linked. */
  lemma LinkedAfterAppend(images: seq<GalleryImage>, galleries: seq<Gallery>, g: Gallery)
    requires ImagesLinked(images, galleries)
    ensures ImagesLinked(images, galleries + [g])
  {
    forall i | 0 <= i < |images| ensures HasGallery(galleries + [g], images[i].galleryId) {
      assert HasGallery(galleries, images[i].galleryId);
      var h :| h in galleries && h.id == images[i].galleryId;
      assert h in galleries + [g];
    }
  }

  /** Rewriting a gallery under the same id keeps every image linked. */
  lemma LinkedAfterReplace(images: seq<GalleryImage>, galleries: seq<Gallery>, k: nat, g: Gallery)
    requires k < |galleries| && g.id == galleries[k].id && ImagesLinked(images, galleries)
    ensures ImagesLinked(images, galleries[k := g])
  {
    forall i | 0 <= i < |images| ensures HasGallery(galleries[k := g], images[i].galleryId) {
      assert HasGallery(galleries, images[i].galleryId);
      var h :| h in galleries && h.id == images[i].galleryId;
      var j :| 0 <= j < |galleries| && galleries[j] == h;
      if j == k {
        assert galleries[k := g][k] == g;
      } else {
        assert galleries[k := g][j] == h;
      }
    }
  }

  /** Deleting a gallery together with its images keeps every remaining image linked. */
  lemma LinkedAfterCascade(images: seq<GalleryImage>, galleries: seq<Gallery>, k: nat)
    requires k < |galleries| && ImagesLinked(images, galleries)
    ensures ImagesLinked(KeptImages(images, galleries[k].id), RemoveAt(galleries, k))
  {
    var kept := KeptImages(images, galleries[k].id);
    forall i | 0 <= i < |kept| ensures HasGallery(RemoveAt(galleries, k), kept[i].galleryId) {
      var img := kept[i];
      assert img in kept;
      var j :| 0 <= j < |images| && images[j] == img;
      assert HasGallery(galleries, images[j].galleryId);
      var h :| h in galleries && h.id == img.galleryId;
      RemoveAtKeeps(galleries, k, h);
    }
  }

  /**
   * The foreign key's `ON DELETE CASCADE` on `gallery_images`: one pass over
   * the images table keeping the rows of other galleries.
   */
  method CascadeImages(images: seq<GalleryImage>, galleryId: nat) returns (kept: seq<GalleryImage>)
    ensures kept == KeptImages(images, galleryId)
  {
    kept := [];
    var i := 0;
    while i < |images|
      invariant 0 <= i <= |images|
      invariant kept == Filter(images[..i], NotIn(galleryId))
    {
      FilterPrefixStep(images, i, NotIn(galleryId));
      if NotIn(galleryId)(images[i]) {
        kept := kept + [images[i]];
      }
      i := i + 1;
    }
    assert images[..i] == images;
    assert kept == Filter(images, NotIn(galleryId));
  }

  /** A post being shown: its position in the table and the record after its view is counted. */
  datatype View = View(index: nat, post: Post)

  /**
   * What `show` does to the posts table: nothing for a slug no post has or a
   * post the viewer may not see; otherwise it counts one more view on exactly
   * the post `VisiblePost` finds.
   */
  function CountedView(posts: seq<Post>, slug: string, viewer: Viewer): (r: Option<View>)
    ensures r.None? <==> VisiblePost(posts, slug, viewer).None?
    ensures r.Some? ==> r.value.index < |posts| && posts[r.value.index] == VisiblePost(posts, slug, viewer).value
    ensures r.Some? ==> r.value.post == posts[r.value.index].(views := posts[r.value.index].views + 1)
  {
    VisiblePostAt(posts, slug, viewer);
    match IndexWhere(posts, Is(PostSlug, slug))
    case None => None
    case Some(k) =>
      if CanViewPost(posts[k], viewer) then Some(View(k, posts[k].(views := posts[k].views + 1))) else None
  }

  /**
   * With unique slugs, showing the post `p` counts a view exactly when the
   * gate lets the viewer see it, and then on `p` itself, by exactly one; a
   * guest or a non-admin user asking for an unpublished post counts none.
   */
  lemma CountedViewGate(posts: seq<Post>, p: Post, viewer: Viewer)
    requires DistinctBy(posts, PostSlug) && p in posts
    ensures CountedView(posts, p.slug, viewer).Some? <==> p.status == Published || IsAdmin(viewer)
    ensures CountedView(posts, p.slug, viewer).Some? ==>
              && posts[CountedView(posts, p.slug, viewer).value.index] == p
              && CountedView(posts, p.slug, viewer).value.post.views == p.views + 1
              && CountedView(posts, p.slug, viewer).value.post.(views := p.views) == p
    ensures p.status != Published && !IsAdmin(viewer) ==> CountedView(posts, p.slug, viewer).None?
  {
    VisiblePostGate(posts, p, viewer);
  }

  class Store {
    /** `Str::slug`, which is not part of this model: any fixed function of the title. */
    const slugify: string -> string
    /** The date parser behind the `date` rule and the `datetime` casts. */
    const parseDate: string -> Option<Time>
    /** The users table; no action of this model writes it. */
    const users: seq<UserRecord>

    var posts: seq<Post>
    var categories: seq<Category>
    var pages: seq<Page>
    var galleries: seq<Gallery>
    var images: seq<GalleryImage>

    /** The auto-increment counters of the tables. */
    var nextPostId: nat
    var nextCategoryId: nat
    var nextPageId: nat
    var nextGalleryId: nat

    /**
     * Ids are unique and below their counters, page slugs are unique (the
     * pages table has a unique index on `slug`), every post, page and gallery
     * has an owner among the users, and every image has its gallery.
     */
    ghost predicate Valid()
      reads this
    {
      && DistinctBy(posts, PostId) && IdsBelow(posts, PostId, nextPostId)
      && DistinctBy(categories, CategoryId) && IdsBelow(categories, CategoryId, nextCategoryId)
      && DistinctBy(pages, PageId) && IdsBelow(pages, PageId, nextPageId)
      && DistinctBy(galleries, GalleryId) && IdsBelow(galleries, GalleryId, nextGalleryId)
      && DistinctBy(pages, PageSlug)
      && PostsOwned(posts, users) && PagesOwned(pages, users) && GalleriesOwned(galleries, users)
      && ImagesLinked(images, galleries)
    }

    /** An empty site with the given users; every counter starts at 1. */
    constructor (slugify: string -> string, parseDate: string -> Option<Time>, users: seq<UserRecord>)
      ensures Valid()
      ensures this.slugify == slugify && this.parseDate == parseDate && this.users == users
      ensures posts == [] && categories == [] && pages == [] && galleries == [] && images == []
      ensures nextPostId == 1 && nextCategoryId == 1 && nextPageId == 1 && nextGalleryId == 1
    {
      this.slugify := slugify;
      this.parseDate := parseDate;
      this.users := users;
      posts, categories, pages, galleries, images := [], [], [], [], [];
      nextPostId, nextCategoryId, nextPageId, nextGalleryId := 1, 1, 1, 1;
    }

    // ------------------------------------------------------------------
    // Posts
    // ------------------------------------------------------------------

    /**
     * `Admin\PostController::store`: the post is created from the validated
     * data, owned by the acting user, with the slug of its title and the
     * publication rule of `StorePublishedAt`.
     */
    method StorePost(actor: Viewer, data: PostData, now: Time) returns (o: Outcome)
      requires Valid() && actor.User? && HasUser(users, actor.id)
      modifies this
      ensures Valid()
      ensures o == Created(old(nextPostId))
      ensures posts == old(posts) + [NewPost(data, old(nextPostId), actor.id, now, slugify)]
      ensures nextPostId == old(nextPostId) + 1
      ensures categories == old(categories) && pages == old(pages) && galleries == old(galleries) && images == old(images)
      ensures nextCategoryId == old(nextCategoryId) && nextPageId == old(nextPageId) && nextGalleryId == old(nextGalleryId)
    {
      var p := NewPost(data, nextPostId, actor.id, now, slugify);
      AppendFresh(posts, p, PostId, nextPostId);
      posts := posts + [p];
      o := Created(nextPostId);
      nextPostId := nextPostId + 1;
    }

    /**
     * `Admin\PostController::update`: the post with the id is rewritten in
     * place by `UpdatedPost`; nothing changes when no post has the id.
     */
    method UpdatePost(id: nat, data: PostData, now: Time) returns (o: Outcome)
      requires Valid()
      modifies this
      ensures Valid()
      ensures match IndexWhere(old(posts), Is(PostId, id))
        case None => o == NotFound && posts == old(posts)
        case Some(k) => o == Updated && posts == old(posts)[k := UpdatedPost(old(posts)[k], data, now, slugify)]
      ensures categories == old(categories) && pages == old(pages) && galleries == old(galleries) && images == old(images)
      ensures nextPostId == old(nextPostId) && nextCategoryId == old(nextCategoryId)
      ensures nextPageId == old(nextPageId) && nextGalleryId == old(nextGalleryId)
    {
      match IndexWhere(posts, Is(PostId, id))
      case None =>
        o := NotFound;
      case Some(k) =>
        var q := UpdatedPost(posts[k], data, now, slugify);
        ReplaceSameId(posts, k, q, PostId, nextPostId);
        posts := posts[k := q];
        o := Updated;
    }

    /** `Admin\PostController::destroy`: exactly the post with the id is removed. */
    method DestroyPost(id: nat) returns (o: Outcome)
      requires Valid()
      modifies this
      ensures Valid()
      ensures match IndexWhere(old(posts), Is(PostId, id))
        case None => o == NotFound && posts == old(posts)
        case Some(k) => o == Deleted && posts == RemoveAt(old(posts), k)
      ensures categories == old(categories) && pages == old(pages) && galleries == old(galleries) && images == old(images)
      ensures nextPostId == old(nextPostId) && nextCategoryId == old(nextCategoryId)
      ensures nextPageId == old(nextPageId) && nextGalleryId == old(nextGalleryId)
    {
      match IndexWhere(posts, Is(PostId, id))
      case None =>
        o := NotFound;
      case Some(k) =>
        RemoveKeeps(posts, k, PostId, nextPostId);
        posts := RemoveAt(posts, k);
        o := Deleted;
    }

    /** `increment('views')`: the post at the view's position is replaced by its counted record; nothing else changes. */
    method IncrementViews(view: View)
      requires Valid() && view.index < |posts|
      requires view.post == posts[view.index].(views := posts[view.index].views + 1)
      modifies this
      ensures Valid()
      ensures posts == old(posts)[view.index := view.post]
      ensures categories == old(categories) && pages == old(pages) && galleries == old(galleries) && images == old(images)
      ensures nextPostId == old(nextPostId) && nextCategoryId == old(nextCategoryId)
      ensures nextPageId == old(nextPageId) && nextGalleryId == old(nextGalleryId)
    {
      ReplaceSameId(posts, view.index, view.post, PostId, nextPostId);
      posts := posts[view.index := view.post];
    }

    /**
     * `PostController::show`: the post bound by its slug is shown if the gate
     * lets the viewer see it; then, and only then, its view count rises by
     * exactly one, and the related posts are read from the updated table.
     * A refused or unknown slug changes nothing.
     */
    method ShowPost(slug: string, viewer: Viewer) returns (shown: Option<Post>, related: seq<Post>)
      requires Valid()
      modifies this
      ensures Valid()
      ensures match CountedView(old(posts), slug, viewer)
        case None => shown.None? && related == [] && posts == old(posts)
        case Some(view) =>
          && shown == Some(view.post)
          && posts == old(posts)[view.index := view.post]
          && related == RelatedPosts(posts, view.post)
      ensures categories == old(categories) && pages == old(pages) && galleries == old(galleries) && images == old(images)
      ensures nextPostId == old(nextPostId) && nextCategoryId == old(nextCategoryId)
      ensures nextPageId == old(nextPageId) && nextGalleryId == old(nextGalleryId)
    {
      match CountedView(posts, slug, viewer)
      case None =>
        shown, related := None, [];
      case Some(view) =>
        IncrementViews(view);
        shown := Some(view.post);
        related := RelatedPosts(posts, view.post);
    }

    // ------------------------------------------------------------------
    // Categories
    // ------------------------------------------------------------------

    /** `Admin\CategoryController::store`: a category with the slug of its name. */
    method StoreCategory(data: CategoryData, now: Time) returns (o: Outcome)
      requires Valid()
      modifies this
      ensures Valid()
      ensures o == Created(old(nextCategoryId))
      ensures categories == old(categories) + [NewCategory(data, old(nextCategoryId), now, slugify)]
      ensures nextCategoryId == old(nextCategoryId) + 1
      ensures posts == old(posts) && pages == old(pages) && galleries == old(galleries) && images == old(images)
      ensures nextPostId == old(nextPostId) && nextPageId == old(nextPageId) && nextGalleryId == old(nextGalleryId)
    {
      var c := NewCategory(data, nextCategoryId, now, slugify);
      AppendFresh(categories, c, CategoryId, nextCategoryId);
      categories := categories + [c];
      o := Created(nextCategoryId);
      nextCategoryId := nextCategoryId + 1;
    }

    /** `Admin\CategoryController::update`: the category with the id is rewritten by `UpdatedCategory`. */
    method UpdateCategory(id: nat, data: CategoryData) returns (o: Outcome)
      requires Valid()
      modifies this
      ensures Valid()
      ensures match IndexWhere(old(categories), Is(CategoryId, id))
        case None => o == NotFound && categories == old(categories)
        case Some(k) => o == Updated && categories == old(categories)[k := UpdatedCategory(old(categories)[k], data, slugify)]
      ensures posts == old(posts) && pages == old(pages) && galleries == old(galleries) && images == old(images)
      ensures nextPostId == old(nextPostId) && nextCategoryId == old(nextCategoryId)
      ensures nextPageId == old(nextPageId) && nextGalleryId == old(nextGalleryId)
    {
      match IndexWhere(categories, Is(CategoryId, id))
      case None =>
        o := NotFound;
      case Some(k) =>
        var c := UpdatedCategory(categories[k], data, slugify);
        ReplaceSameId(categories, k, c, CategoryId, nextCategoryId);
        categories := categories[k := c];
        o := Updated;
    }

    /**
     * `Admin\CategoryController::destroy`: refused while any post, of any
     * status, has the category, and then nothing changes; otherwise exactly
     * that category is removed and the posts are untouched.
     */
    method DestroyCategory(id: nat) returns (o: Outcome)
      requires Valid()
      modifies this
      ensures Valid()
      ensures match IndexWhere(old(categories), Is(CategoryId, id))
        case None => o == NotFound && categories == old(categories)
        case Some(k) =>
          if Count(old(posts), InCategory(id)) > 0 then o == HasPosts && categories == old(categories)
          else o == Deleted && categories == RemoveAt(old(categories), k)
      ensures posts == old(posts) && pages == old(pages) && galleries == old(galleries) && images == old(images)
      ensures nextPostId == old(nextPostId) && nextCategoryId == old(nextCategoryId)
      ensures nextPageId == old(nextPageId) && nextGalleryId == old(nextGalleryId)
    {
      match IndexWhere(categories, Is(CategoryId, id))
      case None =>
        o := NotFound;
      case Some(k) =>
        if Count(posts, InCategory(id)) > 0 {
          o := HasPosts;
        } else {
          RemoveKeeps(categories, k, CategoryId, nextCategoryId);
          categories := RemoveAt(categories, k);
          o := Deleted;
        }
    }

    // ------------------------------------------------------------------
    // Pages
    // ------------------------------------------------------------------

    /**
     * `Admin\PageController::store` behind `StorePageRequest`: refused for a
     * non-admin, rejected with the failing fields, refused by the unique index
     * when another page already has the slug, and otherwise a page owned by
     * the acting user with the slug of its title.
     */
    method StorePage(actor: Viewer, req: Request, now: Time) returns (o: Outcome)
      requires Valid() && actor.User? && HasUser(users, actor.id)
      modifies this
      ensures Valid()
      ensures match Resolve(AuthorizeStorePage(actor), req, StorePageRules, parseDate)
        case Unauthorized => o == Forbidden && pages == old(pages)
        case Rejected(fields) => o == Invalid(fields) && pages == old(pages)
        case Accepted(data) =>
          var page := NewPage(PageDataOf(data), old(nextPageId), actor.id, now, slugify);
          if exists p :: p in old(pages) && p.slug == page.slug then o == SlugTaken && pages == old(pages)
          else o == Created(old(nextPageId)) && pages == old(pages) + [page]
      ensures nextPageId == old(nextPageId) + (if o.Created? then 1 else 0)
      ensures posts == old(posts) && categories == old(categories) && galleries == old(galleries) && images == old(images)
      ensures nextPostId == old(nextPostId) && nextCategoryId == old(nextCategoryId) && nextGalleryId == old(nextGalleryId)
    {
      match Resolve(AuthorizeStorePage(actor), req, StorePageRules, parseDate)
      case Unauthorized =>
        o := Forbidden;
      case Rejected(fields) =>
        o := Invalid(fields);
      case Accepted(data) =>
        var page := NewPage(PageDataOf(data), nextPageId, actor.id, now, slugify);
        if exists i :: 0 <= i < |pages| && pages[i].slug == page.slug {
          o := SlugTaken;
        } else {
          o := AddPage(page);
        }
    }

    /** `Page::create`: the page is appended under the next id; its slug is new and its owner exists. */
    method AddPage(page: Page) returns (o: Outcome)
      requires Valid() && page.id == nextPageId && HasUser(users, page.userId)
      requires forall i :: 0 <= i < |pages| ==> pages[i].slug != page.slug
      modifies this
      ensures Valid()
      ensures o == Created(old(nextPageId)) && pages == old(pages) + [page] && nextPageId == old(nextPageId) + 1
      ensures posts == old(posts) && categories == old(categories) && galleries == old(galleries) && images == old(images)
      ensures nextPostId == old(nextPostId) && nextCategoryId == old(nextCategoryId) && nextGalleryId == old(nextGalleryId)
    {
      AppendFresh(pages, page, PageId, nextPageId);
      DistinctAppend(pages, page, PageSlug);
      pages := pages + [page];
      o := Created(nextPageId);
      nextPageId := nextPageId + 1;
    }

    /**
     * `Admin\PageController::update`: the page with the id is rewritten by
     * `UpdatedPage`, unless another page already has the new slug.
     */
    method UpdatePage(id: nat, data: PageData) returns (o: Outcome)
      requires Valid()
      modifies this
      ensures Valid()
      ensures match IndexWhere(old(pages), Is(PageId, id))
        case None => o == NotFound && pages == old(pages)
        case Some(k) =>
          if exists j :: 0 <= j < |old(pages)| && j != k && old(pages)[j].slug == slugify(data.title)
          then o == SlugTaken && pages == old(pages)
          else o == Updated && pages == old(pages)[k := UpdatedPage(old(pages)[k], data, slugify)]
      ensures posts == old(posts) && categories == old(categories) && galleries == old(galleries) && images == old(images)
      ensures nextPostId == old(nextPostId) && nextCategoryId == old(nextCategoryId)
      ensures nextPageId == old(nextPageId) && nextGalleryId == old(nextGalleryId)
    {
      match IndexWhere(pages, Is(PageId, id))
      case None =>
        o := NotFound;
      case Some(k) =>
        if exists j :: 0 <= j < |pages| && j != k && pages[j].slug == slugify(data.title) {
          o := SlugTaken;
        } else {
          var q := UpdatedPage(pages[k], data, slugify);
          ReplaceSameId(pages, k, q, PageId, nextPageId);
          DistinctReplace(pages, k, q, PageSlug);
          pages := pages[k := q];
          o := Updated;
        }
    }

    /** `Admin\PageController::destroy`: exactly the page with the id is removed. */
    method DestroyPage(id: nat) returns (o: Outcome)
      requires Valid()
      modifies this
      ensures Valid()
      ensures match IndexWhere(old(pages), Is(PageId, id))
        case None => o == NotFound && pages == old(pages)
        case Some(k) => o == Deleted && pages == RemoveAt(old(pages), k)
      ensures posts == old(posts) && categories == old(categories) && galleries == old(galleries) && images == old(images)
      ensures nextPostId == old(nextPostId) && nextCategoryId == old(nextCategoryId)
      ensures nextPageId == old(nextPageId) && nextGalleryId == old(nextGalleryId)
    {
      match IndexWhere(pages, Is(PageId, id))
      case None =>
        o := NotFound;
      case Some(k) =>
        RemoveKeeps(pages, k, PageId, nextPageId);
        DistinctRemove(pages, k, PageSlug);
        pages := RemoveAt(pages, k);
        o := Deleted;
    }

    // ------------------------------------------------------------------
    // Galleries
    // ------------------------------------------------------------------

    /** `Gallery::create`: the gallery is appended under the next id; its owner exists. */
    method AddGallery(g: Gallery) returns (o: Outcome)
      requires Valid() && g.id == nextGalleryId && HasUser(users, g.userId)
      modifies this
      ensures Valid()
      ensures o == Created(old(nextGalleryId)) && galleries == old(galleries) + [g] && nextGalleryId == old(nextGalleryId) + 1
      ensures posts == old(posts) && categories == old(categories) && pages == old(pages) && images == old(images)
      ensures nextPostId == old(nextPostId) && nextCategoryId == old(nextCategoryId) && nextPageId == old(nextPageId)
    {
      AppendFresh(galleries, g, GalleryId, nextGalleryId);
      LinkedAfterAppend(images, galleries, g);
      galleries := galleries + [g];
      o := Created(nextGalleryId);
      nextGalleryId := nextGalleryId + 1;
    }

    /**
     * `Admin\GalleryController::store` behind `StoreGalleryRequest`: every
     * signed-in user passes `authorize`; an invalid form is rejected with the
     * failing fields; otherwise a gallery owned by the acting user, with the
     * slug of its title.
     */
    method StoreGallery(actor: Viewer, req: Request, now: Time) returns (o: Outcome)
      requires Valid() && actor.User? && HasUser(users, actor.id)
      modifies this
      ensures Valid()
      ensures !Passes(req, GalleryRules, parseDate) ==> o == Invalid(FailingFields(req, GalleryRules, parseDate)) && galleries == old(galleries)
      ensures Passes(req, GalleryRules, parseDate) ==>
        && o == Created(old(nextGalleryId))
        && galleries == old(galleries) + [NewGallery(GalleryDataOf(Validated(req, GalleryRules), parseDate), old(nextGalleryId), actor.id, now, slugify)]
      ensures nextGalleryId == old(nextGalleryId) + (if o.Created? then 1 else 0)
      ensures posts == old(posts) && categories == old(categories) && pages == old(pages) && images == old(images)
      ensures nextPostId == old(nextPostId) && nextCategoryId == old(nextCategoryId) && nextPageId == old(nextPageId)
    {
      match Resolve(AuthorizeStoreGallery(actor), req, GalleryRules, parseDate)
      case Unauthorized =>
        assert false;
      case Rejected(fields) =>
        o := Invalid(fields);
      case Accepted(data) =>
        var g := NewGallery(GalleryDataOf(data, parseDate), nextGalleryId, actor.id, now, slugify);
        o := AddGallery(g);
    }

    /** The gallery at `k` is rewritten under its id and owner. */
    method ReplaceGallery(k: nat, g: Gallery)
      requires Valid() && k < |galleries| && g.id == galleries[k].id && g.userId == galleries[k].userId
      modifies this
      ensures Valid()
      ensures galleries == old(galleries)[k := g]
      ensures posts == old(posts) && categories == old(categories) && pages == old(pages) && images == old(images)
      ensures nextPostId == old(nextPostId) && nextCategoryId == old(nextCategoryId)
      ensures nextPageId == old(nextPageId) && nextGalleryId == old(nextGalleryId)
    {
      ReplaceSameId(galleries, k, g, GalleryId, nextGalleryId);
      LinkedAfterReplace(images, galleries, k, g);
      galleries := galleries[k := g];
    }

    /**
     * `Admin\GalleryController::update` behind `UpdateGalleryRequest`: the
     * gallery is bound by id first, then the actor must be an admin or its
     * owner, then the form must pass; the gallery is rewritten by
     * `UpdatedGallery`, which keeps its owner.
     */
    method UpdateGallery(actor: Viewer, id: nat, req: Request) returns (o: Outcome)
      requires Valid() && actor.User?
      modifies this
      ensures Valid()
      ensures match IndexWhere(old(galleries), Is(GalleryId, id))
        case None => o == NotFound && galleries == old(galleries)
        case Some(k) =>
          match Resolve(AuthorizeUpdateGallery(actor, old(galleries)[k]), req, GalleryRules, parseDate)
          case Unauthorized => o == Forbidden && galleries == old(galleries)
          case Rejected(fields) => o == Invalid(fields) && galleries == old(galleries)
          case Accepted(data) =>
            o == Updated && galleries == old(galleries)[k := UpdatedGallery(old(galleries)[k], GalleryDataOf(data, parseDate), slugify)]
      ensures posts == old(posts) && categories == old(categories) && pages == old(pages) && images == old(images)
      ensures nextPostId == old(nextPostId) && nextCategoryId == old(nextCategoryId)
      ensures nextPageId == old(nextPageId) && nextGalleryId == old(nextGalleryId)
    {
      match IndexWhere(galleries, Is(GalleryId, id))
      case None =>
        o := NotFound;
      case Some(k) =>
        match Resolve(AuthorizeUpdateGallery(actor, galleries[k]), req, GalleryRules, parseDate)
        case Unauthorized =>
          o := Forbidden;
        case Rejected(fields) =>
          o := Invalid(fields);
        case Accepted(data) =>
          ReplaceGallery(k, UpdatedGallery(galleries[k], GalleryDataOf(data, parseDate), slugify));
          o := Updated;
    }

    /** The gallery at `k` and, by the cascade, its images are removed. */
    method RemoveGallery(k: nat) returns (o: Outcome)
      requires Valid() && k < |galleries|
      modifies this
      ensures Valid()
      ensures o == Deleted && galleries == RemoveAt(old(galleries), k)
      ensures images == KeptImages(old(images), old(galleries)[k].id)
      ensures posts == old(posts) && categories == old(categories) && pages == old(pages)
      ensures nextPostId == old(nextPostId) && nextCategoryId == old(nextCategoryId)
      ensures nextPageId == old(nextPageId) && nextGalleryId == old(nextGalleryId)
    {
      var kept := CascadeImages(images, galleries[k].id);
      LinkedAfterCascade(images, galleries, k);
      RemoveKeeps(galleries, k, GalleryId, nextGalleryId);
      galleries := RemoveAt(galleries, k);
      images := kept;
      o := Deleted;
    }

    /**
     * `Admin\GalleryController::destroy`: the gallery is removed, and the
     * foreign key's cascade removes exactly its images; images of other
     * galleries stay, in their order.
     */
    method DestroyGallery(id: nat) returns (o: Outcome)
      requires Valid()
      modifies this
      ensures Valid()
      ensures match IndexWhere(old(galleries), Is(GalleryId, id))
        case None => o == NotFound && galleries == old(galleries) && images == old(images)
        case Some(k) => o == Deleted && galleries == RemoveAt(old(galleries), k) && images == KeptImages(old(images), id)
      ensures posts == old(posts) && categories == old(categories) && pages == old(pages)
      ensures nextPostId == old(nextPostId) && nextCategoryId == old(nextCategoryId)
      ensures nextPageId == old(nextPageId) && nextGalleryId == old(nextGalleryId)
    {
      match IndexWhere(galleries, Is(GalleryId, id))
      case None =>
        o := NotFound;
      case Some(k) =>
        o := RemoveGallery(k);
    }

    // ------------------------------------------------------------------
    // Dashboard
    // ------------------------------------------------------------------

    /**
     * The admin dashboard over the stored tables. Every post and gallery of a
     * valid store has its owner among the users, so both activity feeds can
     * name the author of each entry. Nothing is changed.
     */
    method ShowDashboard() returns (stats: Stats, postFeed: seq<Activity>, galleryFeed: seq<Activity>)
      requires Valid()
      ensures stats == DashboardStats(posts, categories, pages, galleries, users)
      ensures postFeed == RecentPostActivity(posts, users)
      ensures galleryFeed == RecentGalleryActivity(galleries, users)
    {
      assert forall p :: p in posts ==> HasUser(users, p.userId) by {
        forall p | p in posts ensures HasUser(users, p.userId) {
          var i :| 0 <= i < |posts| && posts[i] == p;
        }
      }
      assert forall g :: g in galleries ==> HasUser(users, g.userId) by {
        forall g | g in galleries ensures HasUser(users, g.userId) {
          var i :| 0 <= i < |galleries| && galleries[i] == g;
        }
      }
      stats := DashboardStats(posts, categories, pages, galleries, users);
      postFeed := RecentPostActivity(posts, users);
      galleryFeed := RecentGalleryActivity(galleries, users);
    }
  }
}
