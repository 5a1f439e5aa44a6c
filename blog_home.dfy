/**
 * The five listings of the blog home page. Each is a function of the stored
 * tables, so building the page writes nothing.
 */
module BlogHome {
  import opened Common
  import opened Query
  import opened Entities
  import opened GalleryModel

  /** `published()->featured()->latest('published_at')->take(3)`. */
  function FeaturedPosts(posts: seq<Post>): (r: seq<Post>)
    ensures |r| == Min(3, Count(posts, IsPublishedFeatured))
    ensures forall p :: p in r ==> p in posts && p.status == Published && p.isFeatured
    ensures SortedDesc(r, PublishedKey)
    ensures forall p, q :: p in r && q in posts && IsPublishedFeatured(q) && q !in r ==>
              PublishedKey(q) <= PublishedKey(p)
  {
    TopWhere(posts, IsPublishedFeatured, PublishedKey, 3)
  }

  /** `published()->latest('published_at')->take(6)`. */
  function RecentPosts(posts: seq<Post>): (r: seq<Post>)
    ensures |r| == Min(6, Count(posts, IsPublished))
    ensures forall p :: p in r ==> p in posts && p.status == Published
    ensures SortedDesc(r, PublishedKey)
    ensures forall p, q :: p in r && q in posts && IsPublished(q) && q !in r ==>
              PublishedKey(q) <= PublishedKey(p)
  {
    TopWhere(posts, IsPublished, PublishedKey, 6)
  }

  /** `withCount(['posts' => published()])` for one category. */
  function PublishedCount(c: Category, posts: seq<Post>): (r: CategoryCount)
    ensures r.category == c
    ensures r.postsCount == Count(posts, PublishedIn(c.id))
    ensures r.postsCount <= Count(posts, InCategory(c.id))
  {
    CountMonotone(posts, PublishedIn(c.id), InCategory(c.id));
    CategoryCount(c, Count(posts, PublishedIn(c.id)))
  }

  /** `withCount(['posts' => published()])` on a list of categories, which keeps its order. */
  function WithCounts(categories: seq<Category>, posts: seq<Post>): (r: seq<CategoryCount>)
    ensures |r| == |categories|
    ensures forall i :: 0 <= i < |r| ==> r[i] == PublishedCount(categories[i], posts)
  {
    if categories == [] then []
    else [PublishedCount(categories[0], posts)] + WithCounts(categories[1..], posts)
  }

  /** `Category::active()->orderBy('sort_order')`: the active categories, in ascending `sort_order`. */
  function ActiveInOrder(categories: seq<Category>): (t: seq<Category>)
    ensures |t| == Count(categories, CategoryIsActive)
    ensures forall i :: 0 <= i < |t| ==> t[i] in categories && t[i].isActive
    ensures SortedAsc(t, CategoryOrderKey)
  {
    WhereAsc(categories, CategoryIsActive, CategoryOrderKey)
  }

  /**
   * `Category::active()->withCount(published posts)->orderBy('sort_order')`:
   * every active category, each once per stored row, in ascending
   * `sort_order`, with the number of its published posts.
   */
  function HomeCategories(categories: seq<Category>, posts: seq<Post>): (r: seq<CategoryCount>)
    ensures |r| == Count(categories, CategoryIsActive)
    ensures forall i :: 0 <= i < |r| ==> r[i].category in categories && r[i].category.isActive
    ensures forall i :: 0 <= i < |r| ==> r[i].postsCount == Count(posts, PublishedIn(r[i].category.id))
    ensures forall i, j :: 0 <= i < j < |r| ==> CategoryOrderKey(r[i].category) <= CategoryOrderKey(r[j].category)
  {
    WithCounts(ActiveInOrder(categories), posts)
  }

  /** Every active category is listed, with its published count. */
  lemma HomeListsEveryActive(categories: seq<Category>, posts: seq<Post>, c: Category)
    requires c in categories && c.isActive
    ensures PublishedCount(c, posts) in HomeCategories(categories, posts)
  {
    var t := ActiveInOrder(categories);
    var r := WithCounts(t, posts);
    var i :| 0 <= i < |t| && t[i] == c;
    assert r[i] == PublishedCount(c, posts);
  }

  /**
   * Adding a post that is not published leaves every home-page category
   * count as it was: drafts and archived posts are never counted.
   */
  lemma {:induction false} HomeCountsIgnoreUnpublished(categories: seq<Category>, posts: seq<Post>, p: Post)
    requires p.status != Published
    ensures HomeCategories(categories, posts + [p]) == HomeCategories(categories, posts)
  {
    CountsIgnoreUnpublished(ActiveInOrder(categories), posts, p);
  }

  lemma {:induction false} CountsIgnoreUnpublished(categories: seq<Category>, posts: seq<Post>, p: Post)
    requires p.status != Published
    ensures WithCounts(categories, posts + [p]) == WithCounts(categories, posts)
    decreases |categories|
  {
    if categories != [] {
      FilterAppend(posts, [p], PublishedIn(categories[0].id));
      assert Filter([p], PublishedIn(categories[0].id)) == [];
      CountsIgnoreUnpublished(categories[1..], posts, p);
    }
  }

  /** The home page's gallery filter: `active()->featured()`. */
  predicate ActiveAndFeatured(g: Gallery)
  {
    Active(g) && Featured(g)
  }

  /** The combined filter keeps the galleries both scopes, applied in turn, keep. */
  lemma ActiveAndFeaturedIsScopes(galleries: seq<Gallery>)
    ensures Filter(galleries, ActiveAndFeatured) == FeaturedGalleries(ActiveGalleries(galleries))
    decreases |galleries|
  {
    if galleries != [] {
      ActiveAndFeaturedIsScopes(galleries[1..]);
    }
  }

  /**
   * `Gallery::active()->featured()->latest()->take(3)`: at most three active,
   * featured galleries, newest-created first, none left out newer than one
   * shown.
   */
  function HomeGalleryList(galleries: seq<Gallery>): (r: seq<Gallery>)
    ensures |r| == Min(3, Count(galleries, ActiveAndFeatured))
    ensures forall i :: 0 <= i < |r| ==> r[i] in galleries && r[i].isActive && r[i].isFeatured
    ensures SortedDesc(r, GalleryCreatedKey)
    ensures forall g, h :: g in r && h in galleries && h.isActive && h.isFeatured && h !in r ==> h.createdAt <= g.createdAt
  {
    TopWhere(galleries, ActiveAndFeatured, GalleryCreatedKey, 3)
  }

  /** The same galleries, each with the first four of its images eager-loaded (`with(['images' => take(4)])`). */
  function HomeGalleries(galleries: seq<Gallery>, images: seq<GalleryImage>): (r: seq<GalleryCard>)
    ensures |r| == |HomeGalleryList(galleries)|
    ensures forall i :: 0 <= i < |r| ==> r[i] == Card(HomeGalleryList(galleries)[i], images, 4)
  {
    WithImages(HomeGalleryList(galleries), images, 4)
  }

  /** A link of the main menu: only the title and slug columns are selected. */
  datatype MenuLink = MenuLink(title: string, slug: string)

  function Link(p: Page): MenuLink
  {
    MenuLink(p.title, p.slug)
  }

  /**
   * `Page::active()->inMenu()->get(['title', 'slug'])`: one link per page
   * that is active and in the menu, in stored order (no ordering is asked).
   */
  function MenuPages(pages: seq<Page>): (r: seq<MenuLink>)
    ensures |r| == Count(pages, InMenu)
    ensures forall i :: 0 <= i < |r| ==> exists p :: p in pages && p.isActive && p.showInMenu && r[i] == Link(p)
  {
    var m := Filter(pages, InMenu);
    assert forall i :: 0 <= i < |m| ==> m[i] in m;
    seq(|m|, i requires 0 <= i < |m| => Link(m[i]))
  }

  /** Every active page that is in the menu has its link in the menu. */
  lemma MenuListsEveryMenuPage(pages: seq<Page>, p: Page)
    requires p in pages && p.isActive && p.showInMenu
    ensures Link(p) in MenuPages(pages)
  {
    var m := Filter(pages, InMenu);
    var i :| 0 <= i < |m| && m[i] == p;
    assert MenuPages(pages)[i] == Link(p);
  }
}
