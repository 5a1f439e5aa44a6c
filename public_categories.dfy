/** The public category page: the published posts of one category, twelve to a page. */
module PublicCategories {
  import opened Common
  import opened Query
  import opened Entities

  const CategoryPageSize: nat := 12

  /**
   * `published()->where('category_id', id)->latest('published_at')->paginate(12)`:
   * a page of at most twelve of the category's published posts, newest
   * publication first; empty exactly when the page starts past the last one.
   */
  function CategoryPosts(posts: seq<Post>, categoryId: nat, page: int): (r: seq<Post>)
    ensures |r| <= CategoryPageSize
    ensures forall q :: q in r ==> q in posts && q.status == Published && q.categoryId == categoryId
    ensures SortedDesc(r, PublishedKey)
    ensures r == [] <==> PageStart(page, CategoryPageSize) >= Count(posts, PublishedIn(categoryId))
    ensures PageStart(page, CategoryPageSize) < Count(posts, PublishedIn(categoryId)) ==>
              |r| == Min(CategoryPageSize, Count(posts, PublishedIn(categoryId)) - PageStart(page, CategoryPageSize))
  {
    PageWhere(posts, PublishedIn(categoryId), PublishedKey, page, CategoryPageSize)
  }

  /** No post on a later page of the listing ranks above one on an earlier page. */
  lemma CategoryPostsOrdered(posts: seq<Post>, categoryId: nat, p1: int, p2: int, x: Post, y: Post)
    requires 1 <= p1 < p2
    requires x in CategoryPosts(posts, categoryId, p1) && y in CategoryPosts(posts, categoryId, p2)
    ensures PublishedKey(y) <= PublishedKey(x)
  {
    PageWhereOrdered(posts, PublishedIn(categoryId), PublishedKey, CategoryPageSize, p1, p2, x, y);
  }

  /** The first page shows the leading posts: none left off it is newer than one shown. */
  lemma CategoryPostsFirst(posts: seq<Post>, categoryId: nat)
    ensures forall x, y :: x in CategoryPosts(posts, categoryId, 1) && y in posts && PublishedIn(categoryId)(y) && y !in CategoryPosts(posts, categoryId, 1) ==>
              PublishedKey(y) <= PublishedKey(x)
  {
    PageWhereFirst(posts, PublishedIn(categoryId), PublishedKey, CategoryPageSize);
  }

  /** Every published post of the category is on one of its pages. */
  lemma CategoryPostsCover(posts: seq<Post>, q: Post)
    requires q in posts && q.status == Published
    ensures exists page :: page >= 1 && q in CategoryPosts(posts, q.categoryId, page)
  {
    PageWhereCovers(posts, PublishedIn(q.categoryId), PublishedKey, CategoryPageSize, q);
    var page :| page >= 1 && q in PageWhere(posts, PublishedIn(q.categoryId), PublishedKey, page, CategoryPageSize);
    assert q in CategoryPosts(posts, q.categoryId, page);
  }

  datatype CategoryView = CategoryView(category: Category, posts: seq<Post>)

  /**
   * `show`: the category with the slug and one page of its published posts,
   * or nothing (a 404) when no category has the slug. The category's own
   * `is_active` is not consulted.
   */
  function ShowCategory(categories: seq<Category>, posts: seq<Post>, slug: string, page: int): (r: Option<CategoryView>)
    ensures r.Some? <==> exists c :: c in categories && c.slug == slug
    ensures r.Some? ==> r.value.category in categories && r.value.category.slug == slug
    ensures r.Some? ==> r.value.posts == CategoryPosts(posts, r.value.category.id, page)
  {
    match FindBy(categories, CategorySlug, slug)
    case None => None
    case Some(c) => Some(CategoryView(c, CategoryPosts(posts, c.id, page)))
  }

  /** With unique slugs, every category is shown by its slug, inactive or not. */
  lemma ShowCategoryIgnoresActive(categories: seq<Category>, posts: seq<Post>, c: Category, page: int)
    requires DistinctBy(categories, CategorySlug) && c in categories
    ensures ShowCategory(categories, posts, c.slug, page) == Some(CategoryView(c, CategoryPosts(posts, c.id, page)))
  {
    FindByUnique(categories, CategorySlug, c);
  }
}
