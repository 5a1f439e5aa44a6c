/**
 * The admin category controller's record-building rules and its listing:
 * the slug always follows the name, the listing counts posts of every
 * status, and the delete guard (applied by `ContentStore.Store`) counts them
 * the same way.
 */
module AdminCategories {
  import opened Common
  import opened Query
  import opened Entities
  import opened BlogHome

  /**
   * The validated data of a category form. The category request classes are
   * not part of this model; the data is taken to carry every column.
   */
  datatype CategoryData = CategoryData(
    name: string,
    description: Option<string>,
    color: string,
    isActive: bool,
    sortOrder: int)

  /** The category `store` creates: the slug is derived from the name. */
  function NewCategory(data: CategoryData, id: nat, now: Time, slugify: string -> string): (c: Category)
    ensures c.id == id && c.createdAt == now
    ensures c.slug == slugify(data.name)
    ensures c.name == data.name && c.isActive == data.isActive && c.sortOrder == data.sortOrder
    ensures c.description == data.description && c.color == data.color
  {
    Category(id, data.name, slugify(data.name), data.description, data.color, data.isActive, data.sortOrder, now)
  }

  /** The category after `update`: the slug is derived again from the new name; id and creation time are kept. */
  function UpdatedCategory(c: Category, data: CategoryData, slugify: string -> string): (u: Category)
    ensures u.id == c.id && u.createdAt == c.createdAt
    ensures u.slug == slugify(data.name)
    ensures u.name == data.name && u.isActive == data.isActive && u.sortOrder == data.sortOrder
    ensures u.description == data.description && u.color == data.color
  {
    c.(name := data.name, slug := slugify(data.name), description := data.description, color := data.color,
       isActive := data.isActive, sortOrder := data.sortOrder)
  }

  /** `withCount('posts')` for one category: its posts of every status. */
  function AllPostsCount(c: Category, posts: seq<Post>): (r: CategoryCount)
    ensures r.category == c
    ensures r.postsCount == Count(posts, InCategory(c.id))
    ensures r.postsCount >= PublishedCount(c, posts).postsCount
  {
    CategoryCount(c, Count(posts, InCategory(c.id)))
  }

  /** `withCount('posts')` on a list of categories, which keeps its order. */
  function WithAllCounts(categories: seq<Category>, posts: seq<Post>): (r: seq<CategoryCount>)
    ensures |r| == |categories|
    ensures forall i :: 0 <= i < |r| ==> r[i] == AllPostsCount(categories[i], posts)
  {
    if categories == [] then []
    else [AllPostsCount(categories[0], posts)] + WithAllCounts(categories[1..], posts)
  }

  /** `orderBy('sort_order')->paginate(15)` on every category, active or not. */
  function AdminCategoryList(categories: seq<Category>, page: int): (r: seq<Category>)
    ensures |r| <= AdminPageSize
    ensures forall c :: c in r ==> c in categories
    ensures SortedAsc(r, CategoryOrderKey)
    ensures r == [] <==> PageStart(page, AdminPageSize) >= |categories|
    ensures PageStart(page, AdminPageSize) < |categories| ==>
              |r| == Min(AdminPageSize, |categories| - PageStart(page, AdminPageSize))
  {
    PageAsc(categories, CategoryOrderKey, page, AdminPageSize)
  }

  /** No category on a later page of the listing ranks below one on an earlier page. */
  lemma AdminCategoryListOrdered(categories: seq<Category>, p1: int, p2: int, x: Category, y: Category)
    requires 1 <= p1 < p2
    requires x in AdminCategoryList(categories, p1) && y in AdminCategoryList(categories, p2)
    ensures CategoryOrderKey(x) <= CategoryOrderKey(y)
  {
    PageAscOrdered(categories, CategoryOrderKey, AdminPageSize, p1, p2, x, y);
  }

  /** The first page shows the leading categories: none left off it is lower in sort order than one shown. */
  lemma AdminCategoryListFirst(categories: seq<Category>)
    ensures forall x, y :: x in AdminCategoryList(categories, 1) && y in multiset(categories) - multiset(AdminCategoryList(categories, 1)) ==>
              CategoryOrderKey(x) <= CategoryOrderKey(y)
  {
    PageAscFirst(categories, CategoryOrderKey, AdminPageSize);
  }

  /**
   * `Category::withCount('posts')->orderBy('sort_order')->paginate(15)`: one
   * page of categories, each with the number of all its posts, drafts and
   * archived ones included.
   */
  function AdminCategoryIndex(categories: seq<Category>, posts: seq<Post>, page: int): (r: seq<CategoryCount>)
    ensures |r| == |AdminCategoryList(categories, page)|
    ensures forall i :: 0 <= i < |r| ==> r[i].category == AdminCategoryList(categories, page)[i]
    ensures forall i :: 0 <= i < |r| ==> r[i].postsCount == Count(posts, InCategory(r[i].category.id))
  {
    WithAllCounts(AdminCategoryList(categories, page), posts)
  }

  /** Every category, inactive ones included, is on some page of the admin index. */
  lemma AdminCategoryListCovers(categories: seq<Category>, c: Category)
    requires c in categories
    ensures exists page :: page >= 1 && c in AdminCategoryList(categories, page)
  {
    PageAscCovers(categories, CategoryOrderKey, AdminPageSize, c);
    var page :| page >= 1 && c in PageAsc(categories, CategoryOrderKey, page, AdminPageSize);
    assert c in AdminCategoryList(categories, page);
  }

  /**
   * A draft of a category raises its admin count by one and leaves its home
   * page count as it was: the two listings count differently.
   */
  lemma DraftCountsOnlyInAdmin(c: Category, posts: seq<Post>, p: Post)
    requires p.categoryId == c.id && p.status == Draft
    ensures AllPostsCount(c, posts + [p]).postsCount == AllPostsCount(c, posts).postsCount + 1
    ensures PublishedCount(c, posts + [p]).postsCount == PublishedCount(c, posts).postsCount
  {
    FilterAppend(posts, [p], InCategory(c.id));
    FilterAppend(posts, [p], PublishedIn(c.id));
    assert Filter([p], InCategory(c.id)) == [p];
    assert Filter([p], PublishedIn(c.id)) == [];
  }
}
