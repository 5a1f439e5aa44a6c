/**
 * The admin post controller's record-building rules: how `store` and
 * `update` turn validated data into a post (slug from the title, owner from
 * the acting user, the publication timestamp rule), and the admin listing.
 * Writing the record into the store is done by `ContentStore.Store`.
 */
module AdminPosts {
  import opened Common
  import opened Query
  import opened Entities

  /**
   * The validated data of a post form. The post request classes are not part
   * of this model; the data is taken to carry every column, with
   * `published_at` either absent, null or a time.
   */
  datatype PostData = PostData(
    title: string,
    excerpt: Option<string>,
    content: string,
    featuredImage: Option<string>,
    status: Status,
    isFeatured: bool,
    publishedAt: Field<Time>,
    categoryId: nat)

  /**
   * The `published_at` that `store` writes: a published post without a given
   * timestamp (absent or null, so not `isset`) gets `now`; otherwise the
   * field is written as given, and a post created published always has one.
   */
  function StorePublishedAt(data: PostData, now: Time): (r: Option<Time>)
    ensures data.publishedAt.Given? ==> r == Some(data.publishedAt.value)
    ensures data.status == Published && !data.publishedAt.Given? ==> r == Some(now)
    ensures data.status != Published ==> r == FieldOrNull(data.publishedAt)
    ensures data.status == Published ==> r.Some?
    ensures r.Some? ==> data.publishedAt.Given? || data.status == Published
  {
    if data.status == Published && !data.publishedAt.Given? then Some(now)
    else FieldOrNull(data.publishedAt)
  }

  /**
   * The post `store` creates: the slug is derived from the title, the owner is
   * the acting user (the form cannot choose it), views start at zero.
   */
  function NewPost(data: PostData, id: nat, ownerId: nat, now: Time, slugify: string -> string): (p: Post)
    ensures p.id == id && p.userId == ownerId && p.createdAt == now && p.views == 0
    ensures p.slug == slugify(data.title)
    ensures p.title == data.title && p.status == data.status && p.categoryId == data.categoryId
    ensures p.publishedAt == StorePublishedAt(data, now)
    ensures p.excerpt == data.excerpt && p.content == data.content
    ensures p.featuredImage == data.featuredImage && p.isFeatured == data.isFeatured
  {
    Post(id, data.title, slugify(data.title), data.excerpt, data.content, data.featuredImage,
         data.status, data.isFeatured, 0, StorePublishedAt(data, now), ownerId, data.categoryId, now)
  }

  /** Two posts given the same title get the same slug: no suffix is added to tell them apart. */
  lemma SameTitleSameSlug(d1: PostData, d2: PostData, id1: nat, id2: nat, owner1: nat, owner2: nat, t1: Time, t2: Time, slugify: string -> string)
    requires d1.title == d2.title
    ensures NewPost(d1, id1, owner1, t1, slugify).slug == NewPost(d2, id2, owner2, t2, slugify).slug
  {
  }

  /**
   * The `published_at` that `update` leaves on a post that had `previous`:
   * the controller assigns `now` only when the post becomes published and
   * had no timestamp; in every other case the field is written as the data
   * has it (an absent field keeps `previous`).
   */
  function UpdatePublishedAt(previous: Option<Time>, data: PostData, now: Time): (r: Option<Time>)
    ensures data.status == Published && previous.None? ==> r == Some(now)
    ensures previous.Some? ==> r == FieldOver(data.publishedAt, previous)
    ensures data.status != Published ==> r == FieldOver(data.publishedAt, previous)
    ensures data.publishedAt.Absent? && previous.Some? ==> r == previous
  {
    if data.status == Published && previous.None? then Some(now)
    else FieldOver(data.publishedAt, previous)
  }

  /**
   * The post after `update`: the slug is derived again from the new title;
   * id, owner, view count and creation time are kept.
   */
  function UpdatedPost(p: Post, data: PostData, now: Time, slugify: string -> string): (q: Post)
    ensures q.id == p.id && q.userId == p.userId && q.views == p.views && q.createdAt == p.createdAt
    ensures q.slug == slugify(data.title)
    ensures q.title == data.title && q.status == data.status && q.categoryId == data.categoryId
    ensures q.publishedAt == UpdatePublishedAt(p.publishedAt, data, now)
    ensures q.excerpt == data.excerpt && q.content == data.content
    ensures q.featuredImage == data.featuredImage && q.isFeatured == data.isFeatured
  {
    p.(title := data.title, slug := slugify(data.title), excerpt := data.excerpt, content := data.content,
       featuredImage := data.featuredImage, status := data.status, isFeatured := data.isFeatured,
       publishedAt := UpdatePublishedAt(p.publishedAt, data, now), categoryId := data.categoryId)
  }

  /** A run of updates, the `i`-th at time `times[i]`. */
  function ApplyUpdates(p: Post, updates: seq<PostData>, times: seq<Time>, slugify: string -> string): (q: Post)
    requires |updates| == |times|
    ensures q.id == p.id && q.userId == p.userId && q.views == p.views
    decreases |updates|
  {
    if updates == [] then p
    else ApplyUpdates(UpdatedPost(p, updates[0], times[0], slugify), updates[1..], times[1..], slugify)
  }

  /**
   * Once a post has a publication time, updates that do not send
   * `published_at` keep it, whatever status they set and however often the
   * post is re-published.
   */
  lemma {:induction false} UpdatesKeepPublicationTime(p: Post, updates: seq<PostData>, times: seq<Time>, slugify: string -> string)
    requires |updates| == |times| && p.publishedAt.Some?
    requires forall i :: 0 <= i < |updates| ==> updates[i].publishedAt.Absent?
    ensures ApplyUpdates(p, updates, times, slugify).publishedAt == p.publishedAt
    decreases |updates|
  {
    if updates != [] {
      var q := UpdatedPost(p, updates[0], times[0], slugify);
      assert q.publishedAt == p.publishedAt;
      UpdatesKeepPublicationTime(q, updates[1..], times[1..], slugify);
    }
  }

  /**
   * A draft without a publication time that is first updated to published
   * keeps the time of that first publication through every later update that
   * does not send `published_at`.
   */
  lemma FirstPublicationSticks(p: Post, updates: seq<PostData>, times: seq<Time>, slugify: string -> string)
    requires |updates| == |times| > 0 && p.publishedAt.None?
    requires updates[0].status == Published
    requires forall i :: 0 <= i < |updates| ==> updates[i].publishedAt.Absent?
    ensures ApplyUpdates(p, updates, times, slugify).publishedAt == Some(times[0])
  {
    var q := UpdatedPost(p, updates[0], times[0], slugify);
    assert q.publishedAt == Some(times[0]);
    UpdatesKeepPublicationTime(q, updates[1..], times[1..], slugify);
  }

  /**
   * Sending `published_at` as null while the post keeps a status of
   * published clears the time: the controller's rule only fills a missing
   * time when the update itself starts from none.
   */
  lemma NullClearsPublicationTime(p: Post, data: PostData, now: Time, slugify: string -> string)
    requires p.publishedAt.Some? && data.status == Published && data.publishedAt.Null?
    ensures UpdatedPost(p, data, now, slugify).status == Published
    ensures UpdatedPost(p, data, now, slugify).publishedAt.None?
  {
  }

  /**
   * `Post::latest()->paginate(15)`: posts of every status, newest-created
   * first, at most fifteen to a page.
   */
  function AdminPostIndex(posts: seq<Post>, page: int): (r: seq<Post>)
    ensures |r| <= AdminPageSize
    ensures forall p :: p in r ==> p in posts
    ensures SortedDesc(r, PostCreatedKey)
    ensures r == [] <==> PageStart(page, AdminPageSize) >= |posts|
    ensures PageStart(page, AdminPageSize) < |posts| ==>
              |r| == Min(AdminPageSize, |posts| - PageStart(page, AdminPageSize))
  {
    PageDesc(posts, PostCreatedKey, page, AdminPageSize)
  }

  /** No post on a later page of the listing ranks above one on an earlier page. */
  lemma AdminPostIndexOrdered(posts: seq<Post>, p1: int, p2: int, x: Post, y: Post)
    requires 1 <= p1 < p2
    requires x in AdminPostIndex(posts, p1) && y in AdminPostIndex(posts, p2)
    ensures PostCreatedKey(y) <= PostCreatedKey(x)
  {
    PageDescOrdered(posts, PostCreatedKey, AdminPageSize, p1, p2, x, y);
  }

  /** The first page shows the leading posts: none left off it is newer than one shown. */
  lemma AdminPostIndexFirst(posts: seq<Post>)
    ensures forall x, y :: x in AdminPostIndex(posts, 1) && y in multiset(posts) - multiset(AdminPostIndex(posts, 1)) ==>
              PostCreatedKey(y) <= PostCreatedKey(x)
  {
    PageDescFirst(posts, PostCreatedKey, AdminPageSize);
  }

  /** Every post, draft and archived ones included, is on some page of the admin index. */
  lemma AdminPostIndexCovers(posts: seq<Post>, p: Post)
    requires p in posts
    ensures exists page :: page >= 1 && p in AdminPostIndex(posts, page)
  {
    PageDescCovers(posts, PostCreatedKey, AdminPageSize, p);
    var page :| page >= 1 && p in PageDesc(posts, PostCreatedKey, page, AdminPageSize);
    assert p in AdminPostIndex(posts, page);
  }
}
