/**
 * The public post page: who may see a post, and the "related posts" shown
 * beside it. Raising the view counter changes the store and is a method of
 * `ContentStore.Store`; everything here only reads.
 */
module PublicPosts {
  import opened Common
  import opened Query
  import opened Entities

  /** The gate of `show`: a post that is not published is shown to admins only. */
  predicate CanViewPost(p: Post, v: Viewer)
  {
    p.status == Published || IsAdmin(v)
  }

  /**
   * Route-model binding by slug followed by the gate: the post that `show`
   * renders, or nothing (a 404).
   */
  function VisiblePost(posts: seq<Post>, slug: string, v: Viewer): (r: Option<Post>)
    ensures r.Some? ==> r.value in posts && r.value.slug == slug
    ensures r.Some? ==> r.value.status == Published || IsAdmin(v)
    ensures (forall p :: p in posts ==> p.slug != slug) ==> r.None?
    ensures IsAdmin(v) ==> (r.Some? <==> exists p :: p in posts && p.slug == slug)
  {
    match FindBy(posts, PostSlug, slug)
    case None => None
    case Some(p) => if CanViewPost(p, v) then Some(p) else None
  }

  /** The post `VisiblePost` finds is the first with the slug, if the gate lets the viewer see it. */
  lemma VisiblePostAt(posts: seq<Post>, slug: string, v: Viewer)
    ensures match IndexWhere(posts, Is(PostSlug, slug))
      case None => VisiblePost(posts, slug, v).None?
      case Some(k) => VisiblePost(posts, slug, v) == if CanViewPost(posts[k], v) then Some(posts[k]) else None
  {
  }

  /**
   * With unique slugs the gate decides alone: the post with the slug is shown
   * exactly when it is published or the viewer is an admin. A guest and a
   * logged-in non-admin are both refused a draft or archived post.
   */
  lemma VisiblePostGate(posts: seq<Post>, p: Post, v: Viewer)
    requires DistinctBy(posts, PostSlug) && p in posts
    ensures VisiblePost(posts, p.slug, v) == (if p.status == Published || IsAdmin(v) then Some(p) else None)
    ensures p.status != Published && v == Guest ==> VisiblePost(posts, p.slug, v).None?
    ensures p.status != Published && v.User? && v.role == UserRole ==> VisiblePost(posts, p.slug, v).None?
  {
    FindByUnique(posts, PostSlug, p);
  }

  /** The filter of the related-posts query for `post`. */
  function RelatedTo(post: Post): Post -> bool
  {
    (q: Post) => IsPublished(q) && q.categoryId == post.categoryId && q.id != post.id
  }

  /**
   * `published()->where('category_id', ...)->where('id', '!=', ...)
   * ->latest('published_at')->take(3)`: at most three published posts of the
   * same category, the shown post excluded, newest publication first, and
   * none left out that was published later than one shown.
   */
  function RelatedPosts(posts: seq<Post>, post: Post): (r: seq<Post>)
    ensures |r| <= 3
    ensures |r| == Min(3, Count(posts, RelatedTo(post)))
    ensures forall q :: q in r ==> q in posts && q.status == Published && q.categoryId == post.categoryId
    ensures forall q :: q in r ==> q.id != post.id
    ensures post !in r
    ensures SortedDesc(r, PublishedKey)
    ensures forall q, q' :: q in r && q' in posts && RelatedTo(post)(q') && q' !in r ==>
              PublishedKey(q') <= PublishedKey(q)
  {
    TopWhere(posts, RelatedTo(post), PublishedKey, 3)
  }
}
