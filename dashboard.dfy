/**
 * The admin dashboard: counts over every table and the two recent-activity
 * feeds. Like the home page, it is a function of the stored tables.
 */
module Dashboard {
  import opened Common
  import opened Query
  import opened Entities
  import opened GalleryModel

  /** `total` and `active` of a table. */
  datatype TableCounts = TableCounts(total: nat, active: nat)

  datatype PostStats = PostStats(total: nat, published: nat, draft: nat, recent: seq<Post>)

  datatype UserStats = UserStats(total: nat, admins: nat, active: nat)

  datatype Stats = Stats(
    posts: PostStats,
    categories: TableCounts,
    pages: TableCounts,
    galleries: TableCounts,
    users: UserStats)

  /** `Model::count()` and `Model::active()->count()`: the active rows never outnumber the table. */
  function CountsOf<T(!new)>(s: seq<T>, active: T -> bool): (r: TableCounts)
    ensures r.total == |s|
    ensures r.active == Count(s, active)
    ensures r.active <= r.total
  {
    TableCounts(|s|, Count(s, active))
  }

  /** `Post::latest()->take(5)`: the five newest-created posts of any status. */
  function LatestPosts(posts: seq<Post>): (r: seq<Post>)
    ensures |r| == Min(5, |posts|)
    ensures forall p :: p in r ==> p in posts
    ensures SortedDesc(r, PostCreatedKey)
    ensures forall p, q :: p in r && q in multiset(posts) - multiset(r) ==> q.createdAt <= p.createdAt
  {
    TopIn(posts, PostCreatedKey, 5);
    Top(posts, PostCreatedKey, 5)
  }

  /**
   * The post figures: every post, the published ones, the drafts (so
   * archived posts are only in the total), and the latest five.
   */
  function PostStatsOf(posts: seq<Post>): (r: PostStats)
    ensures r.total == |posts|
    ensures r.published == Count(posts, IsPublished)
    ensures r.draft == Count(posts, IsDraft)
    ensures r.published + r.draft <= r.total
    ensures r.recent == LatestPosts(posts)
  {
    CountDisjoint(posts, IsPublished, IsDraft);
    PostStats(|posts|, Count(posts, IsPublished), Count(posts, IsDraft), LatestPosts(posts))
  }

  /** The user figures: administrators and active users are each among all users. */
  function UserStatsOf(users: seq<UserRecord>): (r: UserStats)
    ensures r.total == |users|
    ensures r.admins == Count(users, UserIsAdmin) && r.admins <= r.total
    ensures r.active == Count(users, UserIsActive) && r.active <= r.total
  {
    UserStats(|users|, Count(users, UserIsAdmin), Count(users, UserIsActive))
  }

  /** The `stats` the dashboard shows. */
  function DashboardStats(posts: seq<Post>, categories: seq<Category>, pages: seq<Page>,
                          galleries: seq<Gallery>, users: seq<UserRecord>): (r: Stats)
    ensures r.posts == PostStatsOf(posts)
    ensures r.categories == CountsOf(categories, CategoryIsActive)
    ensures r.pages == CountsOf(pages, PageIsActive)
    ensures r.galleries == CountsOf(galleries, Active)
    ensures r.users == UserStatsOf(users)
  {
    Stats(PostStatsOf(posts), CountsOf(categories, CategoryIsActive), CountsOf(pages, PageIsActive),
          CountsOf(galleries, Active), UserStatsOf(users))
  }

  /** An archived post counts in the total but neither as published nor as a draft. */
  lemma ArchivedOnlyInTotal(posts: seq<Post>, p: Post)
    requires p.status == Archived
    ensures PostStatsOf(posts + [p]).total == PostStatsOf(posts).total + 1
    ensures PostStatsOf(posts + [p]).published == PostStatsOf(posts).published
    ensures PostStatsOf(posts + [p]).draft == PostStatsOf(posts).draft
  {
    FilterAppend(posts, [p], IsPublished);
    FilterAppend(posts, [p], IsDraft);
    assert Filter([p], IsPublished) == [];
    assert Filter([p], IsDraft) == [];
  }

  datatype ActivityKind = PostActivity | GalleryActivity

  /**
   * An entry of `recentActivity`. The entry's route URL is modelled by the id
   * of the record it leads to; `status` is given only for posts.
   */
  datatype Activity = Activity(kind: ActivityKind, title: string, user: string, date: Time,
                               status: Option<Status>, link: nat)

  /** `$record->user->name`: the name of the user with the id (a foreign key, so present). */
  function UserName(users: seq<UserRecord>, id: nat): (name: string)
    requires HasUser(users, id)
    ensures exists u :: u in users && u.id == id && u.name == name
  {
    match FindBy(users, UserId, id)
    case Some(u) => u.name
    case None => assert false; ""
  }

  function PostEntry(p: Post, users: seq<UserRecord>): (a: Activity)
    requires HasUser(users, p.userId)
    ensures a.kind == PostActivity && a.link == p.id && a.date == p.createdAt
    ensures a.title == p.title && a.status == Some(p.status) && a.user == UserName(users, p.userId)
  {
    Activity(PostActivity, p.title, UserName(users, p.userId), p.createdAt, Some(p.status), p.id)
  }

  function GalleryEntry(g: Gallery, users: seq<UserRecord>): (a: Activity)
    requires HasUser(users, g.userId)
    ensures a.kind == GalleryActivity && a.link == g.id && a.date == g.createdAt
    ensures a.title == g.title && a.status.None? && a.user == UserName(users, g.userId)
  {
    Activity(GalleryActivity, g.title, UserName(users, g.userId), g.createdAt, None, g.id)
  }

  function PostEntries(ps: seq<Post>, users: seq<UserRecord>): (r: seq<Activity>)
    requires forall p :: p in ps ==> HasUser(users, p.userId)
    ensures |r| == |ps|
    ensures forall i :: 0 <= i < |r| ==> r[i] == PostEntry(ps[i], users)
  {
    if ps == [] then [] else [PostEntry(ps[0], users)] + PostEntries(ps[1..], users)
  }

  function GalleryEntries(gs: seq<Gallery>, users: seq<UserRecord>): (r: seq<Activity>)
    requires forall g :: g in gs ==> HasUser(users, g.userId)
    ensures |r| == |gs|
    ensures forall i :: 0 <= i < |r| ==> r[i] == GalleryEntry(gs[i], users)
  {
    if gs == [] then [] else [GalleryEntry(gs[0], users)] + GalleryEntries(gs[1..], users)
  }

  /**
   * `recentActivity.posts`: entries for the five newest-created posts, newest
   * first, each naming its author and leading to its post.
   */
  function RecentPostActivity(posts: seq<Post>, users: seq<UserRecord>): (r: seq<Activity>)
    requires forall p :: p in posts ==> HasUser(users, p.userId)
    ensures |r| == Min(5, |posts|)
    ensures forall i :: 0 <= i < |r| ==> r[i] == PostEntry(LatestPosts(posts)[i], users)
    ensures forall i, j :: 0 <= i < j < |r| ==> r[i].date >= r[j].date
  {
    var t := LatestPosts(posts);
    PostEntries(t, users)
  }

  /** `Gallery::latest()->take(3)`: the three newest-created galleries, active or not. */
  function LatestGalleries(galleries: seq<Gallery>): (r: seq<Gallery>)
    ensures |r| == Min(3, |galleries|)
    ensures forall g :: g in r ==> g in galleries
    ensures SortedDesc(r, GalleryCreatedKey)
    ensures forall g, h :: g in r && h in multiset(galleries) - multiset(r) ==> h.createdAt <= g.createdAt
  {
    TopIn(galleries, GalleryCreatedKey, 3);
    Top(galleries, GalleryCreatedKey, 3)
  }

  /** `recentActivity.galleries`: entries for the three newest-created galleries, newest first. */
  function RecentGalleryActivity(galleries: seq<Gallery>, users: seq<UserRecord>): (r: seq<Activity>)
    requires forall g :: g in galleries ==> HasUser(users, g.userId)
    ensures |r| == Min(3, |galleries|)
    ensures forall i :: 0 <= i < |r| ==> r[i] == GalleryEntry(LatestGalleries(galleries)[i], users)
    ensures forall i, j :: 0 <= i < j < |r| ==> r[i].date >= r[j].date
  {
    GalleryEntries(LatestGalleries(galleries), users)
  }
}
