# Blog and CMS content policy, modelled in Dafny

This project models the content policy of a Laravel blog with an admin area.
That covers the public pages, the admin controllers, the `Gallery` model and
three admin form requests.

**Public side.** A post is shown only when it is published or the viewer is an
administrator, and showing it counts one more view. A static page is shown
only when it is active or the viewer is an administrator. The home page, the
category page and the gallery index are listings: each filters a table, sorts
it on one column and takes a fixed number or a page of records.

**Admin side.**
- Posts, categories, pages and galleries are created, updated and deleted.
- The slug always follows the title (the name, for a category).
- The owner is always the acting user.
- A post that is saved as published gets a publication time if it had none.
- A category that still has posts, of any status, cannot be deleted.
- Deleting a gallery removes its images through the foreign key's cascade.
- The dashboard counts every table and lists the latest posts and galleries.

**Form requests.** The three requests decide who may send them (`authorize`)
and which forms they accept (`rules`).

**How it is modelled.**
- Records are datatypes, and a table is a sequence of them.
- Every read-side listing is a function of the tables. Each is proved to return
  a filtered, sorted and bounded subsequence, and each page or feed is proved
  to reach every record it should.
- Actions that rewrite the tables are methods of the class
  `ContentStore.Store`. Each states its whole new state and keeps `Valid()`:
  - ids are unique and below their counters;
  - page slugs are unique;
  - every post, page and gallery has an owner;
  - every image has its gallery.
- The validator is a small rule engine. For each request, a lemma proves its
  rule list equivalent to a direct description of the forms it accepts.

Time is a natural number. `now`, the acting user and the tables are
parameters. `Str::slug` and the date parser are arbitrary fixed functions.

## Model

| member | source | states |
|---|---|---|
| AdminPosts.StorePublishedAt | app/Http/Controllers/Admin/PostController.php:52-54 | a published post without a given `published_at` gets `now`; a given one is kept; a post that is not published gets only what the form sent; a post created published always has a time |
| AdminPosts.NewPost | app/Http/Controllers/Admin/PostController.php:46-56 | the created post has the acting user as owner whatever the form sent, the slug of its title, zero views, and the `published_at` of `StorePublishedAt`; title, excerpt, content, featured image, status, featured flag and category are the form's |
| AdminPosts.SameTitleSameSlug | app/Http/Controllers/Admin/PostController.php:50 | two posts stored with the same title get the same slug (no de-duplication) |
| AdminPosts.UpdatePublishedAt | app/Http/Controllers/Admin/PostController.php:95-97 | `now` is assigned only when the update publishes a post that had no time; a post with a time, or an update that is not published, gets `published_at` only as the form sent it |
| AdminPosts.UpdatedPost | app/Http/Controllers/Admin/PostController.php:90-99 | the slug is re-derived from the new title; id, owner, views and creation time are kept; title, excerpt, content, featured image, status, featured flag and category are the form's; `published_at` follows `UpdatePublishedAt` |
| AdminPosts.ApplyUpdates | app/Http/Controllers/Admin/PostController.php:90-99 | a run of updates keeps the post's id, owner and view count |
| AdminPosts.UpdatesKeepPublicationTime | app/Http/Controllers/Admin/PostController.php:95 | once a post has a publication time, no run of updates that leaves `published_at` out changes it, whatever statuses they set |
| AdminPosts.FirstPublicationSticks | app/Http/Controllers/Admin/PostController.php:95-97 | a draft first updated to published keeps the time of that first update through every later update that leaves `published_at` out |
| AdminPosts.NullClearsPublicationTime | app/Http/Controllers/Admin/PostController.php:92-99 | an update that sends `published_at` as null clears it, even while the status stays published |
| AdminPosts.AdminPostIndex | app/Http/Controllers/Admin/PostController.php:22-24 | at most 15 posts of any status, newest-created first, empty exactly past the last page; every page before the last is full |
| AdminPosts.AdminPostIndexCovers | app/Http/Controllers/Admin/PostController.php:22-24 | every post, drafts and archived ones too, is on some page of the admin index |
| AdminPosts.AdminPostIndexOrdered | app/Http/Controllers/Admin/PostController.php:22-24 | no post on a later page was created after a post on an earlier page |
| AdminPosts.AdminPostIndexFirst | app/Http/Controllers/Admin/PostController.php:22-24 | no post left off page 1 was created after a post on it |
| PublicPosts.VisiblePost | app/Http/Controllers/PostController.php:14-19 | a shown post has the slug and is published, or the viewer is an admin; an unknown slug shows nothing; an admin sees a post exactly when one has the slug |
| PublicPosts.VisiblePostAt | app/Http/Controllers/PostController.php:14-19 | the post bound is the first with the slug, and it is shown exactly when the gate admits the viewer |
| PublicPosts.VisiblePostGate | app/Http/Controllers/PostController.php:17-18 | with unique slugs a post is shown exactly when published or the viewer is an admin; a guest and a non-admin user are both refused an unpublished post |
| PublicPosts.RelatedPosts | app/Http/Controllers/PostController.php:26-32 | at most 3 published posts of the same category, never the shown post, newest publication first, none left out that was published later than one shown |
| ContentStore.CountedView | app/Http/Controllers/PostController.php:17-22 | nothing is counted exactly when nothing is shown; otherwise the counted record is the shown post with one more view, at its position in the table |
| ContentStore.CountedViewGate | app/Http/Controllers/PostController.php:17-22 | with unique slugs, a view of a post is counted exactly when it is published or the viewer is an admin, and then on that post, with nothing but `views` changed, by exactly 1 |
| ContentStore.Store.ShowPost | app/Http/Controllers/PostController.php:14-38 | a refused or unknown slug changes nothing; a shown post is replaced by its counted record, and the related posts are read from the updated table; other tables are unchanged |
| ContentStore.Store.IncrementViews | app/Http/Controllers/PostController.php:22 | only the viewed post's record changes |
| PublicPages.ShowPage | app/Http/Controllers/PageController.php:14-26 | a shown page has the slug and is active, or the viewer is an admin; an unknown slug shows nothing; the result is a value, so nothing is written |
| PublicPages.ShowPageGate | app/Http/Controllers/PageController.php:17-18 | with unique slugs an active page is shown to everyone, and an inactive one to admins only, never to a guest or a non-admin user |
| BlogHome.FeaturedPosts | app/Http/Controllers/BlogController.php:19-24 | exactly `min(3, n)` published featured posts, newest publication first, none left out published later than one shown |
| BlogHome.RecentPosts | app/Http/Controllers/BlogController.php:26-30 | exactly `min(6, n)` published posts, newest publication first, none left out published later than one shown |
| BlogHome.PublishedCount | app/Http/Controllers/BlogController.php:33-35 | a category's count is the number of its published posts, never more than all its posts |
| BlogHome.WithCounts | app/Http/Controllers/BlogController.php:33-35 | every category of the list, in order, with its published count |
| BlogHome.ActiveInOrder | app/Http/Controllers/BlogController.php:32-36 | as many categories as are active, all active, in ascending `sort_order` |
| BlogHome.HomeCategories | app/Http/Controllers/BlogController.php:32-37 | only active categories, in ascending `sort_order`, each with the number of its published posts |
| BlogHome.HomeListsEveryActive | app/Http/Controllers/BlogController.php:32-37 | every active category is listed with its published count |
| BlogHome.HomeCountsIgnoreUnpublished | app/Http/Controllers/BlogController.php:33-35 | adding a draft or archived post changes no home page category count |
| BlogHome.CountsIgnoreUnpublished | app/Http/Controllers/BlogController.php:33-35 | the same for any list of categories |
| BlogHome.ActiveAndFeaturedIsScopes | app/Http/Controllers/BlogController.php:42-43 | the combined filter selects what `active()` then `featured()` select |
| BlogHome.HomeGalleryList | app/Http/Controllers/BlogController.php:39-46 | exactly `min(3, n)` active featured galleries, newest-created first, none left out newer than one shown |
| BlogHome.HomeGalleries | app/Http/Controllers/BlogController.php:39-46 | each featured gallery carries the first at most 4 of its own images |
| BlogHome.MenuPages | app/Http/Controllers/BlogController.php:48-50 | one (title, slug) link per active page in the menu, and only such links |
| BlogHome.MenuListsEveryMenuPage | app/Http/Controllers/BlogController.php:48-50 | every active page in the menu has its link in the menu |
| PublicCategories.CategoryPosts | app/Http/Controllers/CategoryController.php:17-21 | at most 12 published posts of the category, newest publication first, empty exactly past the last page; every page before the last is full |
| PublicCategories.CategoryPostsCover | app/Http/Controllers/CategoryController.php:17-21 | every published post is on some page of its category |
| PublicCategories.CategoryPostsOrdered | app/Http/Controllers/CategoryController.php:17-21 | no post on a later page of the category was published after a post on an earlier page |
| PublicCategories.CategoryPostsFirst | app/Http/Controllers/CategoryController.php:17-21 | no published post of the category left off page 1 was published after a post on it |
| PublicCategories.ShowCategory | app/Http/Controllers/CategoryController.php:15-26 | a category is shown exactly when one has the slug, with that category's page of posts |
| PublicCategories.ShowCategoryIgnoresActive | app/Http/Controllers/CategoryController.php:15-26 | with unique slugs every category is shown by its slug, inactive ones too |
| PublicGalleries.GalleryIndexList | app/Http/Controllers/GalleryController.php:19-21 | at most 12 active galleries, latest event first, empty exactly past the last page; every page before the last is full |
| PublicGalleries.GalleryIndexListOrdered | app/Http/Controllers/GalleryController.php:19-21 | no active gallery on a later page has a later event than one on an earlier page |
| PublicGalleries.GalleryIndexListFirst | app/Http/Controllers/GalleryController.php:19-21 | no active gallery left off page 1 has a later event than one on it |
| PublicGalleries.GalleryIndexCovers | app/Http/Controllers/GalleryController.php:19-21 | every active gallery is on some index page |
| PublicGalleries.GalleryIndex | app/Http/Controllers/GalleryController.php:16-21 | each listed gallery carries the first at most 4 of its images in `sort_order` |
| PublicGalleries.ShowGallery | app/Http/Controllers/GalleryController.php:31-38 | a gallery is shown exactly when one has the slug, with all of its images |
| PublicGalleries.ShowGalleryShowsAll | app/Http/Controllers/GalleryController.php:31-38 | with unique slugs every gallery is shown by its slug, active or not, with as many images as it owns |
| GalleryModel.Images | app/Models/Gallery.php:98-101 | exactly the gallery's images, as a multiset, in ascending `sort_order` |
| GalleryModel.ActiveGalleries | app/Models/Gallery.php:109-112 | exactly the active galleries, each as often as stored |
| GalleryModel.FeaturedGalleries | app/Models/Gallery.php:120-123 | exactly the featured galleries, each as often as stored |
| GalleryModel.ScopesCommute | app/Models/Gallery.php:109-123 | `active` then `featured` equals `featured` then `active`, and keeps exactly the galleries that are both |
| GalleryModel.ScopesIdempotent | app/Models/Gallery.php:109-123 | applying a scope twice equals applying it once |
| GalleryModel.Card | app/Http/Controllers/GalleryController.php:16-18 | a gallery with the first `min(limit, n)` of its own images in `sort_order` |
| GalleryModel.WithImages | app/Http/Controllers/GalleryController.php:16-18 | every gallery of the list, in order, with its card |
| AdminCategories.NewCategory | app/Http/Controllers/Admin/CategoryController.php:41-46 | the created category holds the form's name, description, color, active flag and sort order, the slug derived from its name, the given id and creation time |
| AdminCategories.UpdatedCategory | app/Http/Controllers/Admin/CategoryController.php:77-82 | name, description, color, active flag and sort order are the form's and the slug is re-derived from the new name; id and creation time are kept |
| AdminCategories.AllPostsCount | app/Http/Controllers/Admin/CategoryController.php:21 | the admin count is of all the category's posts, at least its published count |
| AdminCategories.WithAllCounts | app/Http/Controllers/Admin/CategoryController.php:21 | every category of the list, in order, with the count of all its posts |
| AdminCategories.AdminCategoryList | app/Http/Controllers/Admin/CategoryController.php:21-23 | at most 15 categories, active or not, in ascending `sort_order`, empty exactly past the last page; every page before the last is full |
| AdminCategories.AdminCategoryIndex | app/Http/Controllers/Admin/CategoryController.php:21-23 | that page, each category with the count of all its posts |
| AdminCategories.AdminCategoryListCovers | app/Http/Controllers/Admin/CategoryController.php:21-23 | every category is on some page of the admin index |
| AdminCategories.AdminCategoryListOrdered | app/Http/Controllers/Admin/CategoryController.php:21-23 | no category on a later page has a lower `sort_order` than one on an earlier page |
| AdminCategories.AdminCategoryListFirst | app/Http/Controllers/Admin/CategoryController.php:21-23 | no category left off page 1 has a lower `sort_order` than one on it |
| AdminCategories.DraftCountsOnlyInAdmin | app/Http/Controllers/Admin/CategoryController.php:21 | a new draft raises the admin count by one and leaves the home page count as it was |
| ContentStore.Store.DestroyCategory | app/Http/Controllers/Admin/CategoryController.php:91-98 | refused, with nothing changed, while any post of any status has the category; otherwise exactly that category is removed and posts are untouched |
| ContentStore.Store.StoreCategory | app/Http/Controllers/Admin/CategoryController.php:41-46 | the new category is appended under the next id |
| ContentStore.Store.UpdateCategory | app/Http/Controllers/Admin/CategoryController.php:77-82 | the bound category is rewritten in place; an unknown id changes nothing |
| ContentStore.Store.StorePost | app/Http/Controllers/Admin/PostController.php:46-56 | the new post is appended under the next id; nothing else changes |
| ContentStore.Store.UpdatePost | app/Http/Controllers/Admin/PostController.php:90-99 | the bound post is rewritten in place by `UpdatedPost`; an unknown id changes nothing |
| ContentStore.Store.DestroyPost | app/Http/Controllers/Admin/PostController.php:108-110 | exactly the bound post is removed |
| AdminPages.NewPage | app/Http/Controllers/Admin/PageController.php:41-47 | the created page is owned by the acting user, has the slug of its title, the form's fields, and the column defaults for flags and menu order left out |
| AdminPages.UpdatedPage | app/Http/Controllers/Admin/PageController.php:78-83 | the slug is re-derived from the new title; owner, id and creation time are kept; a field left out keeps its value |
| AdminPages.UpdatePageIdempotent | app/Http/Controllers/Admin/PageController.php:78-83 | applying the same update twice equals applying it once |
| AdminPages.AdminPageIndex | app/Http/Controllers/Admin/PageController.php:21-23 | at most 15 pages, active or not, newest-created first, empty exactly past the last page; every page before the last is full |
| AdminPages.AdminPageIndexCovers | app/Http/Controllers/Admin/PageController.php:21-23 | every page, inactive ones too, is on some page of the admin index |
| AdminPages.AdminPageIndexOrdered | app/Http/Controllers/Admin/PageController.php:21-23 | no page on a later listing page was created after one on an earlier listing page |
| AdminPages.AdminPageIndexFirst | app/Http/Controllers/Admin/PageController.php:21-23 | no page left off the first listing page was created after one on it |
| ContentStore.Store.StorePage | app/Http/Controllers/Admin/PageController.php:41-47 | a non-admin is refused, an invalid form is rejected with its failing fields, a taken slug is refused, and otherwise the new page is appended; in every refusal nothing changes |
| ContentStore.Store.AddPage | app/Http/Controllers/Admin/PageController.php:47 | the page is appended under the next id and page slugs stay unique |
| ContentStore.Store.UpdatePage | app/Http/Controllers/Admin/PageController.php:78-83 | the bound page is rewritten in place unless another page has the new slug |
| ContentStore.Store.DestroyPage | app/Http/Controllers/Admin/PageController.php:92-94 | exactly the bound page is removed |
| AdminGalleries.NewGallery | app/Http/Controllers/Admin/GalleryController.php:42-48 | the created gallery is owned by the acting user, has the slug of its title, and the defaults for flags and order left out |
| AdminGalleries.UpdatedGallery | app/Http/Controllers/Admin/GalleryController.php:79-84 | the slug is re-derived from the new title; owner, id and creation time are kept; a field left out keeps its value |
| AdminGalleries.UpdateKeepsOwner | app/Http/Controllers/Admin/GalleryController.php:81-84 | whatever the form holds, an accepted update leaves the owner unchanged, as the validated data has no `user_id` |
| AdminGalleries.WithImageCounts | app/Http/Controllers/Admin/GalleryController.php:22 | every gallery of the list, in order, with the number of its images |
| AdminGalleries.AdminGalleryList | app/Http/Controllers/Admin/GalleryController.php:21-24 | at most 15 galleries, active or not, newest-created first, empty exactly past the last page; every page before the last is full |
| AdminGalleries.AdminGalleryIndex | app/Http/Controllers/Admin/GalleryController.php:21-24 | that page, each gallery with its image count |
| AdminGalleries.AdminGalleryListCovers | app/Http/Controllers/Admin/GalleryController.php:21-24 | every gallery, inactive ones too, is on some page of the admin index |
| AdminGalleries.AdminGalleryListOrdered | app/Http/Controllers/Admin/GalleryController.php:21-24 | no gallery on a later page was created after one on an earlier page |
| AdminGalleries.AdminGalleryListFirst | app/Http/Controllers/Admin/GalleryController.php:21-24 | no gallery left off page 1 was created after one on it |
| AdminGalleries.KeptImages | database/migrations/2024_01_01_000007_create_gallery_images_table.php:16 | the images left are exactly those of other galleries, and with the deleted gallery's images they make up the whole table |
| ContentStore.CascadeImages | database/migrations/2024_01_01_000007_create_gallery_images_table.php:16 | one pass over the images yields exactly `KeptImages` |
| ContentStore.Store.StoreGallery | app/Http/Controllers/Admin/GalleryController.php:42-48 | an invalid form is rejected with its failing fields; otherwise the new gallery, owned by the acting user, is appended |
| ContentStore.Store.AddGallery | app/Http/Controllers/Admin/GalleryController.php:48 | the gallery is appended under the next id |
| ContentStore.Store.UpdateGallery | app/Http/Controllers/Admin/GalleryController.php:79-84 | an unknown id, a non-admin non-owner and an invalid form each change nothing; otherwise the bound gallery is rewritten in place |
| ContentStore.Store.ReplaceGallery | app/Http/Controllers/Admin/GalleryController.php:84 | only the bound gallery's record changes, and every image keeps its gallery |
| ContentStore.Store.DestroyGallery | app/Http/Controllers/Admin/GalleryController.php:93-95 | exactly the bound gallery is removed, together with exactly its images |
| ContentStore.Store.RemoveGallery | app/Http/Controllers/Admin/GalleryController.php:95 | the gallery and its images go; the other images stay, in order, each with its gallery |
| ContentStore.LinkedAfterCascade | database/migrations/2024_01_01_000007_create_gallery_images_table.php:16 | after the cascade, every remaining image still has its gallery |
| ContentStore.LinkedAfterReplace | database/migrations/2024_01_01_000007_create_gallery_images_table.php:16 | rewriting a gallery under its id keeps every image linked |
| ContentStore.LinkedAfterAppend | database/migrations/2024_01_01_000007_create_gallery_images_table.php:16 | adding a gallery keeps every image linked |
| Dashboard.CountsOf | app/Http/Controllers/Admin/DashboardController.php:30-39 | `total` is the table size and `active` its active rows, never more than the total |
| Dashboard.LatestPosts | app/Http/Controllers/Admin/DashboardController.php:27 | `min(5, n)` posts of the table, newest-created first, none left out newer than one listed |
| Dashboard.PostStatsOf | app/Http/Controllers/Admin/DashboardController.php:24-27 | `published` and `draft` count exactly those statuses, and `published + draft <= total` |
| Dashboard.UserStatsOf | app/Http/Controllers/Admin/DashboardController.php:42-44 | `admins <= total` and `active <= total` |
| Dashboard.DashboardStats | app/Http/Controllers/Admin/DashboardController.php:22-46 | every figure is the count above over its table |
| Dashboard.ArchivedOnlyInTotal | app/Http/Controllers/Admin/DashboardController.php:24-26 | an archived post raises `total` only |
| Dashboard.UserName | app/Http/Controllers/Admin/DashboardController.php:57 | the name is that of the user with the record's `user_id` |
| Dashboard.PostEntry | app/Http/Controllers/Admin/DashboardController.php:53-61 | a post entry carries the post's title, author name, creation time, status and a link to the post |
| Dashboard.GalleryEntry | app/Http/Controllers/Admin/DashboardController.php:67-74 | a gallery entry carries the gallery's title, owner name, creation time and a link, and no status |
| Dashboard.PostEntries | app/Http/Controllers/Admin/DashboardController.php:53-61 | one entry per post, in order |
| Dashboard.GalleryEntries | app/Http/Controllers/Admin/DashboardController.php:67-74 | one entry per gallery, in order |
| Dashboard.RecentPostActivity | app/Http/Controllers/Admin/DashboardController.php:49-62 | at most 5 post entries, for the latest posts, newest first |
| Dashboard.LatestGalleries | app/Http/Controllers/Admin/DashboardController.php:63-66 | `min(3, n)` galleries, newest-created first, none left out newer than one listed |
| Dashboard.RecentGalleryActivity | app/Http/Controllers/Admin/DashboardController.php:63-75 | at most 3 gallery entries, newest first |
| ContentStore.Store.ShowDashboard | app/Http/Controllers/Admin/DashboardController.php:20-78 | on a valid store, where every post and gallery has its owner among the users, the dashboard shows `DashboardStats` and both activity feeds of the stored tables, and changes nothing |
| PageRequests.AuthorizeStorePage | app/Http/Requests/Admin/StorePageRequest.php:12-15 | authorized exactly when the actor is an admin |
| PageRequests.StorePageRulesMeaning | app/Http/Requests/Admin/StorePageRequest.php:22-34 | the rules pass exactly when title, content and template are non-blank strings of at most 255, any and 50 characters; excerpt is null or at most 500; the flags are booleans; menu_order is a non-negative integer; meta_data is null or an array |
| PageRequests.PageDataOf | app/Http/Requests/Admin/StorePageRequest.php:24-33 | the validated title, content and template are read as sent, and an optional field counts as sent exactly when the form holds it |
| PageRequests.AcceptedPageData | app/Http/Requests/Admin/StorePageRequest.php:12-34 | an accepted request comes from an admin and has a title of at most 255 characters, a template of at most 50 and a non-negative menu order |
| GalleryRequests.AuthorizeStoreGallery | app/Http/Requests/Admin/StoreGalleryRequest.php:12-15 | every signed-in user is authorized, the role being admin or user |
| GalleryRequests.AuthorizeUpdateGallery | app/Http/Requests/Admin/UpdateGalleryRequest.php:12-16 | an admin and the gallery's owner are authorized; a non-admin who does not own it is refused |
| GalleryRequests.GalleryRulesMeaning | app/Http/Requests/Admin/StoreGalleryRequest.php:22-33 | the rules pass exactly when the title is a non-blank string of at most 255 characters; description (1000) and cover image (255) are null or short enough; the flags are booleans; sort_order is a non-negative integer; event_date is null or a date |
| GalleryRequests.GalleryDataHasNoOwner | app/Http/Requests/Admin/UpdateGalleryRequest.php:23-34 | the validated data never holds `user_id` or `slug` |
| GalleryRequests.GalleryDataOf | app/Http/Requests/Admin/UpdateGalleryRequest.php:25-33 | the validated title is read as sent, and an optional field counts as sent exactly when the form holds it |
| GalleryRequests.AcceptedGalleryData | app/Http/Requests/Admin/UpdateGalleryRequest.php:26-32 | an accepted form has a title of at most 255 characters and its event date parsed |
| Validation.Resolve | app/Http/Requests/Admin/StorePageRequest.php:12-34 | refused exactly when not authorized; rejected, with the failing fields, exactly when authorized and invalid; otherwise the validated data |
| Validation.FailingFields | app/Http/Requests/Admin/StorePageRequest.php:22-34 | empty exactly when the request passes, and exactly the fields with a failing rule |
| Validation.Validated | app/Http/Requests/Admin/StorePageRequest.php:22-34 | only fields that have rules and were sent, with the values sent |
| Validation.RequiredStringMaxRules | app/Http/Requests/Admin/StorePageRequest.php:25 | `required, string, max:n` passes exactly for a non-blank string of at most n characters |
| Validation.RequiredStringRules | app/Http/Requests/Admin/StorePageRequest.php:26 | `required, string` passes exactly for a non-blank string |
| Validation.NullableStringRules | app/Http/Requests/Admin/StorePageRequest.php:27 | `nullable, string, max:n` passes exactly when absent, null, blank or at most n characters |
| Validation.BooleanRules | app/Http/Requests/Admin/StorePageRequest.php:29-30 | `boolean` passes exactly when absent, blank or boolean-like |
| Validation.NonNegativeIntegerRules | app/Http/Requests/Admin/StorePageRequest.php:31 | `integer, min:0` passes exactly when absent, blank or a non-negative integer |
| Validation.NullableArrayRules | app/Http/Requests/Admin/StorePageRequest.php:32 | `nullable, array` passes exactly when absent, null, blank or an array |
| Validation.NullableDateRules | app/Http/Requests/Admin/StoreGalleryRequest.php:31 | `nullable, date` passes exactly when absent, null, blank or a parseable date |
| Query.TopWhere | app/Http/Controllers/BlogController.php:19-30 | `where`, `latest`, `take(n)`: exactly `min(n, count)` matching records of the table, sorted, none left out ranking above one taken |
| Query.PageWhere | app/Http/Controllers/CategoryController.php:17-21 | `where`, `latest`, `paginate(size)`: at most `size` matching records, sorted, empty exactly past the last page, and `min(size, count - start)` records on a page that starts before the end |
| Query.PageDesc | app/Http/Controllers/Admin/PostController.php:22-24 | `latest()->paginate(size)`: at most `size` records, sorted descending, empty exactly past the last page, and `min(size, total - start)` records on a page that starts before the end |
| Query.PageAsc | app/Http/Controllers/Admin/CategoryController.php:22-23 | `orderBy()->paginate(size)`: at most `size` records, sorted ascending, empty exactly past the last page, and `min(size, total - start)` records on a page that starts before the end |
| Query.Paginate | app/Http/Controllers/Admin/PostController.php:22-24 | one page is a sub-multiset of the table of at most `size` records, empty exactly when it starts past the end, otherwise `min(size, total - start)` records |
| Query.PaginateOrderedDesc | app/Http/Controllers/Admin/PostController.php:22-24 | on a descending table no record of a later page ranks above one of an earlier page |
| Query.PaginateOrderedAsc | app/Http/Controllers/Admin/CategoryController.php:22-23 | on an ascending table no record of a later page ranks below one of an earlier page |
| Query.PageWhereOrdered | app/Http/Controllers/CategoryController.php:17-21 | page order across pages: a record of page `p2 > p1` never ranks above one of page `p1` |
| Query.PageWhereFirst | app/Http/Controllers/CategoryController.php:17-21 | page 1 equals `TopWhere` with the page size: no matching record left off ranks above one shown |
| Query.PageDescOrdered | app/Http/Controllers/Admin/PostController.php:22-24 | a record of a later page never ranks above one of an earlier page |
| Query.PageDescFirst | app/Http/Controllers/Admin/PostController.php:22-24 | page 1 equals `Top` with the page size: no record left off ranks above one shown |
| Query.PageAscOrdered | app/Http/Controllers/Admin/CategoryController.php:22-23 | a record of a later page never ranks below one of an earlier page |
| Query.PageAscFirst | app/Http/Controllers/Admin/CategoryController.php:22-23 | page 1 holds the `size` lowest-ranked records: no record left off ranks below one shown |
| Query.FindBy | routes/web.php:25-29 | route-model binding finds a record holding the value, and nothing only when none holds it |
| Query.FindByUnique | routes/web.php:25-29 | on a unique column, binding finds exactly the record with the value |

## Left out

- Rendering is not modelled: Inertia views, redirects, flash messages and the `.tsx` pages.
- Sessions and authentication are not modelled. The viewer or acting user is an explicit argument. The admin routes sit behind the `auth` and `verified` middleware only (routes/web.php:39), so the admin actions require a signed-in user, taken from the fixed users table, and no role. Email verification is not modelled.
- Eager-loaded relations (`user`, `category`) are not hydrated. The `take(4)` inside `with(['images' => ...])` is modelled as a per-gallery limit, the intended reading, whatever a given framework version does with such a limit.
- Building page links and the page count shown to the user is left out; a page's records are modelled, not its link metadata.
- Sorting on equal keys keeps stored order. The source leaves ties unspecified.
- A null `published_at` or `event_date` sorts as below every time, so it comes last in a descending list.
- `StorePostRequest`, `UpdatePostRequest`, `StoreCategoryRequest`, `UpdateCategoryRequest` and `UpdatePageRequest` are not part of this model. Post and category data are taken to carry every column, page-update data are taken to have the shape `StorePageRequest` accepts (optional fields keep the old value when absent), and `update` requires no authorization beyond a signed-in user.
- The model scopes and helpers are not part of this model; each is taken to be a test on one column: `Post::published` is status published, `Post::featured` is `is_featured`, `Category::active` is `is_active`, `Page::active` is `is_active`, `Page::inMenu` is `show_in_menu`, `User::admins` is role admin, `User::active` is `is_active`, and `isAdmin` is role admin.
- The galleries migration is not part of this model. NewGallery takes `is_active` true, `is_featured` false and `sort_order` 0 as its column defaults.
- The validator models only the rules these requests use.
  - Values are typed as they arrive, so the model's `integer` and `date` tests differ from the framework's on some inputs:
    - numeric strings are not accepted as integers;
    - `true` is refused by `integer`, which the framework's `FILTER_VALIDATE_INT` test accepts;
    - a number is refused by `date`, which the framework accepts when `strtotime` reads it.
  - `max` on an integer that arrives as a string is not modelled.
  - The trimming middleware is represented only by treating a whitespace-only string as blank.
  - The framework's default `ConvertEmptyStringsToNull` middleware is not modelled. Under it a blank field reaches the validator as null, and the model does not capture the consequences:
    - a blank optional `boolean` or `integer|min:0` field (a page's `is_active`, `show_in_menu` and `menu_order`; a gallery's `is_active`, `is_featured` and `sort_order`) is refused by the framework, because those fields are not `nullable`; the model skips it as blank and accepts the request;
    - such an accepted blank is then stored: `PageDataOf` and `GalleryDataOf` read an empty string as `false` or `0`;
    - a blank nullable string (`excerpt`, `description`, `cover_image`) is stored as the blank string, where the framework stores null.
  - `meta_data` contents are not modelled.
- Validation.BooleanRules, Validation.NonNegativeIntegerRules, PageRequests.StorePageRulesMeaning and GalleryRequests.GalleryRulesMeaning: these state the rules' meaning on the request as it reaches the validator without `ConvertEmptyStringsToNull`, so they accept a blank optional field that the framework with that middleware refuses.
- Validation.DateField: a sent value that does not parse as a date is read as null. Such a value can only reach it when validation skipped it for being blank.
- The dashboard's route URLs are modelled as the id of the record they lead to.
- `updated_at` timestamps are not modelled.
- Unique slugs are enforced only for pages, whose migration has a unique index. A clash answers `SlugTaken`, where the database would raise an error. For posts, categories and galleries, binding by slug takes the first match, and the uniqueness lemmas carry it as a precondition.
- A post's `category_id` foreign key, and the owner cascades on users, are not enforced. Users are never deleted in this model.
- The admin `create`, `edit` and `show` actions only read and render, and are left out. `Admin\CategoryController::show` also counts posts, which is the same count as `AllPostsCount`.
- Concurrent requests, including two `increment('views')` at once, are not modelled; actions run one after another.
- `Str::slug` and the date parser are arbitrary fixed functions. Their character rules are not modelled.
- The health-check route and the seeders and factories are left out: they return a wall-clock time or produce random data.
