/**
 * The admin page controller's record-building rules and its listing: the
 * owner is the acting user, the slug follows the title, and the listing
 * shows inactive pages too.
 */
module AdminPages {
  import opened Common
  import opened Query
  import opened Entities
  import opened PageRequests

  /**
   * The page `store` creates: owned by the acting user, slug derived from the
   * title; a flag or menu order the form left out takes the column default
   * (active, not in the menu, order 0).
   */
  function NewPage(data: PageData, id: nat, ownerId: nat, now: Time, slugify: string -> string): (p: Page)
    ensures p.id == id && p.userId == ownerId && p.createdAt == now
    ensures p.slug == slugify(data.title)
    ensures p.title == data.title && p.content == data.content && p.template == data.template
    ensures p.excerpt == FieldOrNull(data.excerpt)
    ensures p.isActive == OptionOver(data.isActive, true)
    ensures p.showInMenu == OptionOver(data.showInMenu, false)
    ensures p.menuOrder == OptionOver(data.menuOrder, 0)
  {
    Page(id, data.title, slugify(data.title), data.content, FieldOrNull(data.excerpt), data.template,
         OptionOver(data.isActive, true), OptionOver(data.showInMenu, false), OptionOver(data.menuOrder, 0),
         ownerId, now)
  }

  /**
   * The page after `update`: the slug is derived again from the new title,
   * the owner, id and creation time are kept, and a field the form left out
   * keeps its value.
   */
  function UpdatedPage(p: Page, data: PageData, slugify: string -> string): (q: Page)
    ensures q.id == p.id && q.userId == p.userId && q.createdAt == p.createdAt
    ensures q.slug == slugify(data.title)
    ensures q.title == data.title && q.content == data.content && q.template == data.template
    ensures q.excerpt == FieldOver(data.excerpt, p.excerpt)
    ensures q.isActive == OptionOver(data.isActive, p.isActive)
    ensures q.showInMenu == OptionOver(data.showInMenu, p.showInMenu)
    ensures q.menuOrder == OptionOver(data.menuOrder, p.menuOrder)
  {
    p.(title := data.title, slug := slugify(data.title), content := data.content,
       excerpt := FieldOver(data.excerpt, p.excerpt), template := data.template,
       isActive := OptionOver(data.isActive, p.isActive), showInMenu := OptionOver(data.showInMenu, p.showInMenu),
       menuOrder := OptionOver(data.menuOrder, p.menuOrder))
  }

  /**
   * Applying the same form twice leaves the page as applying it once: an
   * update is idempotent.
   */
  lemma UpdatePageIdempotent(p: Page, data: PageData, slugify: string -> string)
    ensures UpdatedPage(UpdatedPage(p, data, slugify), data, slugify) == UpdatedPage(p, data, slugify)
  {
  }

  /** `Page::latest()->paginate(15)`: pages of every state, newest-created first. */
  function AdminPageIndex(pages: seq<Page>, page: int): (r: seq<Page>)
    ensures |r| <= AdminPageSize
    ensures forall p :: p in r ==> p in pages
    ensures SortedDesc(r, PageCreatedKey)
    ensures r == [] <==> PageStart(page, AdminPageSize) >= |pages|
    ensures PageStart(page, AdminPageSize) < |pages| ==>
              |r| == Min(AdminPageSize, |pages| - PageStart(page, AdminPageSize))
  {
    PageDesc(pages, PageCreatedKey, page, AdminPageSize)
  }

  /** No page on a later page of the listing ranks above one on an earlier page. */
  lemma AdminPageIndexOrdered(pages: seq<Page>, p1: int, p2: int, x: Page, y: Page)
    requires 1 <= p1 < p2
    requires x in AdminPageIndex(pages, p1) && y in AdminPageIndex(pages, p2)
    ensures PageCreatedKey(y) <= PageCreatedKey(x)
  {
    PageDescOrdered(pages, PageCreatedKey, AdminPageSize, p1, p2, x, y);
  }

  /** The first page shows the leading pages: none left off it is newer than one shown. */
  lemma AdminPageIndexFirst(pages: seq<Page>)
    ensures forall x, y :: x in AdminPageIndex(pages, 1) && y in multiset(pages) - multiset(AdminPageIndex(pages, 1)) ==>
              PageCreatedKey(y) <= PageCreatedKey(x)
  {
    PageDescFirst(pages, PageCreatedKey, AdminPageSize);
  }

  /** Every page, inactive ones included, is on some page of the admin index. */
  lemma AdminPageIndexCovers(pages: seq<Page>, p: Page)
    requires p in pages
    ensures exists n :: n >= 1 && p in AdminPageIndex(pages, n)
  {
    PageDescCovers(pages, PageCreatedKey, AdminPageSize, p);
    var n :| n >= 1 && p in PageDesc(pages, PageCreatedKey, n, AdminPageSize);
    assert p in AdminPageIndex(pages, n);
  }
}
