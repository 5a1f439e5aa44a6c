/**
 * The Gallery model: its `images` relation (the gallery's images ordered by
 * `sort_order`) and its two query scopes, `active` and `featured`.
 */
module GalleryModel {
  import opened Common
  import opened Query
  import opened Entities

  /** `scopeActive`: `where('is_active', true)`. */
  predicate Active(g: Gallery) { g.isActive }

  /** `scopeFeatured`: `where('is_featured', true)`. */
  predicate Featured(g: Gallery) { g.isFeatured }

  function ActiveGalleries(galleries: seq<Gallery>): (r: seq<Gallery>)
    ensures forall g :: g in r <==> g in galleries && g.isActive
    ensures forall g :: multiset(r)[g] == if g.isActive then multiset(galleries)[g] else 0
  {
    Filter(galleries, Active)
  }

  function FeaturedGalleries(galleries: seq<Gallery>): (r: seq<Gallery>)
    ensures forall g :: g in r <==> g in galleries && g.isFeatured
    ensures forall g :: multiset(r)[g] == if g.isFeatured then multiset(galleries)[g] else 0
  {
    Filter(galleries, Featured)
  }

  /** `active()->featured()` and `featured()->active()` select the same galleries, namely those that are both. */
  lemma ScopesCommute(galleries: seq<Gallery>)
    ensures FeaturedGalleries(ActiveGalleries(galleries)) == ActiveGalleries(FeaturedGalleries(galleries))
    ensures forall g :: g in FeaturedGalleries(ActiveGalleries(galleries)) <==>
                        g in galleries && g.isActive && g.isFeatured
  {
    FilterCommutes(galleries, Active, Featured);
  }

  /** Applying a scope twice is the same as applying it once. */
  lemma ScopesIdempotent(galleries: seq<Gallery>)
    ensures ActiveGalleries(ActiveGalleries(galleries)) == ActiveGalleries(galleries)
    ensures FeaturedGalleries(FeaturedGalleries(galleries)) == FeaturedGalleries(galleries)
  {
    FilterIdempotent(galleries, Active);
    FilterIdempotent(galleries, Featured);
  }

  /**
   * `images()`: exactly the images whose `gallery_id` is the gallery's,
   * each as often as it is stored, ordered by ascending `sort_order`.
   */
  function Images(g: Gallery, images: seq<GalleryImage>): (r: seq<GalleryImage>)
    ensures forall img :: multiset(r)[img] == if img.galleryId == g.id then multiset(images)[img] else 0
    ensures forall img :: img in r <==> img in images && img.galleryId == g.id
    ensures SortedAsc(r, ImageOrderKey)
    ensures |r| == Count(images, BelongsTo(g.id))
  {
    var mine := Filter(images, BelongsTo(g.id));
    var r := SortAsc(mine, ImageOrderKey);
    assert forall img :: img in r <==> img in mine by {
      forall img ensures img in r <==> img in mine {
        assert img in r <==> multiset(r)[img] > 0;
        assert img in mine <==> multiset(mine)[img] > 0;
      }
    }
    r
  }

  /** A gallery together with the images eager-loaded for it. */
  datatype GalleryCard = GalleryCard(gallery: Gallery, images: seq<GalleryImage>)

  /**
   * One gallery with `with(['images' => take(limit)])`: the first `limit` of
   * its own images in `sort_order`, or all of them when it has fewer.
   */
  function Card(g: Gallery, images: seq<GalleryImage>, limit: nat): (c: GalleryCard)
    ensures c.gallery == g
    ensures |c.images| == Min(limit, Count(images, BelongsTo(g.id)))
    ensures c.images == Images(g, images)[..|c.images|]
    ensures forall img :: img in c.images ==> img in images && img.galleryId == g.id
  {
    var all := Images(g, images);
    var shown := Take(all, limit);
    assert forall img :: img in shown ==> img in all by {
      forall img | img in shown ensures img in all {
        var k :| 0 <= k < |shown| && shown[k] == img;
        assert all[k] == img;
      }
    }
    GalleryCard(g, shown)
  }

  /** The same eager load on a list of galleries, which keeps its order. */
  function WithImages(galleries: seq<Gallery>, images: seq<GalleryImage>, limit: nat): (r: seq<GalleryCard>)
    ensures |r| == |galleries|
    ensures forall i :: 0 <= i < |r| ==> r[i] == Card(galleries[i], images, limit)
  {
    seq(|galleries|, i requires 0 <= i < |galleries| => Card(galleries[i], images, limit))
  }
}
