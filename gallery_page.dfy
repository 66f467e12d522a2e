/** The public gallery page (src/pages/Gallery.tsx): the "all" view merges the four
    categories and shows the newest upload first; any other tab shows one category in its
    stored order. */
module GalleryPage {
  import opened Seqs
  import opened ContentModel

  /** The tab selected when the page opens. */
  const InitialCategory := "all"

  /** The four categories the "all" view draws from, in the order it concatenates them. */
  predicate IsShownCategory(c: string) {
    c == "chalaka" || c == "family" || c == "newborn" || c == "smash"
  }

  function InShownCategory(): GalleryItem -> bool {
    (g: GalleryItem) => IsShownCategory(g.category)
  }

  /** The comparator `b.uploadedAt - a.uploadedAt` sorts by this key in ascending order. */
  function NewestFirst(g: GalleryItem): int { -g.uploadedAt }

  /** The four category views, one after the other, before sorting. */
  function Concatenated(items: seq<GalleryItem>): seq<GalleryItem> {
    ByCategory(items, "chalaka") + ByCategory(items, "family")
    + ByCategory(items, "newborn") + ByCategory(items, "smash")
  }

  /** `getAllImages()`. */
  function AllImages(items: seq<GalleryItem>): seq<GalleryItem> {
    SortBy(Concatenated(items), NewestFirst)
  }

  /** `filteredImages`. */
  function FilteredImages(items: seq<GalleryItem>, active: string): seq<GalleryItem> {
    if active == "all" then AllImages(items) else ByCategory(items, active)
  }

  /** The "all" view holds every stored item of the four categories, each as often as it is
      stored, and nothing else; items of any other category are not shown. */
  lemma AllImagesHoldsShownCategories(items: seq<GalleryItem>)
    ensures multiset(AllImages(items)) == multiset(Filter(items, InShownCategory()))
  {
    var cat := Concatenated(items);
    SortByPermutation(cat, NewestFirst);
    forall x ensures multiset(cat)[x] == multiset(Filter(items, InShownCategory()))[x] {
      ConcatenatedCount(items, x);
    }
    assert multiset(cat) == multiset(Filter(items, InShownCategory()));
  }

  lemma ConcatenatedCount(items: seq<GalleryItem>, x: GalleryItem)
    ensures multiset(Concatenated(items))[x] == multiset(Filter(items, InShownCategory()))[x]
  {
    var a, b, c, d := ByCategory(items, "chalaka"), ByCategory(items, "family"),
                      ByCategory(items, "newborn"), ByCategory(items, "smash");
    assert multiset(Concatenated(items)) == multiset(a) + multiset(b) + multiset(c) + multiset(d);
    CategoryCount(items, "chalaka", x);
    CategoryCount(items, "family", x);
    CategoryCount(items, "newborn", x);
    CategoryCount(items, "smash", x);
    FilterCount(items, InShownCategory(), x);
  }

  lemma CategoryCount(items: seq<GalleryItem>, c: string, x: GalleryItem)
    ensures multiset(ByCategory(items, c))[x] == if x.category == c then multiset(items)[x] else 0
  {
    SortByPermutation(Filter(items, InCategory(c)), Order);
    FilterCount(items, InCategory(c), x);
  }

  /** The "all" view lists uploads newest first; uploads with the same time keep the order of
      the concatenated category views. */
  lemma AllImagesNewestFirst(items: seq<GalleryItem>, t: int)
    ensures forall i, j :: 0 <= i < j < |AllImages(items)| ==>
              AllImages(items)[i].uploadedAt >= AllImages(items)[j].uploadedAt
    ensures Filter(AllImages(items), KeyIs(NewestFirst, -t)) == Filter(Concatenated(items), KeyIs(NewestFirst, -t))
  {
    SortBySorted(Concatenated(items), NewestFirst);
    SortByStable(Concatenated(items), NewestFirst, -t);
  }

  /** What a visitor sees on a tab: on "all" the items of the four categories, on any other tab
      the items of exactly that category (none for a category nobody uploads to). */
  lemma FilteredImagesMembers(items: seq<GalleryItem>, active: string, g: GalleryItem)
    ensures g in FilteredImages(items, active) <==>
              g in items && (if active == "all" then IsShownCategory(g.category) else g.category == active)
  {
    if active == "all" {
      AllImagesHoldsShownCategories(items);
      assert g in FilteredImages(items, active) <==> g in multiset(Filter(items, InShownCategory()));
      FilterMembership(items, InShownCategory(), g);
    } else {
      ByCategorySpec(items, active, 0);
    }
  }
}
