/** The gallery admin screen (src/components/Admin/GalleryEditor.tsx): the searchable view of
    one category, drag-and-drop reordering, multi-file upload, delete and edit. */
module GalleryEditor {
  import opened Js
  import opened Seqs
  import opened ContentModel
  import opened ContentStore

  /** The search test of the gallery view: the file name or the alt text contains the term. */
  function ImageMatches(term: string): GalleryItem -> bool {
    (g: GalleryItem) => IncludesIgnoringCase(g.filename, term) || IncludesIgnoringCase(g.alt, term)
  }

  /** `currentCategoryImages`: the category in the store's order, narrowed by the search. */
  function DisplayedImages(items: seq<GalleryItem>, c: string, term: string): seq<GalleryItem> {
    Filter(ByCategory(items, c), ImageMatches(term))
  }

  /** The view holds exactly the category's items that match the search, in order. */
  lemma DisplayedImagesSpec(items: seq<GalleryItem>, c: string, term: string, g: GalleryItem)
    ensures g in DisplayedImages(items, c, term) <==>
              g in items && g.category == c && (IncludesIgnoringCase(g.filename, term) || IncludesIgnoringCase(g.alt, term))
    ensures SortedBy(DisplayedImages(items, c, term), Order)
  {
    ByCategorySpec(items, c, 0);
    FilterMembership(ByCategory(items, c), ImageMatches(term), g);
    FilterSorted(ByCategory(items, c), ImageMatches(term), Order);
  }

  /** Every string contains the empty string, so an empty search shows the whole category. */
  lemma EmptySearchShowsCategory(items: seq<GalleryItem>, c: string)
    ensures DisplayedImages(items, c, "") == ByCategory(items, c)
  {
    var s := ByCategory(items, c);
    forall i | 0 <= i < |s| ensures ImageMatches("")(s[i]) {
      EmptyTermMatches(s[i].filename);
    }
    FilterAll(s, ImageMatches(""));
  }

  // ---------------------------------------------------------------- drag and drop

  /** `splice(from, 1)` followed by `splice(to, 0, moved)`. */
  function MoveTo<T>(s: seq<T>, from: int, to: int): seq<T>
    requires 0 <= from < |s| && 0 <= to < |s|
  {
    var rest := s[..from] + s[from + 1..];
    rest[..to] + [s[from]] + rest[to..]
  }

  /** The move is a permutation that puts the moved element at `to` and keeps every other
      element in its relative order. */
  lemma MoveToSpec<T>(s: seq<T>, from: int, to: int)
    requires 0 <= from < |s| && 0 <= to < |s|
    ensures |MoveTo(s, from, to)| == |s|
    ensures multiset(MoveTo(s, from, to)) == multiset(s)
    ensures MoveTo(s, from, to)[to] == s[from]
    ensures MoveTo(s, from, to)[..to] + MoveTo(s, from, to)[to + 1..] == s[..from] + s[from + 1..]
  {
    var rest := s[..from] + s[from + 1..];
    var r := MoveTo(s, from, to);
    assert r[..to] == rest[..to];
    assert r[to + 1..] == rest[to..];
    assert rest == rest[..to] + rest[to..];
    calc {
      multiset(r);
      multiset(rest[..to] + [s[from]] + rest[to..]);
      multiset(rest[..to]) + multiset{s[from]} + multiset(rest[to..]);
      multiset(rest[..to] + rest[to..]) + multiset{s[from]};
      multiset(rest) + multiset{s[from]};
      multiset(s[..from]) + multiset(s[from + 1..]) + multiset{s[from]};
      multiset(s[..from] + [s[from]] + s[from + 1..]);
      { assert s == s[..from] + [s[from]] + s[from + 1..]; }
      multiset(s);
    }
  }

  /** `r` is `s` with the element at `from` moved to `to`, stated position by position: the
      block between the two positions shifts by one towards the vacated place. */
  ghost predicate MovedAt<T>(r: seq<T>, s: seq<T>, from: int, to: int)
    requires 0 <= from < |s| && 0 <= to < |s|
  {
    && |r| == |s|
    && (forall k :: 0 <= k < |s| && (k < from || k > to) && (k < to || k > from) ==> r[k] == s[k])
    && r[to] == s[from]
    && (forall k :: from <= k < to ==> r[k] == s[k + 1])
    && (forall k :: to < k <= from ==> r[k] == s[k - 1])
  }

  /** The position-by-position description characterises the move. */
  lemma MovedAtIsMoveTo<T>(r: seq<T>, s: seq<T>, from: int, to: int)
    requires 0 <= from < |s| && 0 <= to < |s|
    requires MovedAt(r, s, from, to)
    ensures r == MoveTo(s, from, to)
  {
    var m := MoveTo(s, from, to);
    assert |m| == |s|;
    forall k | 0 <= k < |s| ensures r[k] == m[k] {
      var rest := s[..from] + s[from + 1..];
      if k < to {
        assert m[k] == rest[k];
      } else if k > to {
        assert m[k] == rest[k - 1];
      }
    }
  }

  /** The two splices on the copied array, performed as one shift of the block between the
      two positions followed by a write of the moved element. */
  method SpliceMove<T>(a: array<T>, from: int, to: int)
    requires 0 <= from < a.Length && 0 <= to < a.Length
    modifies a
    ensures a[..] == MoveTo(old(a[..]), from, to)
  {
    ghost var s := a[..];
    var moved := a[from];
    var i := from;
    if from <= to {
      while i < to
        invariant from <= i <= to
        invariant forall k :: from <= k < i ==> a[k] == s[k + 1]
        invariant forall k :: 0 <= k < a.Length && !(from <= k < i) ==> a[k] == s[k]
      {
        a[i] := a[i + 1];
        i := i + 1;
      }
    } else {
      while i > to
        invariant to <= i <= from
        invariant forall k :: i < k <= from ==> a[k] == s[k - 1]
        invariant forall k :: 0 <= k < a.Length && !(i < k <= from) ==> a[k] == s[k]
      {
        a[i] := a[i - 1];
        i := i - 1;
      }
    }
    a[to] := moved;
    assert MovedAt(a[..], s, from, to);
    MovedAtIsMoveTo(a[..], s, from, to);
  }

  /** With an empty search, and ids unique within the category, the category reads back after
      a drag exactly in the dragged order. */
  lemma DragThenReadBack(items: seq<GalleryItem>, c: string, from: int, to: int)
    requires NoDuplicates(Ids(Filter(items, InCategory(c))))
    requires 0 <= from < |ByCategory(items, c)| && 0 <= to < |ByCategory(items, c)|
    ensures var ids := Ids(MoveTo(ByCategory(items, c), from, to));
            Ids(ByCategory(Reorder(items, c, ids), c)) == ids
  {
    var shown := ByCategory(items, c);
    var moved := MoveTo(shown, from, to);
    MoveToSpec(shown, from, to);
    ByCategorySpec(items, c, 0);
    IdsPermutation(moved, Filter(items, InCategory(c)));
    NoDuplicatesPermutation(Ids(Filter(items, InCategory(c))), Ids(moved));
    ReorderThenByCategory(items, c, Ids(moved));
  }

  /** Items of the category hidden by the search are not in the emitted id list, so they keep
      their order, provided ids are unique in the gallery. */
  lemma HiddenItemsKeepOrder(items: seq<GalleryItem>, c: string, term: string, from: int, to: int, i: int)
    requires NoDuplicates(Ids(items))
    requires 0 <= from < |DisplayedImages(items, c, term)| && 0 <= to < |DisplayedImages(items, c, term)|
    requires 0 <= i < |items| && !ImageMatches(term)(items[i])
    ensures Reorder(items, c, Ids(MoveTo(DisplayedImages(items, c, term), from, to)))[i] == items[i]
  {
    var shown := DisplayedImages(items, c, term);
    var moved := MoveTo(shown, from, to);
    MoveToSpec(shown, from, to);
    forall k | 0 <= k < |moved| ensures Ids(moved)[k] != items[i].id {
      assert moved[k] in multiset(shown);
      HiddenIdNotShown(items, c, term, moved[k], i);
    }
    ReorderFrame(items, c, Ids(moved), i);
  }

  /** No shown item shares its id with an item the search hides. */
  lemma HiddenIdNotShown(items: seq<GalleryItem>, c: string, term: string, x: GalleryItem, i: int)
    requires NoDuplicates(Ids(items))
    requires x in DisplayedImages(items, c, term)
    requires 0 <= i < |items| && !ImageMatches(term)(items[i])
    ensures x.id != items[i].id
  {
    DisplayedImagesSpec(items, c, term, x);
    var j :| 0 <= j < |items| && items[j] == x;
    assert Ids(items)[j] != Ids(items)[i];
  }

  // ---------------------------------------------------------------- upload

  /** `file.type.startsWith('image/')`. */
  predicate IsImage(f: FileInfo) {
    StartsWith(f.mimeType, "image/")
  }

  /** The gallery after uploading, one after another, the images among `files` to category `c`. */
  function UploadAll(items: seq<GalleryItem>, files: seq<FileInfo>, stamps: seq<UploadStamp>, c: string): seq<GalleryItem>
    requires |stamps| == |files|
    decreases |files|
  {
    if files == [] then items
    else
      var n := |files| - 1;
      var prev := UploadAll(items, files[..n], stamps[..n], c);
      if IsImage(files[n]) then prev + [NewGalleryItem(prev, files[n], stamps[n], c)] else prev
  }

  /** One more file: an image adds its item to the gallery built so far, and to the count. */
  lemma UploadStep(items: seq<GalleryItem>, files: seq<FileInfo>, stamps: seq<UploadStamp>, c: string, i: nat)
    requires |stamps| == |files| && i < |files|
    ensures var prev := UploadAll(items, files[..i], stamps[..i], c);
            UploadAll(items, files[..i + 1], stamps[..i + 1], c) ==
              if IsImage(files[i]) then prev + [NewGalleryItem(prev, files[i], stamps[i], c)] else prev
    ensures |Filter(files[..i + 1], IsImage)| == |Filter(files[..i], IsImage)| + if IsImage(files[i]) then 1 else 0
  {
    FilterConcat(files[..i], [files[i]], IsImage);
    assert files[..i + 1] == files[..i] + [files[i]];
    assert files[..i + 1][..i] == files[..i] && stamps[..i + 1][..i] == stamps[..i];
  }

  /** Uploading keeps every existing item in place and adds one item per image file, each to
      category `c`. */
  lemma {:induction false} UploadAllSpec(items: seq<GalleryItem>, files: seq<FileInfo>, stamps: seq<UploadStamp>, c: string)
    requires |stamps| == |files|
    ensures |UploadAll(items, files, stamps, c)| == |items| + |Filter(files, IsImage)|
    ensures UploadAll(items, files, stamps, c)[..|items|] == items
    ensures forall k :: |items| <= k < |UploadAll(items, files, stamps, c)| ==>
              UploadAll(items, files, stamps, c)[k].category == c
    decreases |files|
  {
    if files != [] {
      var n := |files| - 1;
      UploadAllSpec(items, files[..n], stamps[..n], c);
      FilterConcat(files[..n], [files[n]], IsImage);
      assert files[..n] + [files[n]] == files;
    }
  }

  class Editor {
    var activeCategory: string
    var searchTerm: string
    var draggedItem: Option<string>
    var editingImage: Option<string>
    const store: Store

    constructor (store: Store)
      ensures activeCategory == "chalaka" && searchTerm == ""
      ensures draggedItem == None && editingImage == None
      ensures this.store == store
    {
      activeCategory := "chalaka";
      searchTerm := "";
      draggedItem := None;
      editingImage := None;
      this.store := store;
    }

    method HandleDragStart(id: string)
      modifies this
      ensures draggedItem == Some(id)
      ensures activeCategory == old(activeCategory) && searchTerm == old(searchTerm)
      ensures editingImage == old(editingImage)
    {
      draggedItem := Some(id);
    }

    method HandleDragEnd()
      modifies this
      ensures draggedItem == None
      ensures activeCategory == old(activeCategory) && searchTerm == old(searchTerm)
      ensures editingImage == old(editingImage)
    {
      draggedItem := None;
    }

    /** `handleReorder(draggedId, targetId)`: when both ids are displayed, moves the dragged
        image to the target's position and sends the displayed ids, in their new order, to the
        store; otherwise does nothing. */
    method HandleReorder(draggedId: string, targetId: string) returns (reordered: bool)
      modifies store
      ensures var shown := DisplayedImages(old(store.galleryItems), activeCategory, searchTerm);
              && (reordered <==> draggedId in Ids(shown) && targetId in Ids(shown))
              && store.galleryItems ==
                   if reordered
                   then Reorder(old(store.galleryItems), activeCategory,
                                Ids(MoveTo(shown, IndexOf(Ids(shown), draggedId), IndexOf(Ids(shown), targetId))))
                   else old(store.galleryItems)
      ensures store.content == old(store.content) && store.mediaLibrary == old(store.mediaLibrary)
      ensures store.contactSubmissions == old(store.contactSubmissions) && store.blogPosts == old(store.blogPosts)
      ensures store.emailLogs == old(store.emailLogs)
    {
      var shown := DisplayedImages(store.galleryItems, activeCategory, searchTerm);
      var draggedIndex := IndexOf(Ids(shown), draggedId);
      var targetIndex := IndexOf(Ids(shown), targetId);
      if draggedIndex == -1 || targetIndex == -1 {
        return false;
      }
      var newOrder := new GalleryItem[|shown|](k requires 0 <= k < |shown| => shown[k]);
      assert newOrder[..] == shown;
      SpliceMove(newOrder, draggedIndex, targetIndex);
      store.ReorderGalleryImages(activeCategory, Ids(newOrder[..]));
      reordered := true;
    }

    /** The drop handler of a displayed image: reorders only while another image is being
        dragged. */
    method HandleDropOnImage(targetId: string) returns (reordered: bool)
      modifies store
      ensures reordered ==> draggedItem.Some? && draggedItem.value != "" && draggedItem.value != targetId
      ensures draggedItem.None? || draggedItem.value == "" || draggedItem.value == targetId ==>
                store.galleryItems == old(store.galleryItems)
      ensures draggedItem.Some? && draggedItem.value != "" && draggedItem.value != targetId ==>
                var draggedId := draggedItem.value;
                var shown := DisplayedImages(old(store.galleryItems), activeCategory, searchTerm);
                && (reordered <==> draggedId in Ids(shown) && targetId in Ids(shown))
                && store.galleryItems ==
                     if reordered
                     then Reorder(old(store.galleryItems), activeCategory,
                                  Ids(MoveTo(shown, IndexOf(Ids(shown), draggedId), IndexOf(Ids(shown), targetId))))
                     else old(store.galleryItems)
      ensures store.content == old(store.content) && store.mediaLibrary == old(store.mediaLibrary)
      ensures store.contactSubmissions == old(store.contactSubmissions) && store.blogPosts == old(store.blogPosts)
      ensures store.emailLogs == old(store.emailLogs)
    {
      if draggedItem.Some? && draggedItem.value != "" && draggedItem.value != targetId {
        reordered := HandleReorder(draggedItem.value, targetId);
      } else {
        reordered := false;
      }
    }

    /** `handleFileUpload(files)`: uploads the image files to the active category and reports
        how many there were. */
    method HandleFileUpload(files: seq<FileInfo>, stamps: seq<UploadStamp>) returns (count: nat)
      requires |stamps| == |files|
      modifies store
      ensures count == |Filter(files, IsImage)|
      ensures store.galleryItems == UploadAll(old(store.galleryItems), files, stamps, activeCategory)
      ensures store.content == old(store.content) && store.mediaLibrary == old(store.mediaLibrary)
      ensures store.contactSubmissions == old(store.contactSubmissions) && store.blogPosts == old(store.blogPosts)
      ensures store.emailLogs == old(store.emailLogs)
    {
      count := 0;
      var i := 0;
      while i < |files|
        invariant 0 <= i <= |files|
        invariant count == |Filter(files[..i], IsImage)|
        invariant store.galleryItems == UploadAll(old(store.galleryItems), files[..i], stamps[..i], activeCategory)
        invariant store.content == old(store.content) && store.mediaLibrary == old(store.mediaLibrary)
        invariant store.contactSubmissions == old(store.contactSubmissions) && store.blogPosts == old(store.blogPosts)
        invariant store.emailLogs == old(store.emailLogs)
      {
        UploadStep(old(store.galleryItems), files, stamps, activeCategory, i);
        if IsImage(files[i]) {
          var item := store.UploadGalleryImage(files[i], stamps[i], activeCategory);
          count := count + 1;
        }
        i := i + 1;
      }
      assert files[..i] == files && stamps[..i] == stamps;
    }

    /** `handleDelete(id)`: deletes only once the user confirms. */
    method HandleDelete(id: string, confirmed: bool)
      modifies store
      ensures store.galleryItems == if confirmed then DeleteById(old(store.galleryItems), GalleryId, id)
                                    else old(store.galleryItems)
      ensures store.content == old(store.content) && store.mediaLibrary == old(store.mediaLibrary)
      ensures store.contactSubmissions == old(store.contactSubmissions) && store.blogPosts == old(store.blogPosts)
      ensures store.emailLogs == old(store.emailLogs)
    {
      if confirmed {
        store.DeleteGalleryImage(id);
      }
    }

    /** `handleUpdateImage(id, updates)`: applies the edit and closes the edit dialog. */
    method HandleUpdateImage(id: string, patch: GalleryPatch)
      modifies this, store
      ensures store.galleryItems == UpdateById(old(store.galleryItems), GalleryId, id, GalleryPatchWith(patch))
      ensures editingImage == None
      ensures activeCategory == old(activeCategory) && searchTerm == old(searchTerm)
      ensures draggedItem == old(draggedItem)
      ensures store.content == old(store.content) && store.mediaLibrary == old(store.mediaLibrary)
      ensures store.contactSubmissions == old(store.contactSubmissions) && store.blogPosts == old(store.blogPosts)
      ensures store.emailLogs == old(store.emailLogs)
    {
      store.UpdateGalleryImage(id, patch);
      editingImage := None;
    }
  }
}
