/** The records the content store keeps (src/contexts/ContentContext.tsx) and the pure
    transformations its operations apply to them: derived alt text, gallery ordering,
    updates and deletes by id, and the outcome of a simulated notification email. */
module ContentModel {
  import opened Js
  import opened Seqs

  /** What the browser's `File` contributes to an upload. */
  datatype FileInfo = FileInfo(name: string, size: nat, mimeType: string)

  /** What an upload draws from the environment: `Date.now()`/`Math.random()` for the id, the
      blob URL and the upload time (milliseconds; its ISO string encodes it one-to-one). */
  datatype UploadStamp = UploadStamp(id: string, url: string, uploadedAt: int)

  datatype MediaItem = MediaItem(
    id: string, url: string, alt: string, filename: string, size: nat, mimeType: string,
    uploadedAt: int)

  datatype GalleryItem = GalleryItem(
    id: string, url: string, alt: string, filename: string, size: nat, mimeType: string,
    uploadedAt: int, category: string, order: int)

  /** `Partial<GalleryItem>`: the fields present replace the item's own. */
  datatype GalleryPatch = GalleryPatch(
    id: Option<string>, url: Option<string>, alt: Option<string>, filename: Option<string>,
    size: Option<nat>, mimeType: Option<string>, uploadedAt: Option<int>,
    category: Option<string>, order: Option<int>)

  datatype ContactSubmission = ContactSubmission(
    id: string, name: string, email: string, phone: string, message: string,
    submittedAt: string, read: bool, emailSent: bool, emailError: Option<string>)

  /** The fields a visitor fills in on the contact form. */
  datatype ContactFields = ContactFields(name: string, email: string, phone: string, message: string)

  datatype Bilingual = Bilingual(he: string, en: string)

  /** The two site languages, `'he' | 'en'`. */
  datatype Lang = He | En

  function Text(b: Bilingual, lang: Lang): string {
    if lang == He then b.he else b.en
  }

  /** `{ ...b, [lang]: v }`: the other language's text is kept. */
  function WithText(b: Bilingual, lang: Lang, v: string): (r: Bilingual)
    ensures Text(r, lang) == v
    ensures forall l :: l != lang ==> Text(r, l) == Text(b, l)
  {
    if lang == He then b.(he := v) else b.(en := v)
  }

  datatype PostStatus = Draft | Published

  datatype BlogPost = BlogPost(
    id: string, title: Bilingual, content: Bilingual, excerpt: Bilingual, slug: Bilingual,
    featuredImage: string, publishedAt: string, status: PostStatus, author: string)

  /** `Omit<BlogPost, 'id'>`: a post before the store gives it an id. */
  datatype PostFields = PostFields(
    title: Bilingual, content: Bilingual, excerpt: Bilingual, slug: Bilingual,
    featuredImage: string, publishedAt: string, status: PostStatus, author: string)

  /** `Partial<BlogPost>`. */
  datatype PostPatch = PostPatch(
    id: Option<string>, title: Option<Bilingual>, content: Option<Bilingual>,
    excerpt: Option<Bilingual>, slug: Option<Bilingual>, featuredImage: Option<string>,
    publishedAt: Option<string>, status: Option<PostStatus>, author: Option<string>)

  datatype EmailStatus = Success | Failed
  datatype EmailKind = ContactEmail | TestEmail

  /** One attempted email. The recipient is whatever `emailSettings.toEmail` held. */
  datatype EmailLog = EmailLog(
    id: string, timestamp: string, to: Value, subject: string, status: EmailStatus,
    error: Option<string>, kind: EmailKind)

  // ---------------------------------------------------------------- alt text

  /** A suffix `[^/.]+` that the alt-text pattern removes together with its dot. */
  predicate IsExtension(e: string) {
    |e| > 0 && forall i :: 0 <= i < |e| ==> e[i] != '.' && e[i] != '/'
  }

  /** `s.lastIndexOf('.')`. */
  function LastDot(s: string): (r: int)
    ensures -1 <= r < |s|
    ensures 0 <= r ==> s[r] == '.'
    ensures forall k :: r < k < |s| ==> s[k] != '.'
    decreases |s|
  {
    if s == [] then -1
    else if s[|s| - 1] == '.' then |s| - 1
    else LastDot(s[..|s| - 1])
  }

  /** A dot followed by an extension is the last dot of the name. */
  lemma ExtensionDotIsLast(name: string, j: int)
    requires 0 <= j < |name| && name[j] == '.' && IsExtension(name[j + 1..])
    ensures LastDot(name) == j
  {
  }

  /** `name.replace(/\.[^/.]+$/, "")`. */
  function AltText(name: string): string {
    var k := LastDot(name);
    if k >= 0 && IsExtension(name[k + 1..]) then name[..k] else name
  }

  /** The alt text drops the final `.ext` when `ext` is non-empty and holds no `.` or `/`,
      and otherwise is the whole name. */
  lemma AltTextSpec(name: string)
    ensures AltText(name) == name || (|AltText(name)| < |name| && name[..|AltText(name)|] == AltText(name)
              && name[|AltText(name)|] == '.' && IsExtension(name[|AltText(name)| + 1..]))
    ensures AltText(name) == name <==>
              forall j :: 0 <= j < |name| && name[j] == '.' ==> !IsExtension(name[j + 1..])
  {
    var k := LastDot(name);
    if !(k >= 0 && IsExtension(name[k + 1..])) {
      forall j | 0 <= j < |name| && name[j] == '.' ensures !IsExtension(name[j + 1..]) {
        if IsExtension(name[j + 1..]) {
          ExtensionDotIsLast(name, j);
        }
      }
    }
  }

  // ---------------------------------------------------------------- gallery

  function Order(g: GalleryItem): int { g.order }

  function InCategory(c: string): GalleryItem -> bool {
    (g: GalleryItem) => g.category == c
  }

  /** The gallery ids of a list, in list order, `s.map(item => item.id)`. */
  function Ids(s: seq<GalleryItem>): (r: seq<string>)
    ensures |r| == |s| && forall i :: 0 <= i < |s| ==> r[i] == s[i].id
  {
    seq(|s|, i requires 0 <= i < |s| => s[i].id)
  }

  lemma IdsConcat(a: seq<GalleryItem>, b: seq<GalleryItem>)
    ensures Ids(a + b) == Ids(a) + Ids(b)
  {
  }

  /** Taking the item at `k` out of a list takes its id out of the list's ids. */
  lemma IdsRemove(t: seq<GalleryItem>, k: int)
    requires 0 <= k < |t|
    ensures multiset(Ids(t)) == multiset(Ids(t[..k] + t[k + 1..])) + multiset{t[k].id}
  {
    var l, r := t[..k], t[k + 1..];
    assert t == l + ([t[k]] + r);
    IdsConcat(l, [t[k]] + r);
    IdsConcat([t[k]], r);
    IdsConcat(l, r);
    assert Ids([t[k]]) == [t[k].id];
    assert Ids(t) == Ids(l) + ([t[k].id] + Ids(r));
    assert multiset(Ids(t)) == multiset(Ids(l)) + (multiset{t[k].id} + multiset(Ids(r)));
  }

  lemma IdsCons(s: seq<GalleryItem>)
    requires s != []
    ensures multiset(Ids(s)) == multiset(Ids(s[1..])) + multiset{s[0].id}
  {
    assert s == [s[0]] + s[1..];
    IdsConcat([s[0]], s[1..]);
    assert Ids(s) == [s[0].id] + Ids(s[1..]);
  }

  /** Rearranging items rearranges their ids the same way. */
  lemma {:induction false} IdsPermutation(s: seq<GalleryItem>, t: seq<GalleryItem>)
    requires multiset(s) == multiset(t)
    ensures multiset(Ids(s)) == multiset(Ids(t))
    decreases |s|
  {
    if s != [] {
      assert s[0] in multiset(t);
      var k :| 0 <= k < |t| && t[k] == s[0];
      var t' := t[..k] + t[k + 1..];
      RemoveMatching(s, t, k);
      IdsPermutation(s[1..], t');
      IdsRemove(t, k);
      IdsCons(s);
      assert multiset(Ids(s)) == multiset(Ids(t')) + multiset{t[k].id};
    }
  }

  /** `getGalleryByCategory(c)`: the items of category `c`, stably sorted by `order`. */
  function ByCategory(items: seq<GalleryItem>, c: string): seq<GalleryItem> {
    SortBy(Filter(items, InCategory(c)), Order)
  }

  /** What `getGalleryByCategory` promises: exactly the items of the category, each as often as
      it is stored, in non-decreasing `order`, with ties in insertion order. */
  lemma ByCategorySpec(items: seq<GalleryItem>, c: string, k: int)
    ensures multiset(ByCategory(items, c)) == multiset(Filter(items, InCategory(c)))
    ensures forall g :: g in ByCategory(items, c) <==> g in items && g.category == c
    ensures SortedBy(ByCategory(items, c), Order)
    ensures Filter(ByCategory(items, c), KeyIs(Order, k)) == Filter(Filter(items, InCategory(c)), KeyIs(Order, k))
  {
    var f := Filter(items, InCategory(c));
    SortByPermutation(f, Order);
    SortBySorted(f, Order);
    SortByStable(f, Order, k);
    forall g ensures g in ByCategory(items, c) <==> g in items && g.category == c {
      assert g in ByCategory(items, c) <==> g in multiset(f);
      FilterMembership(items, InCategory(c), g);
    }
  }

  /** `Math.max(...orders)`. */
  function MaxOrder(s: seq<GalleryItem>): (r: int)
    requires |s| > 0
    ensures exists i :: 0 <= i < |s| && s[i].order == r
    ensures forall i :: 0 <= i < |s| ==> s[i].order <= r
  {
    if |s| == 1 then s[0].order
    else
      var m := MaxOrder(s[1..]);
      assert forall i :: 1 <= i < |s| ==> s[i] == s[1..][i - 1];
      if s[0].order >= m then s[0].order else m
  }

  /** The `order` an upload to category `c` receives: one more than the largest order in the
      category, or 0 when it is empty. */
  function NextOrder(items: seq<GalleryItem>, c: string): (r: int)
    ensures (forall g :: g in items ==> g.category != c) ==> r == 0
    ensures forall g :: g in items && g.category == c ==> g.order < r
    ensures (exists g :: g in items && g.category == c) ==>
              exists g :: g in items && g.category == c && g.order == r - 1
  {
    var inCat := Filter(items, InCategory(c));
    assert forall g :: g in items && g.category == c ==> g in inCat by {
      forall g | g in items && g.category == c ensures g in inCat {
        FilterMembership(items, InCategory(c), g);
      }
    }
    if |inCat| == 0 then 0
    else
      var m := MaxOrder(inCat);
      assert inCat[0] in items && inCat[0].category == c by {
        assert inCat[0] in inCat;
      }
      assert exists g :: g in items && g.category == c && g.order == m by {
        var i :| 0 <= i < |inCat| && inCat[i].order == m;
        assert inCat[i] in inCat;
      }
      assert forall g :: g in inCat ==> g.order <= m;
      m + 1
  }

  /** The item `uploadGalleryImage(file, c)` creates. */
  function NewGalleryItem(items: seq<GalleryItem>, file: FileInfo, stamp: UploadStamp, c: string): GalleryItem {
    GalleryItem(stamp.id, stamp.url, AltText(file.name), file.name, file.size, file.mimeType,
                stamp.uploadedAt, c, NextOrder(items, c))
  }

  /** The item `uploadMedia(file)` creates. */
  function NewMediaItem(file: FileInfo, stamp: UploadStamp): MediaItem {
    MediaItem(stamp.id, stamp.url, AltText(file.name), file.name, file.size, file.mimeType, stamp.uploadedAt)
  }

  /** A freshly uploaded image is shown last in its category, after all the images that were
      there before. */
  lemma UploadedImageComesLast(items: seq<GalleryItem>, file: FileInfo, stamp: UploadStamp, c: string)
    ensures var g := NewGalleryItem(items, file, stamp, c);
            && |ByCategory(items + [g], c)| == |ByCategory(items, c)| + 1
            && ByCategory(items + [g], c)[|ByCategory(items, c)|] == g
  {
    var g := NewGalleryItem(items, file, stamp, c);
    var f := Filter(items, InCategory(c));
    FilterConcat(items, [g], InCategory(c));
    assert Filter([g], InCategory(c)) == [g];
    SortByLength(f, Order);
    SortByPermutation(f + [g], Order);
    SortBySorted(f + [g], Order);
    forall x | x in f ensures Order(x) < Order(g) {
      FilterMembership(items, InCategory(c), x);
    }
    GreatestKeyLast(f, g, ByCategory(items + [g], c), Order);
  }

  /** One item after `reorderGalleryImages(c, ids)`. */
  function Reordered(g: GalleryItem, c: string, ids: seq<string>): GalleryItem {
    if g.category == c then
      var k := IndexOf(ids, g.id);
      g.(order := if k >= 0 then k else g.order)
    else g
  }

  /** `reorderGalleryImages(c, ids)`: every item of `c` gets its id's position in `ids`, or keeps
      its order when absent; everything else, and every position, is kept. */
  function Reorder(items: seq<GalleryItem>, c: string, ids: seq<string>): (r: seq<GalleryItem>)
    ensures |r| == |items|
    ensures forall i :: 0 <= i < |items| ==> r[i] == Reordered(items[i], c, ids)
  {
    seq(|items|, i requires 0 <= i < |items| => Reordered(items[i], c, ids))
  }

  /** Reordering touches only `order`, and only of the items of `c` whose id is listed. */
  lemma ReorderFrame(items: seq<GalleryItem>, c: string, ids: seq<string>, i: int)
    requires 0 <= i < |items|
    ensures Reorder(items, c, ids)[i] == items[i].(order := Reorder(items, c, ids)[i].order)
    ensures items[i].category != c || items[i].id !in ids ==> Reorder(items, c, ids)[i] == items[i]
    ensures items[i].category == c && items[i].id in ids ==>
              0 <= Reorder(items, c, ids)[i].order < |ids| && ids[Reorder(items, c, ids)[i].order] == items[i].id
  {
  }

  /** Reordering a list one item longer reorders that item and the rest independently. */
  lemma ReorderCons(g: GalleryItem, rest: seq<GalleryItem>, c: string, ids: seq<string>)
    ensures Reorder([g] + rest, c, ids) == [Reordered(g, c, ids)] + Reorder(rest, c, ids)
  {
    var l := Reorder([g] + rest, c, ids);
    var r := [Reordered(g, c, ids)] + Reorder(rest, c, ids);
    assert |l| == |r|;
    forall i | 0 <= i < |l| ensures l[i] == r[i] {
      if i > 0 {
        assert ([g] + rest)[i] == rest[i - 1];
      }
    }
  }

  lemma {:induction false} FilterReorder(items: seq<GalleryItem>, c: string, ids: seq<string>)
    ensures Filter(Reorder(items, c, ids), InCategory(c)) == Reorder(Filter(items, InCategory(c)), c, ids)
    decreases |items|
  {
    if items != [] {
      var g := items[0];
      var g' := Reordered(g, c, ids);
      var rest := Filter(items[1..], InCategory(c));
      assert items == [g] + items[1..];
      ReorderCons(g, items[1..], c, ids);
      var r := Reorder(items, c, ids);
      assert r[0] == g' && r[1..] == Reorder(items[1..], c, ids);
      FilterReorder(items[1..], c, ids);
      assert g'.category == g.category;
      if g.category == c {
        assert Filter(items, InCategory(c)) == [g] + rest;
        assert Filter(r, InCategory(c)) == [g'] + Filter(r[1..], InCategory(c));
        ReorderCons(g, rest, c, ids);
      } else {
        assert Filter(items, InCategory(c)) == rest;
        assert Filter(r, InCategory(c)) == Filter(r[1..], InCategory(c));
      }
    } else {
      assert Reorder(items, c, ids) == [];
    }
  }

  /** The category's items after the reorder: as many as listed ids, with distinct ids, each
      holding the position of its id in the list as its order. */
  lemma ReorderedCategory(items: seq<GalleryItem>, c: string, ids: seq<string>)
    requires multiset(Ids(Filter(items, InCategory(c)))) == multiset(ids)
    ensures |Filter(Reorder(items, c, ids), InCategory(c))| == |ids|
    ensures multiset(Ids(Filter(Reorder(items, c, ids), InCategory(c)))) == multiset(ids)
    ensures forall x :: x in Filter(Reorder(items, c, ids), InCategory(c)) ==>
              0 <= x.order < |ids| && ids[x.order] == x.id
  {
    var f := Filter(items, InCategory(c));
    var fr := Filter(Reorder(items, c, ids), InCategory(c));
    FilterReorder(items, c, ids);
    assert Ids(fr) == Ids(f);
    assert |fr| == |ids| by {
      assert |multiset(Ids(fr))| == |multiset(ids)|;
    }
    forall x | x in fr ensures 0 <= x.order < |ids| && ids[x.order] == x.id {
      var i :| 0 <= i < |fr| && fr[i] == x;
      assert f[i] in f;
      assert Ids(f)[i] in multiset(ids);
    }
  }

  /** When the id list is a duplicate-free arrangement of exactly the category's ids (what the
      gallery editor sends with an empty search), the category afterwards reads back in the
      order of the list. */
  lemma ReorderThenByCategory(items: seq<GalleryItem>, c: string, ids: seq<string>)
    requires NoDuplicates(ids)
    requires multiset(Ids(Filter(items, InCategory(c)))) == multiset(ids)
    ensures Ids(ByCategory(Reorder(items, c, ids), c)) == ids
  {
    var fr := Filter(Reorder(items, c, ids), InCategory(c));
    ReorderedCategory(items, c, ids);
    NoDuplicatesPermutation(ids, Ids(fr));
    DistinctIds(fr);
    var s := ByCategory(Reorder(items, c, ids), c);
    SortByPermutation(fr, Order);
    SortBySorted(fr, Order);
    NoDuplicatesPermutation(fr, s);
    assert |s| == |ids| by {
      assert |multiset(s)| == |multiset(fr)|;
    }
    forall x | x in s ensures x in fr {
      assert x in multiset(s);
    }
    StrictOrders(s, fr, ids);
    KeysAreIndices(s, Order);
  }

  /** Items with distinct ids are distinct. */
  lemma DistinctIds(s: seq<GalleryItem>)
    requires NoDuplicates(Ids(s))
    ensures NoDuplicates(s)
  {
    forall i, j | 0 <= i < j < |s| ensures s[i] != s[j] {
      assert Ids(s)[i] != Ids(s)[j];
    }
  }

  /** Sorted distinct items drawn from a set with distinct ids, whose orders name their ids in
      one list, are in strictly increasing order. */
  lemma StrictOrders(s: seq<GalleryItem>, fr: seq<GalleryItem>, ids: seq<string>)
    requires SortedBy(s, Order) && NoDuplicates(s)
    requires NoDuplicates(Ids(fr))
    requires forall x :: x in s ==> x in fr
    requires forall x :: x in fr ==> 0 <= x.order < |ids| && ids[x.order] == x.id
    ensures forall i, j :: 0 <= i < j < |s| ==> s[i].order < s[j].order
  {
    forall i, j | 0 <= i < j < |s| ensures s[i].order < s[j].order {
      assert s[i] in s && s[j] in s;
      var a :| 0 <= a < |fr| && fr[a] == s[i];
      var b :| 0 <= b < |fr| && fr[b] == s[j];
      assert a != b;
      assert Ids(fr)[a] != Ids(fr)[b];
    }
  }

  /** The update `updateGalleryImage(id, patch)` applies to a matching item: `{...item, ...patch}`. */
  function ApplyGalleryPatch(g: GalleryItem, p: GalleryPatch): GalleryItem {
    GalleryItem(
      if p.id.Some? then p.id.value else g.id,
      if p.url.Some? then p.url.value else g.url,
      if p.alt.Some? then p.alt.value else g.alt,
      if p.filename.Some? then p.filename.value else g.filename,
      if p.size.Some? then p.size.value else g.size,
      if p.mimeType.Some? then p.mimeType.value else g.mimeType,
      if p.uploadedAt.Some? then p.uploadedAt.value else g.uploadedAt,
      if p.category.Some? then p.category.value else g.category,
      if p.order.Some? then p.order.value else g.order)
  }

  /** The update `updateBlogPost(id, patch)` applies to a matching post: `{...post, ...patch}`. */
  function ApplyPostPatch(q: BlogPost, p: PostPatch): BlogPost {
    BlogPost(
      if p.id.Some? then p.id.value else q.id,
      if p.title.Some? then p.title.value else q.title,
      if p.content.Some? then p.content.value else q.content,
      if p.excerpt.Some? then p.excerpt.value else q.excerpt,
      if p.slug.Some? then p.slug.value else q.slug,
      if p.featuredImage.Some? then p.featuredImage.value else q.featuredImage,
      if p.publishedAt.Some? then p.publishedAt.value else q.publishedAt,
      if p.status.Some? then p.status.value else q.status,
      if p.author.Some? then p.author.value else q.author)
  }

  /** A patch that sets every field but the id, as the blog editor sends. */
  function FullPatch(f: PostFields): PostPatch {
    PostPatch(None, Some(f.title), Some(f.content), Some(f.excerpt), Some(f.slug),
              Some(f.featuredImage), Some(f.publishedAt), Some(f.status), Some(f.author))
  }

  function WithId(f: PostFields, id: string): BlogPost {
    BlogPost(id, f.title, f.content, f.excerpt, f.slug, f.featuredImage, f.publishedAt, f.status, f.author)
  }

  function MarkRead(s: ContactSubmission): ContactSubmission {
    s.(read := true)
  }

  function MediaId(m: MediaItem): string { m.id }
  function GalleryId(g: GalleryItem): string { g.id }
  function ContactId(s: ContactSubmission): string { s.id }
  function PostId(p: BlogPost): string { p.id }

  // ---------------------------------------------------------------- by id

  function IdIsNot<T>(idOf: T -> string, id: string): T -> bool {
    (x: T) => idOf(x) != id
  }

  /** `s.filter(x => x.id !== id)`. */
  function DeleteById<T>(s: seq<T>, idOf: T -> string, id: string): seq<T> {
    Filter(s, IdIsNot(idOf, id))
  }

  /** A delete keeps exactly the elements with another id, as often and in the order they had. */
  lemma DeleteByIdSpec<T>(s: seq<T>, t: seq<T>, idOf: T -> string, id: string, x: T)
    ensures multiset(DeleteById(s, idOf, id))[x] == if idOf(x) == id then 0 else multiset(s)[x]
    ensures DeleteById(s + t, idOf, id) == DeleteById(s, idOf, id) + DeleteById(t, idOf, id)
  {
    FilterCount(s, IdIsNot(idOf, id), x);
    FilterConcat(s, t, IdIsNot(idOf, id));
  }

  /** Deleting an id that is not there changes nothing; so repeating a delete is a no-op. */
  lemma DeleteByIdIdempotent<T>(s: seq<T>, idOf: T -> string, id: string)
    ensures DeleteById(DeleteById(s, idOf, id), idOf, id) == DeleteById(s, idOf, id)
    ensures (forall i :: 0 <= i < |s| ==> idOf(s[i]) != id) ==> DeleteById(s, idOf, id) == s
  {
    var r := DeleteById(s, idOf, id);
    forall i | 0 <= i < |r| ensures IdIsNot(idOf, id)(r[i]) {
      assert r[i] in r;
    }
    FilterAll(r, IdIsNot(idOf, id));
    if forall i :: 0 <= i < |s| ==> idOf(s[i]) != id {
      FilterAll(s, IdIsNot(idOf, id));
    }
  }

  /** Deleting the ids of `ids` one after another, as the bulk deletes do. */
  function DeleteAll<T>(s: seq<T>, idOf: T -> string, ids: seq<string>): seq<T>
    decreases |ids|
  {
    if ids == [] then s
    else DeleteById(DeleteAll(s, idOf, ids[..|ids| - 1]), idOf, ids[|ids| - 1])
  }

  /** After a bulk delete exactly the elements whose id was not selected remain. */
  lemma {:induction false} DeleteAllMembership<T>(s: seq<T>, idOf: T -> string, ids: seq<string>, x: T)
    ensures x in DeleteAll(s, idOf, ids) <==> x in s && idOf(x) !in ids
    decreases |ids|
  {
    if ids != [] {
      var init := ids[..|ids| - 1];
      DeleteAllMembership(s, idOf, init, x);
      FilterMembership(DeleteAll(s, idOf, init), IdIsNot(idOf, ids[|ids| - 1]), x);
      assert ids == init + [ids[|ids| - 1]];
    }
  }

  /** `s.map(x => x.id === id ? f(x) : x)`. */
  function UpdateById<T>(s: seq<T>, idOf: T -> string, id: string, f: T -> T): (r: seq<T>)
    ensures |r| == |s|
    ensures forall i :: 0 <= i < |s| ==> r[i] == if idOf(s[i]) == id then f(s[i]) else s[i]
  {
    seq(|s|, i requires 0 <= i < |s| => if idOf(s[i]) == id then f(s[i]) else s[i])
  }

  /** An update that keeps ids is forgotten by a later delete of the same id: only the
      matching records were touched. */
  lemma {:induction false} UpdateThenDelete<T>(s: seq<T>, idOf: T -> string, id: string, f: T -> T)
    requires forall x :: idOf(f(x)) == idOf(x)
    ensures DeleteById(UpdateById(s, idOf, id, f), idOf, id) == DeleteById(s, idOf, id)
    decreases |s|
  {
    if s != [] {
      assert UpdateById(s, idOf, id, f)[1..] == UpdateById(s[1..], idOf, id, f);
      UpdateThenDelete(s[1..], idOf, id, f);
    }
  }

  // ---------------------------------------------------------------- email

  const NotConfiguredError := "Email settings not configured properly"
  const InvalidConfigError := "Invalid SMTP configuration"
  const UnavailableError := "SMTP server temporarily unavailable"
  /** The message of the TypeError thrown when `emailSettings` itself is missing. */
  const MissingSettingsError := "Cannot read properties of undefined (reading 'enabled')"
  /** What a contact submission records when its notification could not be sent. */
  const NotificationError := "Failed to send email notification"

  /** `settings[key]` for settings known not to be undefined. */
  function Setting(settings: Value, key: string): Value
    requires !settings.Undefined?
  {
    Get(settings, key).value
  }

  /** The first check of `sendEmail`: sending is enabled and the credentials are filled in. */
  predicate CredentialsSet(settings: Value)
    requires !settings.Undefined?
  {
    Truthy(Setting(settings, "enabled"))
    && Truthy(Setting(settings, "smtpUser")) && Truthy(Setting(settings, "smtpPassword"))
  }

  /** The second check of `sendEmail`: there is a server and a recipient. */
  predicate ServerSet(settings: Value)
    requires !settings.Undefined?
  {
    Truthy(Setting(settings, "smtpHost")) && Truthy(Setting(settings, "toEmail"))
  }

  /** The configuration the email send path accepts. */
  predicate EmailConfigured(settings: Value) {
    !settings.Undefined? && CredentialsSet(settings) && ServerSet(settings)
  }

  /** The error `sendEmail` logs, or `None` when the send succeeds; `randomOk` is the outcome
      of the 95% draw. */
  function EmailError(settings: Value, randomOk: bool): (r: Option<string>)
    ensures r.None? <==> EmailConfigured(settings) && randomOk
    ensures settings.Undefined? ==> r == Some(MissingSettingsError)
    ensures !settings.Undefined? && !CredentialsSet(settings) ==> r == Some(NotConfiguredError)
    ensures !settings.Undefined? && CredentialsSet(settings) && !ServerSet(settings) ==> r == Some(InvalidConfigError)
    ensures EmailConfigured(settings) && !randomOk ==> r == Some(UnavailableError)
  {
    if settings.Undefined? then Some(MissingSettingsError)
    else if !Truthy(Setting(settings, "enabled")) || !Truthy(Setting(settings, "smtpUser"))
         || !Truthy(Setting(settings, "smtpPassword")) then Some(NotConfiguredError)
    else if !Truthy(Setting(settings, "smtpHost")) || !Truthy(Setting(settings, "smtpUser"))
         || !Truthy(Setting(settings, "smtpPassword")) || !Truthy(Setting(settings, "toEmail"))
    then Some(InvalidConfigError)
    else if !randomOk then Some(UnavailableError)
    else None
  }

  /** The submission `addContactSubmission` prepends, once the email outcome is known. */
  function NewSubmission(f: ContactFields, id: string, submittedAt: string, emailSent: bool): (r: ContactSubmission)
    ensures !r.read && r.emailSent == emailSent
    ensures r.emailError.Some? <==> !emailSent
  {
    ContactSubmission(id, f.name, f.email, f.phone, f.message, submittedAt, false, emailSent,
                      if emailSent then None else Some(NotificationError))
  }
}
