/** The site-content editor (src/components/Admin/ContentEditor.tsx): every field edit is
    written straight into the store under the path `section.field`; bilingual fields are merged
    one language at a time; the save button only clears the "unsaved changes" flag. */
module ContentEditor {
  import opened Js
  import opened ContentModel
  import opened SiteContent
  import opened ContentStore
  import Language

  /** The path an edit writes to: `${section}.${field}` split at its dots. */
  function EditPath(section: string, field: string): seq<string> {
    Split(section + "." + field, '.')
  }

  /** A dot-free section and field give a two-segment path; a dotted field adds its own
      segments after the section. */
  lemma EditPathSegments(section: string, field: string)
    requires '.' !in section
    ensures EditPath(section, field) == [section] + Split(field, '.')
    ensures '.' !in field ==> EditPath(section, field) == [section, field]
  {
    assert section + "." + field == section + ['.'] + field;
    SplitConcat(section, field, '.');
    SplitWhole(section, '.');
    if '.' !in field {
      SplitWhole(field, '.');
    }
  }

  /** A nested field such as `socialMedia.instagram` is written three levels deep. */
  lemma NestedFieldPath(section: string, group: string, key: string)
    requires '.' !in section && '.' !in group && '.' !in key
    ensures EditPath(section, group + "." + key) == [section, group, key]
  {
    EditPathSegments(section, group + "." + key);
    assert group + "." + key == group + ['.'] + key;
    SplitConcat(group, key, '.');
    SplitWhole(group, '.');
    SplitWhole(key, '.');
  }

  /** `content[section][field]`: throws when the section is missing. */
  function CurrentValue(content: Value, section: string, field: string): Result<Value> {
    match Get(content, section)
    case TypeError => TypeError
    case Ok(s) => Get(s, field)
  }

  /** `{ ...(current || { he: '', en: '' }), [lang]: value }`. */
  function MergeBilingual(current: Value, lang: Lang, value: string): (r: Value)
    ensures r.Obj? && Language.Code(lang) in r.fields && r.fields[Language.Code(lang)] == Str(value)
    ensures !Truthy(current) ==> r.fields == map["he" := Str(""), "en" := Str("")][Language.Code(lang) := Str(value)]
    ensures Truthy(current) ==> r.fields == Spread(current)[Language.Code(lang) := Str(value)]
  {
    var base := if Truthy(current) then current else Obj(map["he" := Str(""), "en" := Str("")]);
    Obj(Spread(base)[Language.Code(lang) := Str(value)])
  }

  /** A bilingual edit keeps the other language's text: the empty text when there was no pair,
      otherwise whatever the pair held. */
  lemma MergeKeepsOtherLanguage(current: Value, lang: Lang, other: Lang, value: string)
    requires other != lang
    ensures Get(MergeBilingual(current, lang, value), Language.Code(other)) ==
              if Truthy(current) then Get(current, Language.Code(other)) else Ok(Str(""))
  {
    assert Language.Code(other) != Language.Code(lang);
    SpreadReadsBack(current, Language.Code(other));
  }

  /** A field holding the plain string "ab" instead of a pair is spread character by character:
      editing its Hebrew text stores `{0: "a", 1: "b", he: "x"}`. */
  lemma StringFieldMerge()
    ensures MergeBilingual(Str("ab"), He, "x") ==
              Obj(map["0" := Str("a"), "1" := Str("b"), "he" := Str("x")])
  {
    var s := "ab";
    assert Numeral(0) == "0" && Numeral(1) == "1";
    assert [s[0]] == "a" && [s[1]] == "b";
    assert Indexed(s, 1) == map["0" := Str("a")];
    assert Spread(Str(s)) == map["0" := Str("a"), "1" := Str("b")];
    assert Language.Code(He) == "he";
  }

  /** The content after a bilingual edit of `section.field` in `lang`, or the TypeError it
      throws. */
  function BilingualEdit(content: Value, section: string, field: string, lang: Lang, value: string): Result<Value>
    requires '.' !in section && '.' !in field
  {
    match CurrentValue(content, section, field)
    case TypeError => TypeError
    case Ok(current) =>
      EditPathSegments(section, field);
      AssignPath(content, [section, field], MergeBilingual(current, lang, value))
  }

  /** A bilingual edit that goes through stores at `section.field` a pair holding the new text
      in the edited language and the old text of the other one, and touches no other path that
      leaves `section.field` before its end. It fails exactly when the section is not an object. */
  lemma BilingualEditLands(content: Value, section: string, field: string, lang: Lang, other: Lang,
                           value: string, q: seq<string>, j: nat)
    requires content.Obj? && '.' !in section && '.' !in field && other != lang
    ensures BilingualEdit(content, section, field, lang, value).Ok? <==> Get(content, section).value.Obj?
    ensures BilingualEdit(content, section, field, lang, value).Ok? ==>
              var r := BilingualEdit(content, section, field, lang, value).value;
              var current := CurrentValue(content, section, field).value;
              Walk(r, [section, field, Language.Code(lang)]) == Ok(Str(value))
              && Walk(r, [section, field, Language.Code(other)]) == Walk(MergeBilingual(current, lang, value), [Language.Code(other)])
    ensures BilingualEdit(content, section, field, lang, value).Ok? && j < |q| && j < 2
            && q[..j] == [section, field][..j] && q[j] != [section, field][j] ==>
              Walk(BilingualEdit(content, section, field, lang, value).value, q) == Walk(content, q)
  {
    var keys := [section, field];
    assert keys[1..] == [field];
    var sv := Get(content, section).value;
    if sv.Obj? {
      var current := CurrentValue(content, section, field).value;
      var m := MergeBilingual(current, lang, value);
      AssignSucceedsIffParentIsObject(content, keys, m);
      AssignThenWalk(content, keys, m);
      var r := AssignPath(content, keys, m).value;
      WalkSnoc(r, keys, Language.Code(lang));
      WalkSnoc(r, keys, Language.Code(other));
      assert keys + [Language.Code(lang)] == [section, field, Language.Code(lang)];
      assert keys + [Language.Code(other)] == [section, field, Language.Code(other)];
      if j < |q| && j < 2 && q[..j] == keys[..j] && q[j] != keys[j] {
        AssignLeavesSiblings(content, keys, m, q, j);
      }
    } else {
      if sv.Undefined? {
        assert CurrentValue(content, section, field) == TypeError;
      } else {
        var current := CurrentValue(content, section, field).value;
        AssignSucceedsIffParentIsObject(content, keys, MergeBilingual(current, lang, value));
      }
    }
  }

  /** The editor's state. */
  class Editor {
    var activeSection: string
    var activeLanguage: Lang
    var unsavedChanges: bool
    const store: Store

    constructor (store: Store)
      ensures activeSection == "hero" && activeLanguage == He && !unsavedChanges && this.store == store
    {
      activeSection := "hero";
      activeLanguage := He;
      unsavedChanges := false;
      this.store := store;
    }

    /** The save button is disabled exactly when nothing has changed. */
    predicate SaveDisabled()
      reads this
    {
      !unsavedChanges
    }

    /** `handleContentChange(section, field, value)`: writes the value at `section.field`. The
        update is asynchronous and not awaited, so a throwing walk or write only rejects its
        promise (`ok` is false) and the flag is set either way. */
    method HandleContentChange(section: string, field: string, value: Value) returns (ok: bool)
      requires store.Valid()
      modifies this, store
      ensures store.Valid()
      ensures ok == AssignPath(old(store.content), EditPath(section, field), value).Ok?
      ensures store.content == if ok then AssignPath(old(store.content), EditPath(section, field), value).value
                               else old(store.content)
      ensures unsavedChanges && !SaveDisabled()
      ensures activeSection == old(activeSection) && activeLanguage == old(activeLanguage)
      ensures store.mediaLibrary == old(store.mediaLibrary) && store.galleryItems == old(store.galleryItems)
      ensures store.contactSubmissions == old(store.contactSubmissions) && store.blogPosts == old(store.blogPosts)
      ensures store.emailLogs == old(store.emailLogs)
    {
      ok := store.UpdateContent(section + "." + field, value);
      unsavedChanges := true;
    }

    /** `handleBilingualChange(section, field, lang, value)`: reads the current pair (a missing
        one counts as two empty texts), replaces one language, and writes the pair back. Only the
        read throws out of the handler (a missing section), before the flag is set; a throw in
        the un-awaited asynchronous update leaves `ok` false and the flag set. */
    method HandleBilingualChange(section: string, field: string, lang: Lang, value: string) returns (ok: bool)
      requires store.Valid() && '.' !in section && '.' !in field
      modifies this, store
      ensures store.Valid()
      ensures ok == BilingualEdit(old(store.content), section, field, lang, value).Ok?
      ensures store.content == if ok then BilingualEdit(old(store.content), section, field, lang, value).value
                               else old(store.content)
      ensures unsavedChanges == (old(unsavedChanges) || CurrentValue(old(store.content), section, field).Ok?)
      ensures activeSection == old(activeSection) && activeLanguage == old(activeLanguage)
      ensures store.mediaLibrary == old(store.mediaLibrary) && store.galleryItems == old(store.galleryItems)
      ensures store.contactSubmissions == old(store.contactSubmissions) && store.blogPosts == old(store.blogPosts)
      ensures store.emailLogs == old(store.emailLogs)
    {
      var current := CurrentValue(store.content, section, field);
      if current.TypeError? {
        return false;
      }
      EditPathSegments(section, field);
      ok := store.UpdateContent(section + "." + field, MergeBilingual(current.value, lang, value));
      unsavedChanges := true;
    }

    /** `handleSave()`: the edits are already in the store, so saving only clears the flag. */
    method HandleSave()
      modifies this
      ensures !unsavedChanges && SaveDisabled()
      ensures activeSection == old(activeSection) && activeLanguage == old(activeLanguage)
    {
      unsavedChanges := false;
    }
  }
}
