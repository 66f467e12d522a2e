/** The design screen (src/components/Admin/DesignCustomizer.tsx): a local copy of
    `content.design` edited one key at a time or by colour preset, saved or reset, and a
    preview mode in which every local change is written to the store at once. */
module DesignCustomizer {
  import opened Js
  import opened SiteContent
  import opened ContentStore

  /** `content.design`. */
  function StoredDesign(content: Value): Value
    requires content.Obj?
  {
    Get(content, "design").value
  }

  /** `{ ...prev, [group]: { ...prev[group], [key]: value } }`, the updater of the colour, font
      and layout inputs; reading `prev[group]` throws when the settings are `undefined`. */
  function WithGroupKey(d: Value, group: string, key: string, value: string): (r: Result<Value>)
    ensures r.Ok? <==> !d.Undefined?
    ensures r.Ok? ==> r.value.Obj? && group in r.value.fields && r.value.fields[group].Obj?
  {
    match Get(d, group)
    case TypeError => TypeError
    case Ok(g) => Ok(Obj(Spread(d)[group := Obj(Spread(g)[key := Str(value)])]))
  }

  /** A change writes exactly one key of one group: that key now holds the value, every other key
      of the group and every other group read as before. */
  lemma WithGroupKeySpec(d: Value, group: string, key: string, value: string, otherGroup: string, otherKey: string)
    requires d.Obj?
    ensures Walk(WithGroupKey(d, group, key, value).value, [group, key]) == Ok(Str(value))
    ensures otherGroup != group ==> Get(WithGroupKey(d, group, key, value).value, otherGroup) == Get(d, otherGroup)
    ensures otherKey != key && Get(d, group).value.Obj? ==>
              Walk(WithGroupKey(d, group, key, value).value, [group, otherKey]) == Walk(d, [group, otherKey])
  {
    var r := WithGroupKey(d, group, key, value).value;
    assert [group, key][1..] == [key] && [key][1..] == [];
    assert [otherKey][1..] == [];
    assert Get(r, group) == Ok(r.fields[group]);
    assert [group, otherKey][1..] == [otherKey];
    assert Walk(r, [group, key]) == Walk(r.fields[group], [key]);
    assert Get(r.fields[group], key) == Ok(Str(value));
    assert Walk(r.fields[group], [key]) == Walk(Str(value), [key][1..]);
    assert Walk(r, [group, otherKey]) == Walk(r.fields[group], [otherKey]);
    assert Walk(d, [group, otherKey]) == Walk(Get(d, group).value, [otherKey]);
  }

  /** A colour preset: a name and a full palette. */
  datatype Preset = Preset(name: string, colors: Value)

  function Palette(primary: string, secondary: string, accent: string, background: string, text: string): Value {
    Obj(map["primary" := Str(primary), "secondary" := Str(secondary), "accent" := Str(accent),
            "background" := Str(background), "text" := Str(text)])
  }

  /** The four presets offered, in display order. */
  const ColorPresets: seq<Preset> := [
    Preset("Rose Classic", Palette("#e11d48", "#f43f5e", "#fb7185", "#ffffff", "#111827")),
    Preset("Warm Sunset", Palette("#ea580c", "#fb923c", "#fbbf24", "#fffbeb", "#1f2937")),
    Preset("Ocean Blue", Palette("#0ea5e9", "#38bdf8", "#7dd3fc", "#f0f9ff", "#0f172a")),
    Preset("Forest Green", Palette("#059669", "#10b981", "#34d399", "#f0fdf4", "#1f2937"))
  ]

  /** `{ ...prev, colors: preset.colors }`: cannot throw, since spreading `undefined` copies
      nothing. */
  function WithPreset(d: Value, p: Preset): (r: Value)
    ensures r.Obj? && Get(r, "colors") == Ok(p.colors)
    ensures forall k :: k != "colors" ==> Get(r, k) == (if CopiedBySpread(d, k) then Get(d, k) else Ok(Undefined))
  {
    SpreadReadsBackAll(d);
    Obj(Spread(d)["colors" := p.colors])
  }

  /** The screen's state. `savedDesign` is the design preview mode started from; only the
      corrected preview and reset read it. */
  class Customizer {
    var designSettings: Value
    var previewMode: bool
    var savedDesign: Value
    const store: Store

    /** While preview is on, the store shows the local settings. */
    ghost predicate Inv()
      reads this, store
    {
      store.Valid() && (previewMode ==> StoredDesign(store.content) == designSettings)
    }

    /** The design the screen has committed to: the one preview started from while previewing,
        otherwise the store's. */
    function Committed(): Value
      reads this, store
      requires store.Valid()
    {
      if previewMode then savedDesign else StoredDesign(store.content)
    }

    constructor (store: Store)
      requires store.Valid()
      ensures Inv() && this.store == store
      ensures designSettings == StoredDesign(store.content) && !previewMode
    {
      this.store := store;
      designSettings := StoredDesign(store.content);
      savedDesign := StoredDesign(store.content);
      previewMode := false;
    }

    /** The effect on `[designSettings, previewMode]`: in preview, the settings go to the store. */
    method ApplyIfPreviewing()
      requires store.Valid()
      modifies store
      ensures store.Valid()
      ensures previewMode ==> StoredDesign(store.content) == designSettings
      ensures !previewMode ==> store.content == old(store.content)
      ensures StoredDesign(store.content) == if previewMode then designSettings else old(StoredDesign(store.content))
      ensures forall k :: k != "design" ==> Get(store.content, k) == old(Get(store.content, k))
      ensures store.mediaLibrary == old(store.mediaLibrary) && store.galleryItems == old(store.galleryItems)
      ensures store.contactSubmissions == old(store.contactSubmissions) && store.blogPosts == old(store.blogPosts)
      ensures store.emailLogs == old(store.emailLogs)
    {
      if previewMode {
        store.ApplyDesignChanges(designSettings);
      }
    }

    /** One key of one group changes; the store follows when previewing. */
    method ChangeGroupKey(group: string, key: string, value: string) returns (ok: bool)
      requires Inv()
      modifies this, store
      ensures Inv()
      ensures ok <==> !old(designSettings).Undefined?
      ensures designSettings == if ok then WithGroupKey(old(designSettings), group, key, value).value else old(designSettings)
      ensures previewMode == old(previewMode) && savedDesign == old(savedDesign)
      ensures !previewMode ==> store.content == old(store.content)
      ensures store.mediaLibrary == old(store.mediaLibrary) && store.galleryItems == old(store.galleryItems)
      ensures store.contactSubmissions == old(store.contactSubmissions) && store.blogPosts == old(store.blogPosts)
      ensures store.emailLogs == old(store.emailLogs)
    {
      var r := WithGroupKey(designSettings, group, key, value);
      if r.TypeError? {
        return false;
      }
      designSettings := r.value;
      ApplyIfPreviewing();
      ok := true;
    }

    /** `handleColorChange(key, value)`. */
    method HandleColorChange(key: string, value: string) returns (ok: bool)
      requires Inv()
      modifies this, store
      ensures Inv()
      ensures ok <==> !old(designSettings).Undefined?
      ensures designSettings == if ok then WithGroupKey(old(designSettings), "colors", key, value).value else old(designSettings)
      ensures previewMode == old(previewMode) && savedDesign == old(savedDesign)
      ensures !previewMode ==> store.content == old(store.content)
      ensures store.mediaLibrary == old(store.mediaLibrary) && store.galleryItems == old(store.galleryItems)
      ensures store.contactSubmissions == old(store.contactSubmissions) && store.blogPosts == old(store.blogPosts)
      ensures store.emailLogs == old(store.emailLogs)
    {
      ok := ChangeGroupKey("colors", key, value);
    }

    /** `handleFontChange(key, value)`. */
    method HandleFontChange(key: string, value: string) returns (ok: bool)
      requires Inv()
      modifies this, store
      ensures Inv()
      ensures ok <==> !old(designSettings).Undefined?
      ensures designSettings == if ok then WithGroupKey(old(designSettings), "fonts", key, value).value else old(designSettings)
      ensures previewMode == old(previewMode) && savedDesign == old(savedDesign)
      ensures !previewMode ==> store.content == old(store.content)
      ensures store.mediaLibrary == old(store.mediaLibrary) && store.galleryItems == old(store.galleryItems)
      ensures store.contactSubmissions == old(store.contactSubmissions) && store.blogPosts == old(store.blogPosts)
      ensures store.emailLogs == old(store.emailLogs)
    {
      ok := ChangeGroupKey("fonts", key, value);
    }

    /** `handleLayoutChange(key, value)`. */
    method HandleLayoutChange(key: string, value: string) returns (ok: bool)
      requires Inv()
      modifies this, store
      ensures Inv()
      ensures ok <==> !old(designSettings).Undefined?
      ensures designSettings == if ok then WithGroupKey(old(designSettings), "layout", key, value).value else old(designSettings)
      ensures previewMode == old(previewMode) && savedDesign == old(savedDesign)
      ensures !previewMode ==> store.content == old(store.content)
      ensures store.mediaLibrary == old(store.mediaLibrary) && store.galleryItems == old(store.galleryItems)
      ensures store.contactSubmissions == old(store.contactSubmissions) && store.blogPosts == old(store.blogPosts)
      ensures store.emailLogs == old(store.emailLogs)
    {
      ok := ChangeGroupKey("layout", key, value);
    }

    /** `applyPreset(preset)`: the palette is replaced whole. */
    method ApplyPreset(p: Preset)
      requires Inv()
      modifies this, store
      ensures Inv()
      ensures designSettings == WithPreset(old(designSettings), p)
      ensures previewMode == old(previewMode) && savedDesign == old(savedDesign)
      ensures !previewMode ==> store.content == old(store.content)
      ensures store.mediaLibrary == old(store.mediaLibrary) && store.galleryItems == old(store.galleryItems)
      ensures store.contactSubmissions == old(store.contactSubmissions) && store.blogPosts == old(store.blogPosts)
      ensures store.emailLogs == old(store.emailLogs)
    {
      designSettings := WithPreset(designSettings, p);
      ApplyIfPreviewing();
    }

    /** `handleSave()`: the local settings become the store's design, and the design a preview
        returns to. */
    method HandleSave()
      requires Inv()
      modifies this, store
      ensures Inv()
      ensures StoredDesign(store.content) == designSettings && Committed() == designSettings
      ensures designSettings == old(designSettings) && previewMode == old(previewMode)
      ensures store.mediaLibrary == old(store.mediaLibrary) && store.galleryItems == old(store.galleryItems)
      ensures store.contactSubmissions == old(store.contactSubmissions) && store.blogPosts == old(store.blogPosts)
      ensures store.emailLogs == old(store.emailLogs)
    {
      store.ApplyDesignChanges(designSettings);
      savedDesign := designSettings;
    }

    /** `handleReset()` as written: the local settings are copied back from the store. In preview
        the store already shows them, so nothing changes. */
    method HandleResetAsWritten()
      requires Inv()
      modifies this, store
      ensures Inv()
      ensures designSettings == StoredDesign(old(store.content))
      ensures old(previewMode) ==> designSettings == old(designSettings)
      ensures previewMode == old(previewMode) && savedDesign == old(savedDesign)
      ensures forall k :: Get(store.content, k) == old(Get(store.content, k))
      ensures store.mediaLibrary == old(store.mediaLibrary) && store.galleryItems == old(store.galleryItems)
      ensures store.contactSubmissions == old(store.contactSubmissions) && store.blogPosts == old(store.blogPosts)
      ensures store.emailLogs == old(store.emailLogs)
    {
      designSettings := StoredDesign(store.content);
      ApplyIfPreviewing();
    }

    /** Reset returns the local settings, and in preview the store, to the committed design. */
    method HandleReset()
      requires Inv()
      modifies this, store
      ensures Inv()
      ensures designSettings == old(Committed()) && Committed() == old(Committed())
      ensures previewMode == old(previewMode) && savedDesign == old(savedDesign)
      ensures store.mediaLibrary == old(store.mediaLibrary) && store.galleryItems == old(store.galleryItems)
      ensures store.contactSubmissions == old(store.contactSubmissions) && store.blogPosts == old(store.blogPosts)
      ensures store.emailLogs == old(store.emailLogs)
    {
      designSettings := Committed();
      ApplyIfPreviewing();
    }

    /** `handlePreview()` as written: entering applies the local settings; leaving applies
        `content.design`, which the preview has already overwritten with them, so the store keeps
        the previewed design. */
    method HandlePreviewAsWritten()
      requires Inv()
      modifies this, store
      ensures Inv()
      ensures previewMode == !old(previewMode) && designSettings == old(designSettings)
      ensures StoredDesign(store.content) == old(designSettings)
      ensures savedDesign == old(savedDesign)
      ensures store.mediaLibrary == old(store.mediaLibrary) && store.galleryItems == old(store.galleryItems)
      ensures store.contactSubmissions == old(store.contactSubmissions) && store.blogPosts == old(store.blogPosts)
      ensures store.emailLogs == old(store.emailLogs)
    {
      if previewMode {
        store.ApplyDesignChanges(StoredDesign(store.content));
      } else {
        store.ApplyDesignChanges(designSettings);
      }
      previewMode := !previewMode;
      ApplyIfPreviewing();
    }

    /** Preview that ends where it began: entering records the store's design and shows the
        local settings; leaving puts the recorded design back. */
    method HandlePreview()
      requires Inv()
      modifies this, store
      ensures Inv()
      ensures previewMode == !old(previewMode) && designSettings == old(designSettings)
      ensures !old(previewMode) ==> StoredDesign(store.content) == designSettings
                                    && savedDesign == StoredDesign(old(store.content))
      ensures old(previewMode) ==> StoredDesign(store.content) == old(savedDesign)
      ensures Committed() == old(Committed())
      ensures store.mediaLibrary == old(store.mediaLibrary) && store.galleryItems == old(store.galleryItems)
      ensures store.contactSubmissions == old(store.contactSubmissions) && store.blogPosts == old(store.blogPosts)
      ensures store.emailLogs == old(store.emailLogs)
    {
      if previewMode {
        store.ApplyDesignChanges(savedDesign);
      } else {
        savedDesign := StoredDesign(store.content);
        store.ApplyDesignChanges(designSettings);
      }
      previewMode := !previewMode;
      ApplyIfPreviewing();
    }

    /** As written: turn preview on, change one colour, turn preview off. The store ends with the
        changed colour although it was never saved. */
    method PreviewColorAsWritten(key: string, value: string)
      requires Inv() && !previewMode && designSettings.Obj?
      modifies this, store
      ensures Inv() && !previewMode
      ensures StoredDesign(store.content) == WithGroupKey(old(designSettings), "colors", key, value).value
      ensures Walk(StoredDesign(store.content), ["colors", key]) == Ok(Str(value))
    {
      HandlePreviewAsWritten();
      var ok := HandleColorChange(key, value);
      HandlePreviewAsWritten();
      WithGroupKeySpec(old(designSettings), "colors", key, value, "colors", key);
    }

    /** Corrected: the same three steps leave the store's design as it was before the preview,
        and the local settings keep the change. */
    method PreviewColor(key: string, value: string)
      requires Inv() && !previewMode && designSettings.Obj?
      modifies this, store
      ensures Inv() && !previewMode
      ensures StoredDesign(store.content) == StoredDesign(old(store.content))
      ensures designSettings == WithGroupKey(old(designSettings), "colors", key, value).value
    {
      HandlePreview();
      var ok := HandleColorChange(key, value);
      HandlePreview();
    }
  }
}
