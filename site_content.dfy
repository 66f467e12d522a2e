/** The site content aggregate held by the content store (src/contexts/ContentContext.tsx):
    its default value, the top-level merge with saved content on load, and the dotted-path
    address scheme of `updateContent`. */
module SiteContent {
  import opened Js

  /** A bilingual text `{ he, en }`. */
  function Pair(he: string, en: string): Value {
    Obj(map["he" := Str(he), "en" := Str(en)])
  }

  /** The content every store starts from before saved content is merged in. */
  function DefaultContent(): Value {
    Obj(DefaultSections())
  }

  function DefaultSections(): map<string, Value> {
    map[
      "hero" := DefaultHero(),
      "navigation" := DefaultNavigation(),
      "galleryCategories" := DefaultGalleryCategories(),
      "about" := DefaultAbout(),
      "contact" := DefaultContact(),
      "seo" := DefaultSeo(),
      "design" := DefaultDesign(),
      "analytics" := DefaultAnalytics(),
      "emailSettings" := DefaultEmailSettings(),
      "maintenance" := DefaultMaintenance()
    ]
  }

  function DefaultHero(): Value {
    Obj(map[
      "title" := Pair("צילומי ילדים ומשפחה מקצועיים", "Professional Children & Family Photography"),
      "subtitle" := Pair("מתמחה בצילומי חלאקה, משפחה וילדים - רגעים יקרים שנשמרים לנצח",
                         "Specializing in Chalaka, family and children photography - precious moments preserved forever"),
      "cta" := Pair("צרו קשר לתיאום צילום", "Contact for Photo Session"),
      "backgroundImage" := Str("https://images.pexels.com/photos/1545743/pexels-photo-1545743.jpeg?auto=compress&cs=tinysrgb&w=1200")
    ])
  }

  function DefaultNavigation(): Value {
    Obj(map[
      "home" := Pair("בית", "Home"),
      "gallery" := Pair("גלריה", "Gallery"),
      "about" := Pair("אודות", "About"),
      "contact" := Pair("צור קשר", "Contact"),
      "blog" := Pair("בלוג", "Blog")
    ])
  }

  function DefaultGalleryCategories(): Value {
    Obj(map[
      "chalaka" := Pair("חלאקה", "Chalaka"),
      "family" := Pair("משפחה", "Family"),
      "newborn" := Pair("ילודים", "Newborn"),
      "smash" := Pair("סמאש קייק", "Smash Cake")
    ])
  }

  function DefaultAbout(): Value {
    Obj(map[
      "title" := Pair("אודותיי", "About Me"),
      "content" := Pair("שמי [שם הצלמת] ואני צלמת מקצועית המתמחה בצילומי ילדים ומשפחות. האמונה שלי היא שכל ילד ומשפחה ייחודיים, ותפקידי להעביר את הקסם הזה דרך העדשה.",
                        "My name is [Photographer Name] and I am a professional photographer specializing in children and family photography. My belief is that every child and family is unique, and my job is to capture that magic through the lens."),
      "image" := Str("https://images.pexels.com/photos/1462637/pexels-photo-1462637.jpeg?auto=compress&cs=tinysrgb&w=800")
    ])
  }

  function DefaultContact(): Value {
    Obj(map[
      "title" := Pair("צרו קשר", "Contact Me"),
      "phone" := Str("050-123-4567"),
      "email" := Str("info@photography.co.il"),
      "address" := Pair("תל אביב והמרכז", "Tel Aviv & Center"),
      "whatsapp" := Str("+972501234567"),
      "socialMedia" := Obj(map[
        "instagram" := Str("https://instagram.com/photographer"),
        "facebook" := Str("https://facebook.com/photographer"),
        "youtube" := Str("")
      ])
    ])
  }

  function DefaultSeo(): Value {
    Obj(map[
      "siteName" := Pair("Photography Studio - צילומי ילדים ומשפחה",
                         "Photography Studio - Children & Family Photography"),
      "description" := Pair("צילומי ילדים ומשפחה מקצועיים - מתמחה בצילומי חלאקה, פורטרטים משפחתיים ורגעים יקרים",
                            "Professional children and family photography - specializing in Chalaka ceremonies, family portraits and precious moments"),
      "keywords" := Pair("צילום ילדים, צילום משפחה, צילום חלאקה, צילום ילודים, צלמת מקצועית, תל אביב",
                         "children photography, family photography, chalaka photography, newborn photography, professional photographer, tel aviv"),
      "favicon" := Str("/favicon.ico")
    ])
  }

  function DefaultDesign(): Value {
    Obj(map[
      "colors" := Obj(map[
        "primary" := Str("#e11d48"),
        "secondary" := Str("#f43f5e"),
        "accent" := Str("#fb7185"),
        "background" := Str("#ffffff"),
        "text" := Str("#111827")
      ]),
      "fonts" := Obj(map[
        "hebrew" := Str("Heebo"),
        "english" := Str("Inter"),
        "headingWeight" := Str("700"),
        "bodyWeight" := Str("400")
      ]),
      "layout" := Obj(map[
        "maxWidth" := Str("1280px"),
        "sectionPadding" := Str("5rem")
      ])
    ])
  }

  function DefaultAnalytics(): Value {
    Obj(map[
      "googleAnalytics" := Str(""),
      "metaPixel" := Str("")
    ])
  }

  function DefaultEmailSettings(): Value {
    Obj(map[
      "smtpHost" := Str("smtp.gmail.com"),
      "smtpPort" := Num(587),
      "smtpUser" := Str(""),
      "smtpPassword" := Str(""),
      "fromEmail" := Str("noreply@photography.co.il"),
      "toEmail" := Str("admin@photography.co.il"),
      "enabled" := Bool(false)
    ])
  }

  function DefaultMaintenance(): Value {
    Obj(map[
      "enabled" := Bool(false),
      "message" := Pair("האתר נמצא בתחזוקה. נחזור בקרוב!", "Site under maintenance. We'll be back soon!")
    ])
  }

  /** `{ ...defaultContent, ...saved }`: every top-level section of the default is present, and
      a section present in the saved content replaces the default one wholesale. */
  function MergeSaved(defaults: Value, saved: Value): (r: Value)
    requires defaults.Obj?
    ensures r.Obj?
    ensures r.fields.Keys == defaults.fields.Keys + Spread(saved).Keys
    ensures forall k :: k in Spread(saved) ==> Ok(r.fields[k]) == Get(saved, k)
    ensures forall k :: k in defaults.fields && k !in Spread(saved) ==> r.fields[k] == defaults.fields[k]
  {
    SpreadReadsBackAll(saved);
    Obj(defaults.fields + Spread(saved))
  }

  /** The value reached by reading `keys` one after another, as `current = current[key]`
      does; a read from `undefined` throws. */
  function Walk(root: Value, keys: seq<string>): Result<Value>
    decreases |keys|
  {
    if keys == [] then Ok(root)
    else
      match Get(root, keys[0])
      case TypeError => TypeError
      case Ok(child) => Walk(child, keys[1..])
  }

  /** The content after `current[last] = data` at the end of the walk, or the TypeError the
      walk or the write throws. The write rebuilds each container on the path. */
  function AssignPath(root: Value, keys: seq<string>, data: Value): Result<Value>
    requires |keys| >= 1
    decreases |keys|
  {
    if |keys| == 1 then SetProperty(root, keys[0], data)
    else
      match Get(root, keys[0])
      case TypeError => TypeError
      case Ok(child) =>
        match AssignPath(child, keys[1..], data)
        case TypeError => TypeError
        case Ok(newChild) => SetProperty(root, keys[0], newChild)
  }

  /** One more step of the walk reads one more property. */
  lemma {:induction false} WalkSnoc(root: Value, keys: seq<string>, k: string)
    ensures Walk(root, keys + [k]) ==
            match Walk(root, keys)
            case TypeError => TypeError
            case Ok(v) => Get(v, k)
    decreases |keys|
  {
    if keys == [] {
      assert keys + [k] == [k];
      assert [k][1..] == [];
    } else {
      assert (keys + [k])[0] == keys[0];
      assert (keys + [k])[1..] == keys[1..] + [k];
      match Get(root, keys[0])
      case TypeError =>
      case Ok(child) => WalkSnoc(child, keys[1..], k);
    }
  }

  /** Once a read throws, reading further along the path throws as well. */
  lemma {:induction false} WalkFailurePersists(root: Value, keys: seq<string>, n: nat)
    requires n <= |keys| && Walk(root, keys[..n]).TypeError?
    ensures Walk(root, keys).TypeError?
    decreases |keys| - n
  {
    if n < |keys| {
      WalkSnoc(root, keys[..n], keys[n]);
      assert keys[..n] + [keys[n]] == keys[..n + 1];
      WalkFailurePersists(root, keys, n + 1);
    } else {
      assert keys[..n] == keys;
    }
  }

  /** `updateContent` succeeds exactly when the walk over all but the last segment reaches an
      object; a missing (undefined) intermediate section or a primitive container throws. */
  lemma {:induction false} AssignSucceedsIffParentIsObject(root: Value, keys: seq<string>, data: Value)
    requires |keys| >= 1
    ensures AssignPath(root, keys, data).Ok? <==>
            (Walk(root, keys[..|keys| - 1]).Ok? && Walk(root, keys[..|keys| - 1]).value.Obj?)
    decreases |keys|
  {
    if |keys| == 1 {
      assert keys[..0] == [];
    } else {
      assert keys[..|keys| - 1][0] == keys[0];
      assert keys[..|keys| - 1][1..] == keys[1..][..|keys[1..]| - 1];
      match Get(root, keys[0])
      case TypeError =>
      case Ok(child) =>
        AssignSucceedsIffParentIsObject(child, keys[1..], data);
        if AssignPath(child, keys[1..], data).Ok? {
          AssignKeepsObject(child, keys[1..], data);
        }
    }
  }

  /** A successful assignment yields an object (the copied top level or a rebuilt container). */
  lemma AssignKeepsObject(root: Value, keys: seq<string>, data: Value)
    requires |keys| >= 1
    requires AssignPath(root, keys, data).Ok?
    ensures AssignPath(root, keys, data).value.Obj? && root.Obj?
  {
  }

  /** After `updateContent(path, data)` the path reads back `data`. */
  lemma {:induction false} AssignThenWalk(root: Value, keys: seq<string>, data: Value)
    requires |keys| >= 1
    requires AssignPath(root, keys, data).Ok?
    ensures Walk(AssignPath(root, keys, data).value, keys) == Ok(data)
    decreases |keys|
  {
    if |keys| > 1 {
      var child := Get(root, keys[0]).value;
      AssignThenWalk(child, keys[1..], data);
    }
  }

  /** Every path that leaves `keys` at some segment `j` (a sibling of a node on the path, or
      anything below such a sibling) reads the same before and after the assignment. */
  lemma {:induction false} AssignLeavesSiblings(root: Value, keys: seq<string>, data: Value, q: seq<string>, j: nat)
    requires |keys| >= 1
    requires AssignPath(root, keys, data).Ok?
    requires j < |q| && j < |keys| && q[..j] == keys[..j] && q[j] != keys[j]
    ensures Walk(AssignPath(root, keys, data).value, q) == Walk(root, q)
    decreases j
  {
    var r := AssignPath(root, keys, data).value;
    if j > 0 {
      assert q[0] == keys[0] by { assert q[..j][0] == keys[..j][0]; }
      var child := Get(root, keys[0]).value;
      assert q[1..][..j - 1] == keys[1..][..j - 1] by {
        assert q[1..][..j - 1] == q[..j][1..];
        assert keys[1..][..j - 1] == keys[..j][1..];
      }
      AssignLeavesSiblings(child, keys[1..], data, q[1..], j - 1);
    }
  }
}
