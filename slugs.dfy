/** The slug the blog editor derives from a post title (`generateSlug` in
    src/components/Admin/BlogManager.tsx), with the string operations it chains. */
module Slugs {
  import opened Js
  import opened Seqs

  /** `\w` without the `u` flag: ASCII letters, digits and the underscore. */
  predicate IsWordChar(c: char) {
    'a' <= c <= 'z' || 'A' <= c <= 'Z' || '0' <= c <= '9' || c == '_'
  }

  /** The characters `/[^\w\s-]/g` leaves in place. */
  predicate KeptBySlug(c: char) {
    IsWordChar(c) || IsSpace(c) || c == '-'
  }

  /** The characters a slug is made of. */
  predicate IsSlugChar(c: char) {
    'a' <= c <= 'z' || '0' <= c <= '9' || c == '_' || c == '-'
  }

  /** `s.replace(/[^\w\s-]/g, '')`. */
  function StripSymbols(s: string): string {
    Filter(s, KeptBySlug)
  }

  /** The number of whitespace characters `s` starts with. */
  function LeadingSpaces(s: string): (n: nat)
    ensures n <= |s| && (n == |s| || !IsSpace(s[n]))
    ensures forall i :: 0 <= i < n ==> IsSpace(s[i])
    decreases |s|
  {
    if s != [] && IsSpace(s[0]) then 1 + LeadingSpaces(s[1..]) else 0
  }

  /** The number of whitespace characters `s` ends with. */
  function TrailingSpaces(s: string): (n: nat)
    ensures n <= |s| && (n == |s| || !IsSpace(s[|s| - n - 1]))
    ensures forall i :: |s| - n <= i < |s| ==> IsSpace(s[i])
    decreases |s|
  {
    if s != [] && IsSpace(s[|s| - 1]) then 1 + TrailingSpaces(s[..|s| - 1]) else 0
  }

  /** `s.trimStart()`. */
  function TrimStart(s: string): string {
    s[LeadingSpaces(s)..]
  }

  /** `s.trimEnd()`. */
  function TrimEnd(s: string): string {
    s[..|s| - TrailingSpaces(s)]
  }

  /** `s.trim()`. */
  function Trim(s: string): string {
    TrimEnd(TrimStart(s))
  }

  /** Every character is whitespace. */
  predicate AllSpace(w: string) {
    forall i :: 0 <= i < |w| ==> IsSpace(w[i])
  }

  /** `s.replace(/\s+/g, '-')`: each maximal run of whitespace becomes one hyphen. */
  function Hyphenate(s: string): string {
    Runs(s, false)
  }

  /** Hyphenation of `s` when the text before it ended inside a whitespace run (`inRun`),
      whose hyphen is then already written. */
  function Runs(s: string, inRun: bool): (r: string)
    ensures forall i :: 0 <= i < |r| ==> !IsSpace(r[i])
    decreases |s|
  {
    if s == [] then []
    else if IsSpace(s[0]) then (if inRun then Runs(s[1..], true) else "-" + Runs(s[1..], true))
    else [s[0]] + Runs(s[1..], false)
  }

  /** Hyphenation adds hyphens and otherwise only keeps characters it was given. */
  lemma {:induction false} RunsChars(s: string, inRun: bool)
    ensures forall c :: c in Runs(s, inRun) ==> c == '-' || c in s
    decreases |s|
  {
    if s != [] {
      RunsChars(s[1..], IsSpace(s[0]));
    }
  }

  /** `generateSlug(title)` as written: lower-case, drop symbols, hyphenate whitespace, then
      trim (which finds no whitespace left to remove). */
  function GenerateSlugAsWritten(title: string): string {
    Trim(Hyphenate(StripSymbols(Lower(title))))
  }

  /** The slug with the trim moved before the hyphenation, so that whitespace around a title
      does not turn into hyphens at the ends of its slug. */
  function GenerateSlug(title: string): string {
    Hyphenate(Trim(StripSymbols(Lower(title))))
  }

  /** Hyphenation leaves a string without whitespace as it is. */
  lemma {:induction false} RunsNoSpace(s: string, inRun: bool)
    requires forall i :: 0 <= i < |s| ==> !IsSpace(s[i])
    ensures Runs(s, inRun) == s
    decreases |s|
  {
    if s != [] {
      RunsNoSpace(s[1..], false);
    }
  }

  /** Text ending in a non-space character is hyphenated on its own, and what follows starts
      outside any run. */
  lemma {:induction false} RunsSplit(a: string, y: string, inRun: bool)
    requires a != [] && !IsSpace(a[|a| - 1])
    ensures Runs(a + y, inRun) == Runs(a, inRun) + Runs(y, false)
    decreases |a|
  {
    assert (a + y)[0] == a[0];
    assert (a + y)[1..] == a[1..] + y;
    if |a| == 1 {
      assert a[1..] == [] && a[1..] + y == y;
    } else {
      RunsSplit(a[1..], y, IsSpace(a[0]));
    }
  }

  /** Inside a run, further whitespace adds nothing. */
  lemma {:induction false} RunsSkipSpaces(w: string, b: string)
    requires AllSpace(w)
    ensures Runs(w + b, true) == Runs(b, true)
    decreases |w|
  {
    if w != [] {
      assert (w + b)[0] == w[0];
      assert (w + b)[1..] == w[1..] + b;
      assert AllSpace(w[1..]) by {
        forall i | 0 <= i < |w[1..]| ensures IsSpace(w[1..][i]) {
          assert w[1..][i] == w[i + 1];
        }
      }
      RunsSkipSpaces(w[1..], b);
    } else {
      assert w + b == b;
    }
  }

  /** A whitespace run between two non-space neighbours becomes exactly one hyphen, and the
      text on either side is hyphenated on its own. */
  lemma HyphenateRun(a: string, w: string, b: string)
    requires |w| > 0 && AllSpace(w)
    requires a == [] || !IsSpace(a[|a| - 1])
    requires b == [] || !IsSpace(b[0])
    ensures Hyphenate(a + w + b) == Hyphenate(a) + "-" + Hyphenate(b)
  {
    assert (w + b)[0] == w[0] && (w + b)[1..] == w[1..] + b;
    assert AllSpace(w[1..]) by {
      forall i | 0 <= i < |w[1..]| ensures IsSpace(w[1..][i]) {
        assert w[1..][i] == w[i + 1];
      }
    }
    RunsSkipSpaces(w[1..], b);
    assert Runs(w + b, false) == "-" + Runs(b, false);
    if a == [] {
      assert a + w + b == w + b;
    } else {
      RunsSplit(a, w + b, false);
      assert a + w + b == a + (w + b);
    }
  }

  /** Hyphenated text that ends outside whitespace ends with the same character. */
  lemma {:induction false} RunsLast(s: string, inRun: bool)
    requires s != [] && !IsSpace(s[|s| - 1])
    ensures Runs(s, inRun) != [] && Runs(s, inRun)[|Runs(s, inRun)| - 1] == s[|s| - 1]
    decreases |s|
  {
    if |s| > 1 {
      RunsLast(s[1..], IsSpace(s[0]));
    }
  }

  /** Lower-casing and dropping symbols leaves only slug characters and whitespace, and a
      hyphen only where the title had one. */
  lemma StrippedChars(title: string)
    ensures forall c :: c in StripSymbols(Lower(title)) ==> IsSlugChar(c) || IsSpace(c)
    ensures '-' in StripSymbols(Lower(title)) ==> '-' in title
  {
    var low := Lower(title);
    forall c | c in StripSymbols(low) ensures IsSlugChar(c) || IsSpace(c) {
      FilterMembership(low, KeptBySlug, c);
    }
    if '-' in StripSymbols(low) {
      FilterMembership(low, KeptBySlug, '-');
      var i :| 0 <= i < |low| && low[i] == '-';
      assert title[i] == '-';
    }
  }

  /** A slug holds only lower-case ASCII letters, digits, `_` and `-`. */
  lemma SlugChars(title: string)
    ensures forall i :: 0 <= i < |GenerateSlug(title)| ==> IsSlugChar(GenerateSlug(title)[i])
  {
    var x := Trim(StripSymbols(Lower(title)));
    StrippedChars(title);
    RunsChars(x, false);
    TrimSpec(StripSymbols(Lower(title)));
  }

  /** A slug is its own slug: generating one again from an existing slug changes nothing. */
  lemma SlugIdempotent(title: string)
    ensures GenerateSlug(GenerateSlug(title)) == GenerateSlug(title)
  {
    var u := GenerateSlug(title);
    SlugChars(title);
    assert Lower(u) == u;
    FilterAll(u, KeptBySlug);
    NoSpaceTrim(u);
    RunsNoSpace(u, false);
  }

  /** The slug never starts or ends with a hyphen unless the title contains one. */
  lemma SlugEnds(title: string)
    requires '-' !in title
    ensures GenerateSlug(title) != [] ==>
              GenerateSlug(title)[0] != '-' && GenerateSlug(title)[|GenerateSlug(title)| - 1] != '-'
  {
    var s := StripSymbols(Lower(title));
    var x := Trim(s);
    StrippedChars(title);
    TrimSpec(s);
    if x != [] {
      assert x[0] in s && x[|x| - 1] in s;
      assert Runs(x, false) == [x[0]] + Runs(x[1..], false);
      RunsLast(x, false);
    }
  }

  /** `trim()` keeps a stretch of its input that neither starts nor ends with whitespace. */
  lemma TrimSpec(s: string)
    ensures forall c :: c in Trim(s) ==> c in s
    ensures Trim(s) == [] || (!IsSpace(Trim(s)[0]) && !IsSpace(Trim(s)[|Trim(s)| - 1]))
  {
    forall c | c in Trim(s) ensures c in s {
      TrimKeeps(s, c);
    }
    var t0 := TrimStart(s);
    assert TrimEnd(t0) == t0[..|TrimEnd(t0)|];
  }

  lemma TrimKeeps(s: string, c: char)
    requires c in Trim(s)
    ensures c in s
  {
    var t0 := TrimStart(s);
    var x := TrimEnd(t0);
    var i :| 0 <= i < |x| && x[i] == c;
    assert t0[i] == c;
    assert s[|s| - |t0| + i] == c;
  }

  /** Trimming a string without whitespace removes nothing. */
  lemma NoSpaceTrim(s: string)
    requires forall i :: 0 <= i < |s| ==> !IsSpace(s[i])
    ensures Trim(s) == s
  {
    assert LeadingSpaces(s) == 0 by {
      if s != [] { assert !IsSpace(s[0]); }
    }
    assert TrailingSpaces(s) == 0 by {
      if s != [] { assert !IsSpace(s[|s| - 1]); }
    }
  }

  /** The trim in the written `generateSlug` never removes anything: whitespace around a title
      becomes a hyphen at the end of its slug. */
  lemma SlugTrimIsDead(title: string)
    ensures GenerateSlugAsWritten(title) == Hyphenate(StripSymbols(Lower(title)))
  {
    var h := Hyphenate(StripSymbols(Lower(title)));
    NoSpaceTrim(h);
  }

  /** The slug as written also holds only slug characters, and is its own slug. */
  lemma SlugAsWrittenCharsIdempotent(title: string)
    ensures forall i :: 0 <= i < |GenerateSlugAsWritten(title)| ==> IsSlugChar(GenerateSlugAsWritten(title)[i])
    ensures GenerateSlugAsWritten(GenerateSlugAsWritten(title)) == GenerateSlugAsWritten(title)
  {
    var s := StripSymbols(Lower(title));
    var u := GenerateSlugAsWritten(title);
    SlugTrimIsDead(title);
    StrippedChars(title);
    RunsChars(s, false);
    assert forall i :: 0 <= i < |u| ==> IsSlugChar(u[i]) by {
      forall i | 0 <= i < |u| ensures IsSlugChar(u[i]) {
        assert u[i] in u;
        assert !IsSpace(u[i]);
      }
    }
    assert Lower(u) == u;
    FilterAll(u, KeptBySlug);
    RunsNoSpace(u, false);
    SlugTrimIsDead(u);
  }

  /** The title " a" gets the slug "-a" as written, and "a" once the trim comes first. */
  lemma LeadingSpaceSlug()
    ensures GenerateSlugAsWritten(" a") == "-a" && GenerateSlug(" a") == "a"
  {
    SlugTrimIsDead(" a");
    assert Lower(" a") == " a";
    assert StripSymbols(" a") == " a" by {
      assert KeptBySlug(' ') && KeptBySlug('a');
      assert " a"[1..] == "a" && "a"[1..] == [];
    }
    assert Hyphenate(" a") == "-a" by {
      assert " a"[1..] == "a";
      RunsNoSpace("a", true);
    }
    assert Trim(" a") == "a" by {
      assert " a"[1..] == "a";
      assert TrimStart(" a") == "a";
    }
    RunsNoSpace("a", false);
  }
}
