/**
 * The content editor of src/components/content/ContentForm.tsx: slug
 * generation from the title, the tag list, the category lookup and the
 * record handed to `onSubmit`.
 */
module ContentForm {
  import opened Types
  import opened Text
  import Seqs
  import Api

  // ---------------------------------------------------------------------
  // Slug generation: title.toLowerCase().replace(/[^\w\s]/gi, "").replace(/\s+/g, "-")
  // ---------------------------------------------------------------------

  /** The characters `/[^\w\s]/gi` leaves alone. */
  predicate WordOrSpace(c: char) {
    IsWordChar(c) || IsJsSpace(c)
  }

  predicate NotSpace(c: char) {
    !IsJsSpace(c)
  }

  predicate NotDash(c: char) {
    c != '-'
  }

  /** The characters a generated slug is made of: `[a-z0-9_]` and `-`. */
  predicate SlugChar(c: char) {
    ('a' <= c <= 'z') || ('0' <= c <= '9') || c == '_' || c == '-'
  }

  /** `.replace(/[^\w\s]/gi, "")`: delete every character that is neither a word character nor white space. */
  function StripNonWord(s: string): (r: string)
    ensures forall c :: c in r <==> c in s && WordOrSpace(c)
    ensures Seqs.IsSubsequence(r, s)
    ensures forall c :: Seqs.Count(r, c) == if WordOrSpace(c) then Seqs.Count(s, c) else 0
  {
    Seqs.FilterMembers(s, WordOrSpace);
    Seqs.FilterIsSubsequence(s, WordOrSpace);
    Seqs.FilterCounts(s, WordOrSpace);
    Seqs.Filter(s, WordOrSpace)
  }

  /**
   * `.replace(/\s+/g, "-")`: each maximal run of white space becomes one
   * `-`. A white-space character followed by another is dropped; the last
   * one of a run is replaced by `-`.
   */
  function CollapseSpaces(s: string): (r: string)
    ensures |r| <= |s|
    decreases |s|
  {
    if s == [] then []
    else if IsJsSpace(s[0]) then
      (if |s| > 1 && IsJsSpace(s[1]) then CollapseSpaces(s[1..]) else "-" + CollapseSpaces(s[1..]))
    else [s[0]] + CollapseSpaces(s[1..])
  }

  /**
   * What `CollapseSpaces` emits: a `-` or a character of its input that is
   * not white space; and it starts with `-` exactly when its input starts
   * with white space.
   */
  lemma {:induction false} CollapseChars(s: string)
    ensures var r := CollapseSpaces(s);
      && (s == [] <==> r == [])
      && (s != [] && IsJsSpace(s[0]) ==> r[0] == '-')
      && (s != [] && !IsJsSpace(s[0]) ==> r[0] == s[0])
      && forall c :: c in r ==> c == '-' || (c in s && !IsJsSpace(c))
    decreases |s|
  {
    if s != [] {
      var t := s[1..];
      CollapseChars(t);
      assert forall c :: c in t ==> c in s;
      if IsJsSpace(s[0]) && |s| > 1 && IsJsSpace(s[1]) {
        assert t[0] == s[1];
      }
    }
  }

  /** The slug the form derives from a title. */
  function Slugify(title: string): (slug: string)
    ensures |slug| <= |title|
  {
    CollapseSpaces(StripNonWord(Lower(title)))
  }

  /** Every character of a slug is in `[a-z0-9_]` or is `-`; none is white space. */
  lemma SlugCharset(title: string)
    ensures var slug := Slugify(title);
      forall i :: 0 <= i < |slug| ==> SlugChar(slug[i]) && !IsJsSpace(slug[i])
  {
    var lowered := Lower(title);
    var stripped := StripNonWord(lowered);
    var slug := CollapseSpaces(stripped);
    CollapseChars(stripped);
    forall i | 0 <= i < |slug|
      ensures SlugChar(slug[i]) && !IsJsSpace(slug[i])
    {
      var c := slug[i];
      assert c in slug;
      if c != '-' {
        assert c in stripped && !IsJsSpace(c);
        assert c in lowered && WordOrSpace(c);
        var k :| 0 <= k < |lowered| && lowered[k] == c;
        assert !IsUpper(c);
      }
    }
  }

  /** No two `-` side by side. */
  predicate NoDoubleDash(s: string) {
    forall i :: 0 <= i < |s| - 1 ==> !(s[i] == '-' && s[i + 1] == '-')
  }

  /** Without `-` in its input, `CollapseSpaces` never puts two `-` side by side. */
  lemma {:induction false} CollapseNoDoubleDash(s: string)
    requires '-' !in s
    ensures NoDoubleDash(CollapseSpaces(s))
    decreases |s|
  {
    if s != [] {
      var t := s[1..];
      assert '-' !in t;
      CollapseNoDoubleDash(t);
      var rest := CollapseSpaces(t);
      if IsJsSpace(s[0]) && !(|s| > 1 && IsJsSpace(s[1])) {
        CollapseChars(t);
        assert t != [] ==> rest[0] == t[0] && t[0] in t;
        DashBeforeNoDash(rest);
      } else if !IsJsSpace(s[0]) {
        ConsNoDoubleDash(s[0], rest);
      }
    }
  }

  /** A `-` put before a string that does not start with `-` makes no double dash. */
  lemma DashBeforeNoDash(rest: string)
    requires NoDoubleDash(rest)
    requires rest == [] || rest[0] != '-'
    ensures NoDoubleDash("-" + rest)
  {
    var r := "-" + rest;
    forall i | 0 <= i < |r| - 1
      ensures !(r[i] == '-' && r[i + 1] == '-')
    {
      if i > 0 {
        assert r[i] == rest[i - 1] && r[i + 1] == rest[i];
      }
    }
  }

  /** A character other than `-` put before a string keeps it free of double dashes. */
  lemma ConsNoDoubleDash(c: char, rest: string)
    requires NoDoubleDash(rest)
    requires c != '-'
    ensures NoDoubleDash([c] + rest)
  {
    var r := [c] + rest;
    forall i | 0 <= i < |r| - 1
      ensures !(r[i] == '-' && r[i + 1] == '-')
    {
      if i > 0 {
        assert r[i] == rest[i - 1] && r[i + 1] == rest[i];
      }
    }
  }

  /** A generated slug never has two adjacent `-`: the title's own `-` are deleted first. */
  lemma SlugNoDoubleDash(title: string)
    ensures NoDoubleDash(Slugify(title))
  {
    var stripped := StripNonWord(Lower(title));
    assert '-' !in stripped;
    CollapseNoDoubleDash(stripped);
  }

  /** Deleting the `-` of `CollapseSpaces(s)` gives `s` without its white space. */
  lemma {:induction false} CollapseDashesAreSpaces(s: string)
    requires '-' !in s
    ensures Seqs.Filter(CollapseSpaces(s), NotDash) == Seqs.Filter(s, NotSpace)
    decreases |s|
  {
    if s != [] {
      var t := s[1..];
      assert '-' !in t;
      CollapseDashesAreSpaces(t);
      var rest := CollapseSpaces(t);
      if IsJsSpace(s[0]) {
        if !(|s| > 1 && IsJsSpace(s[1])) {
          Seqs.FilterAppend("-", rest, NotDash);
          assert Seqs.Filter("-", NotDash) == [] by {
            assert "-"[1..] == [];
          }
        }
      } else {
        assert s[0] in s;
        Seqs.FilterAppend([s[0]], rest, NotDash);
        assert Seqs.Filter([s[0]], NotDash) == [s[0]] by {
          assert [s[0]][1..] == [];
        }
      }
    }
  }

  /**
   * Every `-` of a slug stands for white space: deleting the `-` leaves
   * exactly the word characters of the lower-cased title, in order.
   */
  lemma SlugLettersFromTitle(title: string)
    ensures Seqs.Filter(Slugify(title), NotDash) == Seqs.Filter(Lower(title), IsWordChar)
  {
    var lowered := Lower(title);
    var stripped := StripNonWord(lowered);
    assert '-' !in stripped;
    CollapseDashesAreSpaces(stripped);
    Seqs.FilterFilter(lowered, WordOrSpace, NotSpace, IsWordChar);
  }

  /** Without white space in its input, `CollapseSpaces` changes nothing. */
  lemma {:induction false} CollapseWithoutSpaces(s: string)
    requires forall i :: 0 <= i < |s| ==> !IsJsSpace(s[i])
    ensures CollapseSpaces(s) == s
    decreases |s|
  {
    if s != [] {
      CollapseWithoutSpaces(s[1..]);
      assert [s[0]] + s[1..] == s;
    }
  }

  /** A title without white space gives a slug without `-`. */
  lemma NoSpaceNoDash(title: string)
    requires forall i :: 0 <= i < |title| ==> !IsJsSpace(title[i])
    ensures '-' !in Slugify(title)
  {
    var lowered := Lower(title);
    var stripped := StripNonWord(lowered);
    assert forall i :: 0 <= i < |stripped| ==> !IsJsSpace(stripped[i]) by {
      forall i | 0 <= i < |stripped|
        ensures !IsJsSpace(stripped[i])
      {
        assert stripped[i] in lowered;
      }
    }
    CollapseWithoutSpaces(stripped);
  }

  /** `CollapseSpaces` works piecewise across a boundary that does not split a white-space run. */
  lemma {:induction false} CollapseAppend(a: string, t: string)
    requires a == [] || !IsJsSpace(a[|a| - 1])
    ensures CollapseSpaces(a + t) == CollapseSpaces(a) + CollapseSpaces(t)
    decreases |a|
  {
    if a == [] {
      assert a + t == t;
    } else {
      var s := a + t;
      assert s[0] == a[0] && s[1..] == a[1..] + t;
      CollapseAppend(a[1..], t);
      if IsJsSpace(a[0]) {
        assert |a| > 1 && s[1] == a[1];
      }
    }
  }

  /** A non-empty white-space run followed by a non-space character (or by nothing) becomes one `-`. */
  lemma {:induction false} CollapseRun(w: string, b: string)
    requires w != [] && forall i :: 0 <= i < |w| ==> IsJsSpace(w[i])
    requires b == [] || !IsJsSpace(b[0])
    ensures CollapseSpaces(w + b) == "-" + CollapseSpaces(b)
    decreases |w|
  {
    var s := w + b;
    assert s[0] == w[0] && s[1..] == w[1..] + b;
    if |w| == 1 {
      assert w[1..] + b == b;
    } else {
      assert s[1] == w[1];
      CollapseRun(w[1..], b);
    }
  }

  /**
   * `.replace(/\s+/g, "-")` on a maximal white-space run: between a part
   * not ending and a part not starting with white space, the whole run
   * becomes exactly one `-`.
   */
  lemma CollapseMaximalRun(a: string, w: string, b: string)
    requires w != [] && forall i :: 0 <= i < |w| ==> IsJsSpace(w[i])
    requires a == [] || !IsJsSpace(a[|a| - 1])
    requires b == [] || !IsJsSpace(b[0])
    ensures CollapseSpaces(a + w + b) == CollapseSpaces(a) + "-" + CollapseSpaces(b)
  {
    assert a + w + b == a + (w + b);
    CollapseAppend(a, w + b);
    CollapseRun(w, b);
    AppendAssoc(CollapseSpaces(a), "-", CollapseSpaces(b));
  }

  /** Concatenation regroups. */
  lemma AppendAssoc(x: string, y: string, z: string)
    ensures x + (y + z) == x + y + z
  {
  }

  /** One white-space character between two others becomes one `-`. */
  lemma CollapseSpacedPair(x: char, y: char)
    requires !IsJsSpace(x) && !IsJsSpace(y)
    ensures CollapseSpaces([x, ' ', y]) == [x, '-', y]
  {
    assert CollapseSpaces([y]) == [y] by {
      assert [y][1..] == [];
    }
    assert [' ', y][1..] == [y];
    assert CollapseSpaces([' ', y]) == "-" + [y];
    assert [x, ' ', y][1..] == [' ', y];
  }

  /** A `-` between two word characters is deleted. */
  lemma StripDashedPair(x: char, y: char)
    requires IsWordChar(x) && IsWordChar(y)
    ensures StripNonWord([x, '-', y]) == [x, y]
  {
    var s := [x, '-', y];
    assert s[1..] == ['-', y] && s[1..][1..] == [y] && [y][1..] == [];
    assert Seqs.Filter([y], WordOrSpace) == [y];
    assert Seqs.Filter(['-', y], WordOrSpace) == [y];
  }

  lemma SlugOfSpacedPair()
    ensures Slugify("a b") == "a-b"
  {
    assert Lower("a b") == "a b";
    assert StripNonWord("a b") == "a b" by {
      Seqs.FilterAllPass("a b", WordOrSpace);
    }
    CollapseSpacedPair('a', 'b');
  }

  lemma SlugOfDashedPair()
    ensures Slugify("a-b") == "ab"
  {
    assert Lower("a-b") == "a-b";
    StripDashedPair('a', 'b');
    CollapseWithoutSpaces("ab");
  }

  /** Slug generation is not idempotent: "a b" becomes "a-b", which becomes "ab". */
  lemma SlugifyNotIdempotent()
    ensures Slugify(Slugify("a b")) != Slugify("a b")
  {
    SlugOfSpacedPair();
    SlugOfDashedPair();
    assert "ab" != "a-b";
  }

  // ---------------------------------------------------------------------
  // Tags: handleAddTag and handleRemoveTag
  // ---------------------------------------------------------------------

  /** The tag list after `handleAddTag` with the given input. */
  function WithTag(tags: seq<string>, input: string): (r: seq<string>)
    ensures var t := Trim(input);
      && (|r| == |tags| + 1 <==> t != "" && t !in tags)
      && |tags| <= |r| <= |tags| + 1
      && r[..|tags|] == tags
      && (forall x :: x in r <==> x in tags || (x == t && x != ""))
      && (Seqs.NoDuplicates(tags) ==> Seqs.NoDuplicates(r))
  {
    var t := Trim(input);
    if t != "" && t !in tags then tags + [t] else tags
  }

  /** Adding the same input twice gives what adding it once gives. */
  lemma WithTagIdempotent(tags: seq<string>, input: string)
    ensures WithTag(WithTag(tags, input), input) == WithTag(tags, input)
  {
  }

  /** The tag list after `handleRemoveTag(t)`. */
  function WithoutTag(tags: seq<string>, t: string): (r: seq<string>)
    ensures forall x :: x in r <==> x in tags && x != t
    ensures Seqs.IsSubsequence(r, tags)
  {
    var keep := (x: string) => x != t;
    Seqs.FilterMembers(tags, keep);
    Seqs.FilterIsSubsequence(tags, keep);
    Seqs.Filter(tags, keep)
  }

  /** Removing a tag deletes each of its occurrences and keeps every other tag as often as it was there. */
  lemma WithoutTagCounts(tags: seq<string>, t: string)
    ensures Seqs.Count(WithoutTag(tags, t), t) == 0
    ensures forall x :: x != t ==> Seqs.Count(WithoutTag(tags, t), x) == Seqs.Count(tags, x)
  {
    var keep := (x: string) => x != t;
    assert WithoutTag(tags, t) == Seqs.Filter(tags, keep);
    forall x
      ensures Seqs.Count(Seqs.Filter(tags, keep), x) == if x != t then Seqs.Count(tags, x) else 0
    {
      Seqs.FilterCount(tags, keep, x);
    }
  }

  /** Removing a tag that was just added restores the list it was added to. */
  lemma RemoveUndoesAdd(tags: seq<string>, input: string)
    requires Trim(input) !in tags
    ensures WithoutTag(WithTag(tags, input), Trim(input)) == tags
  {
    var t := Trim(input);
    var keep := (x: string) => x != t;
    Seqs.FilterAllPass(tags, keep);
    if t != "" {
      Seqs.FilterAppend(tags, [t], keep);
      assert Seqs.Filter([t], keep) == [] by {
        assert [t][1..] == [];
      }
    }
  }

  // ---------------------------------------------------------------------
  // The submitted record: handleSubmit
  // ---------------------------------------------------------------------

  /** `categories.find((cat) => cat.id === id)`: the first loaded category with that id. */
  function FindCategory(categories: seq<Category>, id: string): (r: Option<Category>)
    ensures r.Some? <==> exists i :: 0 <= i < |categories| && categories[i].id == id
    ensures r.Some? ==> r.value in categories && r.value.id == id
    ensures r.Some? ==> exists i :: 0 <= i < |categories| && categories[i] == r.value
                                  && (forall j :: 0 <= j < i ==> categories[j].id != id)
  {
    if categories == [] then None
    else if categories[0].id == id then Some(categories[0])
    else
      var r := FindCategory(categories[1..], id);
      assert forall i :: 0 < i < |categories| ==> categories[i] == categories[1..][i - 1];
      r
  }

  /** With ids unique among the loaded categories, the lookup returns the one category carrying the id. */
  lemma FindUniqueCategory(categories: seq<Category>, c: Category)
    requires c in categories
    requires forall i, j :: 0 <= i < j < |categories| ==> categories[i].id != categories[j].id
    ensures FindCategory(categories, c.id) == Some(c)
  {
    var r := FindCategory(categories, c.id);
    var k :| 0 <= k < |categories| && categories[k] == c;
    var i :| 0 <= i < |categories| && categories[i] == r.value
      && forall j :: 0 <= j < i ==> categories[j].id != c.id;
    assert !(k < i) && !(i < k);
  }

  /** `selectedCategories.map(id => find(...) as Category)`: one entry per selected id, `None` where the id is not loaded. */
  function LookupAll(selected: seq<string>, categories: seq<Category>): (r: seq<Option<Category>>)
    ensures |r| == |selected|
    ensures forall i :: 0 <= i < |selected| ==>
      (r[i].Some? <==> exists c :: c in categories && c.id == selected[i])
    ensures forall i :: 0 <= i < |selected| && r[i].Some? ==>
      r[i].value in categories && r[i].value.id == selected[i]
    ensures forall i :: 0 <= i < |selected| ==> r[i] == FindCategory(categories, selected[i])
  {
    seq(|selected|, i requires 0 <= i < |selected| => FindCategory(categories, selected[i]))
  }

  /** The record `handleSubmit` hands to `onSubmit`: the initial content overridden by the form fields. */
  function Submitted(initial: PartialContent, title: string, slug: string, body: string,
                     excerpt: string, status: Status, selected: seq<string>,
                     categories: seq<Category>, tags: seq<string>): (r: PartialContent)
    ensures r.title == Some(title) && r.slug == Some(slug) && r.body == Some(body)
    ensures r.status == Some(status) && r.tags == Some(tags)
    ensures r.excerpt == None <==> excerpt == ""
    ensures r.excerpt.Some? ==> r.excerpt.value == excerpt
    ensures r.categories == Some(LookupAll(selected, categories))
    ensures |r.categories.value| == |selected|
    ensures forall i :: 0 <= i < |selected| ==>
      (r.categories.value[i].Some? <==> exists c :: c in categories && c.id == selected[i])
    ensures forall i :: 0 <= i < |selected| && r.categories.value[i].Some? ==>
      r.categories.value[i] == FindCategory(categories, selected[i])
    ensures r.id == initial.id && r.featuredImage == initial.featuredImage && r.author == initial.author
    ensures r.createdAt == initial.createdAt && r.updatedAt == initial.updatedAt
    ensures r.publishedAt == initial.publishedAt
  {
    initial.(title := Some(title), slug := Some(slug), body := Some(body),
             excerpt := if excerpt == "" then None else Some(excerpt),
             status := Some(status), categories := Some(LookupAll(selected, categories)),
             tags := Some(tags))
  }

  /** Every entry of a content's category list is present (`cat.id` is read from each). */
  predicate AllPresent(cats: seq<Option<Category>>) {
    forall i :: 0 <= i < |cats| ==> cats[i].Some?
  }

  /** `initialContent?.categories?.map((cat) => cat.id) || []`. */
  function CategoryIds(cats: Option<seq<Option<Category>>>): (r: seq<string>)
    requires cats.Some? ==> AllPresent(cats.value)
    ensures cats.None? ==> r == []
    ensures cats.Some? ==> |r| == |cats.value| && forall i :: 0 <= i < |r| ==> r[i] == cats.value[i].value.id
  {
    if cats.None? then [] else
      seq(|cats.value|, i requires 0 <= i < |cats.value| && AllPresent(cats.value) => cats.value[i].value.id)
  }

  /** The slug the form starts with: the initial one, or the one the effect generates at mount. */
  function InitialSlug(initial: PartialContent): (r: string)
    ensures Truthy(initial.slug) ==> r == initial.slug.value
    ensures !Truthy(initial.slug) && Truthy(initial.title) ==> r == Slugify(initial.title.value)
    ensures !Truthy(initial.slug) && !Truthy(initial.title) ==> r == ""
  {
    if !Truthy(initial.slug) && OrEmpty(initial.title) != "" then Slugify(OrEmpty(initial.title))
    else OrEmpty(initial.slug)
  }

  /**
   * Submitting a form nobody touched returns the initial content, when
   * that content has every field the form writes back and its categories
   * are among the loaded ones (whose ids are unique).
   */
  lemma UntouchedSubmitKeepsContent(initial: PartialContent, categories: seq<Category>)
    requires initial.title.Some? && Truthy(initial.slug) && initial.body.Some?
    requires initial.excerpt != Some("") && initial.status.Some? && initial.tags.Some?
    requires initial.categories.Some? && AllPresent(initial.categories.value)
    requires forall c :: Some(c) in initial.categories.value ==> c in categories
    requires forall i, j :: 0 <= i < j < |categories| ==> categories[i].id != categories[j].id
    ensures Submitted(initial, OrEmpty(initial.title), InitialSlug(initial), OrEmpty(initial.body),
                      OrEmpty(initial.excerpt), initial.status.value, CategoryIds(initial.categories),
                      categories, initial.tags.value) == initial
  {
    var cats := initial.categories.value;
    var ids := CategoryIds(initial.categories);
    var found := LookupAll(ids, categories);
    forall i | 0 <= i < |cats|
      ensures found[i] == cats[i]
    {
      assert Some(cats[i].value) in cats;
      FindUniqueCategory(categories, cats[i].value);
    }
    assert found == cats;
  }

  /**
   * What the service stores for a submitted form: the fields as typed, no
   * excerpt for an empty one, a publication date exactly for a published
   * status, and one category entry per selected id.
   */
  lemma SavedSubmission(id: string, initial: PartialContent, title: string, slug: string, body: string,
                        excerpt: string, status: Status, selected: seq<string>,
                        categories: seq<Category>, tags: seq<string>, now: Timestamp)
    ensures var saved := Api.UpdateContent(id, Submitted(initial, title, slug, body, excerpt, status,
                                                         selected, categories, tags), now);
      && saved.id == id
      && saved.title == title && saved.slug == slug && saved.body == body
      && saved.status == status && saved.tags == tags
      && saved.excerpt == (if excerpt == "" then None else Some(excerpt))
      && (saved.publishedAt.Some? <==> status == Published)
      && |saved.categories| == |selected|
  {
  }

  // ---------------------------------------------------------------------
  // The component's state
  // ---------------------------------------------------------------------

  /** The state of a mounted `ContentForm`. */
  class Form {
    var initial: PartialContent
    var title: string
    var slug: string
    var body: string
    var excerpt: string
    var status: Status
    var selectedCategories: seq<string>
    var tags: seq<string>
    var tagInput: string
    var categories: seq<Category>
    var isLoadingCategories: bool

    /**
     * Mounting: the `useState` initialisers, then both mount effects, the
     * slug generation and the start of the category fetch. Every entry of
     * the initial category list must be present, since its `id` is read.
     */
    constructor (initialContent: PartialContent)
      requires initialContent.categories.Some? ==> AllPresent(initialContent.categories.value)
      ensures initial == initialContent
      ensures title == OrEmpty(initial.title) && body == OrEmpty(initial.body)
      ensures excerpt == OrEmpty(initial.excerpt)
      ensures slug == InitialSlug(initial)
      ensures status == initial.status.GetOr(Draft)
      ensures selectedCategories == CategoryIds(initial.categories)
      ensures tags == initial.tags.GetOr([])
      ensures tagInput == "" && categories == [] && isLoadingCategories
    {
      initial := initialContent;
      title := OrEmpty(initialContent.title);
      slug := OrEmpty(initialContent.slug);
      body := OrEmpty(initialContent.body);
      excerpt := OrEmpty(initialContent.excerpt);
      status := initialContent.status.GetOr(Draft);
      selectedCategories := CategoryIds(initialContent.categories);
      tags := initialContent.tags.GetOr([]);
      tagInput := "";
      categories := [];
      isLoadingCategories := true;
      new;
      RegenerateSlug();
    }

    /** The slug effect: regenerate from the title unless the initial content has a slug or the title is empty. */
    method RegenerateSlug()
      modifies this
      ensures initial == old(initial)
      ensures !Truthy(initial.slug) && title != "" ==> slug == Slugify(title)
      ensures Truthy(initial.slug) || title == "" ==> slug == old(slug)
      ensures title == old(title) && body == old(body) && excerpt == old(excerpt) && status == old(status)
      ensures selectedCategories == old(selectedCategories) && tags == old(tags) && tagInput == old(tagInput)
      ensures categories == old(categories) && isLoadingCategories == old(isLoadingCategories)
    {
      if !Truthy(initial.slug) && title != "" {
        slug := Slugify(title);
      }
    }

    /** The category fetch settles: on success the list is loaded; either way loading ends. */
    method CategoriesLoaded(result: Option<seq<Category>>)
      modifies this
      ensures initial == old(initial)
      ensures categories == (if result.Some? then result.value else old(categories))
      ensures !isLoadingCategories
      ensures title == old(title) && slug == old(slug) && body == old(body) && excerpt == old(excerpt)
      ensures status == old(status) && selectedCategories == old(selectedCategories)
      ensures tags == old(tags) && tagInput == old(tagInput)
    {
      if result.Some? {
        categories := result.value;
      }
      isLoadingCategories := false;
    }

    /**
     * Typing a title. The slug effect depends on `title`, so it runs again
     * only when the title actually changes.
     */
    method SetTitle(t: string)
      modifies this
      ensures initial == old(initial)
      ensures title == t
      ensures t != old(title) && !Truthy(initial.slug) && t != "" ==> slug == Slugify(t)
      ensures t == old(title) || Truthy(initial.slug) || t == "" ==> slug == old(slug)
      ensures body == old(body) && excerpt == old(excerpt) && status == old(status)
      ensures selectedCategories == old(selectedCategories) && tags == old(tags) && tagInput == old(tagInput)
      ensures categories == old(categories) && isLoadingCategories == old(isLoadingCategories)
    {
      if t != title {
        title := t;
        RegenerateSlug();
      }
    }

    /**
     * A parent re-renders the form with another `initialContent` (as the
     * edit page does once the record is fetched): the `useState` fields
     * keep their values, later submissions spread the new record, and the
     * slug effect runs again when `initialContent?.slug` changed.
     */
    method SetInitial(p: PartialContent)
      modifies this
      ensures initial == p
      ensures p.slug != old(initial.slug) && !Truthy(p.slug) && title != "" ==> slug == Slugify(title)
      ensures p.slug == old(initial.slug) || Truthy(p.slug) || title == "" ==> slug == old(slug)
      ensures title == old(title) && body == old(body) && excerpt == old(excerpt) && status == old(status)
      ensures selectedCategories == old(selectedCategories) && tags == old(tags) && tagInput == old(tagInput)
      ensures categories == old(categories) && isLoadingCategories == old(isLoadingCategories)
    {
      var changed := p.slug != initial.slug;
      initial := p;
      if changed {
        RegenerateSlug();
      }
    }

    /** Editing the slug field by hand. */
    method SetSlug(s: string)
      modifies this
      ensures initial == old(initial)
      ensures slug == s
      ensures title == old(title) && body == old(body) && excerpt == old(excerpt) && status == old(status)
      ensures selectedCategories == old(selectedCategories) && tags == old(tags) && tagInput == old(tagInput)
      ensures categories == old(categories) && isLoadingCategories == old(isLoadingCategories)
    {
      slug := s;
    }

    /** Editing the body, excerpt and status fields, and picking categories (the array form of the select's value). */
    method SetFields(newBody: string, newExcerpt: string, newStatus: Status, picked: seq<string>)
      modifies this
      ensures initial == old(initial)
      ensures body == newBody && excerpt == newExcerpt && status == newStatus && selectedCategories == picked
      ensures title == old(title) && slug == old(slug) && tags == old(tags) && tagInput == old(tagInput)
      ensures categories == old(categories) && isLoadingCategories == old(isLoadingCategories)
    {
      body := newBody;
      excerpt := newExcerpt;
      status := newStatus;
      selectedCategories := picked;
    }

    /** Typing in the tag field. */
    method SetTagInput(s: string)
      modifies this
      ensures initial == old(initial)
      ensures tagInput == s
      ensures title == old(title) && slug == old(slug) && body == old(body) && excerpt == old(excerpt)
      ensures status == old(status) && selectedCategories == old(selectedCategories) && tags == old(tags)
      ensures categories == old(categories) && isLoadingCategories == old(isLoadingCategories)
    {
      tagInput := s;
    }

    /** `handleAddTag`: append the trimmed input if it is new and non-empty, and then clear the input. */
    method AddTag()
      modifies this
      ensures initial == old(initial)
      ensures tags == WithTag(old(tags), old(tagInput))
      ensures var t := Trim(old(tagInput));
        tagInput == if t != "" && t !in old(tags) then "" else old(tagInput)
      ensures Seqs.NoDuplicates(old(tags)) ==> Seqs.NoDuplicates(tags)
      ensures title == old(title) && slug == old(slug) && body == old(body) && excerpt == old(excerpt)
      ensures status == old(status) && selectedCategories == old(selectedCategories)
      ensures categories == old(categories) && isLoadingCategories == old(isLoadingCategories)
    {
      var t := Trim(tagInput);
      var added := t != "" && t !in tags;
      tags := WithTag(tags, tagInput);
      if added {
        tagInput := "";
      }
    }

    /** `handleRemoveTag(t)`. */
    method RemoveTag(t: string)
      modifies this
      ensures initial == old(initial)
      ensures tags == WithoutTag(old(tags), t)
      ensures t !in tags && Seqs.IsSubsequence(tags, old(tags))
      ensures title == old(title) && slug == old(slug) && body == old(body) && excerpt == old(excerpt)
      ensures status == old(status) && selectedCategories == old(selectedCategories)
      ensures tagInput == old(tagInput)
      ensures categories == old(categories) && isLoadingCategories == old(isLoadingCategories)
    {
      tags := WithoutTag(tags, t);
    }

    /** `handleSubmit`: the record passed to `onSubmit`; the form's state is left as it was. */
    method Submit() returns (data: PartialContent)
      ensures data == Submitted(initial, title, slug, body, excerpt, status, selectedCategories, categories, tags)
    {
      data := Submitted(initial, title, slug, body, excerpt, status, selectedCategories, categories, tags);
    }
  }
}
