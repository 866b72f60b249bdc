/**
 * The component library sidebar (components/editor/ComponentLibrary.tsx):
 * a list of categories with their template counts, and, once a category is
 * picked, that category's templates narrowed by a case-insensitive search.
 * Hero templates are never offered here: every page gets its hero when it
 * is created.
 */
module Library {
  import opened Wrappers
  import opened Text
  import opened Types
  import Seqs
  import LocalStorage

  // ---------------------------------------------------------------------------
  // filteredTemplates

  /** `!selectedCategory`: no category, or the empty one, restricts nothing. */
  predicate NoCategory(selected: Option<string>) {
    selected.None? || selected.value == ""
  }

  /**
   * The search clause: an empty term, or the lower-cased term inside the
   * lower-cased name, description or category. A template is found by its
   * own name typed in any case; a term longer than all three fields finds
   * nothing.
   */
  predicate MatchesSearch(t: ComponentTemplate, term: string)
    ensures term == "" ==> MatchesSearch(t, term)
    ensures LowerCase(term) == LowerCase(t.name) ==> MatchesSearch(t, term)
    ensures (term != "" && |term| > |t.name| && |term| > |t.category|
             && (t.description.None? || |term| > |t.description.value|)) ==> !MatchesSearch(t, term)
  {
    var needle := LowerCase(term);
    assert OccursAt(LowerCase(t.name), LowerCase(t.name), 0);
    term == ""
    || Contains(LowerCase(t.name), needle)
    || (t.description.Some? && Contains(LowerCase(t.description.value), needle))
    || Contains(LowerCase(t.category), needle)
  }

  /** The search lower-cases the term itself, so the case the user types makes no difference. */
  lemma SearchIgnoresCase(t: ComponentTemplate, term: string)
    ensures MatchesSearch(t, LowerCase(term)) == MatchesSearch(t, term)
  {
    assert LowerCase(LowerCase(term)) == LowerCase(term);
  }

  /** `!selectedCategory`: selecting the empty category lists what selecting none lists. */
  lemma EmptyCategoryIsNone(ts: seq<ComponentTemplate>, selected: Option<string>, term: string)
    ensures NoCategory(selected) ==> FilteredTemplates(ts, selected, term) == FilteredTemplates(ts, None, term)
    ensures !NoCategory(selected) ==> forall i :: 0 <= i < |FilteredTemplates(ts, selected, term)| ==>
              FilteredTemplates(ts, selected, term)[i].category == selected.value
  {
    if NoCategory(selected) {
      Seqs.FilterCongruent(ts,
        (t: ComponentTemplate) => Offered(t, selected, term),
        (t: ComponentTemplate) => Offered(t, None, term));
    }
  }

  /** The predicate of `templates.filter`: never a hero; with no category and no search, every other template. */
  predicate Offered(t: ComponentTemplate, selected: Option<string>, term: string)
    ensures t.category == "hero" ==> !Offered(t, selected, term)
    ensures NoCategory(selected) && term == "" ==> (Offered(t, selected, term) <==> t.category != "hero")
  {
    t.category != "hero"
    && (NoCategory(selected) || t.category == selected.value)
    && MatchesSearch(t, term)
  }

  /** `filteredTemplates`. */
  function FilteredTemplates(ts: seq<ComponentTemplate>, selected: Option<string>, term: string): (r: seq<ComponentTemplate>)
    ensures forall i :: 0 <= i < |r| ==> r[i].category != "hero"
    ensures forall i :: 0 <= i < |r| && !NoCategory(selected) ==> r[i].category == selected.value
    ensures forall i :: 0 <= i < |r| ==> MatchesSearch(r[i], term)
  {
    Seqs.Filter(ts, (t: ComponentTemplate) => Offered(t, selected, term))
  }

  /** The filtered list holds exactly the offered templates, each as often as stored, in stored order. */
  lemma FilteredExactly(ts: seq<ComponentTemplate>, selected: Option<string>, term: string)
    ensures forall t :: t in FilteredTemplates(ts, selected, term) <==> t in ts && Offered(t, selected, term)
    ensures forall t :: multiset(FilteredTemplates(ts, selected, term))[t]
                        == if Offered(t, selected, term) then multiset(ts)[t] else 0
    ensures Seqs.IsSubsequence(FilteredTemplates(ts, selected, term), ts)
  {
    Seqs.FilterCount(ts, (t: ComponentTemplate) => Offered(t, selected, term));
    Seqs.FilterIsSubsequence(ts, (t: ComponentTemplate) => Offered(t, selected, term));
  }

  /** With an empty search term only the hero rule and the category narrow the list. */
  lemma EmptySearchRestrictsNothing(ts: seq<ComponentTemplate>, selected: Option<string>)
    ensures FilteredTemplates(ts, selected, "")
            == Seqs.Filter(ts, (t: ComponentTemplate) => t.category != "hero" && (NoCategory(selected) || t.category == selected.value))
  {
    Seqs.FilterCongruent(ts,
      (t: ComponentTemplate) => Offered(t, selected, ""),
      (t: ComponentTemplate) => t.category != "hero" && (NoCategory(selected) || t.category == selected.value));
  }

  // ---------------------------------------------------------------------------
  // categoryCounts

  /** `templates.filter(t => t.category === category).length`: positive exactly when some template has the category. */
  function CountIn(ts: seq<ComponentTemplate>, category: string): (r: nat)
    ensures r <= |ts|
    ensures r > 0 <==> exists i :: 0 <= i < |ts| && ts[i].category == category
  {
    var m := (t: ComponentTemplate) => t.category == category;
    Seqs.FilterCount(ts, m);
    var kept := Seqs.Filter(ts, m);
    assert kept != [] ==> kept[0] in kept && kept[0] in ts && m(kept[0]);
    assert forall i :: 0 <= i < |ts| && ts[i].category == category ==> ts[i] in kept;
    |kept|
  }

  /** The listed categories are distinct. */
  lemma CategoriesDistinct()
    ensures forall i, j :: 0 <= i < j < |ComponentCategories| ==> ComponentCategories[i] != ComponentCategories[j]
  {
  }

  /** The `reduce` over the category list: hero counts 0, every other category its number of templates. */
  method CategoryCounts(ts: seq<ComponentTemplate>) returns (counts: map<string, nat>)
    ensures forall c :: c in counts <==> c in ComponentCategories
    ensures counts["hero"] == 0
    ensures forall c :: c in ComponentCategories && c != "hero" ==> counts[c] == CountIn(ts, c)
  {
    CategoriesDistinct();
    counts := map[];
    for i := 0 to |ComponentCategories|
      invariant forall c :: c in counts <==> c in ComponentCategories[..i]
      invariant forall c :: c in counts ==> counts[c] == if c == "hero" then 0 else CountIn(ts, c)
    {
      var category := ComponentCategories[i];
      if category == "hero" {
        counts := counts[category := 0];
      } else {
        counts := counts[category := CountIn(ts, category)];
      }
      assert ComponentCategories[..i + 1] == ComponentCategories[..i] + [category];
    }
    assert ComponentCategories[..|ComponentCategories|] == ComponentCategories;
    assert "hero" == ComponentCategories[0];
  }

  /** The count shown on a category button is the length of the list shown after clicking it. */
  lemma CountIsListLength(ts: seq<ComponentTemplate>, c: string)
    requires c != "hero" && c != ""
    ensures CountIn(ts, c) == |FilteredTemplates(ts, Some(c), "")|
  {
    Seqs.FilterCongruent(ts,
      (t: ComponentTemplate) => t.category == c,
      (t: ComponentTemplate) => Offered(t, Some(c), ""));
  }

  /** The categories the list shows: those whose count is positive. */
  function ShownCategories(counts: map<string, nat>): (r: seq<string>)
    ensures forall i :: 0 <= i < |r| ==> r[i] in counts && counts[r[i]] > 0
  {
    Seqs.Filter(ComponentCategories, (c: string) => c in counts && counts[c] > 0)
  }

  /** Hero is never among the shown categories; every other category with templates is. */
  lemma ShownCategoriesExactly(ts: seq<ComponentTemplate>, counts: map<string, nat>)
    requires forall c :: c in counts <==> c in ComponentCategories
    requires counts["hero"] == 0
    requires forall c :: c in ComponentCategories && c != "hero" ==> counts[c] == CountIn(ts, c)
    ensures "hero" !in ShownCategories(counts)
    ensures forall c :: c in ShownCategories(counts) <==> c in ComponentCategories && c != "hero" && CountIn(ts, c) > 0
  {
    Seqs.FilterCount(ComponentCategories, (c: string) => c in counts && counts[c] > 0);
  }

  // ---------------------------------------------------------------------------
  // getCategoryDisplayName

  /** `s.split(sep)`: the pieces between separators, empty pieces included. */
  function Split(s: string, sep: char): (r: seq<string>)
    ensures |r| >= 1
    ensures forall i :: 0 <= i < |r| ==> sep !in r[i]
    decreases |s|
  {
    var i := IndexOfChar(s, sep);
    if i < 0 then [s] else [s[..i]] + Split(s[i + 1..], sep)
  }

  /** `ws.join(sep)`: the first word, then each further word after a separator. */
  function Join(ws: seq<string>, sep: char): (r: string)
    ensures ws != [] ==> ws[0] <= r
    ensures |ws| > 1 ==> |ws[0]| < |r| && r[|ws[0]|] == sep
  {
    if ws == [] then ""
    else if |ws| == 1 then ws[0]
    else ws[0] + [sep] + Join(ws[1..], sep)
  }

  /** Splitting then joining with the same separator gives the text back. */
  lemma {:induction false} JoinSplit(s: string, sep: char)
    ensures Join(Split(s, sep), sep) == s
    decreases |s|
  {
    var i := IndexOfChar(s, sep);
    if i >= 0 {
      JoinSplit(s[i + 1..], sep);
      CutAt(s, i);
    }
  }

  /** Joining words that hold no separator, then splitting, gives the words back. */
  lemma {:induction false} SplitJoin(ws: seq<string>, sep: char)
    requires ws != []
    requires forall i :: 0 <= i < |ws| ==> sep !in ws[i]
    ensures Split(Join(ws, sep), sep) == ws
    decreases |ws|
  {
    var w := ws[0];
    if |ws| == 1 {
      assert Join(ws, sep) == w;
      assert IndexOfChar(w, sep) < 0;
    } else {
      var rest := Join(ws[1..], sep);
      var s := w + [sep] + rest;
      assert Join(ws, sep) == s;
      assert s[|w|] == sep;
      assert IndexOfChar(s, sep) == |w|;
      assert s[..|w|] == w;
      assert s[|w| + 1..] == rest;
      SplitJoin(ws[1..], sep);
    }
  }

  /** `word.charAt(0).toUpperCase() + word.slice(1)`. */
  function Capitalize(w: string): (r: string)
    ensures |r| == |w|
    ensures w != [] ==> r[0] == ToUpper(w[0]) && r[1..] == w[1..]
  {
    if w == [] then "" else [ToUpper(w[0])] + w[1..]
  }

  function MapCapitalize(ws: seq<string>): (r: seq<string>)
    ensures |r| == |ws| && forall i :: 0 <= i < |ws| ==> r[i] == Capitalize(ws[i])
  {
    if ws == [] then [] else [Capitalize(ws[0])] + MapCapitalize(ws[1..])
  }

  /** `getCategoryDisplayName`: two fixed names; otherwise the category title-cased, character by character. */
  function DisplayName(category: string): (r: string)
    ensures category == "cta" ==> r == "Call to Action"
    ensures category == "faq" ==> r == "FAQ"
    ensures category != "cta" && category != "faq" ==> r == TitleWords(category) && |r| == |category|
  {
    DisplayNameIsTitleWords(category);
    if category == "cta" then "Call to Action"
    else if category == "faq" then "FAQ"
    else Join(MapCapitalize(Split(category, '-')), ' ')
  }

  /** The display name, character by character: '-' becomes ' ', a letter at a word start is upper-cased. */
  function TitleChar(s: string, i: nat): char
    requires i < |s|
  {
    if s[i] == '-' then ' '
    else if i == 0 || s[i - 1] == '-' then ToUpper(s[i])
    else s[i]
  }

  function TitleWords(s: string): (r: string)
    ensures |r| == |s| && forall i :: 0 <= i < |s| ==> r[i] == TitleChar(s, i)
  {
    seq(|s|, i requires 0 <= i < |s| => TitleChar(s, i))
  }

  /** A word without '-' is title-cased by capitalising it. */
  lemma {:induction false} TitleWordsOfWord(w: string)
    requires '-' !in w
    ensures TitleWords(w) == Capitalize(w)
  {
    if w != [] {
      forall i | 0 < i < |w| ensures TitleWords(w)[i] == Capitalize(w)[i] {
        assert w[i - 1] != '-';
        assert Capitalize(w)[i] == w[1..][i - 1];
      }
    }
  }

  /** Title-casing across a '-': the word, a space, then the rest title-cased on its own. */
  lemma {:induction false} TitleWordsSplit(w: string, rest: string)
    requires '-' !in w
    ensures TitleWords(w + "-" + rest) == TitleWords(w) + " " + TitleWords(rest)
  {
    var s := w + "-" + rest;
    var r := TitleWords(w) + " " + TitleWords(rest);
    forall i | 0 <= i < |s| ensures TitleWords(s)[i] == r[i] {
      if i < |w| {
        if i > 0 { assert s[i - 1] == w[i - 1]; }
      } else if i > |w| {
        var j := i - |w| - 1;
        assert s[i] == rest[j];
        if j > 0 { assert s[i - 1] == rest[j - 1]; }
      }
    }
  }

  /** Outside the two fixed names, the display name is the text title-cased character by character. */
  lemma {:induction false} DisplayNameIsTitleWords(s: string)
    ensures Join(MapCapitalize(Split(s, '-')), ' ') == TitleWords(s)
    decreases |s|
  {
    var i := IndexOfChar(s, '-');
    if i < 0 {
      TitleWordsOfWord(s);
    } else {
      var w := s[..i];
      var rest := s[i + 1..];
      assert '-' !in w;
      DisplayNameIsTitleWords(rest);
      TitleWordsOfWord(w);
      TitleWordsSplit(w, rest);
      CutAt(s, i);
      DisplayNameStep(s, i);
    }
  }

  /** A text is what comes before index `i`, the character there, and what comes after it. */
  lemma CutAt(s: string, i: int)
    requires 0 <= i < |s|
    ensures s == s[..i] + [s[i]] + s[i + 1..]
  {
  }

  /** The display name of a text with a '-': the first word capitalised, a space, then the rest's display name. */
  lemma DisplayNameStep(s: string, i: int)
    requires i == IndexOfChar(s, '-') && 0 <= i
    ensures Join(MapCapitalize(Split(s, '-')), ' ')
            == Capitalize(s[..i]) + " " + Join(MapCapitalize(Split(s[i + 1..], '-')), ' ')
  {
    var w := s[..i];
    var cs := MapCapitalize(Split(s[i + 1..], '-'));
    assert Split(s, '-') == [w] + Split(s[i + 1..], '-');
    assert MapCapitalize(Split(s, '-')) == [Capitalize(w)] + cs;
    assert ([Capitalize(w)] + cs)[1..] == cs;
  }

  // ---------------------------------------------------------------------------
  // The sidebar's state

  datatype View = CategoriesView | ComponentsView

  class Sidebar {
    var templates: seq<ComponentTemplate>
    var selectedCategory: Option<string>
    var searchTerm: string
    var view: View

    /** The components view is open exactly when a category is selected. */
    ghost predicate Valid()
      reads this
    {
      (view == ComponentsView) == selectedCategory.Some?
    }

    constructor ()
      ensures Valid()
      ensures templates == [] && selectedCategory == None && searchTerm == "" && view == CategoriesView
    {
      templates, selectedCategory, searchTerm, view := [], None, "", CategoriesView;
    }

    /** On mount: every stored template. */
    method Load(store: LocalStorage.Store)
      modifies this`templates
      ensures templates == store.templates
    {
      templates := store.templates;
    }

    /** What the components view lists. */
    function Shown(): (r: seq<ComponentTemplate>)
      reads this
      ensures forall i :: 0 <= i < |r| ==> r[i].category != "hero" && MatchesSearch(r[i], searchTerm)
      ensures forall i :: 0 <= i < |r| && !NoCategory(selectedCategory) ==> r[i].category == selectedCategory.value
      ensures forall t :: t in r <==> t in templates && Offered(t, selectedCategory, searchTerm)
      ensures forall t :: multiset(r)[t] == if Offered(t, selectedCategory, searchTerm) then multiset(templates)[t] else 0
      ensures Seqs.IsSubsequence(r, templates)
      ensures Valid() && view == ComponentsView && selectedCategory.value != "" ==>
                forall i :: 0 <= i < |r| ==> r[i].category == selectedCategory.value
    {
      FilteredExactly(templates, selectedCategory, searchTerm);
      FilteredTemplates(templates, selectedCategory, searchTerm)
    }

    /** `handleCategoryClick`. */
    method CategoryClick(category: string)
      requires Valid()
      modifies this`selectedCategory, this`view, this`searchTerm
      ensures Valid()
      ensures selectedCategory == Some(category) && view == ComponentsView && searchTerm == ""
      ensures category != "hero" && category != "" ==> |Shown()| == CountIn(templates, category)
    {
      selectedCategory := Some(category);
      view := ComponentsView;
      searchTerm := "";
      if category != "hero" && category != "" {
        CountIsListLength(templates, category);
      }
    }

    /** `handleBackToCategories`. */
    method BackToCategories()
      requires Valid()
      modifies this`selectedCategory, this`view, this`searchTerm
      ensures Valid()
      ensures selectedCategory == None && view == CategoriesView && searchTerm == ""
    {
      selectedCategory := None;
      view := CategoriesView;
      searchTerm := "";
    }

    /** The search box's `onChange`. */
    method Search(term: string)
      requires Valid()
      modifies this`searchTerm
      ensures Valid() && searchTerm == term
    {
      searchTerm := term;
    }
  }
}
