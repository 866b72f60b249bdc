/**
 * The client-side record store (lib/localStorage.ts). Each collection lives
 * under its own storage key as an array of records; every write reads the
 * array, changes it and writes it back. Here each key is a field of `Store`
 * holding the decoded array (an absent key reads as the empty array), and
 * the current user is an optional record.
 */
module LocalStorage {
  import opened Wrappers
  import opened Types
  import Seqs

  // ---------------------------------------------------------------------------
  // getByPageId: the components of a page, ordered by position

  predicate SortedByPosition(s: seq<PageComponent>) {
    forall i, j :: 0 <= i < j < |s| ==> s[i].position <= s[j].position
  }

  /** Inserts `c` before the first element it does not follow, so equal positions keep their order. */
  function InsertByPosition(c: PageComponent, s: seq<PageComponent>): (r: seq<PageComponent>)
    requires SortedByPosition(s)
    ensures SortedByPosition(r)
    ensures multiset(r) == multiset(s) + multiset{c}
    ensures |r| == |s| + 1
    ensures r[0].position == if s != [] && s[0].position < c.position then s[0].position else c.position
    ensures forall p :: AtPosition(r, p) == (if c.position == p then [c] else []) + AtPosition(s, p)
  {
    if s == [] || c.position <= s[0].position then
      AtPositionCons(c, s);
      [c] + s
    else
      var rest := InsertByPosition(c, s[1..]);
      assert s == [s[0]] + s[1..];
      assert s[0].position <= rest[0].position;
      InsertAfterHeadKeepsTies(c, s[0], s[1..], rest);
      [s[0]] + rest
  }

  /** `s.sort((a, b) => a.position - b.position)`: sorted, a permutation, and stable. */
  function SortByPosition(s: seq<PageComponent>): (r: seq<PageComponent>)
    ensures SortedByPosition(r)
    ensures multiset(r) == multiset(s)
    ensures forall p :: AtPosition(r, p) == AtPosition(s, p)
  {
    if s == [] then []
    else
      assert s == [s[0]] + s[1..];
      AtPositionCons(s[0], s[1..]);
      InsertByPosition(s[0], SortByPosition(s[1..]))
  }

  /** The components at position `p`, in their order: a stable sort keeps this for every `p`. */
  function AtPosition(s: seq<PageComponent>, p: int): seq<PageComponent> {
    Seqs.Filter(s, (c: PageComponent) => c.position == p)
  }

  /** Inserting `c` behind a head of lower position puts it first among its ties, as at the front. */
  lemma InsertAfterHeadKeepsTies(c: PageComponent, x: PageComponent, t: seq<PageComponent>, rest: seq<PageComponent>)
    requires x.position < c.position
    requires forall p :: AtPosition(rest, p) == (if c.position == p then [c] else []) + AtPosition(t, p)
    ensures forall p :: AtPosition([x] + rest, p) == (if c.position == p then [c] else []) + AtPosition([x] + t, p)
  {
    AtPositionCons(x, rest);
    AtPositionCons(x, t);
  }

  lemma AtPositionCons(x: PageComponent, t: seq<PageComponent>)
    ensures forall p :: AtPosition([x] + t, p) == (if x.position == p then [x] else []) + AtPosition(t, p)
  {
    assert ([x] + t)[1..] == t;
  }

  /** `components.filter(c => c.pageId === pageId)`. */
  function OnPage(s: seq<PageComponent>, pageId: string): seq<PageComponent> {
    Seqs.Filter(s, (c: PageComponent) => c.pageId == pageId)
  }

  /** `components.filter(c => c.pageId !== pageId)`: what `deleteByPageId` keeps. */
  function OffPage(s: seq<PageComponent>, pageId: string): (r: seq<PageComponent>)
    ensures forall i :: 0 <= i < |r| ==> r[i].pageId != pageId
  {
    Seqs.Filter(s, (c: PageComponent) => c.pageId != pageId)
  }

  /** Deleting a page's components keeps every component of the other pages, in order. */
  lemma OffPageKeepsOthers(s: seq<PageComponent>, pageId: string)
    ensures forall c :: multiset(OffPage(s, pageId))[c] == if c.pageId != pageId then multiset(s)[c] else 0
    ensures Seqs.IsSubsequence(OffPage(s, pageId), s)
  {
    Seqs.FilterCount(s, (c: PageComponent) => c.pageId != pageId);
    Seqs.FilterIsSubsequence(s, (c: PageComponent) => c.pageId != pageId);
  }

  /** getByPageId: exactly the page's components, each as often as stored, sorted by position. */
  function ComponentsOfPage(s: seq<PageComponent>, pageId: string): (r: seq<PageComponent>)
    ensures SortedByPosition(r)
    ensures forall c :: multiset(r)[c] == if c.pageId == pageId then multiset(s)[c] else 0
    ensures forall p :: AtPosition(r, p) == AtPosition(OnPage(s, pageId), p)
  {
    Seqs.FilterCount(s, (c: PageComponent) => c.pageId == pageId);
    SortByPosition(OnPage(s, pageId))
  }

  // ---------------------------------------------------------------------------
  // updatePositions

  /** `pageComponents.find(c => c.id === id)`, as an index into the whole array. */
  function FirstOnPage(s: seq<PageComponent>, pageId: string, id: string): (r: int)
    ensures -1 <= r < |s|
    ensures r == -1 <==> forall k :: 0 <= k < |s| ==> !(s[k].pageId == pageId && s[k].id == id)
    ensures 0 <= r ==> s[r].pageId == pageId && s[r].id == id
    ensures 0 <= r ==> forall k :: 0 <= k < r ==> !(s[k].pageId == pageId && s[k].id == id)
  {
    Seqs.IndexWhere(s, (c: PageComponent) => c.pageId == pageId && c.id == id)
  }

  /** The last index at which `id` occurs in `ids`. */
  function LastIndexOf(ids: seq<string>, id: string): (r: nat)
    requires id in ids
    ensures r < |ids| && ids[r] == id
    ensures forall k :: r < k < |ids| ==> ids[k] != id
  {
    if ids[|ids| - 1] == id then |ids| - 1 else LastIndexOf(ids[..|ids| - 1], id)
  }

  /** Component `k` is the one `find` picks for its id on the page, and its id is listed. */
  predicate Listed(s: seq<PageComponent>, pageId: string, ids: seq<string>, k: int) {
    0 <= k < |s| && FirstOnPage(s, pageId, s[k].id) == k && s[k].id in ids
  }

  /**
   * The array `updatePositions(pageId, ids)` writes back: the first component
   * of the page carrying each listed id takes the last index at which the id
   * is listed as its position; every other record is untouched.
   */
  function Repositioned(s: seq<PageComponent>, pageId: string, ids: seq<string>, now: string): (r: seq<PageComponent>)
    ensures |r| == |s|
    ensures forall k :: 0 <= k < |s| ==> r[k].(position := s[k].position, updatedAt := s[k].updatedAt) == s[k]
    ensures forall k :: 0 <= k < |s| && !Listed(s, pageId, ids, k) ==> r[k] == s[k]
    ensures forall k :: Listed(s, pageId, ids, k) ==> r[k].position == LastIndexOf(ids, s[k].id) && r[k].updatedAt == now
  {
    seq(|s|, k requires 0 <= k < |s| =>
      if Listed(s, pageId, ids, k) then s[k].(position := LastIndexOf(ids, s[k].id), updatedAt := now) else s[k])
  }

  lemma {:induction false} LastIndexOfExtend(ids: seq<string>, i: nat, id: string)
    requires i < |ids| && id != ids[i] && id in ids[..i]
    ensures id in ids[..i + 1] && LastIndexOf(ids[..i + 1], id) == LastIndexOf(ids[..i], id)
  {
    assert ids[..i + 1][..i] == ids[..i];
  }

  /** One turn of the `forEach` in `updatePositions`, at one index of the array. */
  lemma {:induction false} RepositionStepAt(s: seq<PageComponent>, pageId: string, ids: seq<string>, i: nat, now: string, k: nat)
    requires i < |ids| && k < |s|
    ensures var prev := Repositioned(s, pageId, ids[..i], now);
            var j := FirstOnPage(s, pageId, ids[i]);
            Repositioned(s, pageId, ids[..i + 1], now)[k]
              == if k == j then prev[k].(position := i, updatedAt := now) else prev[k]
  {
    var x := ids[i];
    var j := FirstOnPage(s, pageId, x);
    assert ids[..i + 1] == ids[..i] + [x];
    if s[k].id == x {
      assert LastIndexOf(ids[..i + 1], x) == i;
      if k != j {
        assert !Listed(s, pageId, ids[..i + 1], k);
        assert !Listed(s, pageId, ids[..i], k);
      }
    } else {
      if s[k].id in ids[..i] {
        LastIndexOfExtend(ids, i, s[k].id);
      }
      assert Listed(s, pageId, ids[..i + 1], k) == Listed(s, pageId, ids[..i], k);
    }
  }

  /** One turn of the `forEach` in `updatePositions`. */
  lemma RepositionStep(s: seq<PageComponent>, pageId: string, ids: seq<string>, i: nat, now: string)
    requires i < |ids|
    ensures var prev := Repositioned(s, pageId, ids[..i], now);
            var j := FirstOnPage(prev, pageId, ids[i]);
            Repositioned(s, pageId, ids[..i + 1], now)
              == if j >= 0 then prev[j := prev[j].(position := i, updatedAt := now)] else prev
  {
    var prev := Repositioned(s, pageId, ids[..i], now);
    var next := Repositioned(s, pageId, ids[..i + 1], now);
    var x := ids[i];
    Seqs.IndexWhereCongruent(prev, s,
      (c: PageComponent) => c.pageId == pageId && c.id == x,
      (c: PageComponent) => c.pageId == pageId && c.id == x);
    var j := FirstOnPage(s, pageId, x);
    assert FirstOnPage(prev, pageId, x) == j;
    var want := if j >= 0 then prev[j := prev[j].(position := i, updatedAt := now)] else prev;
    forall k | 0 <= k < |s| ensures next[k] == want[k] {
      RepositionStepAt(s, pageId, ids, i, now, k);
    }
  }

  // ---------------------------------------------------------------------------
  // pageComponentStorage.saveMany

  /** `c` as save stores it over an existing record: with a fresh `updatedAt`. */
  function Restamped(c: PageComponent, now: string): PageComponent {
    c.(updatedAt := now)
  }

  /** The array saveMany writes back: each of `cs`, in turn, saved as `save` would. */
  function SavedAll(s: seq<PageComponent>, cs: seq<PageComponent>, now: string): (r: seq<PageComponent>)
    ensures |s| <= |r| <= |s| + |cs|
    ensures forall k :: 0 <= k < |s| ==> r[k].id == s[k].id
    decreases |cs|
  {
    if cs == [] then s
    else
      var last := cs[|cs| - 1];
      Seqs.Upserted(SavedAll(s, cs[..|cs| - 1], now), last, Restamped(last, now), IdOfComponent)
  }

  /** After saveMany, each id of the batch is found holding the last record saved under it. */
  lemma {:induction false} SaveManyLastWins(s: seq<PageComponent>, cs: seq<PageComponent>, now: string, j: nat)
    requires j < |cs|
    requires forall k :: j < k < |cs| ==> cs[k].id != cs[j].id
    ensures var found := Seqs.FindById(SavedAll(s, cs, now), IdOfComponent, cs[j].id);
            found == Some(cs[j]) || found == Some(Restamped(cs[j], now))
  {
    var init := cs[..|cs| - 1];
    var last := cs[|cs| - 1];
    var before := SavedAll(s, init, now);
    if j == |cs| - 1 {
      Seqs.FindAfterUpsert(before, last, Restamped(last, now), IdOfComponent);
    } else {
      SaveManyLastWins(s, init, now, j);
      Seqs.UpsertKeepsOtherLookups(before, last, Restamped(last, now), IdOfComponent, cs[j].id);
    }
  }

  /** saveMany leaves every record whose id is not in the batch where it was, unchanged. */
  lemma {:induction false} SaveManyKeepsUnlisted(s: seq<PageComponent>, cs: seq<PageComponent>, now: string)
    ensures |SavedAll(s, cs, now)| >= |s|
    ensures forall k :: 0 <= k < |s| && (forall j :: 0 <= j < |cs| ==> cs[j].id != s[k].id)
              ==> SavedAll(s, cs, now)[k] == s[k]
  {
    if cs != [] {
      var init := cs[..|cs| - 1];
      var last := cs[|cs| - 1];
      SaveManyKeepsUnlisted(s, init, now);
      var before := SavedAll(s, init, now);
      forall k | 0 <= k < |s| && (forall j :: 0 <= j < |cs| ==> cs[j].id != s[k].id)
        ensures SavedAll(s, cs, now)[k] == s[k]
      {
        assert forall j :: 0 <= j < |init| ==> init[j].id != s[k].id by {
          forall j | 0 <= j < |init| ensures init[j].id != s[k].id {
            assert init[j] == cs[j];
          }
        }
        assert before[k] == s[k];
        assert last.id != s[k].id;
      }
    }
  }

  /** saveMany keeps the component ids distinct. */
  lemma {:induction false} SaveManyKeepsIdsUnique(s: seq<PageComponent>, cs: seq<PageComponent>, now: string)
    requires Seqs.UniqueIds(s, IdOfComponent)
    ensures Seqs.UniqueIds(SavedAll(s, cs, now), IdOfComponent)
  {
    if cs != [] {
      var last := cs[|cs| - 1];
      SaveManyKeepsIdsUnique(s, cs[..|cs| - 1], now);
      Seqs.UpsertKeepsIdsUnique(SavedAll(s, cs[..|cs| - 1], now), last, Restamped(last, now), IdOfComponent);
    }
  }

  // ---------------------------------------------------------------------------
  // initializeDefaultData

  /** The demo account created on first load. */
  function DemoUser(id: string, now: string): (u: User)
    ensures u.id == id && u.createdAt == now && u.updatedAt == now
  {
    User(id, "demo@example.com", Some("Demo User"), now, now)
  }

  // ---------------------------------------------------------------------------
  // The store

  class Store {
    var templates: seq<ComponentTemplate>
    var pages: seq<Page>
    var components: seq<PageComponent>
    var users: seq<User>
    var currentUser: Option<User>

    /** Empty browser storage: every key absent. */
    constructor ()
      ensures templates == [] && pages == [] && components == [] && users == [] && currentUser == None
    {
      templates, pages, components, users, currentUser := [], [], [], [], None;
    }

    // componentTemplateStorage

    function TemplateById(id: string): (r: Option<ComponentTemplate>)
      reads this`templates
      ensures r.None? <==> forall k :: 0 <= k < |templates| ==> templates[k].id != id
      ensures r.Some? ==> r.value in templates && r.value.id == id
      ensures r.Some? ==> r.value == templates[Seqs.IndexOfId(templates, IdOfTemplate, id)]
    {
      Seqs.FindById(templates, IdOfTemplate, id)
    }

    function TemplatesInCategory(category: string): (r: seq<ComponentTemplate>)
      reads this
      ensures forall t :: multiset(r)[t] == if t.category == category then multiset(templates)[t] else 0
      ensures Seqs.IsSubsequence(r, templates)
    {
      Seqs.FilterCount(templates, (t: ComponentTemplate) => t.category == category);
      Seqs.FilterIsSubsequence(templates, (t: ComponentTemplate) => t.category == category);
      Seqs.Filter(templates, (t: ComponentTemplate) => t.category == category)
    }

    method SaveTemplate(t: ComponentTemplate, now: string)
      modifies this`templates
      ensures templates == Seqs.Upserted(old(templates), t, t.(updatedAt := now), IdOfTemplate)
    {
      templates := Seqs.Upserted(templates, t, t.(updatedAt := now), IdOfTemplate);
    }

    /** Template saveMany overwrites the whole collection. */
    method SaveManyTemplates(ts: seq<ComponentTemplate>)
      modifies this`templates
      ensures templates == ts
    {
      templates := ts;
    }

    method DeleteTemplate(id: string)
      modifies this`templates
      ensures templates == Seqs.WithoutId(old(templates), IdOfTemplate, id)
    {
      templates := Seqs.WithoutId(templates, IdOfTemplate, id);
    }

    /** resetComponentTemplates: the key is removed, so the collection reads as empty. */
    method ResetTemplates()
      modifies this`templates
      ensures templates == []
    {
      templates := [];
    }

    // pageStorage

    function PageById(id: string): (r: Option<Page>)
      reads this
      ensures r.None? <==> forall k :: 0 <= k < |pages| ==> pages[k].id != id
      ensures r.Some? ==> r.value in pages && r.value.id == id
      ensures r.Some? ==> r.value == pages[Seqs.IndexOfId(pages, IdOfPage, id)]
    {
      Seqs.FindById(pages, IdOfPage, id)
    }

    function PageBySlug(slug: string): (r: Option<Page>)
      reads this
      ensures r.None? <==> forall k :: 0 <= k < |pages| ==> pages[k].slug != slug
      ensures r.Some? ==> r.value in pages && r.value.slug == slug
      ensures r.Some? ==> r.value == pages[Seqs.IndexWhere(pages, (p: Page) => p.slug == slug)]
    {
      Seqs.FindWhere(pages, (p: Page) => p.slug == slug)
    }

    function PagesOfUser(userId: string): (r: seq<Page>)
      reads this
      ensures forall p :: multiset(r)[p] == if p.userId == userId then multiset(pages)[p] else 0
      ensures Seqs.IsSubsequence(r, pages)
    {
      Seqs.FilterCount(pages, (p: Page) => p.userId == userId);
      Seqs.FilterIsSubsequence(pages, (p: Page) => p.userId == userId);
      Seqs.Filter(pages, (p: Page) => p.userId == userId)
    }

    method SavePage(p: Page, now: string)
      modifies this`pages
      ensures pages == Seqs.Upserted(old(pages), p, p.(updatedAt := now), IdOfPage)
    {
      pages := Seqs.Upserted(pages, p, p.(updatedAt := now), IdOfPage);
    }

    /** Deleting a page also deletes its components. */
    method DeletePage(id: string)
      modifies this`pages, this`components
      ensures pages == Seqs.WithoutId(old(pages), IdOfPage, id)
      ensures components == OffPage(old(components), id)
    {
      pages := Seqs.WithoutId(pages, IdOfPage, id);
      DeleteComponentsOfPage(id);
    }

    // pageComponentStorage

    function PageComponents(pageId: string): (r: seq<PageComponent>)
      reads this
      ensures SortedByPosition(r)
      ensures forall c :: multiset(r)[c] == if c.pageId == pageId then multiset(components)[c] else 0
    {
      ComponentsOfPage(components, pageId)
    }

    function ComponentById(id: string): (r: Option<PageComponent>)
      reads this
      ensures r.None? <==> forall k :: 0 <= k < |components| ==> components[k].id != id
      ensures r.Some? ==> r.value in components && r.value.id == id
      ensures r.Some? ==> r.value == components[Seqs.IndexOfId(components, IdOfComponent, id)]
    {
      Seqs.FindById(components, IdOfComponent, id)
    }

    method SaveComponent(c: PageComponent, now: string)
      modifies this`components
      ensures components == Seqs.Upserted(old(components), c, Restamped(c, now), IdOfComponent)
    {
      components := Seqs.Upserted(components, c, Restamped(c, now), IdOfComponent);
    }

    /** Saves each of `cs` in turn into the array read once at the start, then writes it back. */
    method SaveManyComponents(cs: seq<PageComponent>, now: string)
      modifies this`components
      ensures components == SavedAll(old(components), cs, now)
    {
      var all := components;
      for i := 0 to |cs|
        invariant all == SavedAll(old(components), cs[..i], now)
      {
        var existing := Seqs.IndexOfId(all, IdOfComponent, cs[i].id);
        if existing >= 0 {
          all := all[existing := Restamped(cs[i], now)];
        } else {
          all := all + [cs[i]];
        }
        assert cs[..i + 1][..i] == cs[..i];
      }
      assert cs[..|cs|] == cs;
      components := all;
    }

    method DeleteComponent(id: string)
      modifies this`components
      ensures components == Seqs.WithoutId(old(components), IdOfComponent, id)
    {
      components := Seqs.WithoutId(components, IdOfComponent, id);
    }

    method DeleteComponentsOfPage(pageId: string)
      modifies this`components
      ensures components == OffPage(old(components), pageId)
    {
      components := OffPage(components, pageId);
    }

    /**
     * Walks `componentIds`; for each one found among the page's components the
     * found record gets the walk index as its position. The records are the
     * same objects as in the full array, which is what is written back.
     */
    method UpdatePositions(pageId: string, componentIds: seq<string>, now: string)
      modifies this`components
      ensures components == Repositioned(old(components), pageId, componentIds, now)
    {
      var all := components;
      for i := 0 to |componentIds|
        invariant all == Repositioned(old(components), pageId, componentIds[..i], now)
      {
        RepositionStep(old(components), pageId, componentIds, i, now);
        var found := FirstOnPage(all, pageId, componentIds[i]);
        if found >= 0 {
          all := all[found := all[found].(position := i, updatedAt := now)];
        }
      }
      assert componentIds[..|componentIds|] == componentIds;
      components := all;
    }

    // userStorage

    function UserById(id: string): (r: Option<User>)
      reads this
      ensures r.None? <==> forall k :: 0 <= k < |users| ==> users[k].id != id
      ensures r.Some? ==> r.value in users && r.value.id == id
      ensures r.Some? ==> r.value == users[Seqs.IndexOfId(users, IdOfUser, id)]
    {
      Seqs.FindById(users, IdOfUser, id)
    }

    method SetCurrentUser(u: User)
      modifies this`currentUser
      ensures currentUser == Some(u)
    {
      currentUser := Some(u);
    }

    method SaveUser(u: User, now: string)
      modifies this`users
      ensures users == Seqs.Upserted(old(users), u, u.(updatedAt := now), IdOfUser)
    {
      users := Seqs.Upserted(users, u, u.(updatedAt := now), IdOfUser);
    }

    method Logout()
      modifies this`currentUser
      ensures currentUser == None
    {
      currentUser := None;
    }

    /** With no current user, a demo user is saved and made current; otherwise nothing changes. */
    method InitializeDefaultData(freshId: string, now: string)
      modifies this`users, this`currentUser
      ensures old(currentUser).Some? ==> users == old(users) && currentUser == old(currentUser)
      ensures old(currentUser).None? ==>
                users == Seqs.Upserted(old(users), DemoUser(freshId, now), DemoUser(freshId, now), IdOfUser)
                && currentUser == Some(DemoUser(freshId, now))
      ensures currentUser.Some?
    {
      if currentUser.None? {
        var u := DemoUser(freshId, now);
        SaveUser(u, now);
        SetCurrentUser(u);
      }
    }
  }
}
