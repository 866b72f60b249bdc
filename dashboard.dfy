/**
 * The dashboard (app/page.tsx): the current user's pages with published and
 * draft counts, a dialog that creates a page from a title (with the
 * required hero component placed first), publish toggling and deletion.
 * Fresh ids, the clock, the seed templates and the answer to the delete
 * confirmation are parameters.
 */
module Dashboard {
  import opened Wrappers
  import opened Text
  import opened Types
  import Seqs
  import Slug
  import LocalStorage

  /** The page `handleCreatePage` builds: unpublished, without components, slugged from its title. */
  function NewPage(id: string, title: string, userId: string, now: string): (p: Page)
    ensures p.id == id && p.title == title && p.userId == userId
    ensures !p.published && p.publishedAt.None? && p.components == []
    ensures p.slug == Slug.GenerateSlug(title)
  {
    Page(id, title, Slug.GenerateSlug(title), false, None, userId, now, now, [])
  }

  /** The hero component every new page starts with: the hero's defaults with `programName` set to the title. */
  function HeroComponent(id: string, pageId: string, hero: ComponentTemplate, title: string, now: string): (c: PageComponent)
    ensures c.pageId == pageId && c.templateId == hero.id && c.position == 0 && c.isVisible
    ensures Lookup(c.customData, "programName") == Some(Str(title))
    ensures forall k :: k != "programName" ==> Lookup(c.customData, k) == Lookup(hero.defaultData, k)
  {
    PageComponent(id, pageId, hero.id, 0, Assigned(hero.defaultData, "programName", Str(title)),
                  None, true, now, now, None)
  }

  /**
   * The component array after creation: unchanged without a hero template;
   * otherwise the hero component, for the page and titled after it, is
   * found under its id, and every other id finds what it found before.
   */
  function WithHero(s: seq<PageComponent>, hero: Option<ComponentTemplate>, componentId: string, pageId: string,
                    title: string, now: string): (r: seq<PageComponent>)
    ensures hero.None? ==> r == s
    ensures hero.Some? ==>
              var found := Seqs.FindById(r, IdOfComponent, componentId);
              found.Some? && found.value.pageId == pageId && found.value.templateId == hero.value.id
              && found.value.position == 0 && found.value.isVisible
              && Lookup(found.value.customData, "programName") == Some(Str(title))
    ensures forall id :: id != componentId ==> Seqs.FindById(r, IdOfComponent, id) == Seqs.FindById(s, IdOfComponent, id)
  {
    match hero
    case None => s
    case Some(h) =>
      var c := HeroComponent(componentId, pageId, h, title, now);
      Seqs.FindAfterUpsert(s, c, LocalStorage.Restamped(c, now), IdOfComponent);
      forall id | id != componentId
        ensures Seqs.FindById(Seqs.Upserted(s, c, LocalStorage.Restamped(c, now), IdOfComponent), IdOfComponent, id)
                == Seqs.FindById(s, IdOfComponent, id)
      {
        Seqs.UpsertKeepsOtherLookups(s, c, LocalStorage.Restamped(c, now), IdOfComponent, id);
      }
      Seqs.Upserted(s, c, LocalStorage.Restamped(c, now), IdOfComponent)
  }

  /** `{ ...page, published: !page.published, publishedAt: ..., updatedAt: now }`. */
  function Toggled(p: Page, now: string): (r: Page)
    ensures r.published == !p.published
    ensures r.publishedAt.Some? <==> r.published
    ensures r.(published := p.published, publishedAt := p.publishedAt, updatedAt := p.updatedAt) == p
  {
    p.(published := !p.published, publishedAt := if !p.published then Some(now) else None, updatedAt := now)
  }

  /** `pages.map(p => p.id === id ? updated : p)`. */
  function ReplacedById(pages: seq<Page>, id: string, updated: Page): (r: seq<Page>)
    ensures |r| == |pages|
    ensures forall i :: 0 <= i < |pages| ==> r[i] == if pages[i].id == id then updated else pages[i]
  {
    seq(|pages|, i requires 0 <= i < |pages| => if pages[i].id == id then updated else pages[i])
  }

  predicate IsPublished(p: Page) { p.published }
  predicate IsDraft(p: Page) { !p.published }

  /** `pages.filter(page => page.published).length`. */
  function PublishedCount(pages: seq<Page>): (n: nat)
    ensures n <= |pages|
  {
    |Seqs.Filter(pages, IsPublished)|
  }

  /** `pages.filter(page => !page.published).length`. */
  function DraftCount(pages: seq<Page>): (n: nat)
    ensures n <= |pages|
  {
    |Seqs.Filter(pages, IsDraft)|
  }

  /** Every page is either published or a draft. */
  lemma {:induction false} CountsAddUp(pages: seq<Page>)
    ensures PublishedCount(pages) + DraftCount(pages) == |pages|
  {
    if pages != [] {
      CountsAddUp(pages[1..]);
    }
  }

  /** Toggling one page moves it from one count to the other and keeps the total. */
  lemma {:induction false} ToggleMovesCount(pages: seq<Page>, p: Page, now: string)
    requires forall i :: 0 <= i < |pages| ==> pages[i].id != p.id || pages[i] == p
    ensures var r := ReplacedById(pages, p.id, Toggled(p, now));
            var n := |Seqs.Filter(pages, (q: Page) => q.id == p.id)|;
            PublishedCount(r) == (if p.published then PublishedCount(pages) - n else PublishedCount(pages) + n)
  {
    if pages != [] {
      ToggleMovesCount(pages[1..], p, now);
      var r := ReplacedById(pages, p.id, Toggled(p, now));
      assert r[1..] == ReplacedById(pages[1..], p.id, Toggled(p, now));
    }
  }

  class Dashboard {
    var pages: seq<Page>
    var user: Option<User>
    var showCreateDialog: bool
    var newPageTitle: string
    const store: LocalStorage.Store

    constructor (store: LocalStorage.Store)
      ensures this.store == store
      ensures pages == [] && user == None && !showCreateDialog && newPageTitle == ""
    {
      this.store := store;
      pages, user, showCreateDialog, newPageTitle := [], None, false, "";
    }

    /**
     * The mount effect: make sure a user exists, seed the templates when
     * there are none, then load the current user and their pages.
     */
    method Mount(seed: seq<ComponentTemplate>, freshUserId: string, now: string)
      modifies this, store
      ensures store.pages == old(store.pages) && store.components == old(store.components)
      ensures old(store.templates) == [] ==> store.templates == seed
      ensures old(store.templates) != [] ==> store.templates == old(store.templates)
      ensures old(store.currentUser).Some? ==> store.currentUser == old(store.currentUser) && store.users == old(store.users)
      ensures old(store.currentUser).None? ==>
                store.currentUser == Some(LocalStorage.DemoUser(freshUserId, now))
                && store.users == Seqs.Upserted(old(store.users), LocalStorage.DemoUser(freshUserId, now),
                                                LocalStorage.DemoUser(freshUserId, now), IdOfUser)
      ensures user == store.currentUser && user.Some?
      ensures pages == store.PagesOfUser(user.value.id)
      ensures showCreateDialog == old(showCreateDialog) && newPageTitle == old(newPageTitle)
    {
      store.InitializeDefaultData(freshUserId, now);
      if |store.templates| == 0 {
        store.SaveManyTemplates(seed);
      }
      user := store.currentUser;
      if user.Some? {
        pages := store.PagesOfUser(user.value.id);
      }
    }

    /** `handleCreatePage`. */
    method CreatePage(freshPageId: string, freshComponentId: string, now: string)
      modifies this, store`pages, store`components
      ensures Trim(old(newPageTitle)) == "" || old(user).None? ==>
                pages == old(pages) && newPageTitle == old(newPageTitle) && showCreateDialog == old(showCreateDialog)
                && store.pages == old(store.pages) && store.components == old(store.components)
      ensures Trim(old(newPageTitle)) != "" && old(user).Some? ==>
                var p := NewPage(freshPageId, old(newPageTitle), old(user).value.id, now);
                pages == old(pages) + [p] && newPageTitle == "" && !showCreateDialog
                && store.pages == Seqs.Upserted(old(store.pages), p, p.(updatedAt := now), IdOfPage)
                && store.components == WithHero(old(store.components), old(store.TemplateById(RequiredHeroId)),
                                                freshComponentId, freshPageId, old(newPageTitle), now)
      ensures user == old(user)
    {
      if Trim(newPageTitle) == "" || user.None? {
        return;
      }
      var p := NewPage(freshPageId, newPageTitle, user.value.id, now);
      ghost var hero := store.TemplateById(RequiredHeroId);
      store.SavePage(p, now);
      assert store.TemplateById(RequiredHeroId) == hero;
      AddHero(freshComponentId, freshPageId, newPageTitle, now);
      pages := pages + [p];
      newPageTitle := "";
      showCreateDialog := false;
    }

    /** The second half of `handleCreatePage`: save the hero component when the hero template exists. */
    method AddHero(componentId: string, pageId: string, title: string, now: string)
      modifies store`components
      ensures store.components == WithHero(old(store.components), store.TemplateById(RequiredHeroId), componentId, pageId, title, now)
    {
      var hero := store.TemplateById(RequiredHeroId);
      if hero.Some? {
        var c := HeroComponent(componentId, pageId, hero.value, title, now);
        store.SaveComponent(c, now);
      }
    }

    /** `handleDeletePage`, given the answer to the confirmation. */
    method DeletePage(pageId: string, confirmed: bool)
      modifies this`pages, store`pages, store`components
      ensures !confirmed ==> pages == old(pages) && store.pages == old(store.pages) && store.components == old(store.components)
      ensures confirmed ==>
                pages == Seqs.WithoutId(old(pages), IdOfPage, pageId)
                && store.pages == Seqs.WithoutId(old(store.pages), IdOfPage, pageId)
                && store.components == LocalStorage.OffPage(old(store.components), pageId)
    {
      if !confirmed {
        return;
      }
      store.DeletePage(pageId);
      pages := Seqs.WithoutId(pages, IdOfPage, pageId);
    }

    /** `handleTogglePublish`. */
    method TogglePublish(page: Page, now: string)
      modifies this`pages, store`pages
      ensures var u := Toggled(page, now);
              store.pages == Seqs.Upserted(old(store.pages), u, u.(updatedAt := now), IdOfPage)
              && pages == ReplacedById(old(pages), page.id, u)
    {
      var u := Toggled(page, now);
      store.SavePage(u, now);
      pages := ReplacedById(pages, page.id, u);
    }
  }

  /** A created page is stored and found under its fresh id. */
  lemma {:induction false} CreatedPageStored(s: seq<Page>, p: Page, now: string)
    requires !Seqs.HasId(s, IdOfPage, p.id)
    ensures Seqs.FindById(Seqs.Upserted(s, p, p.(updatedAt := now), IdOfPage), IdOfPage, p.id) == Some(p)
    ensures |Seqs.Upserted(s, p, p.(updatedAt := now), IdOfPage)| == |s| + 1
  {
    Seqs.FindAfterUpsert(s, p, p.(updatedAt := now), IdOfPage);
  }

  /**
   * With fresh ids, the new page has exactly one component: the hero, at
   * position 0, its `programName` set to the title.
   */
  lemma {:induction false} CreatedPageHasOnlyHero(s: seq<PageComponent>, c: PageComponent, now: string)
    requires !Seqs.HasId(s, IdOfComponent, c.id)
    requires forall i :: 0 <= i < |s| ==> s[i].pageId != c.pageId
    ensures LocalStorage.ComponentsOfPage(Seqs.Upserted(s, c, LocalStorage.Restamped(c, now), IdOfComponent), c.pageId) == [c]
  {
    var after := Seqs.Upserted(s, c, LocalStorage.Restamped(c, now), IdOfComponent);
    assert after == s + [c];
    var onPage := (x: PageComponent) => x.pageId == c.pageId;
    Seqs.FilterAppend(s, [c], onPage);
    Seqs.FilterKeepsNone(s, onPage);
    assert LocalStorage.OnPage(after, c.pageId) == [c];
    assert LocalStorage.SortByPosition([c]) == LocalStorage.InsertByPosition(c, []);
  }
}
