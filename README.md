# Page builder core, modelled in Dafny

The page builder is a client-side tool for landing pages. A user creates pages on a dashboard. Each page is assembled from component templates, such as a hero section, a feature grid or a call to action. A placed template is a *page component*. It carries its own `customData`, which fills the template's `{{name}}` placeholders, and optional inline `styles`. Everything is kept in the browser's storage as one JSON array per collection: templates, pages, page components and users. The current user is kept as one record.

This project models that core:

- **`LocalStorage`** (`storage.dfy`) models the record store.
  - The store is a class with one sequence field per storage key.
  - Writes: save (replace the record with the same id, or append), save-many, delete, the cascading page delete, the in-place `updatePositions`, and the demo-user initialisation.
  - Reads: the filtered and sorted reads.
  - `Slug` (`slug.dfy`) models `generateSlug`.
  - Generic array operations (`filter`, `find`, `findIndex`, upsert-by-id) live in `Seqs` (`seqs.dfy`).
  - String primitives (`toLowerCase`, `trim`, `includes`) live in `Text` (`text.dfy`).
- **`Renderer`** (`renderer.dfy`) models the placeholder substitution of the component renderer.
  - The substitution is a loop over the `customData` entries. Each step is a global literal replace.
  - The model proves what that loop means for templates made of text and placeholders.
  - It also models the copy of `styles` and the "template not found" condition.
- **`Library`** (`library.dfy`) models the component library sidebar:
  - the template filter (hero hidden, category, case-insensitive search);
  - the per-category counts;
  - the category display names;
  - the categories/components view state.
- **`Properties`** (`properties.dfy`) models the properties panel:
  - the fields listed per tab;
  - the value a field shows;
  - the one-key update an edit emits.
- **`Dashboard`** (`dashboard.dfy`) models the dashboard:
  - first-load initialisation and seeding;
  - page creation, with the required hero component;
  - publish toggling and deletion;
  - the published/draft counts.

The records are defined in `Types` (`types.dfy`). A free-form JSON object (`customData`, `defaultData`, `styles`) is a sequence of key/value entries in key order.

Fresh ids, the clock, the seed templates and the answer to the delete confirmation are parameters.

## Model

| member | source | states |
|---|---|---|
| `Seqs.Filter` | lib/localStorage.ts:103-107 | `filter`: the result is no longer than the input and holds only kept elements |
| `Seqs.FilterCount` | lib/localStorage.ts:103-107 | a filter keeps each kept element exactly as often as it occurs, and nothing else |
| `Seqs.FilterIsSubsequence` | lib/localStorage.ts:103-107 | a filter keeps the original order |
| `Seqs.IndexWhere` | lib/localStorage.ts:85 | `findIndex`: -1 iff nothing matches, else the first matching index |
| `Seqs.IndexOfId` | lib/localStorage.ts:85 | `findIndex` by id: -1 iff no record has the id, else the first index holding it |
| `Seqs.FindWhere` | lib/localStorage.ts:121-124 | `find`: none iff nothing matches, else the element at the first matching index |
| `Seqs.FindById` | lib/localStorage.ts:73-76 | `find` by id: none iff no record has the id, else the record at the first such index |
| `Seqs.Upserted` | lib/localStorage.ts:83-97 | save: an existing id is overwritten in place by the restamped record, length and all other indices unchanged; a new id is appended, length grows by one |
| `Seqs.FindAfterUpsert` | lib/localStorage.ts:83-97 | after a save, looking up the id finds the saved record |
| `Seqs.UpsertKeepsOtherLookups` | lib/localStorage.ts:83-97 | a save changes no lookup of another id |
| `Seqs.UpsertKeepsIdsUnique` | lib/localStorage.ts:83-97 | a save keeps the ids of a collection distinct |
| `Seqs.WithoutId` | lib/localStorage.ts:103-107 | delete: no record with the id remains |
| `Seqs.DeleteKeepsOthers` | lib/localStorage.ts:208-212 | delete keeps every record with another id, as often as it occurs, in its original order |
| `Seqs.DeleteKeepsOtherLookups` | lib/localStorage.ts:144-147 | delete changes no lookup of another id |
| `Types.Lookup` | components/editor/PropertiesPanel.tsx:54 | `obj[key]`: none iff no entry has the key, else the value of an entry with that key |
| `Types.Assigned` | app/page.tsx:73-76 | `{ ...obj, [key]: value }`: the key maps to the value, every other key keeps its value, an existing key keeps its place |
| `Types.Stringify` | components/editor/ComponentRenderer.tsx:29 | `String(value)`: a string prints as itself, an integer as its decimal numeral (`Types.Decimal`), a boolean as `true`/`false`, null as `null`; the result is empty exactly for the empty string |
| `Types.Truthy` | components/editor/PropertiesPanel.tsx:54 | JavaScript truthiness: a truthy value never prints as "", and a string is truthy exactly when it is not empty |
| `Types.Decimal` | components/editor/ComponentRenderer.tsx:29 | `String(n)` for an integer number below 10^21 in magnitude (the range where JavaScript prints plain digits): a '-' exactly for negatives, then digits without leading zeros whose decimal value is the magnitude of `n`; larger numbers are outside the model (see Left out) |
| `Text.LowerCase` | lib/localStorage.ts:283 | `toLowerCase` on ASCII: the same length, each letter lowered |
| `Text.Trim` | app/page.tsx:47 | `trim()`: the result is a contiguous piece of the text with only whitespace before and after it, and it neither starts nor ends with whitespace; a text that neither starts nor ends with whitespace is unchanged |
| `Text.TrimEmptyIffBlank` | app/page.tsx:47 | `!title.trim()` holds exactly for titles made only of whitespace |
| `Text.IndexOfChar` | components/editor/ComponentLibrary.tsx:147 | where `split` cuts: -1 iff the character is absent, else its first index |
| `Text.Contains` | components/editor/ComponentLibrary.tsx:114-116 | `includes`: the empty pattern is in every text; no text holds a pattern longer than itself |
| `Slug.CollapseRuns` | lib/localStorage.ts:285-286 | replacing each run of a character class by '-' leaves only '-' and characters outside the class |
| `Slug.CollapseRunsFrom` | lib/localStorage.ts:285-286 | collapsing introduces no character other than '-' |
| `Slug.CollapseRunsAppend` | lib/localStorage.ts:285-286 | collapsing runs works piece by piece across any boundary that does not fall inside a run |
| `Slug.CollapseRunsRun` | lib/localStorage.ts:285-286 | `replace(/X+/g, "-")` turns each maximal run of the class into exactly one '-', leaving the text on either side as its own collapse |
| `Slug.CollapseRunsKeeps` | lib/localStorage.ts:285-286 | collapsing keeps, in order, every character that is neither '-' nor in the class |
| `Slug.CollapseDashesNoDoubleDash` | lib/localStorage.ts:286 | after `replace(/-+/g, "-")` no "--" is left |
| `Slug.TrimIsNoOp` | lib/localStorage.ts:281-288 | the final `trim` never removes anything: no whitespace survives the earlier steps |
| `Slug.GenerateSlug` | lib/localStorage.ts:281-288 | `generateSlug`: only `a-z`, `0-9` and '-', never "--", and exactly the letters and digits of the lower-cased title, in order |
| `Slug.SlugOfWords` | lib/localStorage.ts:281-288 | words of `a-z0-9` separated by runs of whitespace and '-' slug to the same words joined by single '-': `"hello world"` gives `"hello-world"` |
| `Slug.SlugIdempotent` | lib/localStorage.ts:281-288 | the slug of a slug is itself |
| `Slug.SlugKeepsLeadingDash` | lib/localStorage.ts:281-288 | a title that starts with whitespace or '-' gives a slug that starts with '-' |
| `Slug.SlugKeepsTrailingDash` | lib/localStorage.ts:281-288 | a title that ends with whitespace or '-' gives a slug that ends with '-' |
| `LocalStorage.InsertByPosition` | lib/localStorage.ts:164 | inserting into a sorted list keeps it sorted, adds exactly the one element, and places it before the elements of equal position |
| `LocalStorage.SortByPosition` | lib/localStorage.ts:164 | `sort` by position, which is stable in JavaScript: sorted, a permutation of the input, and the components at each position keep their input order (`AtPosition`) |
| `LocalStorage.OffPage` | lib/localStorage.ts:214-220 | `deleteByPageId`: no component of the page remains |
| `LocalStorage.OffPageKeepsOthers` | lib/localStorage.ts:214-220 | `deleteByPageId` keeps every component of other pages, in order |
| `LocalStorage.ComponentsOfPage` | lib/localStorage.ts:160-165 | `getByPageId`: exactly the page's components, each as often as stored, sorted by position, with components of equal position in stored order |
| `LocalStorage.FirstOnPage` | lib/localStorage.ts:224-228 | the component `pageComponents.find` picks for an id: the first one of the page with that id, -1 iff there is none |
| `LocalStorage.LastIndexOf` | lib/localStorage.ts:226-232 | the last index at which an id is listed |
| `LocalStorage.Repositioned` | lib/localStorage.ts:222-236 | `updatePositions`: same length; only position and timestamp change; the component `find` picks for a listed id gets the last index of that id as position; every other record is untouched |
| `LocalStorage.RepositionStep` | lib/localStorage.ts:226-232 | one turn of the `forEach` turns the state for the first `i` ids into the state for `i + 1` ids |
| `LocalStorage.SavedAll` | lib/localStorage.ts:188-206 | `saveMany`'s array: grows by at most the batch size, and every existing record keeps its place and id |
| `LocalStorage.SaveManyLastWins` | lib/localStorage.ts:188-206 | after `saveMany`, each id of the batch holds the last record saved under it |
| `LocalStorage.SaveManyKeepsUnlisted` | lib/localStorage.ts:188-206 | `saveMany` leaves every record whose id is not in the batch in place |
| `LocalStorage.SaveManyKeepsIdsUnique` | lib/localStorage.ts:188-206 | `saveMany` keeps component ids distinct |
| `LocalStorage.DemoUser` | lib/localStorage.ts:298-304 | the demo account carries the fresh id and the current time |
| `LocalStorage.Store.constructor` | lib/localStorage.ts:67-71 | empty storage: every collection reads as empty, no current user |
| `LocalStorage.Store.TemplateById` | lib/localStorage.ts:73-76 | template `getById`: none iff no template has the id, else the first template with it |
| `LocalStorage.Store.TemplatesInCategory` | lib/localStorage.ts:78-81 | `getByCategory`: exactly the templates of the category, each as often as stored, in stored order |
| `LocalStorage.Store.SaveTemplate` | lib/localStorage.ts:83-97 | template save is the upsert |
| `LocalStorage.Store.SaveManyTemplates` | lib/localStorage.ts:99-101 | template `saveMany` overwrites the whole collection |
| `LocalStorage.Store.DeleteTemplate` | lib/localStorage.ts:103-107 | template delete |
| `LocalStorage.Store.ResetTemplates` | lib/localStorage.ts:291-293 | removing the key leaves no templates |
| `LocalStorage.Store.PageById` | lib/localStorage.ts:116-119 | page `getById`: none iff no page has the id, else the first page with it |
| `LocalStorage.Store.PageBySlug` | lib/localStorage.ts:121-124 | `getBySlug`: none iff no page has the slug, else the first page with it, so of two pages sharing a slug the earlier one is shown |
| `LocalStorage.Store.PagesOfUser` | lib/localStorage.ts:126-129 | `getByUserId`: exactly the user's pages, in order |
| `LocalStorage.Store.SavePage` | lib/localStorage.ts:131-142 | page save is the upsert |
| `LocalStorage.Store.DeletePage` | lib/localStorage.ts:144-151 | page delete removes the page and cascades to its components |
| `LocalStorage.Store.PageComponents` | lib/localStorage.ts:160-165 | `getByPageId` on the stored components |
| `LocalStorage.Store.ComponentById` | lib/localStorage.ts:167-170 | component `getById`: none iff no component has the id, else the first component with it |
| `LocalStorage.Store.SaveComponent` | lib/localStorage.ts:172-186 | component save is the upsert |
| `LocalStorage.Store.SaveManyComponents` | lib/localStorage.ts:188-206 | the loop leaves the array `SavedAll` describes: each component saved in turn |
| `LocalStorage.Store.DeleteComponent` | lib/localStorage.ts:208-212 | component delete |
| `LocalStorage.Store.DeleteComponentsOfPage` | lib/localStorage.ts:214-220 | `deleteByPageId` |
| `LocalStorage.Store.UpdatePositions` | lib/localStorage.ts:222-236 | the loop leaves the array `Repositioned` describes |
| `LocalStorage.Store.UserById` | lib/localStorage.ts:245-248 | user `getById`: none iff no user has the id, else the first user with it |
| `LocalStorage.Store.SetCurrentUser` | lib/localStorage.ts:254-256 | the user becomes current |
| `LocalStorage.Store.SaveUser` | lib/localStorage.ts:258-269 | user save is the upsert |
| `LocalStorage.Store.Logout` | lib/localStorage.ts:271-273 | no current user afterwards |
| `LocalStorage.Store.InitializeDefaultData` | lib/localStorage.ts:295-309 | with no current user the demo user is saved and made current; otherwise nothing changes; a current user always exists afterwards |
| `Renderer.Tag` | components/editor/ComponentRenderer.tsx:28 | the placeholder text `{{key}}` |
| `Renderer.ReplaceAll` | components/editor/ComponentRenderer.tsx:28-29 | a global literal replace; replacing a pattern by itself changes nothing |
| `Renderer.ReplaceAbsent` | components/editor/ComponentRenderer.tsx:28-29 | a key whose `{{key}}` does not occur leaves the HTML unchanged |
| `Renderer.Substituted` | components/editor/ComponentRenderer.tsx:20-31 | the `forEach` of replaces as a left fold; HTML in which no key's `{{key}}` occurs comes out unchanged |
| `Renderer.ReplaceAssembled` | components/editor/ComponentRenderer.tsx:28-29 | one global replace of `{{k}}` turns exactly the placeholders named `k` into the value's text |
| `Renderer.FilledStep` | components/editor/ComponentRenderer.tsx:27-30 | filling with the first entry and then with the rest is filling with all entries, the first entry for a key winning |
| `Renderer.SubstitutedFills` | components/editor/ComponentRenderer.tsx:20-31 | the fold fills every placeholder that names a key with that key's value, and keeps every other placeholder and all text |
| `Renderer.AssembleHolds` | components/editor/ComponentRenderer.tsx:20-31 | every piece of a template occurs in its text |
| `Renderer.TagOnlyAtPlaceholder` | components/editor/ComponentRenderer.tsx:28 | in well-formed text, `{{k}}` occurs only where a placeholder named `k` is |
| `Renderer.NoKeyTagRemains` | components/editor/ComponentRenderer.tsx:27-30 | for a template of text and placeholders with '{'-free text, brace-free names and keys and '{'-free values, no `{{k}}` is left after the fold for any key `k` |
| `Renderer.ReplaceKeepsTag` | components/editor/ComponentRenderer.tsx:28-29 | one key's replace never destroys a `{{name}}` for another brace-free name, whatever the surrounding text and the value are |
| `Renderer.UnmatchedPlaceholderKept` | components/editor/ComponentRenderer.tsx:23-31 | a `{{name}}` in the template whose name is no key is still in the output, for any template text and any values, when the name and keys hold no brace |
| `Renderer.OrderMatters` | components/editor/ComponentRenderer.tsx:23-31 | keys are processed in order: a value holding `{{b}}` is itself filled when `b` comes later, not when it comes earlier |
| `Renderer.ProcessedHtml` | components/editor/ComponentRenderer.tsx:17-33 | "" without a template, else the fold over `customData`, and the template HTML itself for empty data |
| `Renderer.CustomStyles` | components/editor/ComponentRenderer.tsx:36-45 | a copy of `styles` with the same lookups, or empty without styles |
| `Renderer.Render` | components/editor/ComponentRenderer.tsx:48-58 | "template not found" iff there is no template or the processed HTML is empty; otherwise the HTML, the template CSS and the styles |
| `Library.FilteredTemplates` | components/editor/ComponentLibrary.tsx:106-119 | no hero template; only the selected category when one is set; every entry matches the search |
| `Library.EmptyCategoryIsNone` | components/editor/ComponentLibrary.tsx:110-111 | `!selectedCategory`: the empty category lists what no category lists; any other selection lists only that category |
| `Library.MatchesSearch` | components/editor/ComponentLibrary.tsx:112-116 | the search clause: an empty term matches every template, a template is found by its own name typed in any case, and a term longer than its name, description and category finds nothing |
| `Library.Offered` | components/editor/ComponentLibrary.tsx:106-119 | the filter's predicate: a hero template is never offered; with no category and no search every other template is |
| `Library.SearchIgnoresCase` | components/editor/ComponentLibrary.tsx:112-116 | the search lower-cases the term, so typing it in another case gives the same result |
| `Library.FilteredExactly` | components/editor/ComponentLibrary.tsx:106-119 | a template is listed iff it is stored and passes the filter, as often as stored, in stored order |
| `Library.EmptySearchRestrictsNothing` | components/editor/ComponentLibrary.tsx:112-113 | an empty search term leaves only the hero and category conditions |
| `Library.CountIn` | components/editor/ComponentLibrary.tsx:126 | a category's count is at most the number of templates, and positive exactly when some template has the category |
| `Library.CategoryCounts` | components/editor/ComponentLibrary.tsx:121-129 | one count per listed category; hero counts 0; every other category counts its templates |
| `Library.CountIsListLength` | components/editor/ComponentLibrary.tsx:121-129 | the count of a non-hero category equals the length of the list shown after clicking it |
| `Library.ShownCategories` | components/editor/ComponentLibrary.tsx:200-202 | only categories with a positive count are shown |
| `Library.ShownCategoriesExactly` | components/editor/ComponentLibrary.tsx:273 | hero is never shown; every other category with templates is |
| `Library.Split` | components/editor/ComponentLibrary.tsx:147 | `split("-")`: at least one piece, no piece holds the separator |
| `Library.Join` | components/editor/ComponentLibrary.tsx:149 | `join`: the first word, then a separator before the next |
| `Library.JoinSplit` | components/editor/ComponentLibrary.tsx:146-149 | joining the pieces with the separator gives the text back |
| `Library.SplitJoin` | components/editor/ComponentLibrary.tsx:146-149 | splitting a join of separator-free words gives the words back |
| `Library.Capitalize` | components/editor/ComponentLibrary.tsx:148 | the first character upper-cased, the rest kept |
| `Library.DisplayName` | components/editor/ComponentLibrary.tsx:143-150 | "cta" and "faq" get fixed names; every other category keeps its length and is title-cased character by character |
| `Library.DisplayNameIsTitleWords` | components/editor/ComponentLibrary.tsx:146-149 | split, capitalise and join with spaces is the text with each '-' turned into a space and each word start upper-cased |
| `Library.Sidebar.constructor` | components/editor/ComponentLibrary.tsx:96-99 | no templates, no category, empty search, categories view |
| `Library.Sidebar.Load` | components/editor/ComponentLibrary.tsx:101-104 | the sidebar shows every stored template |
| `Library.Sidebar.Shown` | components/editor/ComponentLibrary.tsx:106-119 | the components view lists exactly the stored templates that are not hero, are in the selected category when one is set, and match the search, each as often as stored and in stored order; in the components view every listed template is of the selected category |
| `Library.Sidebar.CategoryClick` | components/editor/ComponentLibrary.tsx:131-135 | components view, the clicked category selected, search cleared; the list then has as many templates as the category's count showed |
| `Library.Sidebar.BackToCategories` | components/editor/ComponentLibrary.tsx:137-141 | categories view, no category, search cleared |
| `Library.Sidebar.Search` | components/editor/ComponentLibrary.tsx:188 | the search term is the typed text |
| `Properties.EditableFields` | components/editor/PropertiesPanel.tsx:31-51 | nothing without a component or template; only fields on the active tab |
| `Properties.EditableFieldsExactly` | components/editor/PropertiesPanel.tsx:35-37 | a field is listed iff its tab is the active one or it has none, in schema order |
| `Properties.UntaggedOnBothTabs` | components/editor/PropertiesPanel.tsx:35-37 | an untagged field is listed under both tabs, a tagged one only under its own |
| `Properties.HeroBranchesAgree` | components/editor/PropertiesPanel.tsx:40-50 | the two branches for the required hero return the general list |
| `Properties.DisplayedValue` | components/editor/PropertiesPanel.tsx:54 | the stored value when it is present and truthy, otherwise "" |
| `Properties.FieldChange` | components/editor/PropertiesPanel.tsx:26-28 | the update object has exactly one key, the field's name, holding the value |
| `Properties.Merged` | components/editor/PropertiesPanel.tsx:26-28 | the editor page's `{ ...customData, ...update }` applied to the update object emitted here: updated keys take the update's values, all other keys keep theirs |
| `Properties.EditThenDisplay` | components/editor/PropertiesPanel.tsx:26-28 | after an edit the field shows the entered value, or "" for a falsy value |
| `Properties.EditKeepsOtherFields` | components/editor/PropertiesPanel.tsx:54 | an edit changes no other field's displayed value |
| `Properties.Panel.constructor` | components/editor/PropertiesPanel.tsx:13 | the active tab starts as content |
| `Properties.Panel.SelectTab` | components/editor/PropertiesPanel.tsx:13 | a tab button makes its tab active |
| `Properties.Panel.Fields` | components/editor/PropertiesPanel.tsx:31-51 | the list `getEditableFields` gives for the active tab: nothing without a component or template; otherwise exactly the schema fields on the active tab, each as often as the schema has it, in schema order |
| `Dashboard.NewPage` | app/page.tsx:49-58 | a new page is unpublished, has no components, carries the user's id and the title's slug |
| `Dashboard.WithHero` | app/page.tsx:62-82 | without a hero template the components are unchanged; with one, looking up the new component's id finds a visible hero for the page at position 0 with `programName` set to the title, and every other id finds what it found before |
| `Dashboard.HeroComponent` | app/page.tsx:67-80 | the hero component is visible, at position 0, with the hero's defaults and `programName` set to the title |
| `Dashboard.Toggled` | app/page.tsx:100-105 | publishing flips `published`, sets `publishedAt` iff now published, and changes nothing else but the timestamp |
| `Dashboard.ReplacedById` | app/page.tsx:108 | the list keeps its length; pages with the id are replaced, all others kept |
| `Dashboard.PublishedCount` | app/page.tsx:176 | the published count is at most the number of pages |
| `Dashboard.DraftCount` | app/page.tsx:195 | the draft count is at most the number of pages |
| `Dashboard.CountsAddUp` | app/page.tsx:157-195 | published count plus draft count is the number of pages |
| `Dashboard.ToggleMovesCount` | app/page.tsx:99-109 | toggling moves the toggled page between the published and draft counts |
| `Dashboard.Dashboard.constructor` | app/page.tsx:20-23 | no pages, no user, dialog closed, empty title |
| `Dashboard.Dashboard.Mount` | app/page.tsx:25-44 | a user always exists afterwards; with none before, the demo user is saved and made current; templates are seeded only when there are none; the user's pages are loaded |
| `Dashboard.Dashboard.CreatePage` | app/page.tsx:46-90 | a blank title or no user changes nothing; otherwise the page is saved and appended, the hero component saved when the hero template exists, the title cleared and the dialog closed |
| `Dashboard.Dashboard.AddHero` | app/page.tsx:62-82 | the hero component is saved exactly when the hero template exists |
| `Dashboard.Dashboard.DeletePage` | app/page.tsx:92-97 | unconfirmed: nothing changes; confirmed: the page leaves the list and the store, with its components |
| `Dashboard.Dashboard.TogglePublish` | app/page.tsx:99-109 | the toggled page is saved and replaces the page with its id in the list |
| `Dashboard.CreatedPageStored` | app/page.tsx:60 | a page saved under a fresh id is appended and found under that id |
| `Dashboard.CreatedPageHasOnlyHero` | app/page.tsx:62-82 | with fresh ids, the new page has exactly one component, the hero |

## Left out

- Browser storage itself and JSON are not modelled: the `storage` helpers with their try/catch logging (lib/localStorage.ts:12-63). Each key is a field, and an absent or unreadable key reads as empty. `storage.clear` is not modelled.
- `generateId` and `new Date().toISOString()` are not modelled. Fresh ids and "now" are parameters. One call uses one "now".
- The seed templates (lib/seedData.ts) are a parameter of `Mount`.
- The confirmation dialog's answer is a parameter of `DeletePage`.
- Redirects after creation are not modelled.
- JavaScript regular expressions are not modelled in general. The renderer builds `new RegExp("{{" + key + "}}", "g")` from the key unescaped, and `replace` expands `$` patterns in the value. The model replaces the literal text `{{key}}` and inserts the value as is. This matches the source for keys without regular-expression syntax and values without `$`. An all-digit key such as `1` is not matched literally by the source, because `{1}` reads as a quantifier.
- Renderer.NoKeyTagRemains: proved for the same template class as `Renderer.SubstitutedFills`. Outside it the claim fails in the source itself: with template `{{a}}{{b}}` and data `k` ↦ "z", `a` ↦ "{", `b` ↦ "{k}}", the output is `{{{k}}`, which holds `{{k}}`: the values of `a` and `b` together spell a tag after `k` has already been processed.
- Renderer.SubstitutedFills: the placeholder theorem covers templates whose plain text holds no '{', whose placeholder names and keys hold no brace, and whose values' text holds no '{'. Outside that class, a replacement can complete a tag with its surroundings. For example, `{{k{{k}}}}` with `k` mapped to "" yields `{{k}}`. `OrderMatters` shows order dependence even inside the class.
- `Object.keys` order is the entry order of a record. JavaScript's rule that integer-like keys come first is not modelled.
- Values are strings, integer numbers, booleans or null. Floating-point numbers, arrays and nested objects are not modelled, so `String(value)` is modelled for those four kinds only.
- Types.Decimal: `Num` holds an unbounded integer and stands for a JavaScript number (a double) holding an integer of magnitude below 10^21. Doubles store integers exactly only up to 2^53 - 1, and `String(n)` switches to exponent notation from 10^21 on (`String(1e21)` is `"1e+21"`). Neither the rounding nor the exponent notation is modelled, so for larger magnitudes `Decimal` gives plain digits where the source does not.
- Case mapping and whitespace are ASCII only. `toLowerCase`, `toUpperCase` and `\s` are restricted to ASCII letters and ASCII whitespace.
- Rendering, drag and drop, icons and markup are not modelled. This also covers the editor page, the editor header, the canvas, the sortable wrapper, the program and preview pages, and the seed data.
- Record fields with no behaviour in the core are not modelled:
  - template `previewUrl`, `jsCode`, `tags`, `isActive`;
  - page description, meta and custom code fields;
  - component `responsiveStyles`;
  - user `avatar`;
  - field `options` and `validation`.
- `required` is modelled as a boolean: an absent flag is `false`.
- Properties.Merged: the editor page's merge of an update into `customData` is modelled only as far as the panel's edits need it. That merge is not part of the core.
- LocalStorage.Store: each write replaces the stored sequence at once. The source builds the new array on a fresh copy read from storage, so there is no aliasing to model. The one exception is `updatePositions`. It mutates the objects shared by its filtered view and the full array, and the model updates the full array at the found index.

## Notes on the source

- The final `trim()` in `generateSlug` runs after whitespace has already become '-'. It therefore never removes anything. A title with leading or trailing blanks gets a slug that starts or ends with '-' (`SlugKeepsLeadingDash`, `SlugKeepsTrailingDash`).
- `updatePositions` repositions only the first component of the page that carries each listed id. When an id is listed twice, its last index wins.
- `customData[name] || ""` shows a stored `0` or `false` as an empty field (`EditThenDisplay`).
- Two pages with the same title get the same slug, and nothing checks for that. `getBySlug` returns the first stored page with the slug (`LocalStorage.Store.PageBySlug`), so the later page cannot be reached by its slug.
