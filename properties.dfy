/**
 * The properties panel (components/editor/PropertiesPanel.tsx): for the
 * selected component it lists the template's schema fields that belong to
 * the active tab, shows each field's current value and turns an edit into a
 * one-property update object.
 */
module Properties {
  import opened Wrappers
  import opened Types
  import Seqs

  /** A field belongs under `tab` when it names that tab or names none. */
  predicate OnTab(f: SchemaField, tab: Tab) {
    f.tab == Some(tab) || f.tab.None?
  }

  /** Without a component, or with one whose template is missing, the panel shows its placeholder. */
  predicate ShowsPlaceholder(component: Option<PageComponent>) {
    component.None? || component.value.template.None?
  }

  /** `getEditableFields`, including its two branches for the required hero, which return the general list. */
  function EditableFields(component: Option<PageComponent>, activeTab: Tab): (r: seq<SchemaField>)
    ensures ShowsPlaceholder(component) ==> r == []
    ensures forall i :: 0 <= i < |r| ==> OnTab(r[i], activeTab)
  {
    if ShowsPlaceholder(component) then []
    else
      var fieldsForTab := Seqs.Filter(component.value.template.value.fields, (f: SchemaField) => OnTab(f, activeTab));
      if component.value.templateId == RequiredHeroId && activeTab == ContentTab then fieldsForTab
      else if component.value.templateId == RequiredHeroId && activeTab == StyleTab then fieldsForTab
      else fieldsForTab
  }

  /** A schema field is listed iff it is on the active tab; it is listed as often as the schema has it, in schema order. */
  lemma EditableFieldsExactly(c: PageComponent, activeTab: Tab)
    requires c.template.Some?
    ensures var fields := c.template.value.fields;
            (forall f :: f in EditableFields(Some(c), activeTab) <==> f in fields && OnTab(f, activeTab))
            && (forall f :: multiset(EditableFields(Some(c), activeTab))[f] == if OnTab(f, activeTab) then multiset(fields)[f] else 0)
            && Seqs.IsSubsequence(EditableFields(Some(c), activeTab), fields)
  {
    Seqs.FilterCount(c.template.value.fields, (f: SchemaField) => OnTab(f, activeTab));
    Seqs.FilterIsSubsequence(c.template.value.fields, (f: SchemaField) => OnTab(f, activeTab));
  }

  /** A field without a tab is listed under both tabs; a field with a tab only under its own. */
  lemma UntaggedOnBothTabs(c: PageComponent, f: SchemaField)
    requires c.template.Some? && f in c.template.value.fields
    ensures f.tab.None? ==> f in EditableFields(Some(c), ContentTab) && f in EditableFields(Some(c), StyleTab)
    ensures f.tab == Some(ContentTab) ==> f in EditableFields(Some(c), ContentTab) && f !in EditableFields(Some(c), StyleTab)
    ensures f.tab == Some(StyleTab) ==> f !in EditableFields(Some(c), ContentTab) && f in EditableFields(Some(c), StyleTab)
  {
    EditableFieldsExactly(c, ContentTab);
    EditableFieldsExactly(c, StyleTab);
  }

  /** The hero branches change nothing: the list depends on the template and the tab, not on the template id. */
  lemma HeroBranchesAgree(c: PageComponent, activeTab: Tab)
    ensures EditableFields(Some(c), activeTab) == EditableFields(Some(c.(templateId := RequiredHeroId)), activeTab)
  {
  }

  /** `component.customData[field.name] || ""`: the stored value when truthy, else the empty string. */
  function DisplayedValue(data: Record, name: string): (r: Value)
    ensures Lookup(data, name).Some? && Truthy(Lookup(data, name).value) ==> r == Lookup(data, name).value
    ensures Lookup(data, name).None? || !Truthy(Lookup(data, name).value) ==> r == Str("")
  {
    match Lookup(data, name)
    case Some(v) => if Truthy(v) then v else Str("")
    case None => Str("")
  }

  /** `handleFieldChange`: the update object `{ [name]: value }`. */
  function FieldChange(name: string, value: Value): (r: Record)
    ensures |r| == 1 && r[0].key == name
    ensures Lookup(r, name) == Some(value)
    ensures forall k :: k != name ==> Lookup(r, k) == None
  {
    [Entry(name, value)]
  }

  /** The editor merges an update into the component's data: `{ ...customData, ...update }`. */
  function Merged(data: Record, update: Record): (r: Record)
    requires DistinctKeys(update)
    ensures forall k :: Lookup(r, k) == if Lookup(update, k).Some? then Lookup(update, k) else Lookup(data, k)
    decreases |update|
  {
    if update == [] then data
    else
      var e := update[0];
      forall k ensures Lookup(update, k) == if k == e.key then Some(e.value) else Lookup(update[1..], k) {
        if k != e.key { LookupSkip(update, k); }
      }
      Merged(Assigned(data, e.key, e.value), update[1..])
  }

  /** After an edit is merged, the field shows the entered value, unless that value is falsy, which shows as "". */
  lemma {:induction false} EditThenDisplay(data: Record, name: string, value: Value)
    ensures DisplayedValue(Merged(data, FieldChange(name, value)), name) == if Truthy(value) then value else Str("")
  {
    assert Merged(data, FieldChange(name, value)) == Assigned(data, name, value);
  }

  /** An edit leaves every other field's displayed value as it was. */
  lemma {:induction false} EditKeepsOtherFields(data: Record, name: string, value: Value, other: string)
    requires other != name
    ensures DisplayedValue(Merged(data, FieldChange(name, value)), other) == DisplayedValue(data, other)
  {
    assert Merged(data, FieldChange(name, value)) == Assigned(data, name, value);
  }

  /** The panel's one piece of state. */
  class Panel {
    var activeTab: Tab

    constructor ()
      ensures activeTab == ContentTab
    {
      activeTab := ContentTab;
    }

    /** The tab buttons. */
    method SelectTab(tab: Tab)
      modifies this
      ensures activeTab == tab
    {
      activeTab := tab;
    }

    /** What the panel lists for the selected component. */
    function Fields(component: Option<PageComponent>): (r: seq<SchemaField>)
      reads this
      ensures ShowsPlaceholder(component) ==> r == []
      ensures forall i :: 0 <= i < |r| ==> OnTab(r[i], activeTab)
      ensures r == EditableFields(component, activeTab)
      ensures !ShowsPlaceholder(component) ==>
                (forall f :: f in r <==> f in component.value.template.value.fields && OnTab(f, activeTab))
                && (forall f :: multiset(r)[f] == if OnTab(f, activeTab) then multiset(component.value.template.value.fields)[f] else 0)
                && Seqs.IsSubsequence(r, component.value.template.value.fields)
    {
      var r := EditableFields(component, activeTab);
      if ShowsPlaceholder(component) then r
      else
        EditableFieldsExactly(component.value, activeTab);
        r
    }
  }
}
