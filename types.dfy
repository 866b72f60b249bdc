/**
 * The records of the page builder: component templates with their schema
 * fields, pages, page components (template instances placed on a page) and
 * users, plus the free-form objects (`customData`, `defaultData`, `styles`)
 * they carry and the fixed list of component categories.
 */
module Types {
  import opened Wrappers
  import opened Text
  import Seqs

  /** A JSON value stored in a free-form object; `Num` stands for a number holding an integer below 10^21 in magnitude. */
  datatype Value = Str(text: string) | Num(number: int) | Bool(flag: bool) | Null

  /** One property of a free-form object. */
  datatype Entry = Entry(key: string, value: Value)

  /** A free-form object: its properties in `Object.keys` order. */
  type Record = seq<Entry>

  function KeyOf(e: Entry): string { e.key }

  /** The keys of a free-form object are distinct, as in any JavaScript object. */
  ghost predicate DistinctKeys(r: Record) {
    Seqs.UniqueIds(r, KeyOf)
  }

  /** `r[key]`, or None for a missing property. */
  function Lookup(r: Record, key: string): (v: Option<Value>)
    ensures v.None? <==> forall k :: 0 <= k < |r| ==> r[k].key != key
    ensures v.Some? ==> Entry(key, v.value) in r
  {
    match Seqs.FindById(r, KeyOf, key)
    case None => None
    case Some(e) => Some(e.value)
  }

  /** `{ ...r, [key]: value }`: an existing property keeps its place, a new one goes last. */
  function Assigned(r: Record, key: string, value: Value): (r': Record)
    ensures Lookup(r', key) == Some(value)
    ensures forall k :: k != key ==> Lookup(r', k) == Lookup(r, k)
    ensures |r'| == if Lookup(r, key).Some? then |r| else |r| + 1
    ensures forall i :: 0 <= i < |r| ==> r'[i].key == r[i].key
  {
    var e := Entry(key, value);
    Seqs.FindAfterUpsert(r, e, e, KeyOf);
    forall k | k != key ensures Lookup(Seqs.Upserted(r, e, e, KeyOf), k) == Lookup(r, k) {
      Seqs.UpsertKeepsOtherLookups(r, e, e, KeyOf, k);
    }
    Seqs.Upserted(r, e, e, KeyOf)
  }

  /** A lookup skips a first entry with another key. */
  lemma {:induction false} LookupSkip(data: Record, key: string)
    requires data != [] && data[0].key != key
    ensures Lookup(data, key) == Lookup(data[1..], key)
  {
    var m := (x: Entry) => KeyOf(x) == key;
    var i := Seqs.IndexWhere(data, m);
    var j := Seqs.IndexWhere(data[1..], m);
    assert i == (if j < 0 then -1 else j + 1);
  }

  /** `String(value)`: a string as it is, an integer as its decimal numeral, `true`/`false` and `null` as their names. */
  function Stringify(v: Value): (r: string)
    ensures v.Str? ==> r == v.text
    ensures v.Num? ==> r == Decimal(v.number)
    ensures v.Bool? ==> r == (if v.flag then "true" else "false")
    ensures v.Null? ==> r == "null"
    ensures r == "" <==> v == Str("")
    ensures v.Num? && v.number >= 0 ==> NumeralValue(r) == v.number
  {
    match v
    case Str(s) => s
    case Num(n) => Decimal(n)
    case Bool(b) => if b then "true" else "false"
    case Null => "null"
  }

  /** JavaScript truthiness of a stored value; a truthy value never prints as the empty string. */
  predicate Truthy(v: Value)
    ensures Truthy(v) ==> Stringify(v) != ""
    ensures v.Str? ==> (Truthy(v) <==> Stringify(v) != "")
  {
    match v
    case Str(s) => s != ""
    case Num(n) => n != 0
    case Bool(b) => b
    case Null => false
  }

  /** The number a string of decimal digits denotes, most significant digit first. */
  function NumeralValue(s: string): int {
    if s == [] then 0 else NumeralValue(s[..|s| - 1]) * 10 + (s[|s| - 1] as int - '0' as int)
  }

  /**
   * The decimal numeral of an integer: '-' exactly for negatives, then the digits of its magnitude, without leading zeros.
   * This is what `String(n)` prints for integers below 10^21 in magnitude; beyond that JavaScript uses exponent notation.
   */
  function Decimal(n: int): (r: string)
    ensures r != []
    ensures forall i :: 0 <= i < |r| ==> IsDigit(r[i]) || (i == 0 && r[i] == '-')
    ensures (r[0] == '-') == (n < 0)
    ensures n >= 0 ==> NumeralValue(r) == n && (|r| > 1 ==> r[0] != '0')
    ensures n < 0 ==> |r| >= 2 && NumeralValue(r[1..]) == -n && r[1] != '0'
  {
    if n < 0 then
      var d := Digits(-n);
      assert ("-" + d)[1..] == d;
      "-" + d
    else Digits(n)
  }

  /** The digits of `n`, without leading zeros. */
  function Digits(n: nat): (r: string)
    ensures r != []
    ensures forall i :: 0 <= i < |r| ==> IsDigit(r[i])
    ensures NumeralValue(r) == n
    ensures |r| > 1 || n > 0 ==> r[0] != '0'
  {
    if n < 10 then [('0' as int + n) as char]
    else
      var high := Digits(n / 10);
      var r := high + [('0' as int + n % 10) as char];
      assert r[..|r| - 1] == high;
      r
  }

  /** The tab a schema field is edited under. */
  datatype Tab = ContentTab | StyleTab

  datatype FieldKind = TextInput | TextArea | ImageUrl | LinkUrl | ColorPicker | SelectList | Checkbox | NumberInput

  datatype SchemaField = SchemaField(
    name: string,
    kind: FieldKind,
    labelText: string,
    placeholder: Option<string>,
    required: bool,
    tab: Option<Tab>)

  datatype ComponentTemplate = ComponentTemplate(
    id: string,
    name: string,
    category: string,
    variant: string,
    description: Option<string>,
    htmlContent: string,
    cssStyles: string,
    defaultData: Record,
    fields: seq<SchemaField>,
    createdAt: string,
    updatedAt: string)

  datatype PageComponent = PageComponent(
    id: string,
    pageId: string,
    templateId: string,
    position: int,
    customData: Record,
    styles: Option<Record>,
    isVisible: bool,
    createdAt: string,
    updatedAt: string,
    template: Option<ComponentTemplate>)

  datatype Page = Page(
    id: string,
    title: string,
    slug: string,
    published: bool,
    publishedAt: Option<string>,
    userId: string,
    createdAt: string,
    updatedAt: string,
    components: seq<PageComponent>)

  datatype User = User(
    id: string,
    email: string,
    name: Option<string>,
    createdAt: string,
    updatedAt: string)

  function IdOfTemplate(t: ComponentTemplate): string { t.id }
  function IdOfPage(p: Page): string { p.id }
  function IdOfComponent(c: PageComponent): string { c.id }
  function IdOfUser(u: User): string { u.id }

  /** The component categories, in the order the library lists them. */
  const ComponentCategories: seq<string> := [
    "hero", "header", "footer", "feature", "testimonial", "faq", "pricing", "cta", "team",
    "contact", "stats", "newsletter", "logo-grid", "banner", "registration", "about",
    "mission", "vision"
  ]

  /** The id of the hero template every new page starts with. */
  const RequiredHeroId: string := "required-program-hero"
}
