/**
 * ComponentRenderer (components/editor/ComponentRenderer.tsx): the HTML of a
 * placed component is its template's `htmlContent` with, for each property of
 * `customData` in key order, every `{{key}}` replaced by `String(value)`;
 * the inline style is a copy of `styles`; a missing template, or HTML that
 * comes out empty, shows the "template not found" box instead.
 */
module Renderer {
  import opened Wrappers
  import opened Text
  import opened Types

  /** The placeholder text `{{key}}`. */
  function Tag(key: string): (r: string)
    ensures |r| == |key| + 4 && r[0] == '{' && r[1] == '{'
  {
    "{{" + key + "}}"
  }

  /**
   * `s.replace(new RegExp(pattern, "g"), rep)` for a pattern that matches
   * itself literally: scanning left to right, each occurrence that does not
   * overlap an earlier replaced one is replaced; the inserted text is not
   * scanned again.
   */
  function ReplaceAll(s: string, pattern: string, rep: string): (r: string)
    requires pattern != []
    ensures rep == pattern ==> r == s
    decreases |s|
  {
    if s == [] then []
    else if pattern <= s then
      assert s == pattern + s[|pattern|..];
      rep + ReplaceAll(s[|pattern|..], pattern, rep)
    else [s[0]] + ReplaceAll(s[1..], pattern, rep)
  }

  /** A text without the pattern is left as it is. */
  lemma {:induction false} ReplaceAbsent(s: string, pattern: string, rep: string)
    requires pattern != []
    ensures !Contains(s, pattern) ==> ReplaceAll(s, pattern, rep) == s
    decreases |s|
  {
    if s != [] && !Contains(s, pattern) {
      assert !OccursAt(s, pattern, 0);
      forall p | 0 <= p <= |s[1..]| - |pattern| ensures !OccursAt(s[1..], pattern, p) {
        assert !OccursAt(s, pattern, p + 1);
        assert s[1..][p..p + |pattern|] == s[p + 1..p + 1 + |pattern|];
      }
      ReplaceAbsent(s[1..], pattern, rep);
    }
  }

  /** The `forEach` over the entries of `customData`, as a left fold; HTML holding no key's tag comes out unchanged. */
  function Substituted(html: string, data: Record): (r: string)
    ensures (forall j :: 0 <= j < |data| ==> !Contains(html, Tag(data[j].key))) ==> r == html
    decreases |data|
  {
    if data == [] then html
    else
      ReplaceAbsent(html, Tag(data[0].key), Stringify(data[0].value));
      assert forall j :: 0 <= j < |data[1..]| ==> data[1..][j] == data[j + 1];
      Substituted(ReplaceAll(html, Tag(data[0].key), Stringify(data[0].value)), data[1..])
  }

  // ---------------------------------------------------------------------------
  // The meaning of substitution, for templates made of text and placeholders

  /** A template seen as pieces: text, or a placeholder `{{name}}`. */
  datatype Piece = Literal(text: string) | Placeholder(name: string)

  function PieceText(p: Piece): string {
    match p
    case Literal(t) => t
    case Placeholder(n) => Tag(n)
  }

  /** The template text the pieces spell. */
  function Assemble(ps: seq<Piece>): string {
    if ps == [] then "" else PieceText(ps[0]) + Assemble(ps[1..])
  }

  predicate NoOpenBrace(s: string) {
    forall i :: 0 <= i < |s| ==> s[i] != '{'
  }

  predicate NoBrace(s: string) {
    forall i :: 0 <= i < |s| ==> s[i] != '{' && s[i] != '}'
  }

  /** Text pieces hold no '{' and placeholder names no brace, so the pieces are read back unambiguously. */
  predicate WellFormed(ps: seq<Piece>) {
    forall i :: 0 <= i < |ps| ==>
      (ps[i].Literal? ==> NoOpenBrace(ps[i].text)) && (ps[i].Placeholder? ==> NoBrace(ps[i].name))
  }

  /** Keys hold no brace and the values' strings no '{'. */
  predicate PlainData(data: Record) {
    forall i :: 0 <= i < |data| ==> NoBrace(data[i].key) && NoOpenBrace(Stringify(data[i].value))
  }

  /** A placeholder whose name is a key becomes the value's text; every other piece stays. */
  function FilledPiece(p: Piece, data: Record): (r: Piece)
    ensures p.Literal? ==> r == p
    ensures p.Placeholder? && Lookup(data, p.name).None? ==> r == p
    ensures p.Placeholder? && Lookup(data, p.name).Some? ==> r == Literal(Stringify(Lookup(data, p.name).value))
  {
    match p
    case Literal(_) => p
    case Placeholder(n) =>
      match Lookup(data, n)
      case None => p
      case Some(v) => Literal(Stringify(v))
  }

  function Filled(ps: seq<Piece>, data: Record): (r: seq<Piece>)
    ensures |r| == |ps| && forall i :: 0 <= i < |ps| ==> r[i] == FilledPiece(ps[i], data)
  {
    if ps == [] then [] else [FilledPiece(ps[0], data)] + Filled(ps[1..], data)
  }

  /** A '{'-free prefix is copied through. */
  lemma {:induction false} ReplaceAfterPlain(lit: string, rest: string, pattern: string, rep: string)
    requires pattern != [] && pattern[0] == '{' && NoOpenBrace(lit)
    ensures ReplaceAll(lit + rest, pattern, rep) == lit + ReplaceAll(rest, pattern, rep)
    decreases |lit|
  {
    if lit == [] {
      assert lit + rest == rest;
    } else {
      var s := lit + rest;
      assert s[0] != pattern[0];
      assert !(pattern <= s);
      assert s[1..] == lit[1..] + rest;
      assert lit == [lit[0]] + lit[1..];
      ReplaceAfterPlain(lit[1..], rest, pattern, rep);
      calc {
        ReplaceAll(s, pattern, rep);
        [s[0]] + ReplaceAll(lit[1..] + rest, pattern, rep);
        [lit[0]] + lit[1..] + ReplaceAll(rest, pattern, rep);
      }
    }
  }

  /** `{{k}}` is not a prefix of a text that starts with another placeholder `{{n}}`. */
  lemma TagNotPrefix(k: string, n: string, rest: string)
    requires NoBrace(k) && NoBrace(n) && k != n
    ensures !(Tag(k) <= Tag(n) + rest)
  {
    var s := Tag(n) + rest;
    var t := Tag(k);
    if |k| < |n| {
      assert t[2 + |k|] != s[2 + |k|];
    } else if |k| > |n| {
      assert t[2 + |n|] != s[2 + |n|];
    } else {
      var i :| 0 <= i < |k| && k[i] != n[i];
      assert t[2 + i] != s[2 + i];
    }
  }

  /** Replacing `{{k}}` in a text that starts with the placeholder `{{n}}`. */
  lemma ReplaceAfterTag(n: string, rest: string, k: string, rep: string)
    requires NoBrace(n) && NoBrace(k)
    ensures ReplaceAll(Tag(n) + rest, Tag(k), rep)
            == (if n == k then rep else Tag(n)) + ReplaceAll(rest, Tag(k), rep)
  {
    var s := Tag(n) + rest;
    if n == k {
      assert s[|Tag(k)|..] == rest;
    } else {
      TagNotPrefix(k, n, rest);
      var tail := n + "}}";
      assert NoOpenBrace(tail);
      assert s[1..] == "{" + tail + rest;
      assert s[1..][1] != '{';
      assert !(Tag(k) <= s[1..]);
      assert s[1..][1..] == tail + rest;
      ReplaceAfterPlain(tail, rest, Tag(k), rep);
    }
  }

  /** One pass of the fold replaces exactly the placeholders named by the key. */
  lemma {:induction false} ReplaceAssembled(ps: seq<Piece>, e: Entry)
    requires WellFormed(ps) && NoBrace(e.key)
    ensures ReplaceAll(Assemble(ps), Tag(e.key), Stringify(e.value)) == Assemble(Filled(ps, [e]))
  {
    if ps != [] {
      ReplaceAssembled(ps[1..], e);
      var rest := Assemble(ps[1..]);
      assert Filled(ps, [e]) == [FilledPiece(ps[0], [e])] + Filled(ps[1..], [e]);
      match ps[0]
      case Literal(t) =>
        ReplaceAfterPlain(t, rest, Tag(e.key), Stringify(e.value));
      case Placeholder(n) =>
        ReplaceAfterTag(n, rest, e.key, Stringify(e.value));
        if n == e.key {
          assert Lookup([e], n) == Some(e.value);
        } else {
          assert Lookup([e], n) == None;
        }
    }
  }

  /** Filling with no data changes nothing. */
  lemma FilledNothing(ps: seq<Piece>)
    ensures Filled(ps, []) == ps
  {
  }

  /** Filling with the first entry and then with the rest is filling with all of them. */
  lemma {:induction false} FilledStep(ps: seq<Piece>, data: Record)
    requires data != []
    ensures Filled(Filled(ps, [data[0]]), data[1..]) == Filled(ps, data)
  {
    var once := Filled(ps, [data[0]]);
    forall i | 0 <= i < |ps| ensures FilledPiece(once[i], data[1..]) == FilledPiece(ps[i], data) {
      if ps[i].Placeholder? {
        var n := ps[i].name;
        if n == data[0].key {
          assert Lookup([data[0]], n) == Some(data[0].value);
          assert Seqs.IndexWhere(data, (x: Entry) => KeyOf(x) == n) == 0;
        } else {
          assert Lookup([data[0]], n) == None;
          LookupSkip(data, n);
        }
      }
    }
  }

  /** Filling keeps the pieces well formed when the values carry no '{'. */
  lemma {:induction false} FilledWellFormed(ps: seq<Piece>, data: Record)
    requires WellFormed(ps) && PlainData(data)
    ensures WellFormed(Filled(ps, data))
  {
    var r := Filled(ps, data);
    forall i | 0 <= i < |ps| && ps[i].Placeholder? && Lookup(data, ps[i].name).Some?
      ensures NoOpenBrace(r[i].text)
    {
      var v := Lookup(data, ps[i].name).value;
      var k :| 0 <= k < |data| && data[k] == Entry(ps[i].name, v);
    }
  }

  /**
   * The fold over `customData` fills every placeholder whose name is a key
   * with that key's value (the first entry for the key), and keeps every
   * other placeholder and all text, provided the template's text holds no
   * '{', names and keys hold no brace and no value's text holds '{'.
   */
  lemma {:induction false} SubstitutedFills(ps: seq<Piece>, data: Record)
    requires WellFormed(ps) && PlainData(data)
    ensures Substituted(Assemble(ps), data) == Assemble(Filled(ps, data))
    decreases |data|
  {
    if data == [] {
      FilledNothing(ps);
    } else {
      var e := data[0];
      ReplaceAssembled(ps, e);
      assert PlainData([e]);
      FilledWellFormed(ps, [e]);
      assert PlainData(data[1..]) by {
        forall i | 0 <= i < |data[1..]| ensures NoBrace(data[1..][i].key) && NoOpenBrace(Stringify(data[1..][i].value)) {
          assert data[1..][i] == data[i + 1];
        }
      }
      SubstitutedFills(Filled(ps, [e]), data[1..]);
      FilledStep(ps, data);
    }
  }

  /** The template is the text before a piece, the piece, and the text after it. */
  lemma {:induction false} AssembleSplit(ps: seq<Piece>, i: nat)
    requires i < |ps|
    ensures Assemble(ps) == Assemble(ps[..i]) + PieceText(ps[i]) + Assemble(ps[i + 1..])
  {
    if i > 0 {
      AssembleSplit(ps[1..], i - 1);
      assert ps[1..][..i - 1] == ps[..i][1..];
      assert ps[1..][i..] == ps[i + 1..];
      assert Assemble(ps[..i]) == PieceText(ps[0]) + Assemble(ps[..i][1..]);
    }
  }

  /** The text of every piece occurs in the assembled template. */
  lemma AssembleHolds(ps: seq<Piece>, i: nat)
    requires i < |ps|
    ensures Contains(Assemble(ps), PieceText(ps[i]))
  {
    AssembleSplit(ps, i);
    var a := Assemble(ps[..i]);
    var t := PieceText(ps[i]);
    var s := Assemble(ps);
    assert s[|a|..|a| + |t|] == t;
    assert OccursAt(s, t, |a|);
  }

  /** `{{k}}` does not start inside a well-formed piece other than the placeholder `k`. */
  lemma NoTagInHead(q: Piece, rest: string, k: string, p: nat)
    requires WellFormed([q]) && NoBrace(k) && q != Placeholder(k)
    requires p < |PieceText(q)| && p + |Tag(k)| <= |PieceText(q) + rest|
    ensures !OccursAt(PieceText(q) + rest, Tag(k), p)
  {
    var h := PieceText(q);
    var s := h + rest;
    var t := Tag(k);
    assert [q][0] == q;
    match q
    case Literal(text) =>
      assert s[p] == text[p];
      assert s[p..p + |t|][0] != t[0];
    case Placeholder(n) =>
      assert NoBrace(n);
      assert h == "{{" + n + "}}";
      if p == 0 {
        TagNotPrefix(k, n, rest);
        assert s[..|t|] == s[0..0 + |t|];
      } else if p == 1 {
        assert s[2] == (if n == [] then '}' else n[0]);
        assert s[p..p + |t|][1] != t[1];
      } else {
        assert s[p] == (if p < 2 + |n| then n[p - 2] else '}');
        assert s[p..p + |t|][0] != t[0];
      }
  }

  /** An occurrence past a prefix is an occurrence in what follows it. */
  lemma {:induction false} OccursAfter(h: string, rest: string, t: string, p: int)
    requires |h| <= p
    ensures OccursAt(h + rest, t, p) == OccursAt(rest, t, p - |h|)
  {
    if p + |t| <= |h + rest| {
      assert (h + rest)[p..p + |t|] == rest[p - |h|..p - |h| + |t|];
    }
  }

  /** `{{k}}` occurs in well-formed pieces only where a placeholder named `k` is. */
  lemma {:induction false} TagOnlyAtPlaceholder(ps: seq<Piece>, k: string)
    requires WellFormed(ps) && NoBrace(k)
    requires forall i :: 0 <= i < |ps| ==> ps[i] != Placeholder(k)
    ensures !Contains(Assemble(ps), Tag(k))
  {
    if ps != [] {
      var h := PieceText(ps[0]);
      var rest := Assemble(ps[1..]);
      var t := Tag(k);
      assert Assemble(ps) == h + rest;
      assert forall i :: 0 <= i < |ps[1..]| ==> ps[1..][i] == ps[i + 1];
      TagOnlyAtPlaceholder(ps[1..], k);
      assert WellFormed([ps[0]]);
      forall p | 0 <= p <= |h + rest| - |t| ensures !OccursAt(h + rest, t, p) {
        if p >= |h| {
          OccursAfter(h, rest, t, p);
        } else {
          NoTagInHead(ps[0], rest, k, p);
        }
      }
    }
  }

  /** After the fold no `{{k}}` is left for any key `k` of the data. */
  lemma NoKeyTagRemains(ps: seq<Piece>, data: Record, j: nat)
    requires WellFormed(ps) && PlainData(data) && j < |data|
    ensures !Contains(Substituted(Assemble(ps), data), Tag(data[j].key))
  {
    SubstitutedFills(ps, data);
    FilledWellFormed(ps, data);
    var k := data[j].key;
    var r := Filled(ps, data);
    assert Lookup(data, k).Some?;
    TagOnlyAtPlaceholder(r, k);
  }

  /** Inside `{{k}}` no `{{b}}` can start: an occurrence of `{{b}}` begins at or after the end of `{{k}}`. */
  lemma TagsDoNotOverlap(s: string, k: string, b: string, i: int)
    requires NoBrace(k) && OccursAt(s, Tag(k), 0) && OccursAt(s, Tag(b), i) && 0 < i
    ensures i >= |Tag(k)|
  {
    var t := Tag(k);
    var u := s[i..i + |Tag(b)|];
    assert u[0] == s[i] && u[1] == s[i + 1];
    assert forall j :: 0 <= j < |t| ==> s[j] == s[0..|t|][j];
    assert forall j :: 2 <= j < |t| ==> t[j] == if j < 2 + |k| then k[j - 2] else '}';
  }

  /** An occurrence of `pattern` in `rest` is one in `h + rest`. */
  lemma ContainsAfter(h: string, rest: string, pattern: string)
    requires Contains(rest, pattern)
    ensures Contains(h + rest, pattern)
  {
    var j :| 0 <= j <= |rest| - |pattern| && OccursAt(rest, pattern, j);
    OccursAfter(h, rest, pattern, j + |h|);
  }

  /**
   * Replacing `{{k}}` never destroys a `{{b}}` for another brace-free name:
   * the two cannot overlap, whatever the text around them and the
   * replacement are.
   */
  lemma {:induction false} ReplaceKeepsTag(s: string, k: string, rep: string, b: string, i: int)
    requires NoBrace(k) && NoBrace(b) && k != b && OccursAt(s, Tag(b), i)
    ensures Contains(ReplaceAll(s, Tag(k), rep), Tag(b))
    decreases |s|
  {
    var t := Tag(k);
    var r := ReplaceAll(s, t, rep);
    if i == 0 {
      var rest := s[|Tag(b)|..];
      assert s == Tag(b) + rest;
      ReplaceAfterTag(b, rest, k, rep);
      assert OccursAt(r, Tag(b), 0) by { assert r[0..|Tag(b)|] == Tag(b); }
    } else if t <= s {
      assert OccursAt(s, t, 0) by { assert s[0..|t|] == t; }
      TagsDoNotOverlap(s, k, b, i);
      var tail := s[|t|..];
      assert OccursAt(tail, Tag(b), i - |t|) by {
        assert tail[i - |t|..i - |t| + |Tag(b)|] == s[i..i + |Tag(b)|];
      }
      ReplaceKeepsTag(tail, k, rep, b, i - |t|);
      ContainsAfter(rep, ReplaceAll(tail, t, rep), Tag(b));
    } else {
      var tail := s[1..];
      assert OccursAt(tail, Tag(b), i - 1) by {
        assert tail[i - 1..i - 1 + |Tag(b)|] == s[i..i + |Tag(b)|];
      }
      ReplaceKeepsTag(tail, k, rep, b, i - 1);
      ContainsAfter([s[0]], ReplaceAll(tail, t, rep), Tag(b));
    }
  }

  /**
   * A placeholder `{{name}}` whose name is no key is still in the output,
   * for any template text and any values, when the name and the keys hold
   * no brace.
   */
  lemma {:induction false} UnmatchedPlaceholderKept(html: string, data: Record, name: string)
    requires Contains(html, Tag(name)) && NoBrace(name)
    requires forall j :: 0 <= j < |data| ==> NoBrace(data[j].key) && data[j].key != name
    ensures Contains(Substituted(html, data), Tag(name))
    decreases |data|
  {
    if data != [] {
      var i :| 0 <= i <= |html| - |Tag(name)| && OccursAt(html, Tag(name), i);
      ReplaceKeepsTag(html, data[0].key, Stringify(data[0].value), name, i);
      assert forall j :: 0 <= j < |data[1..]| ==> data[1..][j] == data[j + 1];
      UnmatchedPlaceholderKept(ReplaceAll(html, Tag(data[0].key), Stringify(data[0].value)), data[1..], name);
    }
  }

  /** Keys are processed in order, so one value can feed a later key: the result depends on key order. */
  lemma OrderMatters()
    ensures Substituted("{{a}}", [Entry("a", Str("{{b}}")), Entry("b", Str("x"))]) == "x"
    ensures Substituted("{{a}}", [Entry("b", Str("x")), Entry("a", Str("{{b}}"))]) == "{{b}}"
  {
    var tagA := "{{a}}";
    var tagB := "{{b}}";
    assert Tag("a") == tagA && Tag("b") == tagB;
    ReplaceAfterTag("a", "", "a", "{{b}}");
    assert ReplaceAll("", tagA, "{{b}}") == "";
    ReplaceAfterTag("b", "", "b", "x");
    assert ReplaceAll("", tagB, "x") == "";
    ReplaceAfterTag("a", "", "b", "x");
    assert tagA + "" == tagA && tagB + "" == tagB;
  }

  // ---------------------------------------------------------------------------
  // The component

  /** `processedHTML`: "" without a template, else the template HTML with the data substituted key by key. */
  method ProcessedHtml(c: PageComponent) returns (html: string)
    ensures c.template.None? ==> html == ""
    ensures c.template.Some? ==> html == Substituted(c.template.value.htmlContent, c.customData)
    ensures c.template.Some? && c.customData == [] ==> html == c.template.value.htmlContent
  {
    if c.template.None? {
      return "";
    }
    html := c.template.value.htmlContent;
    var data := c.customData;
    for i := 0 to |data|
      invariant Substituted(html, data[i..]) == Substituted(c.template.value.htmlContent, data)
    {
      assert data[i..][1..] == data[i + 1..];
      html := ReplaceAll(html, Tag(data[i].key), Stringify(data[i].value));
    }
  }

  /** `customStyles`: `Object.assign({}, styles)`, or `{}` without styles. */
  method CustomStyles(c: PageComponent) returns (r: Record)
    requires c.styles.Some? ==> DistinctKeys(c.styles.value)
    ensures r == if c.styles.Some? then c.styles.value else []
    ensures forall key :: Lookup(r, key) == if c.styles.Some? then Lookup(c.styles.value, key) else None
  {
    r := [];
    if c.styles.Some? {
      var s := c.styles.value;
      for i := 0 to |s|
        invariant r == s[..i]
      {
        assert forall k :: 0 <= k < i ==> s[k].key != s[i].key;
        r := Assigned(r, s[i].key, s[i].value);
        assert s[..i + 1] == s[..i] + [s[i]];
      }
      assert s[..|s|] == s;
    }
  }

  /** What the renderer shows. */
  datatype View = TemplateNotFound | Shown(html: string, css: string, style: Record)

  /** The "template not found" box when there is no template or the processed HTML is empty. */
  method Render(c: PageComponent) returns (v: View)
    requires c.styles.Some? ==> DistinctKeys(c.styles.value)
    ensures v.TemplateNotFound? <==> c.template.None? || Substituted(c.template.value.htmlContent, c.customData) == ""
    ensures v.Shown? ==> v.html == Substituted(c.template.value.htmlContent, c.customData)
                         && v.css == c.template.value.cssStyles
                         && v.style == if c.styles.Some? then c.styles.value else []
  {
    var html := ProcessedHtml(c);
    var style := CustomStyles(c);
    if c.template.None? || html == "" {
      return TemplateNotFound;
    }
    return Shown(html, c.template.value.cssStyles, style);
  }
}
