/**
 * `generateSlug` (lib/localStorage.ts): lower-case the title, drop every
 * character outside `[a-z0-9\s-]`, turn each run of whitespace into one '-',
 * squeeze each run of '-' into one '-', and trim. Each stage is the
 * corresponding `String.replace` with a global regular expression.
 */
module Slug {
  import opened Text
  import Seqs

  /** The characters `/[^a-z0-9\s-]/g` does not remove. */
  predicate Allowed(c: char) {
    IsLowerLetter(c) || IsDigit(c) || IsSpace(c) || c == '-'
  }

  predicate IsDash(c: char) { c == '-' }

  /** The characters a slug is made of. */
  predicate IsSlugChar(c: char) {
    IsLowerLetter(c) || IsDigit(c) || c == '-'
  }

  /** The characters of the title a slug keeps as they are. */
  predicate IsWordChar(c: char) {
    IsLowerLetter(c) || IsDigit(c)
  }

  /** `s` never holds "--". */
  predicate NoDoubleDash(s: string) {
    forall i :: 0 <= i < |s| - 1 ==> !(s[i] == '-' && s[i + 1] == '-')
  }

  /** The longest suffix of `s` that does not start with a character in `p`. */
  function DropWhile(s: string, p: char -> bool): (r: string)
    ensures |r| <= |s| && r == s[|s| - |r|..]
    ensures r != [] ==> !p(r[0])
    ensures forall i :: 0 <= i < |s| - |r| ==> p(s[i])
  {
    if s != [] && p(s[0]) then DropWhile(s[1..], p) else s
  }

  /** `s.replace(/X+/g, "-")` where X is the character class `p`: each maximal run becomes one '-'. */
  function CollapseRuns(s: string, p: char -> bool): (r: string)
    ensures forall i :: 0 <= i < |r| ==> r[i] == '-' || !p(r[i])
    decreases |s|
  {
    if s == [] then []
    else if p(s[0]) then "-" + CollapseRuns(DropWhile(s[1..], p), p)
    else [s[0]] + CollapseRuns(s[1..], p)
  }

  /** Every character collapsing leaves is '-' or a character of the input outside the class. */
  lemma {:induction false} CollapseRunsFrom(s: string, p: char -> bool, q: char -> bool)
    requires forall i :: 0 <= i < |s| ==> q(s[i])
    ensures forall i :: 0 <= i < |CollapseRuns(s, p)| ==>
              CollapseRuns(s, p)[i] == '-' || (q(CollapseRuns(s, p)[i]) && !p(CollapseRuns(s, p)[i]))
    decreases |s|
  {
    if s != [] {
      if p(s[0]) {
        var t := DropWhile(s[1..], p);
        assert forall i :: 0 <= i < |t| ==> t[i] == s[|s| - |t| + i];
        CollapseRunsFrom(t, p, q);
      } else {
        CollapseRunsFrom(s[1..], p, q);
      }
    }
  }

  /** Dropping a run of class characters drops no character `q` keeps. */
  lemma {:induction false} DropWhileKeeps(s: string, p: char -> bool, q: char -> bool)
    requires forall i :: 0 <= i < |s| && p(s[i]) ==> !q(s[i])
    ensures Seqs.Filter(DropWhile(s, p), q) == Seqs.Filter(s, q)
  {
    if s != [] && p(s[0]) {
      DropWhileKeeps(s[1..], p, q);
    }
  }

  /**
   * Collapsing runs keeps, in order, every character of a kind `q` that is
   * neither '-' nor in the class: only class characters become '-'.
   */
  lemma {:induction false} CollapseRunsKeeps(s: string, p: char -> bool, q: char -> bool)
    requires forall i :: 0 <= i < |s| && p(s[i]) ==> !q(s[i])
    requires !q('-')
    ensures Seqs.Filter(CollapseRuns(s, p), q) == Seqs.Filter(s, q)
    decreases |s|
  {
    if s != [] {
      if p(s[0]) {
        var t := DropWhile(s[1..], p);
        assert forall i :: 0 <= i < |t| ==> t[i] == s[|s| - |t| + i];
        CollapseRunsKeeps(t, p, q);
        DropWhileKeeps(s[1..], p, q);
        assert ("-" + CollapseRuns(t, p))[1..] == CollapseRuns(t, p);
      } else {
        CollapseRunsKeeps(s[1..], p, q);
        assert ([s[0]] + CollapseRuns(s[1..], p))[1..] == CollapseRuns(s[1..], p);
      }
    }
  }

  /** Dropping a run from `x + y` drops into `y` only when all of `x` is in the run. */
  lemma {:induction false} DropWhileAppend(x: string, y: string, p: char -> bool)
    ensures DropWhile(x + y, p) == if DropWhile(x, p) == [] then DropWhile(y, p) else DropWhile(x, p) + y
  {
    if x == [] {
      assert x + y == y;
    } else if p(x[0]) {
      assert (x + y)[1..] == x[1..] + y;
      DropWhileAppend(x[1..], y, p);
    }
  }

  /** A non-empty run of class characters collapses to a single '-'. */
  lemma CollapseRunsOfRun(g: string, p: char -> bool)
    requires g != [] && forall i :: 0 <= i < |g| ==> p(g[i])
    ensures CollapseRuns(g, p) == "-"
  {
    DropWhileAll(g[1..], p);
  }

  /** A text all in the class is dropped entirely. */
  lemma {:induction false} DropWhileAll(s: string, p: char -> bool)
    requires forall i :: 0 <= i < |s| ==> p(s[i])
    ensures DropWhile(s, p) == []
  {
    if s != [] {
      DropWhileAll(s[1..], p);
    }
  }

  /** Collapsing a text that starts with a run: one '-', then what follows the run. */
  lemma CollapseRunsHead(s: string, p: char -> bool)
    requires s != [] && p(s[0])
    ensures CollapseRuns(s, p) == "-" + CollapseRuns(DropWhile(s[1..], p), p)
  {
  }

  /**
   * Collapsing works piece by piece across a boundary that does not fall
   * inside a run: `a` ends, or `b` starts, with a character outside the class.
   */
  lemma {:induction false} CollapseRunsAppend(a: string, b: string, p: char -> bool)
    requires a == [] || b == [] || !p(a[|a| - 1]) || !p(b[0])
    ensures CollapseRuns(a + b, p) == CollapseRuns(a, p) + CollapseRuns(b, p)
    decreases |a|, 2
  {
    if a == [] {
      assert a + b == b;
    } else if b == [] {
      assert a + b == a;
    } else if p(a[0]) {
      CollapseRunsAppendRun(a, b, p);
    } else {
      var s := a + b;
      assert s[0] == a[0] && s[1..] == a[1..] + b;
      if |a| > 1 { assert a[1..][|a| - 2] == a[|a| - 1]; }
      CollapseRunsAppend(a[1..], b, p);
    }
  }

  /** `CollapseRunsAppend` when `a` starts with a run. */
  lemma {:induction false} CollapseRunsAppendRun(a: string, b: string, p: char -> bool)
    requires a != [] && b != [] && p(a[0]) && (!p(a[|a| - 1]) || !p(b[0]))
    ensures CollapseRuns(a + b, p) == CollapseRuns(a, p) + CollapseRuns(b, p)
    decreases |a|, 1
  {
    var s := a + b;
    assert s[0] == a[0] && s[1..] == a[1..] + b;
    var t := DropWhile(a[1..], p);
    DropWhileAppend(a[1..], b, p);
    CollapseRunsHead(s, p);
    CollapseRunsHead(a, p);
    if t == [] {
      DropWhileGone(a, p);
      CollapseRunsAfterWholeRun(a, b, p);
    } else {
      DropWhileLast(a[1..], p);
      assert a[1..][|a| - 2] == a[|a| - 1];
      CollapseRunsAfterPartRun(a, b, p);
    }
  }

  /** A run that ends inside `a`, followed by more of `a` and then `b`. */
  lemma {:induction false} CollapseRunsAfterPartRun(a: string, b: string, p: char -> bool)
    requires a != [] && b != [] && DropWhile(a[1..], p) != []
    requires !p(DropWhile(a[1..], p)[|DropWhile(a[1..], p)| - 1]) || !p(b[0])
    requires CollapseRuns(a, p) == "-" + CollapseRuns(DropWhile(a[1..], p), p)
    requires CollapseRuns(a + b, p) == "-" + CollapseRuns(DropWhile((a + b)[1..], p), p)
    requires DropWhile((a + b)[1..], p) == DropWhile(a[1..], p) + b
    ensures CollapseRuns(a + b, p) == CollapseRuns(a, p) + CollapseRuns(b, p)
    decreases |a|, 0
  {
    var t := DropWhile(a[1..], p);
    CollapseRunsAppend(t, b, p);
    ConcatAssoc("-", CollapseRuns(t, p), CollapseRuns(b, p));
  }

  /** Concatenation is associative. */
  lemma ConcatAssoc(x: string, y: string, z: string)
    ensures x + y + z == x + (y + z)
  {
  }

  /** A text that is one run, followed by a text outside the class. */
  lemma CollapseRunsAfterWholeRun(a: string, b: string, p: char -> bool)
    requires a != [] && b != [] && !p(b[0])
    requires CollapseRuns(a, p) == "-" + CollapseRuns(DropWhile(a[1..], p), p) && DropWhile(a[1..], p) == []
    requires CollapseRuns(a + b, p) == "-" + CollapseRuns(DropWhile((a + b)[1..], p), p)
    requires DropWhile((a + b)[1..], p) == DropWhile(b, p)
    ensures CollapseRuns(a + b, p) == CollapseRuns(a, p) + CollapseRuns(b, p)
  {
    assert DropWhile(b, p) == b;
    assert CollapseRuns(a, p) == "-" + CollapseRuns([], p);
    assert "-" + CollapseRuns([], p) == "-";
  }

  /** When a run reaches the end of `s`, the last character is in the class. */
  lemma DropWhileGone(s: string, p: char -> bool)
    requires s != [] && p(s[0]) && DropWhile(s[1..], p) == []
    ensures p(s[|s| - 1])
  {
    if |s| > 1 {
      assert s[|s| - 1] == s[1..][|s| - 2];
    }
  }

  /** What is left after a run ends where `s` ends. */
  lemma DropWhileLast(s: string, p: char -> bool)
    requires DropWhile(s, p) != []
    ensures DropWhile(s, p)[|DropWhile(s, p)| - 1] == s[|s| - 1]
  {
  }

  /** `replace(/X+/g, "-")` turns each maximal run into exactly one '-', and nothing else changes around it. */
  lemma CollapseRunsRun(a: string, g: string, b: string, p: char -> bool)
    requires g != [] && forall i :: 0 <= i < |g| ==> p(g[i])
    requires a == [] || !p(a[|a| - 1])
    requires b == [] || !p(b[0])
    ensures CollapseRuns(a + g + b, p) == CollapseRuns(a, p) + "-" + CollapseRuns(b, p)
  {
    ConcatAssoc(a, g, b);
    CollapseRunsAppend(a, g + b, p);
    CollapseRunsAppend(g, b, p);
    CollapseRunsOfRun(g, p);
    ConcatAssoc(CollapseRuns(a, p), "-", CollapseRuns(b, p));
  }

  /** The first four stages of `generateSlug`, before the final `trim`. */
  function Squeezed(title: string): string {
    CollapseRuns(CollapseRuns(Seqs.Filter(LowerCase(title), Allowed), IsSpace), IsDash)
  }

  /** The squeezed title keeps the lower-cased title's letters and digits, in order, and nothing else but '-'. */
  lemma SqueezedKeepsWordChars(title: string)
    ensures Seqs.Filter(Squeezed(title), IsWordChar) == Seqs.Filter(LowerCase(title), IsWordChar)
  {
    var l := LowerCase(title);
    var a := Seqs.Filter(l, Allowed);
    var b := CollapseRuns(a, IsSpace);
    Seqs.FilterNarrower(l, Allowed, IsWordChar);
    CollapseRunsKeeps(a, IsSpace, IsWordChar);
    CollapseRunsKeeps(b, IsDash, IsWordChar);
  }

  /**
   * `generateSlug`: only `a-z`, `0-9` and '-', never "--", and exactly the
   * lower-cased title's letters and digits, in their order.
   */
  function GenerateSlug(title: string): (r: string)
    ensures forall i :: 0 <= i < |r| ==> IsSlugChar(r[i])
    ensures NoDoubleDash(r)
    ensures Seqs.Filter(r, IsWordChar) == Seqs.Filter(LowerCase(title), IsWordChar)
  {
    TrimIsNoOp(title);
    CollapseDashesNoDoubleDash(CollapseRuns(Seqs.Filter(LowerCase(title), Allowed), IsSpace));
    SqueezedKeepsWordChars(title);
    Trim(Squeezed(title))
  }

  /** A run is replaced by '-', so a string that starts inside a run yields one that starts with '-'. */
  lemma CollapseRunsFirst(s: string, p: char -> bool)
    requires s != []
    ensures CollapseRuns(s, p) != []
    ensures CollapseRuns(s, p)[0] == if p(s[0]) then '-' else s[0]
  {
  }

  /** Likewise at the end. */
  lemma {:induction false} CollapseRunsLast(s: string, p: char -> bool)
    requires s != [] && p(s[|s| - 1])
    ensures CollapseRuns(s, p) != [] && CollapseRuns(s, p)[|CollapseRuns(s, p)| - 1] == '-'
    decreases |s|
  {
    if p(s[0]) {
      var t := DropWhile(s[1..], p);
      if t != [] {
        assert t[|t| - 1] == s[|s| - 1];
        CollapseRunsLast(t, p);
      }
    } else {
      CollapseRunsLast(s[1..], p);
    }
  }

  /** Squeezing runs of '-' leaves no "--" behind. */
  lemma {:induction false} CollapseDashesNoDoubleDash(s: string)
    ensures NoDoubleDash(CollapseRuns(s, IsDash))
    decreases |s|
  {
    if s != [] {
      var r := CollapseRuns(s, IsDash);
      if IsDash(s[0]) {
        var t := DropWhile(s[1..], IsDash);
        CollapseDashesNoDoubleDash(t);
        if t != [] { CollapseRunsFirst(t, IsDash); }
        assert r == "-" + CollapseRuns(t, IsDash);
      } else {
        CollapseDashesNoDoubleDash(s[1..]);
        assert r == [s[0]] + CollapseRuns(s[1..], IsDash);
      }
    }
  }

  /** A string with no character of the class has no run to collapse. */
  lemma {:induction false} CollapseRunsNoRun(s: string, p: char -> bool)
    requires forall i :: 0 <= i < |s| ==> !p(s[i])
    ensures CollapseRuns(s, p) == s
  {
    if s != [] {
      CollapseRunsNoRun(s[1..], p);
    }
  }

  /** Single dashes are already collapsed. */
  lemma {:induction false} CollapseDashesSingle(s: string)
    requires NoDoubleDash(s)
    ensures CollapseRuns(s, IsDash) == s
  {
    if s != [] {
      CollapseDashesSingle(s[1..]);
      if IsDash(s[0]) {
        assert DropWhile(s[1..], IsDash) == s[1..];
      }
    }
  }

  /** The final trim never removes anything: no whitespace survives the earlier stages. */
  lemma TrimIsNoOp(title: string)
    ensures Trim(Squeezed(title)) == Squeezed(title)
    ensures forall i :: 0 <= i < |Squeezed(title)| ==> IsSlugChar(Squeezed(title)[i])
  {
    var a := Seqs.Filter(LowerCase(title), Allowed);
    var b := CollapseRuns(a, IsSpace);
    var c := CollapseRuns(b, IsDash);
    CollapseRunsFrom(a, IsSpace, Allowed);
    assert forall i :: 0 <= i < |b| ==> IsSlugChar(b[i]);
    CollapseRunsFrom(b, IsDash, IsSlugChar);
    assert forall i :: 0 <= i < |c| ==> IsSlugChar(c[i]);
  }

  /** A text of slug characters without "--" passes the first four stages unchanged. */
  lemma SqueezedFixed(s: string)
    requires forall i :: 0 <= i < |s| ==> IsSlugChar(s[i])
    requires NoDoubleDash(s)
    ensures Squeezed(s) == s
  {
    assert LowerCase(s) == s;
    Seqs.FilterKeepsAll(s, Allowed);
    CollapseRunsNoRun(s, IsSpace);
    CollapseDashesSingle(s);
  }

  /** A slug is its own slug. */
  lemma SlugIdempotent(title: string)
    ensures GenerateSlug(GenerateSlug(title)) == GenerateSlug(title)
  {
    var s := GenerateSlug(title);
    SqueezedFixed(s);
    TrimIsNoOp(s);
  }

  /** A title that starts with whitespace or '-' gives a slug that starts with '-' (trim runs last). */
  lemma SlugKeepsLeadingDash(title: string)
    requires title != [] && (IsSpace(title[0]) || title[0] == '-')
    ensures GenerateSlug(title) != [] && GenerateSlug(title)[0] == '-'
  {
    var a := Seqs.Filter(LowerCase(title), Allowed);
    assert a[0] == title[0];
    CollapseRunsFirst(a, IsSpace);
    var b := CollapseRuns(a, IsSpace);
    CollapseRunsFirst(b, IsDash);
    TrimIsNoOp(title);
  }

  /** A title that ends with whitespace or '-' gives a slug that ends with '-'. */
  lemma SlugKeepsTrailingDash(title: string)
    requires title != [] && (IsSpace(title[|title| - 1]) || title[|title| - 1] == '-')
    ensures GenerateSlug(title) != [] && GenerateSlug(title)[|GenerateSlug(title)| - 1] == '-'
  {
    var l := LowerCase(title);
    assert l[|l| - 1] == title[|title| - 1];
    Seqs.FilterKeepsLast(l, Allowed);
    var a := Seqs.Filter(l, Allowed);
    assert a[|a| - 1] == title[|title| - 1];
    var b := CollapseRuns(a, IsSpace);
    if IsSpace(a[|a| - 1]) {
      CollapseRunsLast(a, IsSpace);
    } else {
      CollapseRunsEndsWith(a, IsSpace);
    }
    assert b != [] && b[|b| - 1] == '-';
    CollapseRunsLast(b, IsDash);
    TrimIsNoOp(title);
  }

  /** A last character outside the class survives collapsing as the last character. */
  lemma {:induction false} CollapseRunsEndsWith(s: string, p: char -> bool)
    requires s != [] && !p(s[|s| - 1])
    ensures CollapseRuns(s, p) != [] && CollapseRuns(s, p)[|CollapseRuns(s, p)| - 1] == s[|s| - 1]
    decreases |s|
  {
    if p(s[0]) {
      var t := DropWhile(s[1..], p);
      assert t != [] && t[|t| - 1] == s[|s| - 1];
      CollapseRunsEndsWith(t, p);
    } else if |s| > 1 {
      CollapseRunsEndsWith(s[1..], p);
    }
  }

  // ---------------------------------------------------------------------------
  // Titles made of words and gaps

  /** A word of a slug: a non-empty run of letters and digits. */
  predicate IsWord(w: string) {
    w != [] && forall i :: 0 <= i < |w| ==> IsWordChar(w[i])
  }

  predicate IsGapChar(c: char) { IsSpace(c) || c == '-' }

  /** What separates words in a title: a non-empty run of whitespace and '-'. */
  predicate IsGap(g: string) {
    g != [] && forall i :: 0 <= i < |g| ==> IsGapChar(g[i])
  }

  /** The text `w0 + g0 + w1 + ... + g(n-1) + wn`. */
  function Spaced(ws: seq<string>, gs: seq<string>): string
    requires |ws| == |gs| + 1
    decreases |gs|
  {
    if gs == [] then ws[0] else ws[0] + gs[0] + Spaced(ws[1..], gs[1..])
  }

  /** Every character of `Spaced(ws, gs)` comes from a word or a gap. */
  lemma {:induction false} SpacedChars(ws: seq<string>, gs: seq<string>, q: char -> bool)
    requires |ws| == |gs| + 1
    requires forall i, j :: 0 <= i < |ws| && 0 <= j < |ws[i]| ==> q(ws[i][j])
    requires forall i, j :: 0 <= i < |gs| && 0 <= j < |gs[i]| ==> q(gs[i][j])
    ensures forall k :: 0 <= k < |Spaced(ws, gs)| ==> q(Spaced(ws, gs)[k])
    decreases |gs|
  {
    if gs != [] {
      assert forall i :: 0 <= i < |ws[1..]| ==> ws[1..][i] == ws[i + 1];
      assert forall i :: 0 <= i < |gs[1..]| ==> gs[1..][i] == gs[i + 1];
      SpacedChars(ws[1..], gs[1..], q);
      var rest := Spaced(ws[1..], gs[1..]);
      forall k | 0 <= k < |ws[0] + gs[0] + rest| ensures q((ws[0] + gs[0] + rest)[k]) {
        if k < |ws[0]| {
          assert (ws[0] + gs[0] + rest)[k] == ws[0][k];
        } else if k < |ws[0]| + |gs[0]| {
          assert (ws[0] + gs[0] + rest)[k] == gs[0][k - |ws[0]|];
        } else {
          assert (ws[0] + gs[0] + rest)[k] == rest[k - |ws[0]| - |gs[0]|];
        }
      }
    }
  }

  /** Collapsing runs of a class that no word touches collapses each gap on its own. */
  lemma {:induction false} SpacedCollapse(ws: seq<string>, gs: seq<string>, gs': seq<string>, p: char -> bool)
    requires |ws| == |gs| + 1 && |gs'| == |gs|
    requires forall i :: 0 <= i < |ws| ==> ws[i] != []
    requires forall i, j :: 0 <= i < |ws| && 0 <= j < |ws[i]| ==> !p(ws[i][j])
    requires forall i :: 0 <= i < |gs| ==> gs'[i] == CollapseRuns(gs[i], p)
    ensures CollapseRuns(Spaced(ws, gs), p) == Spaced(ws, gs')
    decreases |gs|
  {
    var w := ws[0];
    CollapseRunsNoRun(w, p);
    if gs != [] {
      assert forall i :: 0 <= i < |ws[1..]| ==> ws[1..][i] == ws[i + 1];
      assert forall i :: 0 <= i < |gs[1..]| ==> gs[1..][i] == gs[i + 1];
      SpacedCollapse(ws[1..], gs[1..], gs'[1..], p);
      var rest := Spaced(ws[1..], gs[1..]);
      assert rest != [] && rest[0] == ws[1][0];
      assert w + gs[0] + rest == w + (gs[0] + rest);
      CollapseRunsAppend(w, gs[0] + rest, p);
      CollapseRunsAppend(gs[0], rest, p);
    }
  }

  /** A gap collapses, at the whitespace stage, to a non-empty run of '-'. */
  lemma GapToDashes(g: string)
    requires IsGap(g)
    ensures CollapseRuns(g, IsSpace) != []
    ensures forall i :: 0 <= i < |CollapseRuns(g, IsSpace)| ==> IsDash(CollapseRuns(g, IsSpace)[i])
  {
    CollapseRunsFirst(g, IsSpace);
    CollapseRunsFrom(g, IsSpace, IsGapChar);
  }

  /**
   * Words of letters and digits separated by runs of whitespace and '-'
   * give the words joined by single dashes: `"hello world"` becomes
   * `"hello-world"`.
   */
  lemma SlugOfWords(ws: seq<string>, gs: seq<string>)
    requires |ws| == |gs| + 1
    requires forall i :: 0 <= i < |ws| ==> IsWord(ws[i])
    requires forall i :: 0 <= i < |gs| ==> IsGap(gs[i])
    ensures GenerateSlug(Spaced(ws, gs)) == Spaced(ws, seq(|gs|, _ => "-"))
  {
    var title := Spaced(ws, gs);
    SpacedChars(ws, gs, (c: char) => Allowed(c) && !IsUpperLetter(c));
    assert LowerCase(title) == title;
    Seqs.FilterKeepsAll(title, Allowed);
    var dashes := seq(|gs|, i requires 0 <= i < |gs| => CollapseRuns(gs[i], IsSpace));
    SpacedCollapse(ws, gs, dashes, IsSpace);
    forall i | 0 <= i < |gs| ensures CollapseRuns(dashes[i], IsDash) == "-" {
      GapToDashes(gs[i]);
      CollapseRunsOfRun(dashes[i], IsDash);
    }
    assert forall i :: 0 <= i < |ws| ==> ws[i] != [];
    SpacedCollapse(ws, dashes, seq(|gs|, _ => "-"), IsDash);
    TrimIsNoOp(title);
  }
}
