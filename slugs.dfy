/**
  `slugify` of extract-pricing-data.js: lower-case, canonical decomposition,
  deletion of combining marks U+0300..U+036F, every run of characters outside
  [a-z0-9] replaced by one hyphen, and hyphens trimmed from both ends.
 */
module Slugs {

  // ----- The Unicode steps, for the Latin letters of U+0000..U+017F -----

  /** The upper-case letters of Latin Extended-A whose lower-case form is the
      next code point. */
  predicate IsLatinExtendedAUpper(c: char) {
    var x := c as int;
    (0x100 <= x <= 0x137 && x % 2 == 0 && x != 0x130)
    || (0x139 <= x <= 0x148 && x % 2 == 1)
    || (0x14A <= x <= 0x177 && x % 2 == 0)
    || (0x179 <= x <= 0x17E && x % 2 == 1)
  }

  /** `toLowerCase` of one character. Exact for U+0000..U+017F (U+0130 becomes
      "i" followed by a combining dot above); every other character is kept. */
  function LowerChar(c: char): string {
    if 'A' <= c <= 'Z' || ('\U{C0}' <= c <= '\U{DE}' && c != '\U{D7}') then [(c as int + 32) as char]
    else if c == '\U{130}' then ['i', '\U{307}']
    else if c == '\U{178}' then ['\U{FF}']
    else if IsLatinExtendedAUpper(c) then [(c as int + 1) as char]
    else [c]
  }

  function LowerCase(s: string): string {
    if s == [] then [] else LowerChar(s[0]) + LowerCase(s[1..])
  }

  /** A character as canonical decomposition sees it: kept as it is, or a
      base letter followed by one combining mark. */
  datatype Letter = Plain | Accented(base: char, mark: char)

  /** The decompositions of the lower-case letters of U+0000..U+017F: each is
      an ASCII letter followed by a combining mark. */
  function Accent(c: char): (r: Letter)
    ensures r.Accented? ==> 'a' <= r.base <= 'z' && IsMark(r.mark)
    ensures r.Accented? ==> '\U{E0}' <= c <= '\U{17E}' && !IsLatinExtendedAUpper(c) && c != '\U{130}' && c != '\U{178}'
  {
    match c
    case '\U{E0}' => Accented('a', '\U{300}')  // à
    case '\U{E1}' => Accented('a', '\U{301}')  // á
    case '\U{E2}' => Accented('a', '\U{302}')  // â
    case '\U{E3}' => Accented('a', '\U{303}')  // ã
    case '\U{E4}' => Accented('a', '\U{308}')  // ä
    case '\U{E5}' => Accented('a', '\U{30A}')  // å
    case '\U{E7}' => Accented('c', '\U{327}')  // ç
    case '\U{E8}' => Accented('e', '\U{300}')  // è
    case '\U{E9}' => Accented('e', '\U{301}')  // é
    case '\U{EA}' => Accented('e', '\U{302}')  // ê
    case '\U{EB}' => Accented('e', '\U{308}')  // ë
    case '\U{EC}' => Accented('i', '\U{300}')  // ì
    case '\U{ED}' => Accented('i', '\U{301}')  // í
    case '\U{EE}' => Accented('i', '\U{302}')  // î
    case '\U{EF}' => Accented('i', '\U{308}')  // ï
    case '\U{F1}' => Accented('n', '\U{303}')  // ñ
    case '\U{F2}' => Accented('o', '\U{300}')  // ò
    case '\U{F3}' => Accented('o', '\U{301}')  // ó
    case '\U{F4}' => Accented('o', '\U{302}')  // ô
    case '\U{F5}' => Accented('o', '\U{303}')  // õ
    case '\U{F6}' => Accented('o', '\U{308}')  // ö
    case '\U{F9}' => Accented('u', '\U{300}')  // ù
    case '\U{FA}' => Accented('u', '\U{301}')  // ú
    case '\U{FB}' => Accented('u', '\U{302}')  // û
    case '\U{FC}' => Accented('u', '\U{308}')  // ü
    case '\U{FD}' => Accented('y', '\U{301}')  // ý
    case '\U{FF}' => Accented('y', '\U{308}')  // ÿ
    case '\U{101}' => Accented('a', '\U{304}')  // ā
    case '\U{103}' => Accented('a', '\U{306}')  // ă
    case '\U{105}' => Accented('a', '\U{328}')  // ą
    case '\U{107}' => Accented('c', '\U{301}')  // ć
    case '\U{109}' => Accented('c', '\U{302}')  // ĉ
    case '\U{10B}' => Accented('c', '\U{307}')  // ċ
    case '\U{10D}' => Accented('c', '\U{30C}')  // č
    case '\U{10F}' => Accented('d', '\U{30C}')  // ď
    case '\U{113}' => Accented('e', '\U{304}')  // ē
    case '\U{115}' => Accented('e', '\U{306}')  // ĕ
    case '\U{117}' => Accented('e', '\U{307}')  // ė
    case '\U{119}' => Accented('e', '\U{328}')  // ę
    case '\U{11B}' => Accented('e', '\U{30C}')  // ě
    case '\U{11D}' => Accented('g', '\U{302}')  // ĝ
    case '\U{11F}' => Accented('g', '\U{306}')  // ğ
    case '\U{121}' => Accented('g', '\U{307}')  // ġ
    case '\U{123}' => Accented('g', '\U{327}')  // ģ
    case '\U{125}' => Accented('h', '\U{302}')  // ĥ
    case '\U{129}' => Accented('i', '\U{303}')  // ĩ
    case '\U{12B}' => Accented('i', '\U{304}')  // ī
    case '\U{12D}' => Accented('i', '\U{306}')  // ĭ
    case '\U{12F}' => Accented('i', '\U{328}')  // į
    case '\U{135}' => Accented('j', '\U{302}')  // ĵ
    case '\U{137}' => Accented('k', '\U{327}')  // ķ
    case '\U{13A}' => Accented('l', '\U{301}')  // ĺ
    case '\U{13C}' => Accented('l', '\U{327}')  // ļ
    case '\U{13E}' => Accented('l', '\U{30C}')  // ľ
    case '\U{144}' => Accented('n', '\U{301}')  // ń
    case '\U{146}' => Accented('n', '\U{327}')  // ņ
    case '\U{148}' => Accented('n', '\U{30C}')  // ň
    case '\U{14D}' => Accented('o', '\U{304}')  // ō
    case '\U{14F}' => Accented('o', '\U{306}')  // ŏ
    case '\U{151}' => Accented('o', '\U{30B}')  // ő
    case '\U{155}' => Accented('r', '\U{301}')  // ŕ
    case '\U{157}' => Accented('r', '\U{327}')  // ŗ
    case '\U{159}' => Accented('r', '\U{30C}')  // ř
    case '\U{15B}' => Accented('s', '\U{301}')  // ś
    case '\U{15D}' => Accented('s', '\U{302}')  // ŝ
    case '\U{15F}' => Accented('s', '\U{327}')  // ş
    case '\U{161}' => Accented('s', '\U{30C}')  // š
    case '\U{163}' => Accented('t', '\U{327}')  // ţ
    case '\U{165}' => Accented('t', '\U{30C}')  // ť
    case '\U{169}' => Accented('u', '\U{303}')  // ũ
    case '\U{16B}' => Accented('u', '\U{304}')  // ū
    case '\U{16D}' => Accented('u', '\U{306}')  // ŭ
    case '\U{16F}' => Accented('u', '\U{30A}')  // ů
    case '\U{171}' => Accented('u', '\U{30B}')  // ű
    case '\U{173}' => Accented('u', '\U{328}')  // ų
    case '\U{175}' => Accented('w', '\U{302}')  // ŵ
    case '\U{177}' => Accented('y', '\U{302}')  // ŷ
    case '\U{17A}' => Accented('z', '\U{301}')  // ź
    case '\U{17C}' => Accented('z', '\U{307}')  // ż
    case '\U{17E}' => Accented('z', '\U{30C}')  // ž
    case _ => Plain
  }

  /** The canonical decomposition of one lower-case letter: exact for
      U+0000..U+017F; every other character is kept. */
  function Decompose(c: char): (r: string)
    ensures r == [c] || (|r| == 2 && 'a' <= r[0] <= 'z' && IsMark(r[1]))
  {
    match Accent(c)
    case Plain => [c]
    case Accented(base, mark) => [base, mark]
  }

  /** `normalize("NFD")` (canonical reordering of marks is not modelled: all
      marks the table produces are deleted next). */
  function Nfd(s: string): string {
    if s == [] then [] else Decompose(s[0]) + Nfd(s[1..])
  }

  /** A combining diacritical mark, U+0300..U+036F. */
  predicate IsMark(c: char) {
    '\U{300}' <= c <= '\U{36F}'
  }

  /** `.replace(/[\u0300-\u036f]/g, "")` */
  function StripMarks(s: string): string {
    if s == [] then [] else (if IsMark(s[0]) then [] else [s[0]]) + StripMarks(s[1..])
  }

  /** The name after the three Unicode steps. */
  function Folded(name: string): string {
    StripMarks(Nfd(LowerCase(name)))
  }

  // ----- Hyphenation -----

  /** The characters a slug keeps: [a-z0-9]. */
  predicate IsAlnum(c: char) {
    'a' <= c <= 'z' || '0' <= c <= '9'
  }

  /** Only letters, digits and hyphens. */
  predicate InSlugAlphabet(s: string) {
    forall j :: 0 <= j < |s| ==> IsAlnum(s[j]) || s[j] == '-'
  }

  /** No two hyphens in a row. */
  predicate NoDoubleHyphen(s: string) {
    forall j :: 0 <= j < |s| - 1 ==> !(s[j] == '-' && s[j + 1] == '-')
  }

  /** What a slug is made of: letters, digits and single hyphens, with no
      hyphen at either end. */
  predicate IsSlug(s: string) {
    && InSlugAlphabet(s)
    && NoDoubleHyphen(s)
    && (s == [] || (s[0] != '-' && s[|s| - 1] != '-'))
  }

  /** Where a run of characters outside [a-z0-9] starting at `from` ends. */
  function SeparatorsFrom(s: string, from: nat): (n: nat)
    requires from <= |s|
    ensures from <= n <= |s|
    ensures forall j :: from <= j < n ==> !IsAlnum(s[j])
    ensures n == |s| || IsAlnum(s[n])
    decreases |s| - from
  {
    if from < |s| && !IsAlnum(s[from]) then SeparatorsFrom(s, from + 1) else from
  }

  /** The replacement of `.replace(/[^a-z0-9]+/g, "-")` applied to s[from..]. */
  function CollapseFrom(s: string, from: nat): (r: string)
    requires from <= |s|
    ensures InSlugAlphabet(r) && NoDoubleHyphen(r)
    ensures r == [] <==> from == |s|
    ensures r != [] ==> (r[0] == '-' <==> !IsAlnum(s[from]))
    decreases |s| - from
  {
    if from == |s| then []
    else if IsAlnum(s[from]) then [s[from]] + CollapseFrom(s, from + 1)
    else "-" + CollapseFrom(s, SeparatorsFrom(s, from + 1))
  }

  /** `.replace(/[^a-z0-9]+/g, "-")`: every maximal run of characters outside
      [a-z0-9] becomes one hyphen. */
  function CollapseSeparators(s: string): (r: string)
    ensures InSlugAlphabet(r) && NoDoubleHyphen(r)
  {
    CollapseFrom(s, 0)
  }

  /** Where a run of hyphens starting at `from` ends. */
  function HyphensFrom(s: string, from: nat): (n: nat)
    requires from <= |s|
    ensures from <= n <= |s|
    ensures forall j :: from <= j < n ==> s[j] == '-'
    ensures n == |s| || s[n] != '-'
    decreases |s| - from
  {
    if from < |s| && s[from] == '-' then HyphensFrom(s, from + 1) else from
  }

  /** Where a run of hyphens that ends at `end` begins, scanning back no
      further than `from`. */
  function HyphensBack(s: string, from: nat, end: nat): (r: nat)
    requires from <= end <= |s|
    ensures from <= r <= end
    ensures forall j :: r <= j < end ==> s[j] == '-'
    ensures r == from || s[r - 1] != '-'
    decreases end
  {
    if from < end && s[end - 1] == '-' then HyphensBack(s, from, end - 1) else end
  }

  /** `.replace(/^-+|-+$/g, "")`: the text without its leading and trailing
      hyphens. */
  function TrimHyphens(s: string): (r: string)
    ensures r == [] || (r[0] != '-' && r[|r| - 1] != '-')
    ensures exists a, b :: 0 <= a <= b <= |s| && r == s[a..b]
                           && (forall j :: 0 <= j < a ==> s[j] == '-')
                           && (forall j :: b <= j < |s| ==> s[j] == '-')
    ensures InSlugAlphabet(s) ==> InSlugAlphabet(r)
    ensures NoDoubleHyphen(s) ==> NoDoubleHyphen(r)
  {
    var a := HyphensFrom(s, 0);
    var b := HyphensBack(s, a, |s|);
    assert forall j :: 0 <= j < a ==> s[j] == '-';
    assert forall j :: 0 <= j < b - a ==> s[a..b][j] == s[a + j];
    s[a..b]
  }

  /** `slugify(name)`: the file-name stem of a facility. */
  function Slugify(name: string): (r: string)
    ensures IsSlug(r)
  {
    TrimHyphens(CollapseSeparators(Folded(name)))
  }

  // ----- Properties -----

  /** The letters and digits of a text, in order. */
  function Alnums(s: string): string {
    if s == [] then [] else (if IsAlnum(s[0]) then [s[0]] else []) + Alnums(s[1..])
  }

  lemma {:induction false} AlnumsOfConcat(a: string, b: string)
    ensures Alnums(a + b) == Alnums(a) + Alnums(b)
  {
    if a == [] {
      assert a + b == b;
    } else {
      var t := a[1..];
      assert (a + b)[0] == a[0] && (a + b)[1..] == t + b;
      AlnumsOfConcat(t, b);
      var h: string := if IsAlnum(a[0]) then [a[0]] else [];
      assert Alnums(a + b) == h + Alnums(t + b);
      assert Alnums(a) == h + Alnums(t);
    }
  }

  /** Separators contribute no letters or digits. */
  lemma {:induction false} AlnumsOfSeparators(s: string, from: nat, n: nat)
    requires from <= n <= |s|
    requires forall j :: from <= j < n ==> !IsAlnum(s[j])
    ensures Alnums(s[from..n]) == []
    decreases n - from
  {
    if from < n {
      assert s[from..n][1..] == s[from + 1..n];
      AlnumsOfSeparators(s, from + 1, n);
    }
  }

  lemma {:induction false} AlnumsOfCollapsed(s: string, from: nat)
    requires from <= |s|
    ensures Alnums(CollapseFrom(s, from)) == Alnums(s[from..])
    decreases |s| - from
  {
    if from < |s| {
      var next := if IsAlnum(s[from]) then from + 1 else SeparatorsFrom(s, from + 1);
      AlnumsOfCollapsed(s, next);
      AlnumsOfConcat([if IsAlnum(s[from]) then s[from] else '-'], CollapseFrom(s, next));
      assert s[from..] == s[from..next] + s[next..];
      AlnumsOfConcat(s[from..next], s[next..]);
      if IsAlnum(s[from]) {
        assert s[from..next] == [s[from]];
      } else {
        AlnumsOfSeparators(s, from, next);
      }
    }
  }

  lemma ThreeParts(s: string, a: nat, b: nat)
    requires a <= b <= |s|
    ensures s == s[0..a] + (s[a..b] + s[b..|s|])
  {
    assert s[a..] == s[a..b] + s[b..|s|];
    assert s == s[0..a] + s[a..];
  }

  /** Only hyphens are cut off: the letters and digits survive. */
  lemma AlnumsOfTrimmed(s: string)
    ensures Alnums(TrimHyphens(s)) == Alnums(s)
  {
    var a := HyphensFrom(s, 0);
    var b := HyphensBack(s, a, |s|);
    assert TrimHyphens(s) == s[a..b];
    assert Alnums(s[0..a]) == [] by { AlnumsOfSeparators(s, 0, a); }
    assert Alnums(s[b..|s|]) == [] by { AlnumsOfSeparators(s, b, |s|); }
    calc {
      Alnums(s);
      { ThreeParts(s, a, b); }
      Alnums(s[0..a] + (s[a..b] + s[b..|s|]));
      { AlnumsOfConcat(s[0..a], s[a..b] + s[b..|s|]); AlnumsOfConcat(s[a..b], s[b..|s|]); }
      Alnums(s[0..a]) + (Alnums(s[a..b]) + Alnums(s[b..|s|]));
      [] + (Alnums(s[a..b]) + []);
      { assert [] + (Alnums(s[a..b]) + []) == Alnums(s[a..b]); }
      Alnums(TrimHyphens(s));
    }
  }

  /** The slug keeps exactly the letters and digits of the folded name, in
      order: only separators are replaced or removed. */
  lemma SlugKeepsLettersAndDigits(name: string)
    ensures Alnums(Slugify(name)) == Alnums(Folded(name))
  {
    var f := Folded(name);
    AlnumsOfCollapsed(f, 0);
    assert f[0..] == f;
    AlnumsOfTrimmed(CollapseSeparators(f));
  }

  /** A character of the slug alphabet is its own lower case and has no
      decomposition. */
  lemma SlugCharIsFolded(c: char)
    requires IsAlnum(c) || c == '-'
    ensures LowerChar(c) == [c] && Decompose(c) == [c] && !IsMark(c)
  {
    assert c < '\U{80}';
  }

  /** Lower-casing, decomposing and deleting marks leave text made of
      [a-z0-9-] as it is. */
  lemma {:induction false} FoldedKeepsSlugAlphabet(t: string)
    requires forall j :: 0 <= j < |t| ==> IsAlnum(t[j]) || t[j] == '-'
    ensures LowerCase(t) == t && Nfd(t) == t && StripMarks(t) == t
  {
    if t != [] {
      SlugCharIsFolded(t[0]);
      FoldedKeepsSlugAlphabet(t[1..]);
      assert t == [t[0]] + t[1..];
    }
  }

  /** On a slug, collapsing separators changes nothing: every hyphen is a
      run of one, followed by a letter or digit. */
  lemma {:induction false} CollapseKeepsSlug(t: string, from: nat)
    requires IsSlug(t) && from <= |t|
    ensures CollapseFrom(t, from) == t[from..]
    decreases |t| - from
  {
    if from < |t| {
      if IsAlnum(t[from]) {
        CollapseKeepsSlug(t, from + 1);
      } else {
        assert from + 1 < |t| && IsAlnum(t[from + 1]);
        assert SeparatorsFrom(t, from + 1) == from + 1;
        CollapseKeepsSlug(t, from + 1);
      }
      assert t[from..] == [t[from]] + t[from + 1..];
    }
  }

  /** A slug has no edge hyphens to trim. */
  lemma TrimKeepsSlug(t: string)
    requires IsSlug(t)
    ensures TrimHyphens(t) == t
  {
    assert HyphensFrom(t, 0) == 0;
    assert HyphensBack(t, 0, |t|) == |t|;
    assert TrimHyphens(t) == t[0..|t|];
  }

  /** A slug is its own slug. */
  lemma SlugIsFixpoint(t: string)
    requires IsSlug(t)
    ensures Slugify(t) == t
  {
    FoldedKeepsSlugAlphabet(t);
    CollapseKeepsSlug(t, 0);
    assert CollapseSeparators(Folded(t)) == t;
    TrimKeepsSlug(t);
  }

  /** Slugifying twice gives the same file name as slugifying once. */
  lemma SlugifyIsIdempotent(name: string)
    ensures Slugify(Slugify(name)) == Slugify(name)
  {
    SlugIsFixpoint(Slugify(name));
  }

  lemma {:induction false} SeparatorsOfSuffix(p: string, q: string, k: nat)
    requires k <= |q|
    ensures SeparatorsFrom(p + q, |p| + k) == |p| + SeparatorsFrom(q, k)
    decreases |q| - k
  {
    if k < |q| {
      assert (p + q)[|p| + k] == q[k];
      if !IsAlnum(q[k]) {
        SeparatorsOfSuffix(p, q, k + 1);
      }
    }
  }

  /** A run of separators that starts inside a text ending with a letter or
      digit also ends inside it. */
  lemma {:induction false} SeparatorsOfPrefix(a: string, y: string, f: nat)
    requires f < |a| && IsAlnum(a[|a| - 1])
    ensures SeparatorsFrom(a + y, f) == SeparatorsFrom(a, f) < |a|
    decreases |a| - f
  {
    assert (a + y)[f] == a[f];
    if !IsAlnum(a[f]) {
      SeparatorsOfPrefix(a, y, f + 1);
    }
  }

  /** Collapsing works on what follows `from` alone: the text before it
      plays no part. */
  lemma {:induction false} CollapseOfSuffix(p: string, q: string, k: nat)
    requires k <= |q|
    ensures CollapseFrom(p + q, |p| + k) == CollapseFrom(q, k)
    decreases |q| - k
  {
    var s := p + q;
    if k < |q| {
      assert s[|p| + k] == q[k];
      if IsAlnum(q[k]) {
        calc {
          CollapseFrom(s, |p| + k);
          [q[k]] + CollapseFrom(s, |p| + (k + 1));
          { CollapseOfSuffix(p, q, k + 1); }
          [q[k]] + CollapseFrom(q, k + 1);
        }
      } else {
        var n := SeparatorsFrom(q, k + 1);
        calc {
          CollapseFrom(s, |p| + k);
          { SeparatorsOfSuffix(p, q, k + 1); }
          "-" + CollapseFrom(s, |p| + n);
          { CollapseOfSuffix(p, q, n); }
          "-" + CollapseFrom(q, n);
        }
      }
    }
  }

  /** A text that ends with a letter or digit is collapsed on its own: the
      text after it starts a fresh run. */
  lemma {:induction false} CollapseOfPrefix(a: string, y: string, from: nat)
    requires from <= |a|
    requires a == [] || IsAlnum(a[|a| - 1])
    ensures CollapseFrom(a + y, from) == CollapseFrom(a, from) + CollapseFrom(a + y, |a|)
    decreases |a| - from
  {
    var s := a + y;
    if from == |a| {
      assert CollapseFrom(a, from) + CollapseFrom(s, |a|) == CollapseFrom(s, |a|);
    } else {
      assert s[from] == a[from];
      if IsAlnum(a[from]) {
        CollapseOfPrefix(a, y, from + 1);
        var h := [a[from]];
        assert CollapseFrom(s, from) == h + CollapseFrom(s, from + 1);
        assert CollapseFrom(a, from) == h + CollapseFrom(a, from + 1);
        assert h + (CollapseFrom(a, from + 1) + CollapseFrom(s, |a|))
            == (h + CollapseFrom(a, from + 1)) + CollapseFrom(s, |a|);
      } else {
        var n := SeparatorsFrom(a, from + 1);
        SeparatorsOfPrefix(a, y, from + 1);
        CollapseOfPrefix(a, y, n);
        assert CollapseFrom(s, from) == "-" + CollapseFrom(s, n);
        assert CollapseFrom(a, from) == "-" + CollapseFrom(a, n);
        assert "-" + (CollapseFrom(a, n) + CollapseFrom(s, |a|))
            == ("-" + CollapseFrom(a, n)) + CollapseFrom(s, |a|);
      }
    }
  }

  /** A leading run of separators, up to the first letter or digit,
      becomes one hyphen. */
  lemma LeadingSeparators(x: string, b: string)
    requires x != [] && forall i :: 0 <= i < |x| ==> !IsAlnum(x[i])
    requires b == [] || IsAlnum(b[0])
    ensures CollapseFrom(x + b, 0) == "-" + CollapseFrom(x + b, |x|)
  {
    var s := x + b;
    assert !IsAlnum(s[0]) by { assert s[0] == x[0]; }
    var n := SeparatorsFrom(s, 1);
    assert n == |x| by {
      assert forall i :: 0 <= i < |x| ==> s[i] == x[i];
      assert |x| < |s| ==> s[|x|] == b[0];
    }
  }

  /** A run of separators between two letters or digits becomes exactly one
      hyphen, and the text on either side is collapsed on its own: "dom" +
      " " + "maribor" collapses to "dom-maribor". */
  lemma SeparatorRunIsOneHyphen(a: string, x: string, b: string)
    requires a == [] || IsAlnum(a[|a| - 1])
    requires x != [] && forall i :: 0 <= i < |x| ==> !IsAlnum(x[i])
    requires b == [] || IsAlnum(b[0])
    ensures CollapseSeparators(a + x + b) == CollapseSeparators(a) + "-" + CollapseSeparators(b)
  {
    calc {
      CollapseSeparators(a + x + b);
      { assert a + x + b == a + (x + b); }
      CollapseFrom(a + (x + b), 0);
      { CollapseOfPrefix(a, x + b, 0); }
      CollapseFrom(a, 0) + CollapseFrom(a + (x + b), |a| + 0);
      { CollapseOfSuffix(a, x + b, 0); }
      CollapseFrom(a, 0) + CollapseFrom(x + b, 0);
      { LeadingSeparators(x, b); }
      CollapseFrom(a, 0) + ("-" + CollapseFrom(x + b, |x| + 0));
      { CollapseOfSuffix(x, b, 0); }
      CollapseFrom(a, 0) + ("-" + CollapseFrom(b, 0));
      CollapseSeparators(a) + "-" + CollapseSeparators(b);
    }
  }

  lemma {:induction false} LowerCaseOfConcat(a: string, b: string)
    ensures LowerCase(a + b) == LowerCase(a) + LowerCase(b)
  {
    if a == [] {
      assert a + b == b;
    } else {
      assert (a + b)[0] == a[0] && (a + b)[1..] == a[1..] + b;
      LowerCaseOfConcat(a[1..], b);
    }
  }

  lemma {:induction false} NfdOfConcat(a: string, b: string)
    ensures Nfd(a + b) == Nfd(a) + Nfd(b)
  {
    if a == [] {
      assert a + b == b;
    } else {
      assert (a + b)[0] == a[0] && (a + b)[1..] == a[1..] + b;
      NfdOfConcat(a[1..], b);
    }
  }

  lemma {:induction false} StripMarksOfConcat(a: string, b: string)
    ensures StripMarks(a + b) == StripMarks(a) + StripMarks(b)
  {
    if a == [] {
      assert a + b == b;
    } else {
      var t := a[1..];
      assert (a + b)[0] == a[0] && (a + b)[1..] == t + b;
      StripMarksOfConcat(t, b);
      var h: string := if IsMark(a[0]) then [] else [a[0]];
      assert StripMarks(a + b) == h + StripMarks(t + b);
      assert StripMarks(a) == h + StripMarks(t);
    }
  }

  /** A combining mark is its own lower case and decomposition. */
  lemma MarkIsFolded(m: char)
    requires IsMark(m)
    ensures LowerChar(m) == [m] && Decompose(m) == [m]
  {
    assert '\U{2FF}' < m < '\U{370}';
  }

  /** Folding works character by character. */
  lemma FoldedOfConcat(a: string, b: string)
    ensures Folded(a + b) == Folded(a) + Folded(b)
  {
    LowerCaseOfConcat(a, b);
    NfdOfConcat(LowerCase(a), LowerCase(b));
    StripMarksOfConcat(Nfd(LowerCase(a)), Nfd(LowerCase(b)));
  }

  /** Folding a character on its own. */
  lemma FoldedOfChar(c: char)
    ensures Folded([c]) == StripMarks(Nfd(LowerChar(c)))
  {
    assert [c][1..] == [];
    assert LowerCase([c]) == LowerChar(c) + [];
    assert LowerChar(c) + [] == LowerChar(c);
  }

  /** A combining mark on its own folds to nothing. */
  lemma MarkFoldsToNothing(m: char)
    requires IsMark(m)
    ensures Folded([m]) == []
  {
    MarkIsFolded(m);
    FoldedOfChar(m);
    assert [m][1..] == [];
    assert Nfd([m]) == [m] + [];
    assert StripMarks([m]) == [] + [];
  }

  /** A combining mark anywhere in a name does not change its slug: "c" plus
      U+030C gives the same file name as "c". */
  lemma MarksAreDeleted(a: string, m: char, b: string)
    requires IsMark(m)
    ensures Slugify(a + [m] + b) == Slugify(a + b)
  {
    FoldedDropsMark(a, m, b);
  }

  lemma FoldedDropsMark(a: string, m: char, b: string)
    requires IsMark(m)
    ensures Folded(a + [m] + b) == Folded(a + b)
  {
    FoldedOfTriple(a, m, b);
    MarkFoldsToNothing(m);
    FoldedOfConcat(a, b);
  }

  lemma FoldedOfTriple(a: string, c: char, b: string)
    ensures Folded(a + [c] + b) == Folded(a) + Folded([c]) + Folded(b)
  {
    FoldedOfConcat(a + [c], b);
    FoldedOfConcat(a, [c]);
  }

  /** A letter with a diacritic folds to its base letter: "\U{161}" (s with
      caron) in a name contributes "s" to the slug, as "s" itself does. */
  lemma AccentedLetterFoldsToBase(a: string, c: char, b: string)
    requires Decompose(c) != [c]
    ensures Folded(a + [c] + b) == Folded(a) + [Decompose(c)[0]] + Folded(b)
    ensures 'a' <= Decompose(c)[0] <= 'z'
  {
    var d := Decompose(c);
    assert Folded([c]) == [d[0]] by {
      assert LowerChar(c) == [c] by {
        assert '\U{E0}' <= c <= '\U{17E}' && !('\U{C0}' <= c <= '\U{DE}');
      }
      FoldedOfChar(c);
      assert Nfd([c]) == d + [] by { assert [c][1..] == []; }
      assert StripMarks(d) == [d[0]] by {
        assert d[1..][1..] == [];
        assert StripMarks(d[1..]) == [];
      }
    }
    FoldedOfTriple(a, c, b);
  }

  /** An ASCII capital folds to its lower case; lower-case letters, digits
      and spaces fold to themselves. */
  lemma AsciiCharFolds(c: char, d: char)
    requires (c == d && (IsAlnum(d) || d == ' ')) || ('A' <= c <= 'Z' && d as int == c as int + 32)
    ensures Folded([c]) == [d]
  {
    FoldedOfChar(c);
    assert LowerChar(c) == [d];
    assert Decompose(d) == [d] by { assert d < '\U{80}'; }
    assert Nfd([d]) == [d] + [] by { assert [d][1..] == []; }
    assert StripMarks([d]) == [d] + [] by { assert [d][1..] == []; }
  }

  /** A capitalised word folds to the word in lower case: "Dom" folds to
      "dom". */
  lemma CapitalisedWordFolds(c: char, rest: string)
    requires 'A' <= c <= 'Z'
    requires forall i :: 0 <= i < |rest| ==> IsAlnum(rest[i])
    ensures Folded([c] + rest) == [(c as int + 32) as char] + rest
  {
    FoldedOfConcat([c], rest);
    AsciiCharFolds(c, (c as int + 32) as char);
    FoldedKeepsSlugAlphabet(rest);
  }

  /** A run of letters and digits is kept as it is. */
  lemma WordCollapses(w: string)
    requires forall i :: 0 <= i < |w| ==> IsAlnum(w[i])
    ensures CollapseSeparators(w) == w
  {
    CollapseKeepsSlug(w, 0);
    assert w[0..] == w;
  }

  /** A non-empty run of letters and digits. */
  predicate IsWord(s: string) {
    s != [] && forall i :: 0 <= i < |s| ==> IsAlnum(s[i])
  }

  /** A word, a hyphen and a slug make a slug. */
  lemma HyphenJoinIsSlug(a: string, b: string)
    requires IsWord(a) && IsSlug(b) && b != []
    ensures IsSlug(a + "-" + b)
  {
    var s := a + "-" + b;
    assert forall j :: 0 <= j < |a| ==> s[j] == a[j];
    assert s[|a|] == '-';
    assert forall j :: |a| < j < |s| ==> s[j] == b[j - |a| - 1];
  }

  /** Three words joined by hyphens make a slug. */
  lemma HyphenatedWordsAreSlug(a: string, b: string, c: string)
    requires IsWord(a) && IsWord(b) && IsWord(c)
    ensures IsSlug(a + "-" + b + "-" + c)
  {
    HyphenJoinIsSlug(b, c);
    HyphenJoinIsSlug(a, b + "-" + c);
    assert a + "-" + (b + "-" + c) == a + "-" + b + "-" + c;
  }

  /** Three words folded from `u`, `v` and `w`, separated by single spaces,
      fold to the three words with the spaces kept. */
  lemma FoldedOfSpacedWords(u: string, v: string, w: string, a: string, b: string, c: string)
    requires Folded(u) == a && Folded(v) == b && Folded(w) == c
    ensures Folded(u + " " + v + " " + w) == a + " " + b + " " + c
  {
    AsciiCharFolds(' ', ' ');
    FoldedOfConcat(u + " " + v + " ", w);
    FoldedOfConcat(u + " " + v, " ");
    FoldedOfConcat(u + " ", v);
    FoldedOfConcat(u, " ");
  }

  /** Single spaces between three words become single hyphens. */
  lemma CollapseOfSpacedWords(a: string, b: string, c: string)
    requires IsWord(a) && IsWord(b) && IsWord(c)
    ensures CollapseSeparators(a + " " + b + " " + c) == a + "-" + b + "-" + c
  {
    WordCollapses(a);
    WordCollapses(b);
    WordCollapses(c);
    calc {
      CollapseSeparators(a + " " + b + " " + c);
      { assert a + " " + b + " " + c == a + " " + (b + " " + c); }
      CollapseSeparators(a + " " + (b + " " + c));
      { SeparatorRunIsOneHyphen(a, " ", b + " " + c); }
      CollapseSeparators(a) + "-" + CollapseSeparators(b + " " + c);
      { SeparatorRunIsOneHyphen(b, " ", c); }
      a + "-" + (b + "-" + c);
      a + "-" + b + "-" + c;
    }
  }

  /** A name of three words separated by single spaces, each folding to
      letters and digits, is saved under the folded words joined by
      hyphens. */
  lemma SlugOfSpacedWords(u: string, v: string, w: string, a: string, b: string, c: string)
    requires Folded(u) == a && Folded(v) == b && Folded(w) == c
    requires IsWord(a) && IsWord(b) && IsWord(c)
    ensures Slugify(u + " " + v + " " + w) == a + "-" + b + "-" + c
  {
    calc {
      Slugify(u + " " + v + " " + w);
      TrimHyphens(CollapseSeparators(Folded(u + " " + v + " " + w)));
      { FoldedOfSpacedWords(u, v, w, a, b, c); }
      TrimHyphens(CollapseSeparators(a + " " + b + " " + c));
      { CollapseOfSpacedWords(a, b, c); }
      TrimHyphens(a + "-" + b + "-" + c);
      { HyphenatedWordsAreSlug(a, b, c); TrimKeepsSlug(a + "-" + b + "-" + c); }
      a + "-" + b + "-" + c;
    }
  }
}
