/**
 src/app/helpers/functions.ts, convertToSlug: a chain of replacements. Lower-casing and NFD normalisation together are a
 parameter `fold`; the replacements themselves are spelled out for all characters.
 */
module Slugs {

  predicate IsAscii(s: string) {
    forall i :: 0 <= i < |s| ==> s[i] < 128 as char
  }

  /** The codes of the class \\s: white space and line terminators. Trimming and number parsing skip the same ones. */
  predicate IsSpaceCode(c: nat) {
    || c == 0x20 || 0x09 <= c <= 0x0d || c == 0xa0 || c == 0x1680 || 0x2000 <= c <= 0x200a
    || c == 0x2028 || c == 0x2029 || c == 0x202f || c == 0x205f || c == 0x3000 || c == 0xfeff
  }

  predicate IsSpace(c: char) {
    IsSpaceCode(c as nat)
  }

  /** The class \\w. */
  predicate IsWord(c: char) {
    'a' <= c <= 'z' || 'A' <= c <= 'Z' || '0' <= c <= '9' || c == '_'
  }

  // ----- the replacements -----

  function LowerChar(c: char): char {
    if 'A' <= c <= 'Z' then c - 'A' + 'a' else c
  }

  function ToLower(s: string): (r: string)
    ensures |r| == |s| && forall i :: 0 <= i < |s| ==> r[i] == LowerChar(s[i])
  {
    seq(|s|, i requires 0 <= i < |s| => LowerChar(s[i]))
  }

  function TrimStart(s: string): string {
    if s != "" && IsSpace(s[0]) then TrimStart(s[1..]) else s
  }

  function TrimEnd(s: string): string {
    if s != "" && IsSpace(s[|s| - 1]) then TrimEnd(s[..|s| - 1]) else s
  }

  function EndsIn(s: string, p: char -> bool): bool {
    s != "" && p(s[|s| - 1])
  }

  /** Every maximal run of spaces becomes one hyphen. */
  function SpacesToHyphens(s: string): string {
    if s == "" then ""
    else
      var front, c := s[..|s| - 1], s[|s| - 1];
      if !IsSpace(c) then SpacesToHyphens(front) + [c]
      else if EndsIn(front, IsSpace) then SpacesToHyphens(front)
      else SpacesToHyphens(front) + "-"
  }

  predicate IsHyphen(c: char) {
    c == '-'
  }

  /** Keeps the characters that satisfy `p`. */
  function Keep(s: string, p: char -> bool): string {
    if s == "" then ""
    else Keep(s[..|s| - 1], p) + (if p(s[|s| - 1]) then [s[|s| - 1]] else "")
  }

  predicate IsWordOrHyphen(c: char) {
    IsWord(c) || IsHyphen(c)
  }

  /** Every run of two or more hyphens becomes one. */
  function CollapseHyphens(s: string): string {
    if s == "" then ""
    else
      var front, c := s[..|s| - 1], s[|s| - 1];
      if IsHyphen(c) && EndsIn(front, IsHyphen) then CollapseHyphens(front) else CollapseHyphens(front) + [c]
  }

  type Fold = string -> string

  predicate IsLower(s: string) {
    forall i :: 0 <= i < |s| ==> !('A' <= s[i] <= 'Z')
  }

  /**
   What is used of toLowerCase and normalize('NFD'), one after the other: no capital letter of the ASCII range is left,
   and ASCII text is only lower-cased.
   */
  ghost predicate Folds(fold: Fold) {
    && (forall s :: IsLower(fold(s)))
    && (forall s :: IsAscii(s) ==> fold(s) == ToLower(s))
  }

  /** Lower-casing alone is such a folding. */
  lemma LowerCasingFolds()
    ensures Folds(ToLower)
  {
  }

  /** Everything after the folding. */
  function SlugOfFolded(s: string): string {
    CollapseHyphens(Keep(SpacesToHyphens(TrimEnd(TrimStart(s))), IsWordOrHyphen))
  }

  function Slug(fold: Fold, text: string): string {
    SlugOfFolded(fold(text))
  }

  // ----- the chain of replacements is one left-to-right pass -----

  /** One character appended to a slug under construction. */
  function Append(slug: string, c: char): string {
    if IsWord(c) then slug + [c]
    else if (IsSpace(c) || IsHyphen(c)) && !EndsIn(slug, IsHyphen) then slug + "-"
    else slug
  }

  function OnePass(s: string): string {
    if s == "" then "" else Append(OnePass(s[..|s| - 1]), s[|s| - 1])
  }

  lemma {:induction false} CollapseKeepsEnd(s: string)
    ensures EndsIn(CollapseHyphens(s), IsHyphen) <==> EndsIn(s, IsHyphen)
    ensures CollapseHyphens(s) == "" <==> s == ""
  {
    if s != "" {
      CollapseKeepsEnd(s[..|s| - 1]);
    }
  }

  lemma KeepSnoc(s: string, c: char, p: char -> bool)
    ensures Keep(s + [c], p) == Keep(s, p) + (if p(c) then [c] else "")
  {
    assert (s + [c])[..|s|] == s;
  }

  lemma CollapseSnoc(s: string, c: char)
    ensures CollapseHyphens(s + [c])
            == if IsHyphen(c) && EndsIn(s, IsHyphen) then CollapseHyphens(s) else CollapseHyphens(s) + [c]
  {
    assert (s + [c])[..|s|] == s;
  }

  /** Hyphenating, filtering and collapsing in turn is the same as doing all three character by character. */
  lemma {:induction false} ReplacementsAreOnePass(s: string)
    ensures CollapseHyphens(Keep(SpacesToHyphens(s), IsWordOrHyphen)) == OnePass(s)
    ensures EndsIn(s, IsSpace) ==> EndsIn(OnePass(s), IsHyphen)
  {
    if s != "" {
      var front, c := s[..|s| - 1], s[|s| - 1];
      var hyphenated := SpacesToHyphens(front);
      var kept := Keep(hyphenated, IsWordOrHyphen);
      ReplacementsAreOnePass(front);
      CollapseKeepsEnd(kept);
      if !IsSpace(c) {
        KeepSnoc(hyphenated, c, IsWordOrHyphen);
        CollapseSnoc(kept, c);
        assert kept + "" == kept;
      } else if !EndsIn(front, IsSpace) {
        KeepSnoc(hyphenated, '-', IsWordOrHyphen);
        CollapseSnoc(kept, '-');
        assert OnePass(s) == Append(OnePass(front), c);
      }
    }
  }

  lemma SlugIsOnePass(fold: Fold, text: string)
    ensures Slug(fold, text) == OnePass(TrimEnd(TrimStart(fold(text))))
  {
    ReplacementsAreOnePass(TrimEnd(TrimStart(fold(text))));
  }

  // ----- what a slug looks like -----

  predicate IsSlugChar(c: char) {
    'a' <= c <= 'z' || '0' <= c <= '9' || c == '_' || c == '-'
  }

  /** Lower-case letters, digits, `_` and `-`, with no two hyphens in a row. */
  predicate IsSlug(s: string) {
    && (forall i :: 0 <= i < |s| ==> IsSlugChar(s[i]))
    && (forall i :: 0 < i < |s| ==> !(s[i - 1] == '-' && s[i] == '-'))
  }

  lemma {:induction false} OnePassIsSlug(s: string)
    requires IsLower(s)
    ensures IsSlug(OnePass(s))
  {
    if s != "" {
      OnePassIsSlug(s[..|s| - 1]);
    }
  }

  lemma {:induction false} TrimsAreLower(s: string)
    requires IsLower(s)
    ensures IsLower(TrimStart(s)) && IsLower(TrimEnd(s))
  {
    if s != "" {
      TrimsAreLower(s[1..]);
      TrimsAreLower(s[..|s| - 1]);
    }
  }

  /** Whatever text it is given, the result is a slug. */
  lemma SlugIsSlug(fold: Fold, text: string)
    requires Folds(fold)
    ensures IsSlug(Slug(fold, text))
  {
    SlugIsOnePass(fold, text);
    TrimsAreLower(fold(text));
    TrimsAreLower(TrimStart(fold(text)));
    OnePassIsSlug(TrimEnd(TrimStart(fold(text))));
  }

  lemma {:induction false} OnePassFixesSlugs(s: string)
    requires IsSlug(s)
    ensures OnePass(s) == s
  {
    if s != "" {
      OnePassFixesSlugs(s[..|s| - 1]);
      assert s == s[..|s| - 1] + [s[|s| - 1]];
    }
  }

  /** The texts that are left alone are exactly the slugs. */
  lemma FixedPointsAreSlugs(fold: Fold, text: string)
    requires Folds(fold)
    ensures Slug(fold, text) == text <==> IsSlug(text)
  {
    SlugIsSlug(fold, text);
    if IsSlug(text) {
      SlugIsOnePass(fold, text);
      assert fold(text) == ToLower(text) == text;
      assert text != "" ==> !IsSpace(text[0]) && !IsSpace(text[|text| - 1]);
      OnePassFixesSlugs(text);
    }
  }

  lemma SlugIsIdempotent(fold: Fold, text: string)
    requires Folds(fold)
    ensures Slug(fold, Slug(fold, text)) == Slug(fold, text)
  {
    SlugIsSlug(fold, text);
    FixedPointsAreSlugs(fold, Slug(fold, text));
  }

  // ----- what is kept of the text -----

  lemma {:induction false} OnePassKeepsWords(s: string)
    ensures Keep(OnePass(s), IsWord) == Keep(s, IsWord)
  {
    if s != "" {
      var front, c := s[..|s| - 1], s[|s| - 1];
      OnePassKeepsWords(front);
      KeepSnoc(OnePass(front), if IsWord(c) then c else '-', IsWord);
    }
  }

  lemma {:induction false} KeepConcat(a: string, b: string, p: char -> bool)
    ensures Keep(a + b, p) == Keep(a, p) + Keep(b, p)
  {
    if b == "" {
      assert a + b == a;
    } else {
      var front, c := b[..|b| - 1], b[|b| - 1];
      KeepConcat(a, front, p);
      assert a + b == (a + front) + [c];
      KeepSnoc(a + front, c, p);
    }
  }

  lemma {:induction false} TrimStartKeepsWords(s: string)
    ensures Keep(TrimStart(s), IsWord) == Keep(s, IsWord)
  {
    if s != "" && IsSpace(s[0]) {
      TrimStartKeepsWords(s[1..]);
      assert s == [s[0]] + s[1..];
      KeepConcat([s[0]], s[1..], IsWord);
      KeepSnoc("", s[0], IsWord);
      assert "" + [s[0]] == [s[0]];
    }
  }

  lemma {:induction false} TrimEndKeepsWords(s: string)
    ensures Keep(TrimEnd(s), IsWord) == Keep(s, IsWord)
  {
    if s != "" && IsSpace(s[|s| - 1]) {
      TrimEndKeepsWords(s[..|s| - 1]);
    }
  }

  lemma {:induction false} LowerKeepsWords(s: string)
    ensures Keep(ToLower(s), IsWord) == ToLower(Keep(s, IsWord))
  {
    if s != "" {
      LowerKeepsWords(s[..|s| - 1]);
      assert ToLower(s)[..|s| - 1] == ToLower(s[..|s| - 1]);
    }
  }

  /**
   The word characters of the folded text survive in their order, and nothing else but hyphens is added; for ASCII text
   these are the text's own word characters in lower case.
   */
  lemma SlugKeepsWords(fold: Fold, text: string)
    ensures Keep(Slug(fold, text), IsWord) == Keep(fold(text), IsWord)
    ensures Folds(fold) && IsAscii(text) ==> Keep(Slug(fold, text), IsWord) == ToLower(Keep(text, IsWord))
  {
    var folded := fold(text);
    SlugIsOnePass(fold, text);
    OnePassKeepsWords(TrimEnd(TrimStart(folded)));
    TrimEndKeepsWords(TrimStart(folded));
    TrimStartKeepsWords(folded);
    LowerKeepsWords(text);
  }

  // ----- what becomes of the rest -----

  predicate AllSpaces(s: string) {
    forall i :: 0 <= i < |s| ==> IsSpace(s[i])
  }

  lemma {:induction false} TrimStartSkips(p: string, s: string)
    requires AllSpaces(p)
    ensures TrimStart(p + s) == TrimStart(s)
  {
    if p == "" {
      assert p + s == s;
    } else {
      assert (p + s)[0] == p[0] && (p + s)[1..] == p[1..] + s;
      TrimStartSkips(p[1..], s);
    }
  }

  lemma {:induction false} TrimEndSkips(s: string, q: string)
    requires AllSpaces(q)
    ensures TrimEnd(s + q) == TrimEnd(s)
  {
    if q == "" {
      assert s + q == s;
    } else {
      var n := |q| - 1;
      assert (s + q)[|s + q| - 1] == q[n] && (s + q)[..|s + q| - 1] == s + q[..n];
      TrimEndSkips(s, q[..n]);
    }
  }

  /** What follows a text with something to keep is not touched by trimming its start. */
  lemma {:induction false} TrimStartOfConcat(s: string, q: string)
    ensures !AllSpaces(s) ==> TrimStart(s + q) == TrimStart(s) + q && TrimStart(s) != ""
    ensures AllSpaces(s) ==> TrimStart(s) == "" && TrimStart(s + q) == TrimStart(q)
  {
    if s == "" {
      assert s + q == q;
    } else {
      assert (s + q)[0] == s[0] && (s + q)[1..] == s[1..] + q;
      assert s == [s[0]] + s[1..];
      if IsSpace(s[0]) {
        TrimStartOfConcat(s[1..], q);
        assert AllSpaces(s) <==> AllSpaces(s[1..]) by {
          assert forall i :: 0 <= i < |s[1..]| ==> s[1..][i] == s[i + 1];
          assert forall i :: 0 < i < |s| ==> s[i] == s[1..][i - 1];
        }
      }
    }
  }

  /** White space around a text makes no difference. */
  lemma OuterSpaceDoesNotMatter(fold: Fold, text: string, text': string, p: string, q: string)
    requires AllSpaces(p) && AllSpaces(q) && fold(text') == p + fold(text) + q
    ensures Slug(fold, text') == Slug(fold, text)
  {
    hide TrimStart, TrimEnd, AllSpaces;
    var s := fold(text);
    assert p + s + q == p + (s + q);
    TrimStartSkips(p, s + q);
    TrimStartOfConcat(s, q);
    if !AllSpaces(s) {
      TrimEndSkips(TrimStart(s), q);
    } else {
      TrimStartOfConcat(q, "");
      assert q + "" == q;
    }
  }

  predicate NoWord(s: string) {
    forall i :: 0 <= i < |s| ==> !IsWord(s[i])
  }

  /** Contains white space or a hyphen. */
  predicate Separates(s: string) {
    exists i :: 0 <= i < |s| && (IsSpace(s[i]) || IsHyphen(s[i]))
  }

  predicate BeginsWithWord(s: string) {
    s != "" && IsWord(s[0])
  }

  lemma OnePassSnoc(s: string, c: char)
    ensures OnePass(s + [c]) == Append(OnePass(s), c)
  {
    assert (s + [c])[..|s|] == s;
  }

  lemma SeparatesSnoc(front: string, c: char)
    ensures Separates(front + [c]) <==> Separates(front) || IsSpace(c) || IsHyphen(c)
  {
    var s := front + [c];
    assert s[|front|] == c && forall i :: 0 <= i < |front| ==> s[i] == front[i];
  }

  lemma OnePassEndsInWord(x: string)
    requires EndsIn(x, IsWord)
    ensures EndsIn(OnePass(x), IsWord)
  {
    OnePassSnoc(x[..|x| - 1], x[|x| - 1]);
    assert x == x[..|x| - 1] + [x[|x| - 1]];
  }

  lemma AppendToSeparator(slug: string, hyphen: bool, c: char)
    requires EndsIn(slug, IsWord) && !IsWord(c)
    ensures Append(slug + (if hyphen then "-" else ""), c)
            == slug + (if hyphen || IsSpace(c) || IsHyphen(c) then "-" else "")
  {
    assert slug + "" == slug;
  }

  lemma {:induction false} OnePassOfSeparator(x: string, sep: string)
    requires EndsIn(x, IsWord) && NoWord(sep)
    ensures OnePass(x + sep) == OnePass(x) + (if Separates(sep) then "-" else "")
  {
    hide OnePass, IsSpace, IsHyphen, Append, EndsIn;
    if sep == "" {
      assert x + sep == x && OnePass(x) + "" == OnePass(x);
    } else {
      var n := |sep| - 1;
      var front, c := sep[..n], sep[n];
      assert x + sep == (x + front) + [c] && sep == front + [c];
      OnePassSnoc(x + front, c);
      OnePassOfSeparator(x, front);
      OnePassEndsInWord(x);
      AppendToSeparator(OnePass(x), Separates(front), c);
      SeparatesSnoc(front, c);
    }
  }

  lemma {:induction false} OnePassOfConcat(z: string, y: string)
    requires BeginsWithWord(y)
    ensures OnePass(z + y) == OnePass(z) + OnePass(y) && OnePass(y) != ""
  {
    var n := |y| - 1;
    var front, c := y[..n], y[n];
    assert z + y == (z + front) + [c] && y == front + [c];
    OnePassSnoc(z + front, c);
    OnePassSnoc(front, c);
    if n > 0 {
      OnePassOfConcat(z, front);
    } else {
      assert z + front == z && OnePass(front) == "";
    }
  }

  lemma {:induction false} TrimEndOfConcat(z: string, y: string)
    requires BeginsWithWord(y)
    ensures TrimEnd(z + y) == z + TrimEnd(y) && BeginsWithWord(TrimEnd(y))
  {
    var n := |y| - 1;
    assert (z + y)[|z + y| - 1] == y[n] && (z + y)[..|z + y| - 1] == z + y[..n];
    if IsSpace(y[n]) {
      TrimEndOfConcat(z, y[..n]);
    }
  }

  lemma WordEndStays(x: string)
    requires EndsIn(x, IsWord)
    ensures !AllSpaces(x) && TrimEnd(x) == x
    ensures EndsIn(TrimStart(x), IsWord) && TrimEnd(TrimStart(x)) == TrimStart(x)
  {
    var front, c := x[..|x| - 1], x[|x| - 1];
    assert x == front + [c] && !IsSpace(c);
    TrimStartOfConcat(front, [c]);
    assert TrimStart([c]) == [c];
    assert EndsIn(TrimStart(x), IsWord);
  }

  /**
   Two parts that meet in word characters keep their slugs, with exactly one hyphen between them if there is white space
   or a hyphen in between, however much, and nothing otherwise.
   */
  lemma SlugOfParts(fold: Fold, text: string, x: string, sep: string, y: string)
    requires fold(text) == x + sep + y && EndsIn(x, IsWord) && NoWord(sep) && BeginsWithWord(y)
    ensures Slug(fold, text) == SlugOfFolded(x) + (if Separates(sep) then "-" else "") + SlugOfFolded(y)
  {
    hide TrimStart, TrimEnd, OnePass, CollapseHyphens, Keep, SpacesToHyphens, AllSpaces, NoWord, Separates;
    var x', y' := TrimStart(x), TrimEnd(y);
    WordEndStays(x);
    assert x + sep + y == x + (sep + y);
    TrimStartOfConcat(x, sep + y);
    assert x' + (sep + y) == (x' + sep) + y;
    TrimEndOfConcat(x' + sep, y);
    ReplacementsAreOnePass((x' + sep) + y');
    OnePassOfConcat(x' + sep, y');
    OnePassOfSeparator(x', sep);
    ReplacementsAreOnePass(x');
    WordStartStays(y);
    ReplacementsAreOnePass(y');
  }

  lemma WordStartStays(y: string)
    requires BeginsWithWord(y)
    ensures TrimStart(y) == y
  {
  }
}
