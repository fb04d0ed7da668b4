/** `generateSlug`: turns a display name into a URL slug made of lowercase
    ASCII letters, digits and single hyphens, at most 100 characters long,
    with "item" for anything that leaves nothing. The name arrives untyped,
    so it is a `Value`. */
module Slug {
  import opened Base
  import opened Text
  import opened Values

  const MaxSlugLength := 100

  /** The fallback slug. */
  const Fallback := "item"

  /** `[a-z0-9]`. */
  predicate IsSlugChar(c: char) {
    'a' <= c <= 'z' || '0' <= c <= '9'
  }

  /** Every character is a lowercase letter, a digit or a hyphen. */
  predicate IsSlugText(s: string) {
    forall i :: 0 <= i < |s| ==> IsSlugChar(s[i]) || s[i] == '-'
  }

  predicate NoDoubleHyphen(s: string) {
    forall i :: 0 <= i < |s| - 1 ==> !(s[i] == '-' && s[i + 1] == '-')
  }

  /** Drops a leading run of characters outside `[a-z0-9]`. */
  function DropSeparators(s: string): (r: string)
    ensures |r| <= |s|
    ensures r == [] || IsSlugChar(r[0])
    ensures s != [] && !IsSlugChar(s[0]) ==> |r| < |s|
  {
    if s != [] && !IsSlugChar(s[0]) then DropSeparators(s[1..]) else s
  }

  /** What `DropSeparators` removes is a run of separators in front of
      what it keeps. */
  lemma {:induction false} DropSeparatorsSplit(s: string)
    ensures var k := |s| - |DropSeparators(s)|;
            s == s[..k] + DropSeparators(s) && forall i :: 0 <= i < k ==> !IsSlugChar(s[i])
  {
    if s != [] && !IsSlugChar(s[0]) {
      DropSeparatorsSplit(s[1..]);
      var k := |s| - |DropSeparators(s)|;
      assert s[1..][..k - 1] == s[1..k];
      assert forall i :: 1 <= i < k ==> s[i] == s[1..][i - 1];
    }
  }

  /** `.replace(/[^a-z0-9]+/g, "-")`: every maximal run of other characters
      becomes one hyphen. */
  function Collapse(s: string): (r: string)
    ensures IsSlugText(r) && NoDoubleHyphen(r)
    ensures r == [] <==> s == []
    ensures s != [] && IsSlugChar(s[0]) ==> r[0] == s[0]
    decreases |s|
  {
    if s == [] then []
    else if IsSlugChar(s[0]) then [s[0]] + Collapse(s[1..])
    else "-" + Collapse(DropSeparators(s))
  }

  /** Removes leading hyphens (`/^-+/`). */
  function StripLeading(s: string): (r: string)
    ensures r == [] || r[0] != '-'
    ensures |r| <= |s| && r == s[|s| - |r|..]
    ensures forall i :: 0 <= i < |s| - |r| ==> s[i] == '-'
  {
    if s != [] && s[0] == '-' then StripLeading(s[1..]) else s
  }

  /** Removes trailing hyphens (`/-+$/`). */
  function StripTrailing(s: string): (r: string)
    ensures r == [] || r[|r| - 1] != '-'
    ensures r <= s
    ensures forall i :: |r| <= i < |s| ==> s[i] == '-'
  {
    if s != [] && s[|s| - 1] == '-' then StripTrailing(s[..|s| - 1]) else s
  }

  /** `.replace(/^-+|-+$/g, "")`. */
  function Strip(s: string): (r: string)
    ensures r == [] || (r[0] != '-' && r[|r| - 1] != '-')
  {
    var a := StripLeading(s);
    var r := StripTrailing(a);
    assert r == [] || r[0] == a[0];
    r
  }

  /** The cleaned text before the length limit. */
  function Cleaned(name: string): string {
    Strip(Collapse(Trim(Lower(name))))
  }

  /** `generateSlug`: "item" for a falsy or non-string name, otherwise the
      cleaned name cut to 100 characters, or "item" when that is empty. */
  function GenerateSlug(name: Value): string {
    if !Truthy(name) || !name.Str? then Fallback
    else
      var cut := Take(Cleaned(name.s), MaxSlugLength);
      if cut == "" then Fallback else cut
  }

  /** A contiguous piece of a slug-shaped text is slug-shaped. */
  lemma SliceKeepsShape(s: string, a: nat, b: nat)
    requires a <= b <= |s|
    requires IsSlugText(s) && NoDoubleHyphen(s)
    ensures IsSlugText(s[a..b]) && NoDoubleHyphen(s[a..b])
  {
    var t := s[a..b];
    forall i | 0 <= i < |t| - 1 ensures !(t[i] == '-' && t[i + 1] == '-') {
      assert t[i] == s[a + i] && t[i + 1] == s[a + i + 1];
    }
  }

  lemma StripKeepsShape(s: string)
    requires IsSlugText(s) && NoDoubleHyphen(s)
    ensures IsSlugText(Strip(s)) && NoDoubleHyphen(Strip(s))
  {
    var a := StripLeading(s);
    var r := StripTrailing(a);
    SuffixKeepsShape(s, a);
    PrefixKeepsShape(a, r);
    assert Strip(s) == r;
  }

  lemma SuffixKeepsShape(s: string, a: string)
    requires IsSlugText(s) && NoDoubleHyphen(s)
    requires |a| <= |s| && a == s[|s| - |a|..]
    ensures IsSlugText(a) && NoDoubleHyphen(a)
  {
    SliceKeepsShape(s, |s| - |a|, |s|);
  }

  lemma PrefixKeepsShape(a: string, r: string)
    requires IsSlugText(a) && NoDoubleHyphen(a) && r <= a
    ensures IsSlugText(r) && NoDoubleHyphen(r)
  {
    assert r == a[..|r|];
    SliceKeepsShape(a, 0, |r|);
  }

  /** The shape of every slug: never empty, at most 100 characters, only
      lowercase letters, digits and hyphens, no two hyphens in a row, no
      leading hyphen, and a trailing hyphen only where the 100-character
      cut fell right after one. */
  lemma SlugShape(name: Value)
    ensures var r := GenerateSlug(name);
            0 < |r| <= MaxSlugLength && IsSlugText(r) && NoDoubleHyphen(r) &&
            r[0] != '-' && (r[|r| - 1] == '-' ==> |r| == MaxSlugLength)
  {
    if Truthy(name) && name.Str? {
      var x := Collapse(Trim(Lower(name.s)));
      var cut := Take(Strip(x), MaxSlugLength);
      StripKeepsShape(x);
      CutShape(Strip(x));
      if cut == [] {
        FallbackShape();
      }
    } else {
      FallbackShape();
    }
  }

  lemma FallbackShape()
    ensures IsSlugText(Fallback) && NoDoubleHyphen(Fallback) && Fallback[0] != '-' && Fallback[|Fallback| - 1] != '-'
  {
    assert forall i :: 0 <= i < |Fallback| ==> Fallback[i] in "item";
  }

  /** Cutting a stripped slug-shaped text to 100 characters keeps its
      shape, except that the cut may end on a hyphen. */
  lemma CutShape(c: string)
    requires IsSlugText(c) && NoDoubleHyphen(c)
    requires c == [] || (c[0] != '-' && c[|c| - 1] != '-')
    ensures var r := Take(c, MaxSlugLength);
            r != [] ==>
              |r| <= MaxSlugLength && IsSlugText(r) && NoDoubleHyphen(r) &&
              r[0] != '-' && (r[|r| - 1] == '-' ==> |r| == MaxSlugLength)
  {
    var r := Take(c, MaxSlugLength);
    if r != [] {
      SliceKeepsShape(c, 0, |r|);
      assert r == c[..|r|];
      if |c| <= MaxSlugLength {
        assert r == c;
      }
    }
  }

  /** A falsy or non-string name gives "item". */
  lemma NonStringGivesFallback(name: Value)
    requires !name.Str? || name.s == ""
    ensures GenerateSlug(name) == "item"
  {
  }

  /** Only the letters and digits of a text, in order. */
  function Letters(s: string): (r: string)
    ensures |r| <= |s|
  {
    if s == [] then [] else (if IsSlugChar(s[0]) then [s[0]] else []) + Letters(s[1..])
  }

  lemma {:induction false} LettersAppend(a: string, b: string)
    ensures Letters(a + b) == Letters(a) + Letters(b)
  {
    if a != [] {
      assert (a + b)[0] == a[0];
      assert (a + b)[1..] == a[1..] + b;
      LettersAppend(a[1..], b);
    } else {
      assert a + b == b;
    }
  }

  /** A text whose characters are all outside `[a-z0-9]` has no letters. */
  lemma {:induction false} NoLetters(s: string)
    requires forall i :: 0 <= i < |s| ==> !IsSlugChar(s[i])
    ensures Letters(s) == []
  {
    if s != [] {
      NoLetters(s[1..]);
    }
  }

  lemma LettersOfDrop(s: string)
    ensures Letters(DropSeparators(s)) == Letters(s)
  {
    var r := DropSeparators(s);
    var k := |s| - |r|;
    DropSeparatorsSplit(s);
    LettersAppend(s[..k], r);
    NoLetters(s[..k]);
  }

  /** Collapsing separators keeps every letter and digit, in order. */
  lemma {:induction false} LettersOfCollapse(s: string)
    ensures Letters(Collapse(s)) == Letters(s)
    decreases |s|
  {
    if s != [] {
      if IsSlugChar(s[0]) {
        LettersOfCollapse(s[1..]);
        assert Collapse(s) == [s[0]] + Collapse(s[1..]);
        assert ([s[0]] + Collapse(s[1..]))[1..] == Collapse(s[1..]);
      } else {
        var d := DropSeparators(s);
        LettersOfCollapse(d);
        LettersOfDrop(s);
        assert ("-" + Collapse(d))[1..] == Collapse(d);
      }
    }
  }

  /** Stripping hyphens keeps every letter and digit. */
  lemma LettersOfStrip(s: string)
    ensures Letters(Strip(s)) == Letters(s)
  {
    LettersOfStripLeading(s);
    LettersOfStripTrailing(StripLeading(s));
  }

  lemma {:induction false} LettersOfStripLeading(s: string)
    ensures Letters(StripLeading(s)) == Letters(s)
  {
    var a := StripLeading(s);
    var k := |s| - |a|;
    var front := s[..k];
    assert a == s[k..];
    assert s == front + a;
    HyphensThenRest(front, a);
  }

  lemma HyphensThenRest(front: string, rest: string)
    requires forall i :: 0 <= i < |front| ==> front[i] == '-'
    ensures Letters(front + rest) == Letters(rest)
  {
    LettersAppend(front, rest);
    NoLetters(front);
  }

  lemma {:induction false} LettersOfStripTrailing(a: string)
    ensures Letters(StripTrailing(a)) == Letters(a)
  {
    var r := StripTrailing(a);
    var back := a[|r|..];
    assert a == r + back;
    assert forall i :: 0 <= i < |back| ==> back[i] == a[|r| + i] == '-';
    LettersAppend(r, back);
    NoLetters(back);
  }

  /** Trimming removes only whitespace, never a letter or digit. */
  lemma LettersOfTrim(s: string)
    ensures Letters(Trim(s)) == Letters(s)
  {
    LettersOfTrimStart(s);
    LettersOfTrimEnd(TrimStart(s));
  }

  lemma {:induction false} LettersOfTrimStart(s: string)
    ensures Letters(TrimStart(s)) == Letters(s)
  {
    if s != [] && IsSpace(s[0]) {
      LettersOfTrimStart(s[1..]);
    }
  }

  lemma {:induction false} LettersOfTrimEnd(s: string)
    ensures Letters(TrimEnd(s)) == Letters(s)
  {
    if s != [] && IsSpace(s[|s| - 1]) {
      var init := s[..|s| - 1];
      LettersOfTrimEnd(init);
      assert s == init + [s[|s| - 1]];
      LettersAppend(init, [s[|s| - 1]]);
    }
  }

  /** Cleaning keeps exactly the letters and digits of the lowercased
      name. */
  lemma LettersOfCleaned(s: string)
    ensures Letters(Cleaned(s)) == Letters(Lower(s))
  {
    var l := Lower(s);
    LettersOfTrim(l);
    LettersOfCollapse(Trim(l));
    LettersOfStrip(Collapse(Trim(l)));
  }

  /** Cutting a text keeps a leading part of its letters. */
  lemma LettersOfTake(c: string, n: nat)
    ensures Letters(Take(c, n)) <= Letters(c)
  {
    var cut := Take(c, n);
    assert c == cut + c[|cut|..];
    LettersAppend(cut, c[|cut|..]);
  }

  /** A slug spells the letters and digits of the lowercased name, in
      order: all of them when the name was short enough, and a leading
      part of them when the 100-character cut applied. A name without
      any letter or digit gives "item". */
  lemma {:induction false} SlugKeepsLetters(s: string)
    requires s != ""
    ensures Letters(Lower(s)) == [] ==> GenerateSlug(Str(s)) == "item"
    ensures Letters(Lower(s)) != [] ==> Letters(GenerateSlug(Str(s))) <= Letters(Lower(s))
    ensures Letters(Lower(s)) != [] && |Cleaned(s)| <= MaxSlugLength ==>
              Letters(GenerateSlug(Str(s))) == Letters(Lower(s))
  {
    LettersOfCleaned(s);
    CleanedStartsWithLetter(s);
    LettersOfCut(Cleaned(s), Letters(Lower(s)));
  }

  /** The same, for the cleaned text `c` and the letters `l` it keeps. */
  lemma {:induction false} LettersOfCut(c: string, l: string)
    requires Letters(c) == l
    requires c == [] || IsSlugChar(c[0])
    ensures l == [] ==> Take(c, MaxSlugLength) == []
    ensures Letters(Take(c, MaxSlugLength)) <= l
    ensures |c| <= MaxSlugLength ==> Take(c, MaxSlugLength) == c
  {
    LettersOfTake(c, MaxSlugLength);
    if c != [] {
      LettersOfNonEmptySlug(c);
    }
  }

  /** A text starting with a letter or digit has one. */
  lemma LettersOfNonEmptySlug(t: string)
    requires t != [] && IsSlugChar(t[0])
    ensures Letters(t) != []
  {
  }

  /** The cleaned text is empty or starts with a letter or digit. */
  lemma CleanedStartsWithLetter(s: string)
    ensures Cleaned(s) == [] || IsSlugChar(Cleaned(s)[0])
  {
    StripKeepsShape(Collapse(Trim(Lower(s))));
  }

  /** A name made only of separators gives "item". */
  lemma SeparatorsOnlyGiveFallback(s: string)
    requires forall i :: 0 <= i < |s| ==> !IsSlugChar(LowerChar(s[i]))
    ensures GenerateSlug(Str(s)) == "item"
  {
    if s != "" {
      NoLetters(Lower(s));
      SlugKeepsLetters(s);
    }
  }

  /** A slug that does not end with a hyphen is its own slug. Only a slug
      cut right after a hyphen changes when slugged again. */
  lemma SlugOfSlug(name: Value)
    requires var r := GenerateSlug(name); r[|r| - 1] != '-'
    ensures GenerateSlug(Str(GenerateSlug(name))) == GenerateSlug(name)
  {
    SlugShape(name);
    var r := GenerateSlug(name);
    SlugIsFixed(r);
  }

  /** Slug-shaped text without hyphens at either end and within the length
      limit passes through unchanged. */
  lemma SlugIsFixed(t: string)
    requires 0 < |t| <= MaxSlugLength && IsSlugText(t) && NoDoubleHyphen(t)
    requires t[0] != '-' && t[|t| - 1] != '-'
    ensures GenerateSlug(Str(t)) == t
  {
    LowerOfSlug(t);
    assert IsTrimmed(t);
    TrimmedIsFixed(t);
    CollapseOfSlug(t);
    assert StripLeading(t) == t;
    assert StripTrailing(t) == t;
    assert Cleaned(t) == t;
  }

  lemma LowerOfSlug(t: string)
    requires IsSlugText(t)
    ensures Lower(t) == t
  {
    assert forall i :: 0 <= i < |t| ==> Lower(t)[i] == LowerChar(t[i]) == t[i];
  }

  /** Collapsing leaves slug-shaped text without a leading hyphen as it is. */
  lemma {:induction false} CollapseOfSlug(t: string)
    requires IsSlugText(t) && NoDoubleHyphen(t)
    requires t == [] || t[0] != '-'
    ensures Collapse(t) == t
    decreases |t|
  {
    if t != [] {
      var rest := t[1..];
      if rest != [] && rest[0] == '-' {
        assert rest != [] && rest[0] == '-';
        var after := rest[1..];
        assert IsSlugText(after) && NoDoubleHyphen(after);
        assert after == [] || after[0] != '-';
        assert DropSeparators(rest) == after by {
          assert !IsSlugChar(rest[0]);
          assert DropSeparators(rest) == DropSeparators(after);
        }
        CollapseOfSlug(after);
        assert Collapse(rest) == "-" + after;
        assert rest == "-" + after;
      } else {
        assert IsSlugText(rest) && NoDoubleHyphen(rest);
        CollapseOfSlug(rest);
      }
    }
  }
}
