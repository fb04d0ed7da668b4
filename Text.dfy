/** ASCII string operations standing in for the JavaScript string methods
    the components call: `trim`, `toLowerCase`, `includes`, `Array.join`
    and the decimal rendering of a non-negative count. Whitespace and case
    are restricted to ASCII. */
module Text {

  /** The ASCII characters `String.prototype.trim` removes. */
  predicate IsSpace(c: char) {
    c == ' ' || c == '\t' || c == '\n' || c == '\r' || c == '\U{B}' || c == '\U{C}'
  }

  function TrimStart(s: string): (r: string)
    ensures r == [] || !IsSpace(r[0])
    ensures |r| <= |s| && r == s[|s| - |r|..]
  {
    if s != [] && IsSpace(s[0]) then TrimStart(s[1..]) else s
  }

  function TrimEnd(s: string): (r: string)
    ensures r == [] || !IsSpace(r[|r| - 1])
    ensures r <= s
  {
    if s != [] && IsSpace(s[|s| - 1]) then TrimEnd(s[..|s| - 1]) else s
  }

  /** `String.prototype.trim`. */
  function Trim(s: string): string {
    TrimEnd(TrimStart(s))
  }

  predicate IsTrimmed(s: string) {
    s == [] || (!IsSpace(s[0]) && !IsSpace(s[|s| - 1]))
  }

  /** Trimming removes exactly the whitespace around the text: the result
      is the piece `s[i..j]`, everything before `i` and from `j` on is
      whitespace, and the result neither starts nor ends with whitespace,
      so no more and no less is removed. */
  lemma TrimSpec(s: string)
    ensures IsTrimmed(Trim(s))
    ensures exists i, j :: 0 <= i <= j <= |s| && Trim(s) == s[i..j] &&
                           (forall k :: 0 <= k < i ==> IsSpace(s[k])) &&
                           (forall k :: j <= k < |s| ==> IsSpace(s[k]))
  {
    TrimIsTrimmed(s);
    var a := TrimStart(s);
    var b := TrimEnd(a);
    var i := |s| - |a|;
    var j := i + |b|;
    TrimOccurs(s);
    TrimStartDropsSpaces(s);
    TrimEndDropsSpaces(a);
    assert forall k :: j <= k < |s| ==> s[k] == a[k - i];
    assert Trim(s) == s[i..j];
  }

  /** What `TrimStart` drops is whitespace. */
  lemma {:induction false} TrimStartDropsSpaces(s: string)
    ensures forall k :: 0 <= k < |s| - |TrimStart(s)| ==> IsSpace(s[k])
  {
    if s != [] && IsSpace(s[0]) {
      var rest := s[1..];
      TrimStartDropsSpaces(rest);
      forall k | 0 <= k < |s| - |TrimStart(s)| ensures IsSpace(s[k]) {
        if k > 0 {
          assert s[k] == rest[k - 1];
        }
      }
    }
  }

  /** What `TrimEnd` drops is whitespace. */
  lemma {:induction false} TrimEndDropsSpaces(s: string)
    ensures forall k :: |TrimEnd(s)| <= k < |s| ==> IsSpace(s[k])
  {
    if s != [] && IsSpace(s[|s| - 1]) {
      var init := s[..|s| - 1];
      TrimEndDropsSpaces(init);
      forall k | |TrimEnd(s)| <= k < |s| ensures IsSpace(s[k]) {
        if k < |s| - 1 {
          assert s[k] == init[k];
        }
      }
    }
  }

  lemma TrimIsTrimmed(s: string)
    ensures IsTrimmed(Trim(s))
  {
    var a := TrimStart(s);
    var b := TrimEnd(a);
    if b != [] {
      assert b[0] == a[0];
    }
  }

  lemma TrimOccurs(s: string)
    ensures OccursAt(s, Trim(s), |s| - |TrimStart(s)|)
  {
    var a := TrimStart(s);
    var b := TrimEnd(a);
    assert Trim(s) == b;
    PrefixOfSuffix(s, |s| - |a|, b);
  }

  /** A prefix of the suffix that starts at `i` occurs at `i`. */
  lemma PrefixOfSuffix(s: string, i: nat, b: string)
    requires i <= |s| && b <= s[i..]
    ensures OccursAt(s, b, i)
  {
    assert s[i..][..|b|] == s[i..i + |b|];
  }

  /** Trimming twice is trimming once. */
  lemma {:induction false} TrimIdempotent(s: string)
    ensures Trim(Trim(s)) == Trim(s)
  {
    TrimIsTrimmed(s);
    TrimmedIsFixed(Trim(s));
  }

  lemma TrimmedIsFixed(s: string)
    requires IsTrimmed(s)
    ensures Trim(s) == s
  {
  }

  function LowerChar(c: char): (r: char)
    ensures 'A' <= c <= 'Z' ==> 'a' <= r <= 'z'
    ensures !('A' <= c <= 'Z') ==> r == c
  {
    if 'A' <= c <= 'Z' then (c as int + 32) as char else c
  }

  /** `String.prototype.toLowerCase` on ASCII letters. */
  function Lower(s: string): (r: string)
    ensures |r| == |s|
    ensures forall i :: 0 <= i < |s| ==> r[i] == LowerChar(s[i])
  {
    if s == [] then [] else [LowerChar(s[0])] + Lower(s[1..])
  }

  /** `String.prototype.includes`. */
  function Contains(s: string, t: string): bool
  {
    t <= s || (s != [] && Contains(s[1..], t))
  }

  ghost predicate OccursAt(s: string, t: string, i: int) {
    0 <= i && i + |t| <= |s| && s[i..i + |t|] == t
  }

  /** `Contains` finds exactly the occurrences of `t` at some position. */
  lemma {:induction false} ContainsSpec(s: string, t: string)
    ensures Contains(s, t) <==> exists i :: OccursAt(s, t, i)
  {
    if t <= s {
      assert OccursAt(s, t, 0);
    } else if s == [] {
      assert forall i :: !OccursAt(s, t, i);
    } else {
      ContainsSpec(s[1..], t);
      if Contains(s[1..], t) {
        var i :| OccursAt(s[1..], t, i);
        OccursInTail(s, t, i);
      } else {
        forall i | OccursAt(s, t, i) ensures false {
          if i != 0 {
            OccursInTail(s, t, i - 1);
          }
        }
      }
    }
  }

  /** An occurrence in the tail is an occurrence one position later in the
      whole text, and back. */
  lemma OccursInTail(s: string, t: string, i: nat)
    requires s != []
    ensures OccursAt(s[1..], t, i) <==> OccursAt(s, t, i + 1)
  {
    if 0 <= i && i + |t| <= |s| - 1 {
      assert s[1..][i..i + |t|] == s[i + 1..i + 1 + |t|];
    }
  }

  /** `Array.prototype.join(sep)` on strings. */
  function Join(parts: seq<string>, sep: string): string {
    if parts == [] then ""
    else if |parts| == 1 then parts[0]
    else parts[0] + sep + Join(parts[1..], sep)
  }

  predicate IsDigit(c: char) { '0' <= c <= '9' }

  function DigitChar(d: nat): (c: char)
    requires d < 10
    ensures IsDigit(c)
  {
    ('0' as int + d) as char
  }

  /** Decimal rendering of a non-negative number, as template literals
      and `String()` give it. */
  function NatToString(n: nat): (r: string)
    ensures r != [] && IsDigit(r[0])
    ensures forall i :: 0 <= i < |r| ==> IsDigit(r[i])
  {
    if n < 10 then [DigitChar(n)] else NatToString(n / 10) + [DigitChar(n % 10)]
  }
}
