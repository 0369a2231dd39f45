/**
 * The string operations the entities and the search predicates rely on:
 * `string.IsNullOrWhiteSpace`, `IsNullOrEmpty`, `Trim`, `ToUpperInvariant`,
 * `ToLower`/`ToLowerInvariant`, `Contains` and `Length`. A string is any sequence of
 * Unicode characters; its `Length` counts UTF-16 code units. Whitespace is the Latin-1
 * set (the ASCII whitespace characters, U+0085 and U+00A0); case mapping is ASCII.
 */
module Text {
  import opened Nullable

  predicate IsWhiteSpace(c: char)
  {
    c == ' ' || c == '\t' || c == '\n' || c == '\U{000B}' || c == '\U{000C}' || c == '\r'
    || c == '\U{0085}' || c == '\U{00A0}'
  }

  predicate IsAllWhiteSpace(s: string)
  {
    forall i :: 0 <= i < |s| ==> IsWhiteSpace(s[i])
  }

  /** `string.IsNullOrWhiteSpace`: null, or nothing is left once the ends are trimmed. */
  predicate IsNullOrWhiteSpace(s: Option<string>): (b: bool)
    ensures b <==> s.None? || Trim(s.value) == []
  {
    s.None? || IsAllWhiteSpace(s.value)
  }

  predicate IsNullOrEmpty(s: Option<string>)
  {
    s.None? || s.value == []
  }

  /** Neither end of `s` is whitespace. */
  predicate IsTrimmed(s: string)
  {
    s == [] || (!IsWhiteSpace(s[0]) && !IsWhiteSpace(s[|s| - 1]))
  }

  /** `s` with its leading whitespace removed: a suffix of `s` preceded only by whitespace. */
  function TrimStart(s: string): (r: string)
    ensures |r| <= |s| && r == s[|s| - |r|..]
    ensures IsAllWhiteSpace(s[..|s| - |r|])
    ensures r == [] || !IsWhiteSpace(r[0])
  {
    if s != [] && IsWhiteSpace(s[0]) then TrimStart(s[1..]) else s
  }

  /** `s` with its trailing whitespace removed: a prefix of `s` followed only by whitespace. */
  function TrimEnd(s: string): (r: string)
    ensures |r| <= |s| && r == s[..|r|]
    ensures IsAllWhiteSpace(s[|r|..])
    ensures r == [] || !IsWhiteSpace(r[|r| - 1])
  {
    if s != [] && IsWhiteSpace(s[|s| - 1]) then TrimEnd(s[..|s| - 1]) else s
  }

  /** `r` occurs in `s` at offset `k` with nothing but whitespace before and after it. */
  predicate InfixAt(s: string, r: string, k: int)
  {
    0 <= k <= |s| - |r| && r == s[k..k + |r|] && IsAllWhiteSpace(s[..k]) && IsAllWhiteSpace(s[k + |r|..])
  }

  /**
   * `string.Trim`: the infix of `s` left after removing whitespace at both ends.
   * It is empty exactly when `s` is all whitespace, and it leaves a trimmed string alone.
   */
  function Trim(s: string): (r: string)
    ensures IsTrimmed(r) && |r| <= |s|
    ensures r == [] <==> IsAllWhiteSpace(s)
    ensures IsTrimmed(s) ==> r == s
    ensures exists k :: InfixAt(s, r, k)
  {
    TrimEmptyOnlyIfBlank(s);
    TrimLeavesNoEnds(s);
    TrimKeepsTrimmed(s);
    TrimIsInfix(s);
    TrimEnd(TrimStart(s))
  }

  /** What trimming keeps is an infix of `s` with only whitespace on either side of it. */
  lemma TrimIsInfix(s: string)
    ensures exists k :: InfixAt(s, TrimEnd(TrimStart(s)), k)
  {
    var t := TrimStart(s);
    var r := TrimEnd(t);
    var k := |s| - |t|;
    SuffixSlices(s, k, |r|);
    assert InfixAt(s, r, k);
  }

  /** Slicing a suffix of `s` is slicing `s` further along. */
  lemma SuffixSlices<T>(s: seq<T>, k: nat, m: nat)
    requires k + m <= |s|
    ensures s[k..][..m] == s[k..k + m] && s[k..][m..] == s[k + m..]
  {
  }

  /** Only an all-whitespace string trims to nothing. */
  lemma TrimEmptyOnlyIfBlank(s: string)
    ensures TrimEnd(TrimStart(s)) == [] ==> IsAllWhiteSpace(s)
  {
    TrimEndEmptyOnlyIfBlank(TrimStart(s));
    TrimStartBlankOnlyIfBlank(s);
  }

  lemma TrimEndEmptyOnlyIfBlank(t: string)
    ensures TrimEnd(t) == [] ==> IsAllWhiteSpace(t)
  {
    if TrimEnd(t) == [] {
      assert t[0..] == t;
    }
  }

  lemma TrimStartBlankOnlyIfBlank(s: string)
    ensures IsAllWhiteSpace(TrimStart(s)) ==> IsAllWhiteSpace(s)
  {
    var t := TrimStart(s);
    var k := |s| - |t|;
    if IsAllWhiteSpace(t) {
      assert s[k..] == t;
      BlankPrefixAndRest(s, k);
    }
  }

  /** A string whose prefix and the rest are both whitespace is whitespace. */
  lemma BlankPrefixAndRest(s: string, k: nat)
    requires k <= |s| && IsAllWhiteSpace(s[..k]) && IsAllWhiteSpace(s[k..])
    ensures IsAllWhiteSpace(s)
  {
    forall i | 0 <= i < |s| ensures IsWhiteSpace(s[i]) {
      if i < k {
        assert s[i] == s[..k][i];
      } else {
        assert s[i] == s[k..][i - k];
      }
    }
  }

  /** Trimming both ends leaves no whitespace at either end. */
  lemma TrimLeavesNoEnds(s: string)
    ensures IsTrimmed(TrimEnd(TrimStart(s)))
  {
    var t := TrimStart(s);
    var r := TrimEnd(t);
    if r != [] {
      assert t != [] && r[0] == t[0];
    }
  }

  /** A string with no whitespace at either end is its own trim. */
  lemma TrimKeepsTrimmed(s: string)
    ensures IsTrimmed(s) ==> TrimEnd(TrimStart(s)) == s
  {
    if IsTrimmed(s) && s != [] {
      assert TrimStart(s) == s;
    }
  }

  /** Trimming twice is trimming once. */
  lemma TrimIdempotent(s: string)
    ensures Trim(Trim(s)) == Trim(s)
  {
  }

  function ToUpperChar(c: char): char
  {
    if 'a' <= c <= 'z' then (c as int - 32) as char else c
  }

  function ToLowerChar(c: char): char
  {
    if 'A' <= c <= 'Z' then (c as int + 32) as char else c
  }

  /** `ToUpperInvariant`, character by character. */
  function ToUpper(s: string): (r: string)
    ensures |r| == |s|
    ensures forall i :: 0 <= i < |s| ==> r[i] == ToUpperChar(s[i])
  {
    seq(|s|, i requires 0 <= i < |s| => ToUpperChar(s[i]))
  }

  /** `ToLower` / `ToLowerInvariant`, character by character. */
  function ToLower(s: string): (r: string)
    ensures |r| == |s|
    ensures forall i :: 0 <= i < |s| ==> r[i] == ToLowerChar(s[i])
  {
    seq(|s|, i requires 0 <= i < |s| => ToLowerChar(s[i]))
  }

  /** No character of `s` changes under upper-casing. */
  predicate IsUpper(s: string)
  {
    forall i :: 0 <= i < |s| ==> ToUpperChar(s[i]) == s[i]
  }

  /** `s.Contains(t)`: `t` occurs in `s` at some offset, so a prefix of `s` (the empty string too) occurs in it. */
  predicate Contains(s: string, t: string): (b: bool)
    ensures t <= s ==> b
    ensures b ==> |t| <= |s|
  {
    assert s[0..] == s;
    exists i :: 0 <= i <= |s| && t <= s[i..]
  }

  /** Case mapping never turns a whitespace character into another kind, or back. */
  lemma CaseKeepsWhiteSpace(c: char)
    ensures IsWhiteSpace(ToUpperChar(c)) == IsWhiteSpace(c)
    ensures IsWhiteSpace(ToLowerChar(c)) == IsWhiteSpace(c)
  {
  }

  /** Upper-casing yields an upper-case string and keeps trimmed strings trimmed. */
  lemma ToUpperNormalises(s: string)
    ensures IsUpper(ToUpper(s))
    ensures IsTrimmed(s) ==> IsTrimmed(ToUpper(s))
    ensures IsAllWhiteSpace(ToUpper(s)) == IsAllWhiteSpace(s)
    ensures IsUpper(s) ==> ToUpper(s) == s
  {
    var u := ToUpper(s);
    if s != [] {
      CaseKeepsWhiteSpace(s[0]);
      CaseKeepsWhiteSpace(s[|s| - 1]);
    }
    forall i | 0 <= i < |s| ensures IsWhiteSpace(u[i]) == IsWhiteSpace(s[i]) {
      CaseKeepsWhiteSpace(s[i]);
    }
  }

  /** Lower-casing forgets any earlier upper-casing: the search is case-insensitive. */
  lemma LowerOfUpper(s: string)
    ensures ToLower(ToUpper(s)) == ToLower(s)
  {
  }

  /** Upper-casing commutes with removing leading whitespace. */
  lemma {:induction false} TrimStartUpper(s: string)
    ensures TrimStart(ToUpper(s)) == ToUpper(TrimStart(s))
  {
    if s != [] {
      CaseKeepsWhiteSpace(s[0]);
      assert ToUpper(s)[1..] == ToUpper(s[1..]);
      TrimStartUpper(s[1..]);
    }
  }

  /** Upper-casing commutes with removing trailing whitespace. */
  lemma {:induction false} TrimEndUpper(s: string)
    ensures TrimEnd(ToUpper(s)) == ToUpper(TrimEnd(s))
  {
    if s != [] {
      CaseKeepsWhiteSpace(s[|s| - 1]);
      assert ToUpper(s)[..|s| - 1] == ToUpper(s[..|s| - 1]);
      TrimEndUpper(s[..|s| - 1]);
    }
  }

  /** Trimming and upper-casing can be done in either order. */
  lemma TrimUpper(s: string)
    ensures Trim(ToUpper(s)) == ToUpper(Trim(s))
  {
    TrimStartUpper(s);
    TrimEndUpper(TrimStart(s));
  }

  /** UTF-16 code units one character takes: two outside the Basic Multilingual Plane. */
  function CodeUnits(c: char): nat
  {
    if c as int > 0xFFFF then 2 else 1
  }

  /**
   * `string.Length`: the number of UTF-16 code units of `s`. It equals the number of
   * characters when every character lies in the Basic Multilingual Plane, and is twice
   * that when none does.
   */
  function Utf16Length(s: string): (n: nat)
    ensures |s| <= n <= 2 * |s|
    ensures (forall i :: 0 <= i < |s| ==> s[i] as int <= 0xFFFF) ==> n == |s|
    ensures (forall i :: 0 <= i < |s| ==> s[i] as int > 0xFFFF) ==> n == 2 * |s|
  {
    if s == [] then 0 else CodeUnits(s[0]) + Utf16Length(s[1..])
  }

  /** The code units of a concatenation are those of its parts. */
  lemma {:induction false} Utf16LengthAppend(a: string, b: string)
    ensures Utf16Length(a + b) == Utf16Length(a) + Utf16Length(b)
  {
    if a == [] {
      assert a + b == b;
    } else {
      assert (a + b)[0] == a[0] && (a + b)[1..] == a[1..] + b;
      Utf16LengthAppend(a[1..], b);
    }
  }

  /** An infix never has more code units than the string it is taken from. */
  lemma Utf16LengthInfix(s: string, r: string, k: nat)
    requires k + |r| <= |s| && r == s[k..k + |r|]
    ensures Utf16Length(r) <= Utf16Length(s)
  {
    var p := s[..k + |r|];
    assert s == p + s[k + |r|..];
    Utf16LengthAppend(p, s[k + |r|..]);
    assert p == p[..k] + r;
    Utf16LengthAppend(p[..k], r);
  }

  /** Trimming never lengthens a string, counted in code units. */
  lemma TrimShortens(s: string)
    ensures Utf16Length(Trim(s)) <= Utf16Length(s)
  {
    var r := Trim(s);
    var k := |s| - |TrimStart(s)|;
    assert k + |r| <= |s| && r == s[k..k + |r|] by {
      SuffixSlices(s, k, |r|);
    }
    Utf16LengthInfix(s, r, k);
  }

  /** Upper-casing keeps the code-unit count: it maps ASCII letters to ASCII letters. */
  lemma {:induction false} ToUpperKeepsUtf16Length(s: string)
    ensures Utf16Length(ToUpper(s)) == Utf16Length(s)
  {
    if s != [] {
      assert ToUpper(s)[1..] == ToUpper(s[1..]);
      ToUpperKeepsUtf16Length(s[1..]);
    }
  }
}
