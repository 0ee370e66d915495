/** An optional value: JavaScript's `null`/absent versus a present value. */
module Options {
  datatype Option<+T> = None | Some(value: T)
}

/**
 * The few pieces of JavaScript's String semantics the components rely on:
 * the white-space set shared by `String.prototype.trim` and the regular
 * expression class `\s`, `trim` itself, the argument clamping of
 * `substring`, `startsWith`, and `length` in UTF-16 code units. Strings
 * are sequences of Unicode scalar values; `substring` indexes them by
 * character, which agrees with JavaScript's code-unit indexing on text
 * inside the Basic Multilingual Plane.
 */
module JsString {
  import opened Options

  /** WhiteSpace and LineTerminator code points of ECMAScript (section 12.2 and 12.3 of ECMA-262). */
  predicate IsWhiteSpace(c: char) {
    c == '\t' || c == '\n' || c == '\U{0B}' || c == '\U{0C}' || c == '\r' || c == ' '
    || c == '\U{A0}' || c == '\U{1680}' || ('\U{2000}' <= c <= '\U{200A}')
    || c == '\U{2028}' || c == '\U{2029}' || c == '\U{202F}' || c == '\U{205F}'
    || c == '\U{3000}' || c == '\U{FEFF}'
  }

  /** Every character of `s` is white space (vacuously so for the empty string). */
  predicate Blank(s: string) {
    forall i :: 0 <= i < |s| ==> IsWhiteSpace(s[i])
  }

  /** Drops the leading white space. */
  function TrimStart(s: string): string {
    if s != [] && IsWhiteSpace(s[0]) then TrimStart(s[1..]) else s
  }

  /** Drops the trailing white space. */
  function TrimEnd(s: string): string {
    if s != [] && IsWhiteSpace(s[|s| - 1]) then TrimEnd(s[..|s| - 1]) else s
  }

  /** `piece` occurs in `s` starting at index `i`. */
  predicate SliceAt(s: string, i: int, piece: string) {
    0 <= i && i + |piece| <= |s| && s[i..i + |piece|] == piece
  }

  /** `String.prototype.trim`; the lemmas below state what it cuts. */
  function Trim(s: string): string {
    TrimEnd(TrimStart(s))
  }

  /**
   * `trim` cuts white space, and only white space, from the two ends: the
   * result sits in `s` at some index with blank text on either side.
   */
  lemma TrimCutsOnlyEdgeWhiteSpace(s: string)
    ensures exists i :: SliceAt(s, i, Trim(s)) && Blank(s[..i]) && Blank(s[i + |Trim(s)|..])
  {
    var t := TrimStart(s);
    LeadingCutIsBlank(s);
    TrailingCutIsBlank(t);
    var r := TrimEnd(t);
    var i := |s| - |t|;
    var k := i + |r|;
    assert s[i..k] == r;
    assert s[k..] == t[|r|..];
    assert SliceAt(s, i, Trim(s)) && Blank(s[..i]) && Blank(s[k..]);
  }

  /** What `TrimStart` cuts is a blank prefix of `s`. */
  lemma LeadingCutIsBlank(s: string)
    ensures |TrimStart(s)| <= |s| && TrimStart(s) == s[|s| - |TrimStart(s)|..]
    ensures Blank(s[..|s| - |TrimStart(s)|])
  {
    TrimStartSpec(s);
    var head := s[..|s| - |TrimStart(s)|];
    forall j | 0 <= j < |head| ensures IsWhiteSpace(head[j]) {
      assert head[j] == s[j];
    }
  }

  /** What `TrimEnd` cuts is a blank suffix of `t`. */
  lemma TrailingCutIsBlank(t: string)
    ensures |TrimEnd(t)| <= |t| && TrimEnd(t) == t[..|TrimEnd(t)|]
    ensures Blank(t[|TrimEnd(t)|..])
  {
    TrimEndSpec(t);
    var tail := t[|TrimEnd(t)|..];
    forall j | 0 <= j < |tail| ensures IsWhiteSpace(tail[j]) {
      assert tail[j] == t[|TrimEnd(t)| + j];
    }
  }

  /** `TrimStart` keeps a suffix of `s`, removes only white space, and stops at the first other character. */
  lemma {:induction false} TrimStartSpec(s: string)
    ensures |TrimStart(s)| <= |s| && TrimStart(s) == s[|s| - |TrimStart(s)|..]
    ensures forall i :: 0 <= i < |s| - |TrimStart(s)| ==> IsWhiteSpace(s[i])
    ensures TrimStart(s) != [] ==> !IsWhiteSpace(TrimStart(s)[0])
  {
    if s != [] && IsWhiteSpace(s[0]) {
      TrimStartSpec(s[1..]);
      assert s[1..][|s| - 1 - |TrimStart(s)|..] == s[|s| - |TrimStart(s)|..];
      forall i | 0 <= i < |s| - |TrimStart(s)| ensures IsWhiteSpace(s[i]) {
        if i > 0 { assert s[i] == s[1..][i - 1]; }
      }
    }
  }

  /** `TrimEnd` keeps a prefix of `s`, removes only white space, and stops at the last other character. */
  lemma {:induction false} TrimEndSpec(s: string)
    ensures |TrimEnd(s)| <= |s| && TrimEnd(s) == s[..|TrimEnd(s)|]
    ensures forall i :: |TrimEnd(s)| <= i < |s| ==> IsWhiteSpace(s[i])
    ensures TrimEnd(s) != [] ==> !IsWhiteSpace(TrimEnd(s)[|TrimEnd(s)| - 1])
  {
    if s != [] && IsWhiteSpace(s[|s| - 1]) {
      TrimEndSpec(s[..|s| - 1]);
      assert s[..|s| - 1][..|TrimEnd(s)|] == s[..|TrimEnd(s)|];
      forall i | |TrimEnd(s)| <= i < |s| ensures IsWhiteSpace(s[i]) {
        if i < |s| - 1 { assert s[i] == s[..|s| - 1][i]; }
      }
    }
  }

  /** `s.trim()` is the empty (falsy) string exactly when `s` consists of white space only. */
  lemma TrimEmptyIffBlank(s: string)
    ensures Trim(s) == "" <==> Blank(s)
  {
    var t := TrimStart(s);
    TrimStartSpec(s);
    TrimEndSpec(t);
    if Trim(s) == "" {
      assert t == [];
    } else {
      var r := Trim(s);
      assert !IsWhiteSpace(r[0]);
      assert r[0] == t[0] == s[|s| - |t|];
    }
  }

  /** Clamps `k` into the closed interval [0, n]. */
  function Clamp(k: int, n: nat): (r: nat)
    ensures r <= n
    ensures 0 <= k <= n ==> r == k
    ensures k < 0 ==> r == 0
    ensures k > n ==> r == n
  {
    if k < 0 then 0 else if k > n then n else k
  }

  /**
   * `String.prototype.substring(start, end)`: both arguments are clamped
   * into [0, |s|] and swapped when they are out of order.
   */
  function Substring(s: string, start: int, end: int): (r: string)
    ensures |r| <= |s|
    ensures 0 <= start <= end <= |s| ==> r == s[start..end]
    ensures 0 <= end <= start <= |s| ==> r == s[end..start]
    ensures 0 <= start <= |s| <= end ==> r == s[start..]
    ensures start <= 0 && end <= 0 ==> r == ""
    ensures start >= |s| && end >= |s| ==> r == ""
  {
    var a := Clamp(start, |s|);
    var b := Clamp(end, |s|);
    if a <= b then s[a..b] else s[b..a]
  }

  /** `s.substring(0, k)` is the prefix of `s` whose length is `k` clamped into [0, |s|]. */
  lemma SubstringFromZero(s: string, k: int)
    ensures Substring(s, 0, k) == s[..Clamp(k, |s|)]
  {
  }

  /** `s.substring(k)` with no end argument: the suffix from `k`, clamped. */
  function SubstringFrom(s: string, start: int): (r: string)
    ensures 0 <= start <= |s| ==> r == s[start..]
    ensures start > |s| ==> r == ""
  {
    Substring(s, start, |s|)
  }

  /** `s.startsWith(prefix)`: the first `|prefix|` characters of `s` are those of `prefix`. */
  predicate StartsWith(s: string, prefix: string): (b: bool)
    ensures b <==> |prefix| <= |s| && forall i :: 0 <= i < |prefix| ==> s[i] == prefix[i]
    ensures b ==> s == prefix + s[|prefix|..]
  {
    |prefix| <= |s| && s[..|prefix|] == prefix
  }

  /** The character is a single UTF-16 code unit: it lies in the Basic Multilingual Plane. */
  predicate InBmp(c: char) {
    c as int <= 0xFFFF
  }

  /**
   * `s.length`: JavaScript counts UTF-16 code units, so a character outside
   * the Basic Multilingual Plane (a surrogate pair) counts twice.
   */
  function Utf16Length(s: string): (n: nat)
    ensures |s| <= n <= 2 * |s|
  {
    if s == [] then 0 else (if InBmp(s[0]) then 1 else 2) + Utf16Length(s[1..])
  }

  /** Code units add up over concatenation. */
  lemma {:induction false} Utf16LengthAppend(a: string, b: string)
    ensures Utf16Length(a + b) == Utf16Length(a) + Utf16Length(b)
  {
    if a == [] {
      assert a + b == b;
    } else {
      assert (a + b)[0] == a[0] && (a + b)[1..] == a[1..] + b;
      Utf16LengthAppend(a[1..], b);
    }
  }

  /** For text inside the Basic Multilingual Plane, `length` is the number of characters. */
  lemma {:induction false} Utf16LengthOfBmp(s: string)
    requires forall i :: 0 <= i < |s| ==> InBmp(s[i])
    ensures Utf16Length(s) == |s|
  {
    if s != [] {
      assert forall i :: 0 <= i < |s[1..]| ==> s[1..][i] == s[i + 1];
      Utf16LengthOfBmp(s[1..]);
    }
  }

  /** JavaScript truthiness of a string that may be `null`: present and not empty. */
  predicate Truthy(v: Option<string>) {
    v.Some? && v.value != ""
  }
}
