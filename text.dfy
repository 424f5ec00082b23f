/** Text helpers with the meaning JavaScript gives them: white space as
    `String.prototype.trim` and the regular-expression class `\s` see it,
    `trim`, `startsWith`, `indexOf`, `join`, and lower-casing. */
module Text {

  import opened Wrappers

  /** WhiteSpace and LineTerminator code points of ECMA-262 (what `trim` strips
      and what `\s` matches). */
  predicate IsSpace(c: char) {
    c == '\t' || c == '\n' || c == '\U{000B}' || c == '\U{000C}' || c == '\r' || c == ' '
    || c == '\U{00A0}' || c == '\U{1680}' || ('\U{2000}' <= c <= '\U{200A}')
    || c == '\U{2028}' || c == '\U{2029}' || c == '\U{202F}' || c == '\U{205F}'
    || c == '\U{3000}' || c == '\U{FEFF}'
  }

  predicate IsAsciiLetter(c: char) {
    ('A' <= c <= 'Z') || ('a' <= c <= 'z')
  }

  /** No white space at either end: what `trim` leaves behind. */
  predicate IsTrimmed(s: string) {
    s == [] || (!IsSpace(s[0]) && !IsSpace(s[|s| - 1]))
  }

  /** Drops leading white space; what is dropped is all white space. */
  function TrimStart(s: string): (r: string)
    ensures |r| <= |s| && r == s[|s| - |r|..]
    ensures r == [] || !IsSpace(r[0])
    ensures forall k :: 0 <= k < |s| - |r| ==> IsSpace(s[k])
  {
    if s != [] && IsSpace(s[0]) then TrimStart(s[1..]) else s
  }

  /** Drops trailing white space; what is dropped is all white space. */
  function TrimEnd(s: string): (r: string)
    ensures |r| <= |s| && r == s[..|r|]
    ensures r == [] || !IsSpace(r[|r| - 1])
    ensures forall k :: |r| <= k < |s| ==> IsSpace(s[k])
  {
    if s != [] && IsSpace(s[|s| - 1]) then TrimEnd(s[..|s| - 1]) else s
  }

  /** `r` is the part of `s` from position `a`, with only white space
      before and after it. */
  predicate TrimmedAt(s: string, r: string, a: int) {
    && 0 <= a <= |s| - |r| && r == s[a..a + |r|]
    && (forall k :: 0 <= k < a ==> IsSpace(s[k]))
    && (forall k :: a + |r| <= k < |s| ==> IsSpace(s[k]))
  }

  /** `String.prototype.trim`. */
  function Trim(s: string): (r: string)
    ensures IsTrimmed(r)
    ensures |r| <= |s|
  {
    TrimEnd(TrimStart(s))
  }

  /** What `trim` means: the result is the part of `s` left after removing
      the white space at both ends. */
  lemma TrimMeaning(s: string)
    ensures exists a :: TrimmedAt(s, Trim(s), a)
  {
    var t := TrimStart(s);
    var r := TrimEnd(t);
    var a := |s| - |t|;
    assert r == s[a..a + |r|] by {
      assert t == s[a..];
    }
    assert forall k :: a + |r| <= k < |s| ==> IsSpace(s[k]) by {
      assert forall k :: a + |r| <= k < |s| ==> s[k] == t[k - a];
    }
    assert Trim(s) == r;
    assert TrimmedAt(s, r, a);
  }

  lemma {:induction false} TrimStartOfTrimmed(s: string)
    requires s == [] || !IsSpace(s[0])
    ensures TrimStart(s) == s
  {
  }

  lemma {:induction false} TrimEndOfTrimmed(s: string)
    requires s == [] || !IsSpace(s[|s| - 1])
    ensures TrimEnd(s) == s
  {
  }

  /** A string with no white space at its ends is its own trim; in particular
      `trim` is idempotent. */
  lemma TrimOfTrimmed(s: string)
    requires IsTrimmed(s)
    ensures Trim(s) == s
  {
    TrimStartOfTrimmed(s);
    TrimEndOfTrimmed(s);
  }

  lemma TrimIdempotent(s: string)
    ensures Trim(Trim(s)) == Trim(s)
  {
    TrimOfTrimmed(Trim(s));
  }

  /** One leading space is dropped from a trimmed string. */
  lemma TrimOfSpaceThenTrimmed(c: char, s: string)
    requires IsSpace(c) && IsTrimmed(s)
    ensures Trim([c] + s) == s
  {
    assert ([c] + s)[1..] == s;
    TrimStartOfTrimmed(s);
    TrimEndOfTrimmed(s);
  }

  /** One trailing space is dropped from a trimmed string. */
  lemma TrimOfTrimmedThenSpace(s: string, c: char)
    requires IsSpace(c) && IsTrimmed(s)
    ensures Trim(s + [c]) == s
  {
    if s == [] {
      assert s + [c] == [c];
    } else {
      var t := s + [c];
      assert t[0] == s[0] && t[|t| - 1] == c;
      TrimStartOfTrimmed(t);
      assert t[..|t| - 1] == s;
      TrimEndOfTrimmed(s);
      assert TrimEnd(t) == TrimEnd(s);
    }
  }

  /** A string with a non-space character has a non-empty trim. */
  lemma TrimNonEmpty(s: string, k: nat)
    requires k < |s| && !IsSpace(s[k])
    ensures Trim(s) != []
  {
    var a := TrimStart(s);
    assert |s| - |a| <= k;
    assert a[k - (|s| - |a|)] == s[k];
    var b := TrimEnd(a);
    assert k - (|s| - |a|) < |b|;
  }

  /** A string made only of white space trims to the empty string. */
  lemma TrimAllSpace(s: string)
    requires forall k :: 0 <= k < |s| ==> IsSpace(s[k])
    ensures Trim(s) == []
  {
  }

  /** JavaScript `toLowerCase` restricted to ASCII letters. */
  function LowerChar(c: char): (r: char)
    ensures 'A' <= c <= 'Z' ==> r as int == c as int + 32
    ensures !('A' <= c <= 'Z') ==> r == c
  {
    if 'A' <= c <= 'Z' then (c as int + 32) as char else c
  }

  function Lower(s: string): (r: string)
    ensures |r| == |s|
    ensures forall k :: 0 <= k < |s| ==> r[k] == LowerChar(s[k])
  {
    seq(|s|, k requires 0 <= k < |s| => LowerChar(s[k]))
  }

  /** Equality ignoring (ASCII) case. */
  predicate EqualsIgnoreCase(a: string, b: string) {
    Lower(a) == Lower(b)
  }

  lemma LowerIdempotent(s: string)
    ensures Lower(Lower(s)) == Lower(s)
  {
  }

  predicate StartsWith(s: string, prefix: string) {
    |prefix| <= |s| && s[..|prefix|] == prefix
  }

  /** `indexOf` of one character: the first position holding it. */
  function IndexOf(s: string, c: char): (r: Option<nat>)
    ensures r.Some? ==> r.value < |s| && s[r.value] == c && forall k :: 0 <= k < r.value ==> s[k] != c
    ensures r.None? ==> forall k :: 0 <= k < |s| ==> s[k] != c
  {
    if s == [] then None
    else if s[0] == c then Some(0)
    else match IndexOf(s[1..], c)
      case None => None
      case Some(k) => Some(k + 1)
  }

  /** `Array.prototype.join`. */
  function Join(parts: seq<string>, sep: string): (r: string)
    ensures parts == [] ==> r == []
    ensures |parts| == 1 ==> r == parts[0]
  {
    if parts == [] then []
    else if |parts| == 1 then parts[0]
    else parts[0] + sep + Join(parts[1..], sep)
  }

  /** Joining one more part appends the separator and that part. */
  lemma {:induction false} JoinSnoc(parts: seq<string>, p: string, sep: string)
    requires parts != []
    ensures Join(parts + [p], sep) == Join(parts, sep) + sep + p
  {
    if |parts| == 1 {
      assert parts + [p] == [parts[0], p];
      assert ([parts[0], p])[1..] == [p];
    } else {
      assert (parts + [p])[1..] == parts[1..] + [p];
      JoinSnoc(parts[1..], p, sep);
    }
  }

  /** Replaces every character satisfying `bad` by `sub`. */
  function ReplaceAll(s: string, bad: char -> bool, sub: char): (r: string)
    ensures |r| == |s|
    ensures forall k :: 0 <= k < |s| ==> r[k] == (if bad(s[k]) then sub else s[k])
  {
    seq(|s|, k requires 0 <= k < |s| => if bad(s[k]) then sub else s[k])
  }
}
