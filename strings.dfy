/**
 * The JavaScript string built-ins the front-end relies on, written out over
 * `seq<char>`: `trim`, `split` on one character, `indexOf`/`includes`,
 * `startsWith`, `replace` with a string pattern, the ASCII part of
 * `toLowerCase`, and the decimal rendering of integers used by template
 * strings.
 */
module Strings {
  import opened Wrappers

  // ---------------------------------------------------------------------------
  // Whitespace and trim
  // ---------------------------------------------------------------------------

  /** The ECMAScript WhiteSpace and LineTerminator code points: exactly what `String.prototype.trim` strips. */
  predicate IsWhitespace(c: char) {
    || c == '\t' || c == '\n' || c == '\U{000B}' || c == '\U{000C}' || c == '\r' || c == ' '
    || c == '\U{00A0}' || c == '\U{1680}' || ('\U{2000}' <= c <= '\U{200A}')
    || c == '\U{2028}' || c == '\U{2029}' || c == '\U{202F}' || c == '\U{205F}'
    || c == '\U{3000}' || c == '\U{FEFF}'
  }

  /** The number of whitespace characters at the start of `s`: the first character after them is not whitespace. */
  function LeadingWhitespace(s: string): (k: nat)
    ensures k <= |s|
    ensures k < |s| ==> !IsWhitespace(s[k])
  {
    if s != [] && IsWhitespace(s[0]) then 1 + LeadingWhitespace(s[1..]) else 0
  }

  /** Every character counted by `LeadingWhitespace` is whitespace. */
  lemma {:induction false} LeadingWhitespaceSpan(s: string)
    ensures forall i :: 0 <= i < LeadingWhitespace(s) ==> IsWhitespace(s[i])
  {
    if s != [] && IsWhitespace(s[0]) {
      LeadingWhitespaceSpan(s[1..]);
      forall i | 1 <= i < LeadingWhitespace(s) ensures IsWhitespace(s[i]) {
        assert s[i] == s[1..][i - 1];
      }
    }
  }

  /** The number of whitespace characters at the end of `s`: the last character before them is not whitespace. */
  function TrailingWhitespace(s: string): (k: nat)
    ensures k <= |s|
    ensures k < |s| ==> !IsWhitespace(s[|s| - 1 - k])
  {
    if s != [] && IsWhitespace(s[|s| - 1]) then 1 + TrailingWhitespace(s[..|s| - 1]) else 0
  }

  /** Every character counted by `TrailingWhitespace` is whitespace. */
  lemma {:induction false} TrailingWhitespaceSpan(s: string)
    ensures forall i :: |s| - TrailingWhitespace(s) <= i < |s| ==> IsWhitespace(s[i])
  {
    if s != [] && IsWhitespace(s[|s| - 1]) {
      var front := s[..|s| - 1];
      TrailingWhitespaceSpan(front);
      forall i | |s| - TrailingWhitespace(s) <= i < |s| - 1 ensures IsWhitespace(s[i]) {
        assert s[i] == front[i];
      }
    }
  }

  /**
   * `s.trim()`: `s` without its leading and trailing whitespace. The result is
   * the slice of `s` that starts after the leading whitespace, and it neither
   * starts nor ends with whitespace.
   */
  function Trim(s: string): (r: string)
    ensures LeadingWhitespace(s) + |r| <= |s|
    ensures r == s[LeadingWhitespace(s)..LeadingWhitespace(s) + |r|]
    ensures r != [] ==> !IsWhitespace(r[0]) && !IsWhitespace(r[|r| - 1])
  {
    var a := LeadingWhitespace(s);
    TrailingWhitespaceSpan(s);
    if a == |s| then "" else s[a..|s| - TrailingWhitespace(s)]
  }

  /**
   * What `Trim` removes is whitespace: everything before and after the result,
   * and the result is empty exactly when all of `s` is whitespace.
   */
  lemma TrimSpan(s: string)
    ensures forall i :: 0 <= i < LeadingWhitespace(s) ==> IsWhitespace(s[i])
    ensures forall i :: LeadingWhitespace(s) + |Trim(s)| <= i < |s| ==> IsWhitespace(s[i])
    ensures Trim(s) == [] <==> forall i :: 0 <= i < |s| ==> IsWhitespace(s[i])
  {
    LeadingWhitespaceSpan(s);
    TrailingWhitespaceSpan(s);
  }

  /** A string is its whitespace prefix, its trimmed middle and its whitespace suffix. */
  lemma TrimPieces(s: string) returns (u: string, v: string)
    ensures s == u + (Trim(s) + v)
    ensures forall i :: 0 <= i < |u| ==> IsWhitespace(u[i])
    ensures forall i :: 0 <= i < |v| ==> IsWhitespace(v[i])
  {
    var a, t := LeadingWhitespace(s), Trim(s);
    u, v := s[..a], s[a + |t|..];
    SliceThree(s, a, a + |t|);
    TrimSpan(s);
    assert forall i :: 0 <= i < |u| ==> u[i] == s[i];
    assert forall i :: 0 <= i < |v| ==> v[i] == s[a + |t| + i];
  }

  /** Cutting a string at two points and putting the pieces back together gives the string. */
  lemma SliceThree(s: string, i: nat, j: nat)
    requires i <= j <= |s|
    ensures s == s[..i] + (s[i..j] + s[j..])
  {
    assert s[i..] == s[i..j] + s[j..];
    assert s == s[..i] + s[i..];
  }

  /** Trimming a string that neither starts nor ends with whitespace changes nothing. */
  lemma TrimNoop(s: string)
    requires s != [] ==> !IsWhitespace(s[0]) && !IsWhitespace(s[|s| - 1])
    ensures Trim(s) == s
  {
    if s != [] {
      assert LeadingWhitespace(s) == 0;
      assert !IsWhitespace(s[|s| - 1]);
    }
  }

  /** `trim` is idempotent. */
  lemma TrimIdempotent(s: string)
    ensures Trim(Trim(s)) == Trim(s)
  {
    TrimNoop(Trim(s));
  }

  /** Trimming never introduces a character: a character absent from `s` is absent from `Trim(s)`. */
  lemma TrimKeepsAbsent(s: string, c: char)
    requires c !in s
    ensures c !in Trim(s)
  {
    var a := LeadingWhitespace(s);
    var r := Trim(s);
    forall i | 0 <= i < |r|
      ensures r[i] != c
    {
      assert r[i] == s[a + i];
    }
  }

  /** `Trim` is determined by where its result sits: whitespace before `a`, whitespace from `b` on, non-whitespace ends. */
  lemma TrimAt(s: string, a: nat, b: nat)
    requires a <= b <= |s|
    requires forall i :: 0 <= i < a ==> IsWhitespace(s[i])
    requires forall i :: b <= i < |s| ==> IsWhitespace(s[i])
    requires a < b ==> !IsWhitespace(s[a]) && !IsWhitespace(s[b - 1])
    ensures Trim(s) == s[a..b]
  {
    TrimSpan(s);
    if a == b {
      assert forall i :: 0 <= i < |s| ==> IsWhitespace(s[i]) by {
        forall i | 0 <= i < |s| ensures IsWhitespace(s[i]) {
          if i < a { } else { assert b <= i; }
        }
      }
    } else {
      assert LeadingWhitespace(s) == a;
      assert |Trim(s)| == b - a;
    }
  }

  /** Whitespace in front of a string does not change its trim. */
  lemma TrimWhitespacePrefix(w: string, x: string)
    requires forall i :: 0 <= i < |w| ==> IsWhitespace(w[i])
    ensures Trim(w + x) == Trim(x)
  {
    var s := w + x;
    var a := LeadingWhitespace(x);
    var t := Trim(x);
    TrimSpan(x);
    forall i | 0 <= i < |w| + a ensures IsWhitespace(s[i]) {
      if i < |w| { assert s[i] == w[i]; } else { assert s[i] == x[i - |w|]; }
    }
    forall i | |w| + a + |t| <= i < |s| ensures IsWhitespace(s[i]) {
      assert s[i] == x[i - |w|];
    }
    assert s[|w| + a..|w| + a + |t|] == x[a..a + |t|];
    TrimAt(s, |w| + a, |w| + a + |t|);
  }

  /** Whitespace after a string does not change its trim. */
  lemma TrimWhitespaceSuffix(x: string, w: string)
    requires forall i :: 0 <= i < |w| ==> IsWhitespace(w[i])
    ensures Trim(x + w) == Trim(x)
  {
    var s := x + w;
    var a := LeadingWhitespace(x);
    var t := Trim(x);
    TrimSpan(x);
    forall i | 0 <= i < a ensures IsWhitespace(s[i]) {
      assert s[i] == x[i];
    }
    forall i | a + |t| <= i < |s| ensures IsWhitespace(s[i]) {
      if i < |x| { assert s[i] == x[i]; } else { assert s[i] == w[i - |x|]; }
    }
    assert s[a..a + |t|] == x[a..a + |t|];
    TrimAt(s, a, a + |t|);
  }

  // ---------------------------------------------------------------------------
  // Split and join on one character
  // ---------------------------------------------------------------------------

  /** `parts.join(sep)`. */
  function Join(parts: seq<string>, sep: char): string
  {
    if parts == [] then ""
    else if |parts| == 1 then parts[0]
    else parts[0] + [sep] + Join(parts[1..], sep)
  }

  /**
   * `s.split(sep)` for a one-character separator: the maximal separator-free
   * pieces of `s`, in order. There is always at least one piece, and there is
   * exactly one (`s` itself) when `sep` does not occur in `s`.
   */
  function Split(s: string, sep: char): (parts: seq<string>)
    ensures |parts| >= 1
  {
    if s == [] then [""]
    else
      var rest := Split(s[1..], sep);
      if s[0] == sep then [""] + rest
      else [[s[0]] + rest[0]] + rest[1..]
  }

  /** The pieces of `s.split(sep)` are separator-free. */
  lemma {:induction false} SplitPartsSepFree(s: string, sep: char)
    ensures forall i :: 0 <= i < |Split(s, sep)| ==> sep !in Split(s, sep)[i]
    decreases |s|
  {
    if s != [] {
      var rest := Split(s[1..], sep);
      SplitPartsSepFree(s[1..], sep);
      var parts := Split(s, sep);
      if s[0] == sep {
        assert forall i :: 1 <= i < |parts| ==> parts[i] == rest[i - 1];
      } else {
        assert parts[0] == [s[0]] + rest[0];
        assert forall i :: 1 <= i < |parts| ==> parts[i] == rest[i];
      }
    }
  }

  /** The pieces of `s.split(sep)` join back to `s`. */
  lemma {:induction false} JoinSplit(s: string, sep: char)
    ensures Join(Split(s, sep), sep) == s
    decreases |s|
  {
    if s != [] {
      var rest := Split(s[1..], sep);
      JoinSplit(s[1..], sep);
      assert s == [s[0]] + s[1..];
      if s[0] != sep {
        var parts := [[s[0]] + rest[0]] + rest[1..];
        assert parts[1..] == rest[1..];
        if |rest| == 1 {
          assert Join(parts, sep) == [s[0]] + rest[0];
        }
      }
    }
  }

  /** `s.split(sep)` has a single piece exactly when `sep` does not occur in `s`. */
  lemma {:induction false} SplitOnePart(s: string, sep: char)
    ensures |Split(s, sep)| == 1 <==> sep !in s
    decreases |s|
  {
    if s != [] {
      SplitOnePart(s[1..], sep);
      assert s == [s[0]] + s[1..];
    }
  }

  /** Joining a separator-free sequence puts a separator in the result exactly when there are two or more parts. */
  lemma JoinContainsSep(parts: seq<string>, sep: char)
    requires |parts| >= 1
    requires forall i :: 0 <= i < |parts| ==> sep !in parts[i]
    ensures sep in Join(parts, sep) <==> |parts| >= 2
  {
    if |parts| >= 2 {
      assert Join(parts, sep)[|parts[0]|] == sep;
    }
  }

  /** The first piece of a join is everything before the first separator. */
  lemma JoinFirst(parts: seq<string>, sep: char)
    requires |parts| >= 2
    requires forall i :: 0 <= i < |parts| ==> sep !in parts[i]
    ensures |parts[0]| < |Join(parts, sep)|
    ensures Join(parts, sep)[..|parts[0]|] == parts[0]
    ensures Join(parts, sep)[|parts[0]|] == sep
    ensures Join(parts, sep)[|parts[0]| + 1..] == Join(parts[1..], sep)
  {
    var s := Join(parts, sep);
    assert s == parts[0] + ([sep] + Join(parts[1..], sep));
  }

  /** In a join of separator-free parts, the first separator sits right after the first part. */
  lemma JoinFirstSep(parts: seq<string>, sep: char)
    requires |parts| >= 2
    requires forall i :: 0 <= i < |parts| ==> sep !in parts[i]
    ensures IndexOf(Join(parts, sep), [sep]) == Some(|parts[0]|)
  {
    var s := Join(parts, sep);
    JoinFirst(parts, sep);
    assert OccursAt([sep], s, |parts[0]|);
    forall j: nat | j < |parts[0]|
      ensures !OccursAt([sep], s, j)
    {
      assert s[j] == parts[0][j];
      assert s[j..j + 1] == [s[j]];
    }
  }

  /** A sequence of separator-free strings is determined by its join. */
  lemma {:induction false} JoinInjective(p: seq<string>, q: seq<string>, sep: char)
    requires |p| >= 1 && |q| >= 1
    requires forall i :: 0 <= i < |p| ==> sep !in p[i]
    requires forall i :: 0 <= i < |q| ==> sep !in q[i]
    requires Join(p, sep) == Join(q, sep)
    ensures p == q
    decreases |p|
  {
    var s := Join(p, sep);
    JoinContainsSep(p, sep);
    JoinContainsSep(q, sep);
    if |p| >= 2 {
      assert |q| >= 2;
      JoinFirst(p, sep);
      JoinFirst(q, sep);
      JoinFirstSep(p, sep);
      JoinFirstSep(q, sep);
      assert p[0] == q[0];
      JoinInjective(p[1..], q[1..], sep);
      assert p == [p[0]] + p[1..];
      assert q == [q[0]] + q[1..];
    }
  }

  /** Splitting undoes joining, for separator-free parts. */
  lemma SplitJoin(parts: seq<string>, sep: char)
    requires |parts| >= 1
    requires forall i :: 0 <= i < |parts| ==> sep !in parts[i]
    ensures Split(Join(parts, sep), sep) == parts
  {
    SplitPartsSepFree(Join(parts, sep), sep);
    JoinSplit(Join(parts, sep), sep);
    JoinInjective(Split(Join(parts, sep), sep), parts, sep);
  }

  /** Appending one more part to a join appends a separator and that part. */
  lemma {:induction false} JoinAppend(parts: seq<string>, x: string, sep: char)
    requires |parts| >= 1
    ensures Join(parts + [x], sep) == Join(parts, sep) + [sep] + x
    decreases |parts|
  {
    var ps := parts + [x];
    if |parts| == 1 {
      assert ps[1..] == [x];
    } else {
      assert ps[1..] == parts[1..] + [x];
      JoinAppend(parts[1..], x, sep);
    }
  }

  /** Appending a separator and a separator-free tail to `s` appends that tail as one more piece of the split. */
  lemma SplitAppend(s: string, x: string, sep: char)
    requires sep !in x
    ensures Split(s + [sep] + x, sep) == Split(s, sep) + [x]
  {
    var parts := Split(s, sep) + [x];
    SplitPartsSepFree(s, sep);
    JoinSplit(s, sep);
    assert forall i :: 0 <= i < |parts| - 1 ==> parts[i] == Split(s, sep)[i];
    JoinAppend(Split(s, sep), x, sep);
    SplitJoin(parts, sep);
  }

  /** Appending a non-separator character extends the last piece of the split. */
  lemma {:induction false} JoinExtendLast(parts: seq<string>, c: char, sep: char)
    requires |parts| >= 1
    ensures Join(parts[..|parts| - 1] + [parts[|parts| - 1] + [c]], sep) == Join(parts, sep) + [c]
    decreases |parts|
  {
    var n := |parts|;
    var q := parts[..n - 1] + [parts[n - 1] + [c]];
    if n > 1 {
      var rest := parts[1..];
      assert q[1..] == rest[..|rest| - 1] + [rest[|rest| - 1] + [c]];
      JoinExtendLast(rest, c, sep);
    }
  }

  /** Splitting `s` followed by one extra character. */
  lemma SplitSnoc(s: string, c: char, sep: char)
    ensures c == sep ==> Split(s + [c], sep) == Split(s, sep) + [""]
    ensures c != sep ==>
      var p := Split(s, sep);
      Split(s + [c], sep) == p[..|p| - 1] + [p[|p| - 1] + [c]]
  {
    var p := Split(s, sep);
    if c == sep {
      SplitAppend(s, "", sep);
      assert s + [c] == s + [sep] + "";
    } else {
      var q := p[..|p| - 1] + [p[|p| - 1] + [c]];
      SplitPartsSepFree(s, sep);
      SplitPartsSepFree(s + [c], sep);
      JoinSplit(s, sep);
      JoinSplit(s + [c], sep);
      JoinExtendLast(p, c, sep);
      assert forall i :: 0 <= i < |q| - 1 ==> q[i] == p[i];
      JoinInjective(Split(s + [c], sep), q, sep);
    }
  }

  // ---------------------------------------------------------------------------
  // Searching
  // ---------------------------------------------------------------------------

  /** `w` occurs in `s` starting at index `i`. */
  predicate OccursAt(w: string, s: string, i: nat) {
    i + |w| <= |s| && s[i..i + |w|] == w
  }

  /** `w` is a contiguous piece of `s`. */
  ghost predicate IsSubstring(w: string, s: string) {
    exists i: nat :: OccursAt(w, s, i)
  }

  /** Being a substring is transitive. */
  lemma SubstringTrans(u: string, v: string, w: string)
    requires IsSubstring(u, v) && IsSubstring(v, w)
    ensures IsSubstring(u, w)
  {
    var i: nat :| OccursAt(u, v, i);
    var j: nat :| OccursAt(v, w, j);
    forall k | 0 <= k < |u| ensures w[j + i + k] == u[k] {
      assert u[k] == v[i + k];
      assert v[i + k] == w[j + i + k];
    }
    assert w[j + i..j + i + |u|] == u;
    assert OccursAt(u, w, j + i);
  }

  /** The trim of `s` is a substring of `s`. */
  lemma TrimIsSubstring(s: string)
    ensures IsSubstring(Trim(s), s)
  {
    assert OccursAt(Trim(s), s, LeadingWhitespace(s));
  }

  /** A character absent from `s` is absent from every substring of `s`. */
  lemma AbsentFromSubstring(w: string, s: string, c: char)
    requires IsSubstring(w, s) && c !in s
    ensures c !in w
  {
    var i: nat :| OccursAt(w, s, i);
    forall k | 0 <= k < |w| ensures w[k] != c {
      assert w[k] == s[i + k];
    }
  }

  /** Every part of a join is a substring of it. */
  lemma {:induction false} JoinPartIsSubstring(parts: seq<string>, k: nat, sep: char)
    requires k < |parts|
    ensures IsSubstring(parts[k], Join(parts, sep))
    decreases |parts|
  {
    var s := Join(parts, sep);
    if |parts| == 1 {
      assert OccursAt(parts[0], s, 0);
    } else {
      assert s == parts[0] + [sep] + Join(parts[1..], sep);
      if k == 0 {
        assert OccursAt(parts[0], s, 0);
      } else {
        JoinPartIsSubstring(parts[1..], k - 1, sep);
        var i: nat :| OccursAt(parts[k], Join(parts[1..], sep), i);
        assert OccursAt(parts[k], s, |parts[0]| + 1 + i);
      }
    }
  }

  /** `s.startsWith(p)`. */
  predicate StartsWith(s: string, p: string) {
    OccursAt(p, s, 0)
  }

  /** The first index at or after `from` where `w` occurs in `s`. */
  function IndexOfFrom(s: string, w: string, from: nat): (r: Option<nat>)
    requires from <= |s|
    ensures r.Some? ==> from <= r.value && OccursAt(w, s, r.value)
    ensures forall j :: from <= j && (r.None? || j < r.value) ==> !OccursAt(w, s, j)
    decreases |s| - from
  {
    if OccursAt(w, s, from) then Some(from)
    else if from == |s| then None
    else IndexOfFrom(s, w, from + 1)
  }

  /** `s.indexOf(w)`: the first index where `w` occurs in `s`, or `None` where JavaScript answers -1. */
  function IndexOf(s: string, w: string): (r: Option<nat>)
    ensures r.Some? ==> OccursAt(w, s, r.value)
    ensures forall j: nat :: (r.None? || j < r.value) ==> !OccursAt(w, s, j)
  {
    IndexOfFrom(s, w, 0)
  }

  /** `s.includes(w)`. */
  predicate Includes(s: string, w: string) {
    IndexOf(s, w).Some?
  }

  /** `includes` holds exactly when some index is an occurrence. */
  lemma IncludesIff(s: string, w: string)
    ensures Includes(s, w) <==> exists j: nat :: OccursAt(w, s, j)
  {
    if Includes(s, w) {
      assert OccursAt(w, s, IndexOf(s, w).value);
    }
  }

  /** `s.replace(w, with)` with a string pattern: only the first occurrence is replaced. */
  function ReplaceFirst(s: string, w: string, with: string): (r: string)
    ensures IndexOf(s, w).None? ==> r == s
    ensures IndexOf(s, w).Some? ==>
      var k := IndexOf(s, w).value; r == s[..k] + with + s[k + |w|..]
  {
    match IndexOf(s, w)
    case None => s
    case Some(k) => s[..k] + with + s[k + |w|..]
  }

  /** Replacing the first occurrence with nothing removes the piece at that occurrence. */
  lemma RemoveFirstAt(s: string, w: string, k: nat)
    requires IndexOf(s, w) == Some(k)
    ensures ReplaceFirst(s, w, "") == s[..k] + s[k + |w|..]
  {
    assert s[..k] + "" == s[..k];
  }

  // ---------------------------------------------------------------------------
  // Case
  // ---------------------------------------------------------------------------

  /** Lower-cases an ASCII capital letter and leaves every other character alone. */
  function LowerChar(c: char): (r: char)
    ensures 'A' <= c <= 'Z' ==> 'a' <= r <= 'z'
    ensures !('A' <= c <= 'Z') ==> r == c
  {
    if 'A' <= c <= 'Z' then (c as int - 'A' as int + 'a' as int) as char else c
  }

  /** `s.toLowerCase()`, restricted to the ASCII letters. */
  function ToLower(s: string): (r: string)
    ensures |r| == |s|
    ensures forall i :: 0 <= i < |s| ==> r[i] == LowerChar(s[i])
  {
    seq(|s|, i requires 0 <= i < |s| => LowerChar(s[i]))
  }

  // ---------------------------------------------------------------------------
  // Decimal numerals
  // ---------------------------------------------------------------------------

  predicate IsDigit(c: char) {
    '0' <= c <= '9'
  }

  function DigitChar(d: nat): (c: char)
    requires d < 10
    ensures IsDigit(c)
  {
    ('0' as int + d) as char
  }

  function DigitValue(c: char): (d: nat)
    requires IsDigit(c)
    ensures d < 10 && DigitChar(d) == c
  {
    c as int - '0' as int
  }

  /** The decimal numeral of `n`: non-empty, all digits, and no leading zero except for "0" itself. */
  function NatToString(n: nat): (r: string)
    ensures r != []
    ensures forall i :: 0 <= i < |r| ==> IsDigit(r[i])
    ensures r[0] == '0' ==> n == 0 && r == "0"
  {
    if n < 10 then [DigitChar(n)] else NatToString(n / 10) + [DigitChar(n % 10)]
  }

  /** The value of a string of decimal digits. */
  function ParseNat(s: string): nat
    requires forall i :: 0 <= i < |s| ==> IsDigit(s[i])
  {
    if s == [] then 0 else ParseNat(s[..|s| - 1]) * 10 + DigitValue(s[|s| - 1])
  }

  /** Reading back a rendered natural number gives the number. */
  lemma {:induction false} ParseNatToString(n: nat)
    ensures ParseNat(NatToString(n)) == n
  {
    var r := NatToString(n);
    if n >= 10 {
      assert r[..|r| - 1] == NatToString(n / 10);
      ParseNatToString(n / 10);
    }
  }

  /** Different numbers have different numerals. */
  lemma NatToStringInjective(m: nat, n: nat)
    requires NatToString(m) == NatToString(n)
    ensures m == n
  {
    ParseNatToString(m);
    ParseNatToString(n);
  }

  /** `String(i)` / `${i}` for an integer: a minus sign before the numeral of a negative value. */
  function IntToString(i: int): (r: string)
    ensures i >= 0 ==> r == NatToString(i)
    ensures i < 0 ==> r == "-" + NatToString(-i)
  {
    if i < 0 then "-" + NatToString(-i) else NatToString(i)
  }

  // ---------------------------------------------------------------------------
  // Hexadecimal digits
  // ---------------------------------------------------------------------------

  /** A lowercase hexadecimal digit, as JavaScript's `toString(16)` writes it. */
  function HexDigit(d: nat): (c: char)
    requires d < 16
  {
    if d < 10 then ('0' as int + d) as char else ('a' as int + d - 10) as char
  }

  /** The value of a hexadecimal digit of either case, if `c` is one. */
  function HexValue(c: char): (r: Option<nat>)
    ensures r.Some? ==> r.value < 16
  {
    if '0' <= c <= '9' then Some(c as int - '0' as int)
    else if 'a' <= c <= 'f' then Some(c as int - 'a' as int + 10)
    else if 'A' <= c <= 'F' then Some(c as int - 'A' as int + 10)
    else None
  }

  /** Reading a written hexadecimal digit gives its value. */
  lemma HexDigitValue(d: nat)
    requires d < 16
    ensures HexValue(HexDigit(d)) == Some(d)
  {
  }
}
