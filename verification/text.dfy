/** String primitives of the JavaScript runtime that the parsers lean on:
    white space and line terminators as ECMA-262 defines them, `trim`,
    `startsWith`/`includes`, ASCII case mapping, `split('\n')` and decimal
    rendering of numbers. Strings are sequences of Unicode scalar values. */
module Text {
  import opened Seqs

  /** WhiteSpace and LineTerminator of ECMA-262: the class `\s` matches and
      `String.prototype.trim` removes. */
  predicate IsSpace(c: char) {
    || c == '\t' || c == '\n' || c == '\U{000B}' || c == '\U{000C}' || c == '\r'
    || c == ' ' || c == '\U{00A0}' || c == '\U{1680}'
    || ('\U{2000}' <= c <= '\U{200A}')
    || c == '\U{2028}' || c == '\U{2029}' || c == '\U{202F}' || c == '\U{205F}'
    || c == '\U{3000}' || c == '\U{FEFF}'
  }

  /** The characters a regular-expression `.` does not match. */
  predicate IsLineTerminator(c: char) {
    c == '\n' || c == '\r' || c == '\U{2028}' || c == '\U{2029}'
  }

  predicate IsAscii(c: char) {
    c as int < 128
  }

  predicate IsAsciiAlnum(c: char) {
    ('A' <= c <= 'Z') || ('a' <= c <= 'z') || ('0' <= c <= '9')
  }

  predicate IsDigit(c: char) {
    '0' <= c <= '9'
  }

  predicate IsNonEmpty(s: string) {
    s != ""
  }

  /** A string `trim` leaves alone. */
  predicate IsTrimmed(s: string) {
    |s| == 0 || (!IsSpace(s[0]) && !IsSpace(s[|s| - 1]))
  }

  /** Nothing but white space: what `trim()` reduces to the empty string. */
  predicate IsBlank(s: string) {
    forall i :: 0 <= i < |s| ==> IsSpace(s[i])
  }

  function TrimStart(s: string): (r: string)
    ensures |r| <= |s| && r == s[|s| - |r|..]
    ensures forall i :: 0 <= i < |s| - |r| ==> IsSpace(s[i])
    ensures |r| > 0 ==> !IsSpace(r[0])
  {
    if |s| > 0 && IsSpace(s[0]) then TrimStart(s[1..]) else s
  }

  function TrimEnd(s: string): (r: string)
    ensures |r| <= |s| && r == s[..|r|]
    ensures forall i :: |r| <= i < |s| ==> IsSpace(s[i])
    ensures |r| > 0 ==> !IsSpace(r[|r| - 1])
  {
    if |s| > 0 && IsSpace(s[|s| - 1]) then TrimEnd(s[..|s| - 1]) else s
  }

  /** `String.prototype.trim`: drops leading and trailing white space. */
  function Trim(s: string): (r: string)
    ensures IsTrimmed(r)
    ensures |r| <= |s|
    ensures forall c :: c in r ==> c in s
    ensures r == "" <==> IsBlank(s)
    ensures IsTrimmed(s) ==> r == s
  {
    var t := TrimStart(s);
    var r := TrimEnd(t);
    SliceMembers(s, |s| - |t|);
    PrefixMembers(t, |r|);
    TrimBlank(s, t, r);
    TrimOfTrimmed(s);
    r
  }

  lemma SliceMembers(s: string, i: nat)
    requires i <= |s|
    ensures forall c :: c in s[i..] ==> c in s
  {
    forall c | c in s[i..]
      ensures c in s
    {
      var k :| 0 <= k < |s[i..]| && s[i..][k] == c;
      assert s[i + k] == c;
    }
  }

  lemma PrefixMembers(s: string, n: nat)
    requires n <= |s|
    ensures forall c :: c in s[..n] ==> c in s
  {
    forall c | c in s[..n]
      ensures c in s
    {
      var k :| 0 <= k < n && s[..n][k] == c;
      assert s[k] == c;
    }
  }

  /** Trimming leaves nothing exactly when there was nothing but white space. */
  lemma TrimBlank(s: string, t: string, r: string)
    requires t == TrimStart(s) && r == TrimEnd(t)
    ensures r == "" <==> IsBlank(s)
  {
  }

  lemma TrimOfTrimmed(s: string)
    ensures IsTrimmed(s) ==> TrimEnd(TrimStart(s)) == s
  {
    if IsTrimmed(s) && |s| > 0 {
      assert TrimStart(s) == s;
    }
  }

  predicate StartsWith(s: string, prefix: string) {
    |prefix| <= |s| && s[..|prefix|] == prefix
  }

  /** A prefix survives appending. */
  lemma StartsExtended(x: string, y: string, prefix: string)
    requires StartsWith(x, prefix)
    ensures StartsWith(x + y, prefix)
  {
    assert (x + y)[..|prefix|] == x[..|prefix|];
  }

  predicate EndsWith(s: string, suffix: string) {
    |suffix| <= |s| && s[|s| - |suffix|..] == suffix
  }

  /** `String.prototype.includes`. */
  predicate Contains(s: string, part: string) {
    exists i :: 0 <= i <= |s| - |part| && OccursAt(s, part, i)
  }

  /** `part` appears in `s` starting at index `i`. */
  predicate OccursAt(s: string, part: string, i: int) {
    0 <= i && i + |part| <= |s| && s[i..i + |part|] == part
  }

  /** An occurrence, character by character. */
  lemma OccursAtChars(s: string, part: string, i: int)
    requires OccursAt(s, part, i)
    ensures forall j :: i <= j < i + |part| ==> s[j] == part[j - i]
  {
    forall j | i <= j < i + |part|
      ensures s[j] == part[j - i]
    {
      assert s[i..i + |part|][j - i] == s[j];
    }
  }

  /** A character that does not occur in `part` lies outside every
      occurrence of `part`. */
  lemma CharOutside(s: string, part: string, i: int, pos: int)
    requires OccursAt(s, part, i) && 0 <= pos < |s| && s[pos] !in part
    ensures pos < i || i + |part| <= pos
  {
    OccursAtChars(s, part, i);
    forall j | 0 <= j < |part|
      ensures part[j] in part
    {
    }
  }

  /** A sequence occurs at the end of itself appended to anything. */
  lemma OccursAtEnd(x: string, part: string)
    ensures OccursAt(x + part, part, |x|)
  {
    assert (x + part)[|x|..|x| + |part|] == part;
  }

  /** An occurrence survives appending. */
  lemma OccursExtended(x: string, y: string, part: string, i: int)
    requires OccursAt(x, part, i)
    ensures OccursAt(x + y, part, i)
  {
    assert (x + y)[i..i + |part|] == x[i..i + |part|];
  }

  /** Matching characters make an occurrence. */
  lemma CharsOccursAt(s: string, part: string, i: int)
    requires 0 <= i && i + |part| <= |s|
    requires forall j :: 0 <= j < |part| ==> s[i + j] == part[j]
    ensures OccursAt(s, part, i)
  {
    assert s[i..i + |part|] == part;
  }

  /** The characters of `a` followed by `c` and `b`. */
  lemma JoinChars(a: string, c: char, b: string)
    ensures |a + [c] + b| == |a| + 1 + |b| && (a + [c] + b)[|a|] == c
    ensures forall j :: 0 <= j < |a| ==> (a + [c] + b)[j] == a[j]
    ensures forall j :: 0 <= j < |b| ==> (a + [c] + b)[|a| + 1 + j] == b[j]
  {
  }

  /** An occurrence wholly before the joining character is one in `a`. */
  lemma OccursInHead(a: string, c: char, b: string, part: string, i: int)
    requires OccursAt(a + [c] + b, part, i) && i + |part| <= |a|
    ensures OccursAt(a, part, i)
  {
    assert (a + [c] + b)[i..i + |part|] == a[i..i + |part|];
  }

  /** An occurrence wholly after the joining character is one in `b`. */
  lemma OccursInTail(a: string, c: char, b: string, part: string, i: int)
    requires OccursAt(a + [c] + b, part, i) && i > |a|
    ensures OccursAt(b, part, i - |a| - 1)
  {
    var p := i - |a| - 1;
    assert (a + [c] + b)[i..i + |part|] == b[p..p + |part|];
  }

  /** The front of an occurrence is an occurrence. */
  lemma OccursPrefix(s: string, x: string, y: string, i: int)
    requires OccursAt(s, x + y, i)
    ensures OccursAt(s, x, i)
  {
    assert s[i..i + |x|] == s[i..i + |x + y|][..|x|];
  }

  function LowerChar(c: char): char {
    if 'A' <= c <= 'Z' then (c as int - 'A' as int + 'a' as int) as char else c
  }

  function UpperChar(c: char): char {
    if 'a' <= c <= 'z' then (c as int - 'a' as int + 'A' as int) as char else c
  }

  /** `toLowerCase` on the ASCII letters. */
  function ToLower(s: string): (r: string)
    ensures |r| == |s|
    ensures forall i :: 0 <= i < |s| ==> r[i] == LowerChar(s[i])
  {
    Map(s, LowerChar)
  }

  /** Lower-casing is idempotent: a lower-cased string has nothing left to map. */
  lemma ToLowerIdempotent(s: string)
    ensures ToLower(ToLower(s)) == ToLower(s)
  {
  }

  /** `replace(/[^\x00-\x7F]/g, "")`. */
  function StripNonAscii(s: string): (r: string)
    ensures |r| <= |s|
    ensures forall i :: 0 <= i < |r| ==> IsAscii(r[i])
    ensures |s| > 0 && IsAscii(s[0]) ==> |r| > 0 && r[0] == s[0]
  {
    FilterMembers(s, IsAscii);
    Filter(s, IsAscii)
  }

  /** `split(sep)`: the maximal sep-free pieces, empty ones included. */
  function SplitOn(s: string, sep: char): (r: seq<string>)
    ensures |r| >= 1
    ensures forall i :: 0 <= i < |r| ==> sep !in r[i]
  {
    if |s| == 0 then [""]
    else
      var rest := SplitOn(s[1..], sep);
      if s[0] == sep then [""] + rest
      else [[s[0]] + rest[0]] + rest[1..]
  }

  /** `join(sep)`, the inverse of `SplitOn`. */
  function JoinOn(parts: seq<string>, sep: char): string
    requires |parts| >= 1
  {
    if |parts| == 1 then parts[0] else parts[0] + [sep] + JoinOn(parts[1..], sep)
  }

  /** Splitting loses nothing: joining the pieces restores the text. */
  lemma {:induction false} SplitJoin(s: string, sep: char)
    ensures JoinOn(SplitOn(s, sep), sep) == s
  {
    if |s| > 0 {
      var rest := SplitOn(s[1..], sep);
      SplitJoin(s[1..], sep);
      if s[0] == sep {
        assert JoinOn([""] + rest, sep) == "" + [sep] + JoinOn(rest, sep);
      } else {
        var r := [[s[0]] + rest[0]] + rest[1..];
        if |rest| == 1 {
          assert JoinOn(r, sep) == [s[0]] + rest[0];
        } else {
          assert r[1..] == rest[1..];
          assert JoinOn(r, sep) == [s[0]] + rest[0] + [sep] + JoinOn(rest[1..], sep);
        }
      }
    }
  }

  /** Splitting a text whose first piece is `a` yields `a` and then the
      pieces of the remainder. */
  lemma {:induction false} SplitOnCons(a: string, sep: char, b: string)
    requires sep !in a
    ensures SplitOn(a + [sep] + b, sep) == [a] + SplitOn(b, sep)
  {
    if |a| == 0 {
      assert a + [sep] + b == [sep] + b;
      assert ([sep] + b)[1..] == b;
    } else {
      assert (a + [sep] + b)[1..] == a[1..] + [sep] + b;
      SplitOnCons(a[1..], sep, b);
      assert [a[0]] + a[1..] == a;
    }
  }

  /** `content.split('\n').map(line => line.trim()).filter(line => line)`. */
  function Lines(text: string): (r: seq<string>)
    ensures forall i :: 0 <= i < |r| ==> r[i] != "" && IsTrimmed(r[i]) && '\n' !in r[i]
  {
    var pieces := SplitOn(text, '\n');
    var trimmed := Map(pieces, Trim);
    var r := Filter(trimmed, IsNonEmpty);
    FilterMembers(trimmed, IsNonEmpty);
    forall i | 0 <= i < |r|
      ensures r[i] != "" && IsTrimmed(r[i]) && '\n' !in r[i]
    {
      assert r[i] in trimmed;
      var j :| 0 <= j < |trimmed| && trimmed[j] == r[i];
      assert '\n' !in pieces[j];
    }
    r
  }

  /** The lines of a text that starts with the line `a`: the trimmed `a`
      when it is not blank, followed by the lines of the rest. */
  lemma LinesCons(a: string, b: string)
    requires '\n' !in a
    ensures Lines(a + "\n" + b) == (if Trim(a) == "" then [] else [Trim(a)]) + Lines(b)
  {
    SplitOnCons(a, '\n', b);
    var rest := SplitOn(b, '\n');
    assert Map([a] + rest, Trim) == [Trim(a)] + Map(rest, Trim);
  }

  /** A line that is already trimmed and not empty is kept as it is. */
  lemma TrimmedLinesCons(a: string, b: string)
    requires '\n' !in a && a != "" && IsTrimmed(a)
    ensures Lines(a + "\n" + b) == [a] + Lines(b)
  {
    LinesCons(a, b);
  }

  /** Two trimmed lines in a row are kept as they are. */
  lemma TwoLinesCons(a: string, b: string, rest: string)
    requires '\n' !in a && a != "" && IsTrimmed(a)
    requires '\n' !in b && b != "" && IsTrimmed(b)
    ensures Lines(a + "\n" + b + "\n" + rest) == [a, b] + Lines(rest)
  {
    var tail := b + "\n" + rest;
    Regroup(a + "\n", b, "\n");
    Regroup(a + "\n", b + "\n", rest);
    TrimmedLinesCons(a, tail);
    TrimmedLinesCons(b, rest);
  }

  lemma LinesEmpty()
    ensures Lines("") == []
  {
  }

  function DigitChar(d: int): char
    requires 0 <= d < 10
  {
    ('0' as int + d) as char
  }

  /** The decimal numeral of `n`, as JavaScript's number-to-string conversion
      renders a non-negative integer. */
  function NatToString(n: nat): (r: string)
    ensures |r| > 0
    ensures forall i :: 0 <= i < |r| ==> IsDigit(r[i])
  {
    if n < 10 then [DigitChar(n)] else NatToString(n / 10) + [DigitChar(n % 10)]
  }

  /** The number a string of decimal digits denotes. */
  function DigitsValue(s: string): nat
    requires forall i :: 0 <= i < |s| ==> IsDigit(s[i])
  {
    if |s| == 0 then 0
    else
      assert IsDigit(s[|s| - 1]);
      DigitsValue(s[..|s| - 1]) * 10 + (s[|s| - 1] as int - '0' as int)
  }

  /** Reading back a rendered number gives the number. */
  lemma {:induction false} NatToStringRoundTrip(n: nat)
    ensures DigitsValue(NatToString(n)) == n
  {
    if n >= 10 {
      NatToStringRoundTrip(n / 10);
      var s := NatToString(n);
      assert s[..|s| - 1] == NatToString(n / 10);
    }
  }
}
