/** String helpers shared by the model: JavaScript-style `join` and `split`,
    replacement of one character, decimal rendering of naturals, whitespace
    trimming (JavaScript `trim` and Python `strip`) and Python's `str.split()`. */
module Text {

  /** `parts.join(sep)`: the parts separated by `sep`; no parts give "". */
  function Join(parts: seq<string>, sep: string): string
    decreases |parts|
  {
    if |parts| == 0 then ""
    else if |parts| == 1 then parts[0]
    else Join(parts[..|parts| - 1], sep) + sep + parts[|parts| - 1]
  }

  /** `parts.join('')`. */
  function Concat(parts: seq<string>): string
  {
    Join(parts, "")
  }

  /** Joining a non-empty tail after a head puts one separator between them. */
  lemma {:induction false} JoinCons(head: string, rest: seq<string>, sep: string)
    requires |rest| > 0
    ensures Join([head] + rest, sep) == head + sep + Join(rest, sep)
    decreases |rest|
  {
    var all := [head] + rest;
    if |rest| == 1 {
      assert all[..1] == [head];
    } else {
      assert all[..|all| - 1] == [head] + rest[..|rest| - 1];
      JoinCons(head, rest[..|rest| - 1], sep);
    }
  }

  /** A prefix one longer ends with the next element. */
  lemma PrefixGrows<T>(s: seq<T>, i: nat)
    requires i < |s|
    ensures s[..i + 1] == s[..i] + [s[i]]
  {
  }

  lemma HeadOfPrefix<T>(s: seq<T>, m: nat)
    requires 0 < m <= |s|
    ensures s[..m] == [s[0]] + s[1..][..m - 1]
  {
  }

  lemma WholePrefix<T>(s: seq<T>)
    ensures s[..|s|] == s
  {
  }

  /** Dropping what was appended gives back the sequence. */
  lemma ButLastOfAppend<T>(s: seq<T>, x: T)
    ensures (s + [x])[..|s|] == s
  {
  }

  lemma EmptyAppend<T>(s: seq<T>)
    ensures [] + s == s
  {
  }

  lemma AppendEmpty<T>(s: seq<T>)
    ensures s + [] == s
  {
  }

  lemma AppendAssoc<T>(a: seq<T>, b: seq<T>, c: seq<T>)
    ensures a + (b + c) == (a + b) + c
  {
  }

  /** The two halves of a concatenation can be read back from it. */
  lemma HalvesOfAppend<T>(s: seq<T>, t: seq<T>)
    ensures (s + t)[..|s|] == s && (s + t)[|s|..] == t
  {
  }

  /** A common prefix can be cancelled. */
  lemma CancelPrefix<T>(p: seq<T>, s: seq<T>, t: seq<T>)
    requires p + s == p + t
    ensures s == t
  {
    HalvesOfAppend(p, s);
    HalvesOfAppend(p, t);
  }

  /** Joining with "" is associative over an appended part. */
  lemma ConcatAppend(parts: seq<string>, last: string)
    ensures Concat(parts + [last]) == Concat(parts) + last
  {
    ButLastOfAppend(parts, last);
  }

  /** The concatenation of a prefix one longer ends with the next part. */
  lemma ConcatPrefix(parts: seq<string>, i: nat)
    requires i < |parts|
    ensures Concat(parts[..i + 1]) == Concat(parts[..i]) + parts[i]
  {
    PrefixGrows(parts, i);
    ConcatAppend(parts[..i], parts[i]);
  }

  lemma ConcatThree(a: string, b: string, c: string)
    ensures Concat([a, b, c]) == a + b + c
  {
    assert [a, b, c][..2] == [a, b];
    assert [a, b][..1] == [a];
    assert Join([a], "") == a;
    assert Join([a, b], "") == a + b;
  }

  /** Concat distributes over sequence concatenation. */
  lemma {:induction false} ConcatSplit(a: seq<string>, b: seq<string>)
    ensures Concat(a + b) == Concat(a) + Concat(b)
    decreases |b|
  {
    if |b| == 0 {
      assert a + b == a;
    } else {
      var b' := b[..|b| - 1];
      assert a + b == (a + b') + [b[|b| - 1]];
      assert b == b' + [b[|b| - 1]];
      ConcatAppend(a + b', b[|b| - 1]);
      ConcatAppend(b', b[|b| - 1]);
      ConcatSplit(a, b');
    }
  }

  /** `s.split(sep)` for a non-empty separator: occurrences of `sep` are found
      left to right without overlap; the result always has at least one part. */
  function Split(s: string, sep: string): (r: seq<string>)
    requires |sep| > 0
    ensures |r| >= 1
    decreases |s|
  {
    if |s| < |sep| then [s]
    else if s[..|sep|] == sep then [""] + Split(s[|sep|..], sep)
    else
      var rest := Split(s[1..], sep);
      [[s[0]] + rest[0]] + rest[1..]
  }

  /** Splitting and joining back with the same separator restores the text. */
  lemma {:induction false} JoinSplit(s: string, sep: string)
    requires |sep| > 0
    ensures Join(Split(s, sep), sep) == s
    decreases |s|
  {
    if |s| < |sep| {
    } else if s[..|sep|] == sep {
      var rest := Split(s[|sep|..], sep);
      JoinSplit(s[|sep|..], sep);
      assert Split(s, sep) == [""] + rest;
      JoinCons("", rest, sep);
      assert s == s[..|sep|] + s[|sep|..];
    } else {
      JoinSplit(s[1..], sep);
      JoinPrepend(s[0], Split(s[1..], sep), sep);
      assert s == [s[0]] + s[1..];
    }
  }

  /** A character absent from the text is absent from every part of it. */
  lemma {:induction false} SplitPartsAvoid(s: string, sep: string, c: char)
    requires |sep| > 0 && c !in s
    ensures forall k :: 0 <= k < |Split(s, sep)| ==> c !in Split(s, sep)[k]
    decreases |s|
  {
    if |s| < |sep| {
    } else if s[..|sep|] == sep {
      assert c !in s[|sep|..] by {
        forall j | 0 <= j < |s| - |sep| ensures s[|sep|..][j] != c {
          assert s[|sep|..][j] == s[|sep| + j];
        }
      }
      SplitPartsAvoid(s[|sep|..], sep, c);
    } else {
      assert c !in s[1..] by {
        forall j | 0 <= j < |s| - 1 ensures s[1..][j] != c {
          assert s[1..][j] == s[1 + j];
        }
      }
      SplitPartsAvoid(s[1..], sep, c);
      var rest := Split(s[1..], sep);
      assert c !in [s[0]] + rest[0];
    }
  }

  /** The first part is the text up to the first separator: a prefix. */
  lemma {:induction false} SplitFirstIsPrefix(s: string, sep: string)
    requires |sep| > 0
    ensures |Split(s, sep)[0]| <= |s| && s[..|Split(s, sep)[0]|] == Split(s, sep)[0]
    decreases |s|
  {
    if |s| >= |sep| && s[..|sep|] != sep {
      SplitFirstIsPrefix(s[1..], sep);
      var first := Split(s[1..], sep)[0];
      assert s[..1 + |first|] == [s[0]] + s[1..][..|first|];
    }
  }

  /** The cuts are made leftmost first: with more than one part, the first
      part ends at the first occurrence of the separator and the remaining
      parts are the split of what follows it; with one part, the text holds
      no occurrence at all and is that part. */
  lemma {:induction false} SplitLeftmost(s: string, sep: string)
    requires |sep| > 0
    ensures var r := Split(s, sep);
      |r| > 1 ==>
        OccursAt(s, sep, |r[0]|) &&
        (forall j :: 0 <= j < |r[0]| ==> !OccursAt(s, sep, j)) &&
        r[1..] == Split(s[|r[0]| + |sep|..], sep)
    ensures var r := Split(s, sep);
      |r| == 1 ==> r[0] == s && forall j :: !OccursAt(s, sep, j)
  {
    SplitCutsLeftmost(s, sep);
  }

  /** `SplitLeftmost` by induction on the text, through `CutLeftmost`. */
  lemma {:induction false} SplitCutsLeftmost(s: string, sep: string)
    requires |sep| > 0
    ensures CutLeftmost(s, sep, Split(s, sep))
    decreases |s|
  {
    if |s| < |sep| {
    } else if s[..|sep|] == sep {
      assert Split(s, sep)[1..] == Split(s[|sep|..], sep);
    } else {
      SplitCutsLeftmost(s[1..], sep);
      LeftmostStep(s, sep, Split(s[1..], sep));
    }
  }

  /** What `SplitLeftmost` states of the parts `r` of `s`. */
  ghost predicate CutLeftmost(s: string, sep: string, r: seq<string>)
    requires |sep| > 0 && |r| >= 1
  {
    (|r| > 1 ==>
      OccursAt(s, sep, |r[0]|) &&
      (forall j :: 0 <= j < |r[0]| ==> !OccursAt(s, sep, j)) &&
      |r[0]| + |sep| <= |s| && r[1..] == Split(s[|r[0]| + |sep|..], sep)) &&
    (|r| == 1 ==> r[0] == s && forall j :: !OccursAt(s, sep, j))
  }

  /** The step of `SplitLeftmost` where the text does not open with the
      separator, so its first character joins the first part. */
  lemma LeftmostStep(s: string, sep: string, rest: seq<string>)
    requires |sep| > 0 && |s| >= |sep| && s[..|sep|] != sep
    requires |rest| >= 1 && CutLeftmost(s[1..], sep, rest)
    ensures CutLeftmost(s, sep, [[s[0]] + rest[0]] + rest[1..])
  {
    var r := [[s[0]] + rest[0]] + rest[1..];
    forall j | 0 < j ensures OccursAt(s, sep, j) <==> OccursAt(s[1..], sep, j - 1) {
      OccursAfterFirst(s, sep, j);
    }
    if |rest| > 1 {
      var m := |rest[0]|;
      assert s[1..][m + |sep|..] == s[m + 1 + |sep|..];
      assert r[1..] == rest[1..];
    } else {
      assert [s[0]] + s[1..] == s;
    }
  }

  /** A text that holds no occurrence of the separator before the one that
      follows it is cut there first. */
  lemma {:induction false} SplitAfterPart(a: string, sep: string, rest: string)
    requires |sep| > 0
    requires forall j :: 0 <= j < |a| ==> !OccursAt(a + sep + rest, sep, j)
    ensures Split(a + sep + rest, sep) == [a] + Split(rest, sep)
    decreases |a|
  {
    var s := a + sep + rest;
    if |a| == 0 {
      assert s[..|sep|] == sep && s[|sep|..] == rest;
    } else {
      assert !OccursAt(s, sep, 0);
      assert s[..|sep|] != sep;
      var t := a[1..] + sep + rest;
      assert s[1..] == t;
      forall j | 0 <= j < |a| - 1 ensures !OccursAt(t, sep, j) {
        OccursAfterFirst(s, sep, j + 1);
      }
      SplitAfterPart(a[1..], sep, rest);
      assert [s[0]] + a[1..] == a;
    }
  }

  /** An occurrence inside a piece of a text is an occurrence in the text. */
  lemma OccursWithin(s: string, piece: string, t: string, k: int, j: int)
    requires OccursAt(s, piece, k) && OccursAt(piece, t, j)
    ensures OccursAt(s, t, k + j)
  {
    forall i | 0 <= i < |t| ensures s[k + j + i] == t[i] {
      assert t[i] == piece[j..j + |t|][i] == piece[j + i];
      assert piece[j + i] == s[k..k + |piece|][j + i] == s[k + j + i];
    }
    assert s[k + j..k + j + |t|] == t;
  }

  /** An occurrence past the first character is one in the rest of the text. */
  lemma OccursAfterFirst(s: string, t: string, j: int)
    requires |s| > 0 && j > 0
    ensures OccursAt(s, t, j) <==> OccursAt(s[1..], t, j - 1)
  {
    if j + |t| <= |s| {
      assert s[1..][j - 1..j - 1 + |t|] == s[j..j + |t|];
    }
  }

  /** No part of the split contains the separator: every occurrence of it
      was cut. */
  lemma {:induction false} SplitPartsAvoidSeparator(s: string, sep: string)
    requires |sep| > 0
    ensures forall k, j :: 0 <= k < |Split(s, sep)| ==> !OccursAt(Split(s, sep)[k], sep, j)
    decreases |s|
  {
    var r := Split(s, sep);
    if |s| < |sep| {
    } else if s[..|sep|] == sep {
      var rest := Split(s[|sep|..], sep);
      SplitPartsAvoidSeparator(s[|sep|..], sep);
      assert r == [""] + rest;
      forall k, j | 0 <= k < |r| ensures !OccursAt(r[k], sep, j) {
        if k > 0 {
          assert r[k] == rest[k - 1];
        }
      }
    } else {
      var rest := Split(s[1..], sep);
      SplitPartsAvoidSeparator(s[1..], sep);
      SplitFirstIsPrefix(s[1..], sep);
      var first := [s[0]] + rest[0];
      assert r == [first] + rest[1..];
      forall k, j | 0 <= k < |r| ensures !OccursAt(r[k], sep, j) {
        if k > 0 {
          assert r[k] == rest[k];
        } else if j > 0 && OccursAt(first, sep, j) {
          assert first[j..j + |sep|] == rest[0][j - 1..j - 1 + |sep|];
          assert OccursAt(rest[0], sep, j - 1);
        }
      }
    }
  }

  /** Prepending a character to the first part prepends it to the join. */
  lemma JoinPrepend(c: char, parts: seq<string>, sep: string)
    requires |parts| >= 1
    ensures Join([[c] + parts[0]] + parts[1..], sep) == [c] + Join(parts, sep)
  {
    if |parts| > 1 {
      JoinCons([c] + parts[0], parts[1..], sep);
      JoinCons(parts[0], parts[1..], sep);
      assert parts == [parts[0]] + parts[1..];
    }
  }

  /** A part that is joined is a contiguous piece of the joined text. */
  predicate OccursAt(s: string, t: string, k: int)
  {
    0 <= k && k + |t| <= |s| && s[k..k + |t|] == t
  }

  /** `s.includes(t)`. */
  ghost predicate Contains(s: string, t: string)
  {
    exists k :: OccursAt(s, t, k)
  }

  /** Text kept inside a larger text stays contained. */
  lemma ContainsWithin(s: string, t: string, before: string, after: string)
    requires Contains(s, t)
    ensures Contains(before + s + after, t)
  {
    var k :| OccursAt(s, t, k);
    var all := before + s + after;
    assert all[|before| + k..|before| + k + |t|] == s[k..k + |t|];
    assert OccursAt(all, t, |before| + k);
  }

  /** Every joined part occurs in the joined text. */
  lemma {:induction false} JoinContainsPart(parts: seq<string>, sep: string, i: nat)
    requires i < |parts|
    ensures Contains(Join(parts, sep), parts[i])
    decreases |parts|
  {
    var n := |parts|;
    var j := Join(parts, sep);
    if n == 1 {
      assert OccursAt(j, parts[i], 0);
    } else if i == n - 1 {
      var front := Join(parts[..n - 1], sep) + sep;
      assert j == front + parts[i];
      assert j[|front|..|front| + |parts[i]|] == parts[i];
      assert OccursAt(j, parts[i], |front|);
    } else {
      JoinContainsPart(parts[..n - 1], sep, i);
      ContainsWithin(Join(parts[..n - 1], sep), parts[i], "", sep + parts[n - 1]);
      assert "" + Join(parts[..n - 1], sep) + (sep + parts[n - 1]) == j;
    }
  }

  /** `s.replace(/c/g, rep)` (JavaScript) and `s.replace(c, rep)` (Python) for
      a one-character pattern: every occurrence of `c` becomes `rep`. */
  function ReplaceChar(s: string, c: char, rep: string): (r: string)
    ensures c !in s ==> r == s
    ensures c !in rep ==> c !in r
    // A one-character replacement keeps the length and changes exactly the
    // occurrences of `c`.
    ensures |rep| == 1 ==> |r| == |s| && forall k :: 0 <= k < |s| ==> r[k] == (if s[k] == c then rep[0] else s[k])
    decreases |s|
  {
    if |s| == 0 then ""
    else
      var head := if s[0] == c then rep else [s[0]];
      var rest := ReplaceChar(s[1..], c, rep);
      assert |rep| == 1 ==> forall k :: 1 <= k < |s| ==> (head + rest)[k] == rest[k - 1] && s[1..][k - 1] == s[k];
      head + rest
  }

  /** Replacing a character is cutting the text at it and joining the
      pieces with the replacement. */
  lemma {:induction false} ReplaceCharJoinsSplit(s: string, c: char, rep: string)
    ensures ReplaceChar(s, c, rep) == Join(Split(s, [c]), rep)
    decreases |s|
  {
    if |s| > 0 {
      ReplaceCharJoinsSplit(s[1..], c, rep);
      ReplaceCharFirst(s, c, rep);
      SplitAtChar(s, c);
      var rest := Split(s[1..], [c]);
      if s[0] == c {
        JoinCons("", rest, rep);
      } else {
        JoinPrepend(s[0], rest, rep);
      }
    }
  }

  /** The first character of a text is replaced on its own. */
  lemma ReplaceCharFirst(s: string, c: char, rep: string)
    requires |s| > 0
    ensures ReplaceChar(s, c, rep) == (if s[0] == c then rep else [s[0]]) + ReplaceChar(s[1..], c, rep)
  {
  }

  /** Splitting at a character looks at the first character alone. */
  lemma SplitAtChar(s: string, c: char)
    requires |s| > 0
    ensures var rest := Split(s[1..], [c]);
      Split(s, [c]) == if s[0] == c then [""] + rest else [[s[0]] + rest[0]] + rest[1..]
  {
    assert s[..1] == [s[0]];
  }

  // ---------------------------------------------------------------------------
  // Decimal rendering

  predicate IsDigit(c: char)
  {
    '0' <= c <= '9'
  }

  predicate AllDigits(s: string)
  {
    forall k :: 0 <= k < |s| ==> IsDigit(s[k])
  }

  /** The length of the run of ASCII digits `s` starts with. */
  function DigitRun(s: string): (n: nat)
    ensures n <= |s| && AllDigits(s[..n])
    ensures n < |s| ==> !IsDigit(s[n])
    decreases |s|
  {
    if |s| > 0 && IsDigit(s[0]) then
      var n := 1 + DigitRun(s[1..]);
      assert s[..n] == [s[0]] + s[1..][..n - 1];
      n
    else 0
  }

  /** Digits followed by something that is not a digit: the run is exactly
      the digits. */
  lemma {:induction false} DigitRunOfDigits(d: string, rest: string)
    requires AllDigits(d) && (rest == [] || !IsDigit(rest[0]))
    ensures DigitRun(d + rest) == |d|
    decreases |d|
  {
    if d != [] {
      assert (d + rest)[1..] == d[1..] + rest;
      DigitRunOfDigits(d[1..], rest);
    }
  }

  /** A run of digits followed by a non-digit can be read back from the
      text it starts. */
  lemma DigitsThenRest(d1: string, r1: string, d2: string, r2: string)
    requires AllDigits(d1) && r1 != [] && !IsDigit(r1[0])
    requires AllDigits(d2) && r2 != [] && !IsDigit(r2[0])
    requires d1 + r1 == d2 + r2
    ensures d1 == d2 && r1 == r2
  {
    DigitRunOfDigits(d1, r1);
    DigitRunOfDigits(d2, r2);
    HalvesOfAppend(d1, r1);
    HalvesOfAppend(d2, r2);
  }

  function DigitChar(d: nat): (c: char)
    requires d < 10
    ensures IsDigit(c)
  {
    "0123456789"[d]
  }

  function DigitValue(c: char): nat
    requires IsDigit(c)
  {
    (c as int) - ('0' as int)
  }

  /** Template-literal or `str()` rendering of a natural number in decimal,
      without leading zeros. */
  function NatToString(n: nat): (r: string)
    ensures |r| >= 1 && AllDigits(r)
    ensures |r| > 1 ==> r[0] != '0'
    ensures n < 10 <==> |r| == 1
    decreases n
  {
    if n < 10 then [DigitChar(n)] else NatToString(n / 10) + [DigitChar(n % 10)]
  }

  /** The value of a string of decimal digits (the most significant first). */
  function DigitsValue(s: string): nat
    requires AllDigits(s)
    decreases |s|
  {
    if |s| == 0 then 0 else 10 * DigitsValue(s[..|s| - 1]) + DigitValue(s[|s| - 1])
  }

  /** Reading back a rendered natural gives the same natural. */
  lemma {:induction false} NatToStringRoundTrip(n: nat)
    ensures DigitsValue(NatToString(n)) == n
    decreases n
  {
    var r := NatToString(n);
    if n >= 10 {
      NatToStringRoundTrip(n / 10);
      assert r[..|r| - 1] == NatToString(n / 10);
    }
  }

  /** Distinct naturals are rendered as distinct strings. */
  lemma NatToStringInjective(a: nat, b: nat)
    requires NatToString(a) == NatToString(b)
    ensures a == b
  {
    NatToStringRoundTrip(a);
    NatToStringRoundTrip(b);
  }

  /** JavaScript `String(i)` for an integer. */
  function IntToString(i: int): (r: string)
    ensures |r| >= 1
    ensures i < 0 <==> r[0] == '-'
  {
    if i < 0 then "-" + NatToString(-i) else NatToString(i)
  }

  // ---------------------------------------------------------------------------
  // Whitespace and trimming

  /** Which language's notion of white space applies. */
  datatype Flavour = Js | Py

  /** JavaScript `String.prototype.trim` white space (WhiteSpace and
      LineTerminator) for `Js`; Python `str.isspace()` for `Py`. */
  predicate IsSpace(f: Flavour, c: char)
  {
    || c == '\t' || c == '\n' || c == '\U{000B}' || c == '\U{000C}' || c == '\r' || c == ' '
    || c == '\U{00A0}' || c == '\U{1680}' || ('\U{2000}' <= c <= '\U{200A}')
    || c == '\U{2028}' || c == '\U{2029}' || c == '\U{202F}' || c == '\U{205F}' || c == '\U{3000}'
    || (f == Js && c == '\U{FEFF}')
    || (f == Py && ('\U{001C}' <= c <= '\U{001F}' || c == '\U{0085}'))
  }

  predicate AllSpace(f: Flavour, s: string)
  {
    forall k :: 0 <= k < |s| ==> IsSpace(f, s[k])
  }

  /** `r` is what lies in `s` between a run of leading and a run of
      trailing white space. */
  predicate Between(s: string, r: string, f: Flavour)
  {
    exists i :: 0 <= i <= |s| - |r| && r == s[i..i + |r|] && AllSpace(f, s[..i]) && AllSpace(f, s[i + |r|..])
  }

  /** Drops leading white space: the result is the suffix of `s` that starts at
      its first non-space character. */
  function TrimStart(s: string, f: Flavour): (r: string)
    ensures |r| <= |s| && r == s[|s| - |r|..]
    ensures AllSpace(f, s[..|s| - |r|])
    ensures r == [] || !IsSpace(f, r[0])
    ensures r == [] <==> AllSpace(f, s)
    decreases |s|
  {
    if |s| > 0 && IsSpace(f, s[0]) then
      var r := TrimStart(s[1..], f);
      LeadingSpace(f, s, |s| - 1 - |r|);
      assert s[|s| - |r|..] == s[1..][|s| - 1 - |r|..];
      r
    else s
  }

  /** A text opening with white space is all space up to a point exactly
      when the rest of it is. */
  lemma LeadingSpace(f: Flavour, s: string, m: nat)
    requires |s| > 0 && IsSpace(f, s[0]) && m <= |s| - 1
    ensures AllSpace(f, s[..m + 1]) <==> AllSpace(f, s[1..][..m])
    ensures AllSpace(f, s) <==> AllSpace(f, s[1..])
  {
    assert s[..m + 1] == [s[0]] + s[1..][..m];
    assert s == [s[0]] + s[1..];
  }

  /** Drops trailing white space: the result is the prefix of `s` that ends at
      its last non-space character. */
  function TrimEnd(s: string, f: Flavour): (r: string)
    ensures |r| <= |s| && r == s[..|r|]
    ensures AllSpace(f, s[|r|..])
    ensures r == [] || !IsSpace(f, r[|r| - 1])
    ensures r == [] <==> AllSpace(f, s)
    decreases |s|
  {
    if |s| > 0 && IsSpace(f, s[|s| - 1]) then
      var r := TrimEnd(s[..|s| - 1], f);
      assert s[|r|..] == s[..|s| - 1][|r|..] + [s[|s| - 1]];
      r
    else s
  }

  /** JavaScript `s.trim()` (`Js`) or Python `s.strip()` (`Py`): the text is
      a contiguous piece of `s`, it neither starts nor ends with white space, and
      it is empty exactly when `s` is all white space. */
  function Trim(s: string, f: Flavour): (r: string)
    ensures |r| <= |s|
    ensures r == [] || (!IsSpace(f, r[0]) && !IsSpace(f, r[|r| - 1]))
    ensures r == [] <==> AllSpace(f, s)
  {
    var a := TrimStart(s, f);
    var r := TrimEnd(a, f);
    assert r != [] ==> r[0] == a[0];
    r
  }

  /** The trimmed text is what lies between the leading and the trailing
      white space. */
  lemma TrimBetween(s: string, f: Flavour)
    ensures Between(s, Trim(s, f), f)
  {
    TrimmedMiddle(s, f);
    assert Trim(s, f) == TrimEnd(TrimStart(s, f), f);
  }

  /** What is left once the leading and then the trailing white space are
      dropped is what lies between the two runs. */
  lemma TrimmedMiddle(s: string, f: Flavour)
    ensures Between(s, TrimEnd(TrimStart(s, f), f), f)
  {
    var a := TrimStart(s, f);
    var r := TrimEnd(a, f);
    assert |a| <= |s| && a == s[|s| - |a|..] && AllSpace(f, s[..|s| - |a|]);
    assert |r| <= |a| && r == a[..|r|] && AllSpace(f, a[|r|..]);
    MiddleOfSuffixBetween(s, a, r, f);
  }

  /** A prefix `r` of a suffix `a` of `s`, with white space only before `a`
      and after `r`, is what lies between the two runs of white space. */
  lemma MiddleOfSuffixBetween(s: string, a: string, r: string, f: Flavour)
    requires |a| <= |s| && a == s[|s| - |a|..] && AllSpace(f, s[..|s| - |a|])
    requires |r| <= |a| && r == a[..|r|] && AllSpace(f, a[|r|..])
    ensures Between(s, r, f)
  {
    MiddleOfSuffix(s, a, |r|);
    var i := |s| - |a|;
    assert r == s[i..i + |r|] && AllSpace(f, s[..i]) && AllSpace(f, s[i + |r|..]);
  }

  /** The first `n` elements of a suffix `a` of `s`, and what follows them,
      located in `s`. */
  lemma MiddleOfSuffix<T>(s: seq<T>, a: seq<T>, n: nat)
    requires |a| <= |s| && a == s[|s| - |a|..] && n <= |a|
    ensures s[|s| - |a|..|s| - |a| + n] == a[..n]
    ensures s[|s| - |a| + n..] == a[n..]
  {
  }

  /** Trimming twice is trimming once. */
  lemma TrimIdempotent(s: string, f: Flavour)
    ensures Trim(Trim(s, f), f) == Trim(s, f)
  {
    var t := Trim(s, f);
    if t != [] {
      assert TrimStart(t, f) == t;
      assert TrimEnd(t, f) == t;
    }
  }

  /** A text that neither starts nor ends with white space is its own trim. */
  lemma TrimOfTrimmed(s: string, f: Flavour)
    requires |s| > 0 && !IsSpace(f, s[0]) && !IsSpace(f, s[|s| - 1])
    ensures Trim(s, f) == s
  {
    assert TrimStart(s, f) == s;
    assert TrimEnd(s, f) == s;
  }

  // ---------------------------------------------------------------------------
  // Python str.split() with no argument

  /** Length of the leading run of non-space characters. */
  function WordLength(s: string): (n: nat)
    ensures n <= |s|
    ensures forall k :: 0 <= k < n ==> !IsSpace(Py, s[k])
    ensures n < |s| ==> IsSpace(Py, s[n])
    decreases |s|
  {
    if |s| == 0 || IsSpace(Py, s[0]) then 0 else 1 + WordLength(s[1..])
  }

  /** A word of `str.split()`: non-empty and free of white space. */
  predicate IsWord(w: string)
  {
    |w| > 0 && forall k :: 0 <= k < |w| ==> !IsSpace(Py, w[k])
  }

  /** Python `s.split()`: the maximal runs of non-space characters, in order;
      leading, trailing and repeated white space produce no empty words. */
  function SplitWords(s: string): (r: seq<string>)
    ensures r == [] <==> AllSpace(Py, s)
    decreases |s|
  {
    var t := TrimStart(s, Py);
    if t == [] then []
    else
      var n := WordLength(t);
      assert n >= 1;
      [t[..n]] + SplitWords(t[n..])
  }

  /** The words of a text read one character at a time: white space belongs
      to no word, and a non-space character joins the word of the character
      after it when that one is a non-space too, and is a word of its own
      otherwise. */
  function ScanWords(s: string): (r: seq<string>)
    ensures s != [] && !IsSpace(Py, s[0]) ==> r != []
    decreases |s|
  {
    if s == [] then []
    else
      var w := ScanWords(s[1..]);
      if IsSpace(Py, s[0]) then w
      else if |s| > 1 && !IsSpace(Py, s[1]) then [[s[0]] + w[0]] + w[1..]
      else [[s[0]]] + w
  }

  /** `str.split()` cuts exactly at the white space: its words are those
      read one character at a time. */
  lemma {:induction false} SplitWordsScans(s: string)
    ensures SplitWords(s) == ScanWords(s)
    decreases |s|
  {
    if s != [] {
      SplitWordsScans(s[1..]);
      if IsSpace(Py, s[0]) {
        assert TrimStart(s, Py) == TrimStart(s[1..], Py);
      } else if |s| > 1 && !IsSpace(Py, s[1]) {
        WordGrows(s);
      } else {
        WordOfOne(s);
      }
    }
  }

  /** A non-space character before a non-space character starts the same
      word as it. */
  lemma WordGrows(s: string)
    requires |s| > 1 && !IsSpace(Py, s[0]) && !IsSpace(Py, s[1])
    ensures SplitWords(s) == [[s[0]] + SplitWords(s[1..])[0]] + SplitWords(s[1..])[1..]
  {
    var t := s[1..];
    var n := WordLength(t);
    assert WordLength(s) == 1 + n;
    WordLeads(s);
    WordLeads(t);
    var w := SplitWords(t);
    assert w[0] == t[..n] && w[1..] == SplitWords(t[n..]);
    assert t[n..] == s[1 + n..];
    HeadOfPrefix(s, 1 + n);
  }

  /** A text that starts with a non-space character starts with its first
      word. */
  lemma WordLeads(s: string)
    requires |s| > 0 && !IsSpace(Py, s[0])
    ensures SplitWords(s) == [s[..WordLength(s)]] + SplitWords(s[WordLength(s)..])
  {
    assert TrimStart(s, Py) == s;
  }

  /** A non-space character at the end or before white space is a word of
      its own. */
  lemma WordOfOne(s: string)
    requires |s| > 0 && !IsSpace(Py, s[0]) && (|s| == 1 || IsSpace(Py, s[1]))
    ensures SplitWords(s) == [[s[0]]] + SplitWords(s[1..])
  {
    assert TrimStart(s, Py) == s;
    assert WordLength(s) == 1 && s[..1] == [s[0]];
  }

  /** Every part of `str.split()` is a non-empty run of non-space characters. */
  lemma {:induction false} SplitWordsAreWords(s: string)
    ensures forall i :: 0 <= i < |SplitWords(s)| ==> IsWord(SplitWords(s)[i])
    decreases |s|
  {
    var t := TrimStart(s, Py);
    if t != [] {
      var n := WordLength(t);
      LeadingWord(t);
      SplitWordsAreWords(t[n..]);
      var rest := SplitWords(t[n..]);
      var r := SplitWords(s);
      assert r == [t[..n]] + rest;
      forall i | 0 <= i < |r| ensures IsWord(r[i]) {
        if i > 0 {
          assert r[i] == rest[i - 1];
        }
      }
    }
  }

  /** The leading run of a text that starts with a non-space is a word. */
  lemma LeadingWord(t: string)
    requires t != [] && !IsSpace(Py, t[0])
    ensures WordLength(t) >= 1 && IsWord(t[..WordLength(t)])
  {
    var n := WordLength(t);
    forall k | 0 <= k < n ensures !IsSpace(Py, t[..n][k]) {
      assert t[..n][k] == t[k];
    }
  }
}
