/**
 * The JavaScript string operations the core relies on, on `string` = `seq<char>`:
 * `split` on one separator character, `join`, `trim`, `toLowerCase` (ASCII letters),
 * `startsWith`, `endsWith`, `includes`, `padStart` and `Number.prototype.toString(radix)`
 * for non-negative integers.
 */
module Strings {
  import opened Wrappers

  // ---------------------------------------------------------------- split / join

  /** Number of occurrences of `c` in `s`. */
  function Occurrences(s: string, c: char): nat
  {
    if s == [] then 0 else (if s[0] == c then 1 else 0) + Occurrences(s[1..], c)
  }

  /** `s.split(sep)` for a one-character separator: n separators give n + 1 pieces. */
  function Split(s: string, sep: char): (r: seq<string>)
    ensures |r| == Occurrences(s, sep) + 1
    ensures forall i :: 0 <= i < |r| ==> sep !in r[i]
  {
    if s == [] then [[]]
    else
      var rest := Split(s[1..], sep);
      if s[0] == sep then [[]] + rest
      else [[s[0]] + rest[0]] + rest[1..]
  }

  /** `parts.join(sep)`. */
  function Join(parts: seq<string>, sep: string): (r: string)
  {
    if |parts| == 0 then []
    else if |parts| == 1 then parts[0]
    else parts[0] + sep + Join(parts[1..], sep)
  }

  /** `arr.pop()` on the (never empty) result of a split. */
  function Last(parts: seq<string>): (r: string)
    requires |parts| > 0
  {
    parts[|parts| - 1]
  }

  /** Joining the pieces of a split gives the string back. */
  lemma {:induction false} JoinSplit(s: string, sep: char)
    ensures Join(Split(s, sep), [sep]) == s
  {
    if s != [] {
      JoinSplit(s[1..], sep);
      var rest := Split(s[1..], sep);
      if s[0] == sep {
        assert Split(s, sep) == [[]] + rest;
        assert s == [] + [sep] + s[1..];
      } else {
        var r := Split(s, sep);
        assert r == [[s[0]] + rest[0]] + rest[1..];
        if |rest| == 1 {
          assert rest == [rest[0]];
          assert Join(rest, [sep]) == rest[0];
        } else {
          assert Join(rest, [sep]) == rest[0] + [sep] + Join(rest[1..], [sep]);
          assert r[1..] == rest[1..];
        }
      }
    }
  }

  /** Splitting a join of separator-free pieces gives the pieces back. */
  lemma {:induction false} SplitJoin(parts: seq<string>, sep: char)
    requires |parts| > 0
    requires forall i :: 0 <= i < |parts| ==> sep !in parts[i]
    ensures Split(Join(parts, [sep]), sep) == parts
  {
    if |parts| == 1 {
      SplitNoSep(parts[0], sep);
    } else {
      SplitJoin(parts[1..], sep);
      SplitConcat(parts[0], Join(parts[1..], [sep]), sep);
      assert Join(parts, [sep]) == parts[0] + ([sep] + Join(parts[1..], [sep]));
    }
  }

  /** A separator-free string splits into itself. */
  lemma {:induction false} SplitNoSep(s: string, sep: char)
    requires sep !in s
    ensures Split(s, sep) == [s]
  {
    if s != [] {
      SplitNoSep(s[1..], sep);
      assert [s[0]] + s[1..] == s;
    }
  }

  /** Splitting `a + sep + b` for a separator-free `a`. */
  lemma {:induction false} SplitConcat(a: string, b: string, sep: char)
    requires sep !in a
    ensures Split(a + ([sep] + b), sep) == [a] + Split(b, sep)
  {
    if a == [] {
      assert a + ([sep] + b) == [sep] + b;
      assert ([sep] + b)[1..] == b;
    } else {
      SplitConcat(a[1..], b, sep);
      assert (a + ([sep] + b))[1..] == a[1..] + ([sep] + b);
      assert [a[0]] + a[1..] == a;
    }
  }

  /** The last piece of `a + sep + b`, for separator-free `a` and `b`, is `b`. */
  lemma LastPiece(a: string, b: string, sep: char)
    requires sep !in a && sep !in b
    ensures Last(Split(a + ([sep] + b), sep)) == b
  {
    SplitConcat(a, b, sep);
    SplitNoSep(b, sep);
  }

  /** `c` occurs in `s` exactly when it is counted at least once. */
  lemma {:induction false} OccurrencesIn(s: string, c: char)
    ensures c in s <==> Occurrences(s, c) > 0
  {
    if s != [] {
      OccurrencesIn(s[1..], c);
      assert s == [s[0]] + s[1..];
    }
  }

  /** When `s` holds the separator, it ends with the separator followed by the last piece. */
  lemma {:induction false} LastAfterSep(s: string, sep: char)
    requires sep in s
    ensures EndsWith(s, [sep] + Last(Split(s, sep)))
  {
    var rest := Split(s[1..], sep);
    assert s == [s[0]] + s[1..];
    if sep in s[1..] {
      LastAfterSep(s[1..], sep);
      OccurrencesIn(s[1..], sep);
      assert Last(Split(s, sep)) == Last(rest);
      var p := [sep] + Last(rest);
      assert s[|s| - |p|..] == s[1..][|s[1..]| - |p|..];
    } else {
      assert s[0] == sep;
      SplitNoSep(s[1..], sep);
      assert Last(Split(s, sep)) == s[1..];
    }
  }

  // ---------------------------------------------------------------- prefixes, suffixes, substrings

  predicate StartsWith(s: string, p: string)
  {
    |p| <= |s| && s[..|p|] == p
  }

  predicate EndsWith(s: string, p: string)
  {
    |p| <= |s| && s[|s| - |p|..] == p
  }

  /**
   * Two separator-led endings of one text where the first ends the text after its last
   * separator: the second is that same ending exactly when the two words agree.
   */
  lemma SegmentSuffix(s: string, b: string, x: string, sep: char)
    requires EndsWith(s, [sep] + b) && sep !in b && sep !in x
    ensures EndsWith(s, [sep] + x) <==> x == b
  {
    var n := |s|;
    assert forall k :: n - |b| <= k < n ==> s[k] != sep by {
      forall k | n - |b| <= k < n ensures s[k] != sep {
        assert s[k] == ([sep] + b)[k - (n - |b| - 1)];
      }
    }
    assert s[n - |b| - 1] == sep;
    if EndsWith(s, [sep] + x) {
      assert s[n - |x| - 1] == ([sep] + x)[0];
      assert forall k :: n - |x| <= k < n ==> s[k] != sep by {
        forall k | n - |x| <= k < n ensures s[k] != sep {
          assert s[k] == ([sep] + x)[k - (n - |x| - 1)];
        }
      }
      assert |x| == |b|;
      assert x == ([sep] + x)[1..] == s[n - |x|..] == ([sep] + b)[1..];
    }
  }

  /** `s.includes(p)`, searched from the left. */
  predicate Contains(s: string, p: string)
    decreases |s|
  {
    StartsWith(s, p) || (s != [] && Contains(s[1..], p))
  }

  /** `p` occurs in `s` at position `i`. */
  predicate OccursAt(s: string, p: string, i: int)
  {
    0 <= i && i + |p| <= |s| && s[i..i + |p|] == p
  }

  /** `includes` agrees with the existence of a position where `p` occurs. */
  lemma {:induction false} ContainsAt(s: string, p: string)
    ensures Contains(s, p) <==> exists i :: OccursAt(s, p, i)
    decreases |s|
  {
    if StartsWith(s, p) {
      assert OccursAt(s, p, 0);
    } else if s != [] {
      ContainsAt(s[1..], p);
      if Contains(s[1..], p) {
        var i :| OccursAt(s[1..], p, i);
        assert s[i + 1..i + 1 + |p|] == s[1..][i..i + |p|];
        assert OccursAt(s, p, i + 1);
      }
      if j :| OccursAt(s, p, j) {
        assert j != 0;
        assert s[1..][j - 1..j - 1 + |p|] == s[j..j + |p|];
        assert OccursAt(s[1..], p, j - 1);
      }
    }
  }

  /** An occurrence after the first character is one in the rest, one place earlier. */
  lemma OccursShift(s: string, p: string, j: int)
    requires s != [] && 1 <= j
    ensures OccursAt(s, p, j) <==> OccursAt(s[1..], p, j - 1)
  {
    if j + |p| <= |s| {
      assert s[1..][j - 1..j - 1 + |p|] == s[j..j + |p|];
    }
  }

  /** `startsWith` is an occurrence at the first position. */
  lemma StartsWithAt(s: string, p: string)
    ensures StartsWith(s, p) <==> OccursAt(s, p, 0)
  {
  }

  /** `endsWith` is an occurrence at the last position the pattern fits. */
  lemma EndsWithAt(s: string, p: string)
    ensures EndsWith(s, p) <==> OccursAt(s, p, |s| - |p|)
  {
  }

  /** `s.indexOf(p)`: the first position where `p` occurs, if any. */
  function IndexOf(s: string, p: string): (r: Option<nat>)
    ensures r.Some? ==> OccursAt(s, p, r.value)
    ensures r.Some? ==> forall j :: 0 <= j < r.value ==> !OccursAt(s, p, j)
    ensures r.None? ==> forall j :: 0 <= j ==> !OccursAt(s, p, j)
    decreases |s|
  {
    if StartsWith(s, p) then Some(0)
    else if s == [] then None
    else
      match IndexOf(s[1..], p)
      case None =>
        assert forall j :: 1 <= j ==> (OccursAt(s, p, j) ==> OccursAt(s[1..], p, j - 1)) by {
          forall j | 1 <= j {
            OccursShift(s, p, j);
          }
        }
        None
      case Some(i) =>
        OccursShift(s, p, i + 1);
        assert forall j :: 1 <= j < i + 1 ==> (OccursAt(s, p, j) ==> OccursAt(s[1..], p, j - 1)) by {
          forall j | 1 <= j < i + 1 {
            OccursShift(s, p, j);
          }
        }
        Some(i + 1)
  }

  /** `s.replace(p, r)` with a string pattern: only the first occurrence is replaced. */
  function ReplaceFirst(s: string, p: string, r: string): (t: string)
    ensures IndexOf(s, p).None? ==> t == s
    ensures IndexOf(s, p).Some? ==> |t| == |s| - |p| + |r|
  {
    match IndexOf(s, p)
    case None => s
    case Some(i) => s[..i] + r + s[i + |p|..]
  }

  /** Replacing a prefix drops it. */
  lemma ReplacePrefix(p: string, rest: string)
    ensures ReplaceFirst(p + rest, p, "") == rest
  {
    assert StartsWith(p + rest, p) by {
      assert (p + rest)[..|p|] == p;
    }
    assert (p + rest)[|p|..] == rest;
  }

  // ---------------------------------------------------------------- case and whitespace

  /** `toLowerCase` on one character; only ASCII letters are modelled. */
  function LowerChar(c: char): char
  {
    if 'A' <= c <= 'Z' then (c as int + 32) as char else c
  }

  function Lower(s: string): (r: string)
    ensures |r| == |s|
    ensures forall i :: 0 <= i < |s| ==> r[i] == LowerChar(s[i])
  {
    if s == [] then [] else [LowerChar(s[0])] + Lower(s[1..])
  }

  /** Lowercasing leaves characters other than 'A'..'Z' alone, so it keeps every separator. */
  lemma LowerKeepsSeparator(s: string, sep: char)
    requires !('A' <= sep <= 'Z') && !('a' <= sep <= 'z')
    ensures forall i :: 0 <= i < |s| ==> (Lower(s)[i] == sep <==> s[i] == sep)
  {
  }

  /** Lowercasing leaves a text without capitals as it is. */
  lemma LowerNoUpper(s: string)
    requires forall i :: 0 <= i < |s| ==> !('A' <= s[i] <= 'Z')
    ensures Lower(s) == s
  {
    var l := Lower(s);
    forall i | 0 <= i < |s| ensures l[i] == s[i] {
      assert l[i] == LowerChar(s[i]);
    }
  }

  /** Lowercasing keeps an ending, lowercased. */
  lemma LowerSuffix(s: string, p: string)
    requires EndsWith(s, p)
    ensures EndsWith(Lower(s), Lower(p))
  {
    var l, lp := Lower(s), Lower(p);
    forall i | 0 <= i < |p| ensures l[|s| - |p|..][i] == lp[i] {
      assert s[|s| - |p| + i] == p[i];
    }
  }

  /** The characters `String.prototype.trim` strips: ECMAScript WhiteSpace and LineTerminator. */
  predicate IsWhitespace(c: char)
  {
    c == '\t' || c == '\n' || c == '\U{000B}' || c == '\U{000C}' || c == '\r' || c == ' '
    || c == '\U{00A0}' || c == '\U{1680}' || ('\U{2000}' <= c <= '\U{200A}')
    || c == '\U{2028}' || c == '\U{2029}' || c == '\U{202F}' || c == '\U{205F}'
    || c == '\U{3000}' || c == '\U{FEFF}'
  }

  predicate AllWhitespace(s: string)
  {
    forall i :: 0 <= i < |s| ==> IsWhitespace(s[i])
  }

  function TrimStart(s: string): string
  {
    if s != [] && IsWhitespace(s[0]) then TrimStart(s[1..]) else s
  }

  function TrimEnd(s: string): string
  {
    if s != [] && IsWhitespace(s[|s| - 1]) then TrimEnd(s[..|s| - 1]) else s
  }

  /** `s.trim()`: the text between the leading and the trailing whitespace. */
  function Trim(s: string): (r: string)
    ensures |r| <= |s|
  {
    TrimStartSpec(s);
    TrimEndSpec(TrimStart(s));
    TrimEnd(TrimStart(s))
  }

  /** `trimStart` removes a run of whitespace and stops at the first other character. */
  lemma {:induction false} TrimStartSpec(s: string)
    ensures var r := TrimStart(s);
      && |r| <= |s| && r == s[|s| - |r|..]
      && AllWhitespace(s[..|s| - |r|])
      && (r != [] ==> !IsWhitespace(r[0]))
    decreases |s|
  {
    if s != [] && IsWhitespace(s[0]) {
      TrimStartSpec(s[1..]);
      var r := TrimStart(s[1..]);
      assert s[1..][|s| - 1 - |r|..] == s[|s| - |r|..];
      assert forall i :: 1 <= i < |s| - |r| ==> s[i] == s[1..][..|s| - 1 - |r|][i - 1];
    }
  }

  /** `trimEnd` removes a run of whitespace and stops at the last other character. */
  lemma {:induction false} TrimEndSpec(s: string)
    ensures var r := TrimEnd(s);
      && |r| <= |s| && r == s[..|r|]
      && AllWhitespace(s[|r|..])
      && (r != [] ==> !IsWhitespace(r[|r| - 1]))
    decreases |s|
  {
    if s != [] && IsWhitespace(s[|s| - 1]) {
      var p := s[..|s| - 1];
      TrimEndSpec(p);
      var r := TrimEnd(p);
      assert TrimEnd(s) == r;
      assert p[..|r|] == s[..|r|];
      var tail, ptail := s[|r|..], p[|r|..];
      forall j | 0 <= j < |tail| ensures IsWhitespace(tail[j]) {
        if j < |ptail| {
          assert tail[j] == ptail[j];
        } else {
          assert tail[j] == s[|s| - 1];
        }
      }
    }
  }

  /**
   * `trim` gives the empty text exactly on whitespace-only input; otherwise a slice
   * of the input that neither starts nor ends with whitespace.
   */
  lemma TrimSpec(s: string)
    ensures var r := Trim(s);
      && |r| <= |s|
      && (r == [] <==> AllWhitespace(s))
      && (r != [] ==> !IsWhitespace(r[0]) && !IsWhitespace(r[|r| - 1]))
      && OccursAt(s, r, |s| - |TrimStart(s)|)
  {
    var t := TrimStart(s);
    TrimStartSpec(s);
    TrimEndSpec(t);
    var r := TrimEnd(t);
    if t == [] {
      assert s[..|s|] == s;
    } else {
      assert s[|s| - |t|] == t[0];
      assert !AllWhitespace(s);
      assert r != [] && t[0] == r[0];
    }
    assert OccursAt(s, r, |s| - |t|) by {
      assert s[|s| - |t|..|s| - |t| + |r|] == t[..|r|];
    }
  }

  /** Trimming leading whitespace off a text whose ends are not whitespace gives the text. */
  lemma {:induction false} TrimIndented(indent: string, t: string)
    requires AllWhitespace(indent)
    requires t != [] ==> !IsWhitespace(t[0]) && !IsWhitespace(t[|t| - 1])
    ensures Trim(indent + t) == t
  {
    if indent == [] {
      assert indent + t == t;
    } else {
      TrimIndented(indent[1..], t);
      assert (indent + t)[1..] == indent[1..] + t;
    }
  }

  /** A text shorter than `p` does not include `p`. */
  lemma {:induction false} ContainsNeedsRoom(s: string, p: string)
    requires |s| < |p|
    ensures !Contains(s, p)
    decreases |s|
  {
    if s != [] {
      ContainsNeedsRoom(s[1..], p);
    }
  }

  /** A text without the first character of `p` does not include `p`. */
  lemma {:induction false} ContainsNeedsFirst(s: string, p: string)
    requires p != [] && p[0] !in s
    ensures !Contains(s, p)
    decreases |s|
  {
    if s != [] {
      assert s[0] != p[0];
      ContainsNeedsFirst(s[1..], p);
    }
  }

  // ---------------------------------------------------------------- numbers

  /** The digits of `n` in base `b`, most significant first, without leading zeros ("0" for 0). */
  function Digits(n: nat, b: nat): (r: seq<nat>)
    requires b >= 2
    ensures |r| >= 1 && forall i :: 0 <= i < |r| ==> r[i] < b
    ensures |r| > 1 ==> r[0] != 0
    decreases n
  {
    if n < b then [n] else DivBounds(n, b); Digits(n / b, b) + [n % b]
  }

  /** One digit step: a number at least the base has a non-zero, smaller quotient. */
  lemma DivBounds(n: nat, b: nat)
    requires 2 <= b <= n
    ensures 1 <= n / b < n && n % b < b
  {
  }

  /** The number a sequence of digits stands for. */
  function DigitsValue(ds: seq<nat>, b: nat): nat
  {
    if ds == [] then 0 else DigitsValue(ds[..|ds| - 1], b) * b + ds[|ds| - 1]
  }

  lemma {:induction false} DigitsRoundTrip(n: nat, b: nat)
    requires b >= 2
    ensures DigitsValue(Digits(n, b), b) == n
    decreases n
  {
    if n >= b {
      var q, m := n / b, n % b;
      DivMod(n, b);
      DigitsRoundTrip(q, b);
      DigitsValueSnoc(Digits(q, b), m, b);
    }
  }

  lemma DigitsValueSnoc(ds: seq<nat>, d: nat, b: nat)
    ensures DigitsValue(ds + [d], b) == DigitsValue(ds, b) * b + d
  {
    assert (ds + [d])[..|ds|] == ds;
  }

  lemma DivMod(n: nat, b: nat)
    requires b >= 2
    ensures n >= b ==> n / b < n && Digits(n, b) == Digits(n / b, b) + [n % b]
    ensures (n / b) * b + n % b == n
  {
  }

  function Pow(b: nat, k: nat): (r: nat)
    ensures b >= 1 ==> r >= 1
  {
    if k == 0 then 1 else b * Pow(b, k - 1)
  }

  /** `n` is written with at most `k` digits exactly when `n < b^k`. */
  lemma {:induction false} DigitsLength(n: nat, b: nat, k: nat)
    requires b >= 2 && k >= 1
    ensures |Digits(n, b)| <= k <==> n < Pow(b, k)
    decreases n
  {
    DivMod(n, b);
    PowAtLeastBase(b, k);
    if n >= b && k > 1 {
      DigitsLength(n / b, b, k - 1);
      DivBelow(n, b, Pow(b, k - 1));
    }
  }

  lemma PowAtLeastBase(b: nat, k: nat)
    requires b >= 2 && k >= 1
    ensures Pow(b, k) == b * Pow(b, k - 1) >= b
  {
    assert Pow(b, k - 1) >= 1;
  }

  lemma DivBelow(n: nat, b: nat, p: nat)
    requires b >= 2
    ensures n / b < p <==> n < b * p
  {
    var q, m := n / b, n % b;
    assert n == b * q + m && m < b;
    if q < p {
      assert q + 1 <= p;
      assert b * (q + 1) <= b * p;
    } else {
      assert b * p <= b * q;
    }
  }

  /** Leading zeros do not change the value. */
  lemma {:induction false} DigitsValueLeadingZeros(z: nat, ds: seq<nat>, b: nat)
    ensures DigitsValue(seq(z, _ => 0) + ds, b) == DigitsValue(ds, b)
    decreases |ds|
  {
    var zs: seq<nat> := seq(z, _ => 0);
    if ds == [] {
      assert zs + ds == zs;
      ZerosValue(z, b);
    } else {
      DigitsValueLeadingZeros(z, ds[..|ds| - 1], b);
      assert (zs + ds)[..|zs + ds| - 1] == zs + ds[..|ds| - 1];
    }
  }

  lemma {:induction false} ZerosValue(z: nat, b: nat)
    ensures DigitsValue(seq(z, _ => 0), b) == 0
  {
    if z > 0 {
      ZerosValue(z - 1, b);
      assert seq(z, _ => 0)[..z - 1] == seq(z - 1, _ => 0);
    }
  }

  function DigitChar(d: nat): char
    requires d < 36
  {
    if d < 10 then ('0' as int + d) as char else ('a' as int + d - 10) as char
  }

  /** `n.toString(b)` for a non-negative integer `n`. */
  function NatToString(n: nat, b: nat): (r: string)
    requires 2 <= b <= 36
  {
    var ds := Digits(n, b);
    seq(|ds|, i requires 0 <= i < |ds| => DigitChar(ds[i]))
  }

  /** `n.toString()` for an integer `n`. */
  function IntToString(n: int): (r: string)
    ensures r != []
  {
    if n < 0 then "-" + NatToString(-n, 10) else NatToString(n, 10)
  }

  predicate IsDecimalDigit(c: char)
  {
    '0' <= c <= '9'
  }

  /** The value of a decimal digit character. */
  function DecimalDigitValue(c: char): (d: nat)
    ensures d < 10
  {
    if IsDecimalDigit(c) then c as int - '0' as int else 0
  }

  /** The digit values of a text of decimal digits. */
  function DecimalValues(t: string): (r: seq<nat>)
    ensures |r| == |t|
  {
    seq(|t|, i requires 0 <= i < |t| => DecimalDigitValue(t[i]))
  }

  /** A decimal numeral: an optional '-', then digits without a leading zero. */
  predicate DecimalNumeral(s: string)
  {
    var body := if s != [] && s[0] == '-' then s[1..] else s;
    && body != []
    && (forall i :: 0 <= i < |body| ==> IsDecimalDigit(body[i]))
    && (|body| > 1 ==> body[0] != '0')
  }

  /** The integer a decimal numeral stands for. */
  function DecimalValue(s: string): int
    requires DecimalNumeral(s)
  {
    if s[0] == '-' then -(DigitsValue(DecimalValues(s[1..]), 10) as int)
    else DigitsValue(DecimalValues(s), 10)
  }

  /** The base-10 text of `n` is its decimal digits, one character each. */
  lemma DecimalDigitsOf(n: nat)
    ensures var t := NatToString(n, 10);
      && (forall i :: 0 <= i < |t| ==> IsDecimalDigit(t[i]))
      && DecimalValues(t) == Digits(n, 10)
  {
    var t, ds := NatToString(n, 10), Digits(n, 10);
    assert |t| == |ds|;
    forall i | 0 <= i < |t| ensures IsDecimalDigit(t[i]) && DecimalDigitValue(t[i]) == ds[i] {
      assert t[i] == DigitChar(ds[i]);
    }
  }

  /**
   * `n.toString()` is the decimal numeral of `n`: a '-' exactly for a negative
   * number, digits with no leading zero, and it reads back as `n`.
   */
  lemma IntToStringDecimal(n: int)
    ensures DecimalNumeral(IntToString(n))
    ensures (IntToString(n)[0] == '-') <==> n < 0
    ensures DecimalValue(IntToString(n)) == n
  {
    var m: nat := if n < 0 then -n else n;
    var t := NatToString(m, 10);
    DecimalDigitsOf(m);
    DigitsRoundTrip(m, 10);
    assert t[0] != '-';
    if |t| > 1 {
      assert Digits(m, 10)[0] != 0;
      assert DecimalValues(t)[0] != 0;
      assert t[0] != '0';
    }
    if n < 0 {
      assert IntToString(n) == "-" + t && IntToString(n)[1..] == t;
    }
  }

  /** `s.padStart(width, c)`. */
  function PadStart(s: string, width: nat, c: char): (r: string)
    ensures |r| == if |s| >= width then |s| else width
    ensures EndsWith(r, s)
    ensures forall i :: 0 <= i < |r| - |s| ==> r[i] == c
  {
    if |s| >= width then s else seq(width - |s|, _ => c) + s
  }
}
