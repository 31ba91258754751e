/**
 * The parts of Kotlin's `String` and `Char` library that the application relies on:
 * decimal rendering of integers, `trim`, `isBlank`, `replace`, `substringAfterLast`,
 * `substringBeforeLast` and `compareTo`; and the readers the model itself uses to
 * state what those produce (parsing a rendered number, splitting on a separator).
 * Strings are sequences of characters.
 */
module KotlinText {
  import opened Option

  // ----- digits and decimal rendering -----

  /** An ASCII decimal digit: `\d` as on a desktop JVM (Android's ICU engine also takes other decimal digits). */
  predicate IsDigit(c: char) {
    '0' <= c <= '9'
  }

  predicate AllDigits(s: string) {
    forall i :: 0 <= i < |s| ==> IsDigit(s[i])
  }

  function DigitChar(d: nat): (c: char)
    requires d < 10
    ensures IsDigit(c) && c as int - '0' as int == d
  {
    ('0' as int + d) as char
  }

  function DigitValue(c: char): (d: nat)
    requires IsDigit(c)
    ensures d < 10 && DigitChar(d) == c
  {
    c as int - '0' as int
  }

  /** The decimal digits of `n`, most significant first, without leading zeros. */
  function NatToString(n: nat): (s: string)
    ensures |s| >= 1 && AllDigits(s)
    ensures s[0] == '0' ==> n == 0 && |s| == 1
  {
    if n < 10 then [DigitChar(n)] else NatToString(n / 10) + [DigitChar(n % 10)]
  }

  /** Kotlin's `Int.toString()` / `Long.toString()` and string templates `"$n"`. */
  function IntToString(n: int): (s: string)
    ensures |s| >= 1
    ensures n < 0 ==> |s| >= 2 && s[0] == '-' && AllDigits(s[1..])
    ensures 0 <= n ==> AllDigits(s)
  {
    if n < 0 then "-" + NatToString(-n) else NatToString(n)
  }

  /** Kotlin's `Int?.toString()`: a null renders as the four letters `null`. */
  function NullableToString(n: Option<int>): (s: string)
    ensures n.None? ==> s == "null"
    ensures n.Some? ==> s == IntToString(n.value)
  {
    match n
    case None => "null"
    case Some(v) => IntToString(v)
  }

  /** The number a string of decimal digits denotes. */
  function DigitsValue(s: string): nat
    requires AllDigits(s)
  {
    if s == [] then 0 else DigitsValue(s[..|s| - 1]) * 10 + DigitValue(s[|s| - 1])
  }

  /**
   * Reads back exactly what IntToString writes: an optional `-` and at least one
   * digit, with no leading zero except in `0` itself, and no `-0`.
   */
  function ParseInt(s: string): Option<int> {
    if |s| >= 2 && s[0] == '-' && AllDigits(s[1..]) && s[1] != '0' then Some(-(DigitsValue(s[1..]) as int))
    else if |s| >= 1 && AllDigits(s) && (s[0] != '0' || |s| == 1) then Some(DigitsValue(s))
    else None
  }

  lemma {:induction false} NatToStringValue(n: nat)
    ensures DigitsValue(NatToString(n)) == n
  {
    if n >= 10 {
      var s := NatToString(n);
      assert s[..|s| - 1] == NatToString(n / 10);
      NatToStringValue(n / 10);
    }
  }

  /** Decimal rendering loses nothing: the rendered text reads back as the number. */
  lemma IntToStringRoundTrip(n: int)
    ensures ParseInt(IntToString(n)) == Some(n)
  {
    if n < 0 {
      var m: nat := -n;
      NatToStringValue(m);
      ParseNegative(NatToString(m));
    } else {
      NatToStringValue(n);
      ParseDigits(NatToString(n));
    }
  }

  lemma ParseNegative(d: string)
    requires |d| >= 1 && AllDigits(d) && d[0] != '0'
    ensures ParseInt("-" + d) == Some(-(DigitsValue(d) as int))
  {
    assert ("-" + d)[1..] == d;
  }

  lemma ParseDigits(d: string)
    requires |d| >= 1 && AllDigits(d) && (d[0] != '0' || |d| == 1)
    ensures ParseInt(d) == Some(DigitsValue(d) as int)
  {
    assert IsDigit(d[0]);
  }

  /** Digits without a leading zero denote a positive number. */
  lemma {:induction false} LeadingNonZeroPositive(d: string)
    requires |d| >= 1 && AllDigits(d) && d[0] != '0'
    ensures DigitsValue(d) >= 1
  {
    if |d| > 1 {
      var p := d[..|d| - 1];
      assert p[0] == d[0] && AllDigits(p);
      LeadingNonZeroPositive(p);
    }
  }

  /** Digits without a leading zero (or the single `0`) are the rendering of their value. */
  lemma {:induction false} CanonicalDigits(d: string)
    requires |d| >= 1 && AllDigits(d) && (d[0] != '0' || |d| == 1)
    ensures NatToString(DigitsValue(d)) == d
  {
    var n := DigitsValue(d);
    if |d| == 1 {
      assert d[..|d| - 1] == [];
      assert n == DigitsValue([]) * 10 + DigitValue(d[0]);
    } else {
      var p := d[..|d| - 1];
      assert p[0] == d[0] && AllDigits(p);
      LeadingNonZeroPositive(p);
      CanonicalDigits(p);
      assert n / 10 == DigitsValue(p) && n % 10 == DigitValue(d[|d| - 1]);
      assert d == p + [d[|d| - 1]];
    }
  }

  /** Every text ParseInt accepts is the rendering of the number it reads: nothing else parses. */
  lemma ParseIntCanonical(s: string)
    ensures ParseInt(s).Some? ==> s == IntToString(ParseInt(s).value)
  {
    if |s| >= 2 && s[0] == '-' && AllDigits(s[1..]) && s[1] != '0' {
      var d := s[1..];
      CanonicalDigits(d);
      LeadingNonZeroPositive(d);
      var m: nat := DigitsValue(d);
      assert IntToString(-(m as int)) == "-" + NatToString(m);
      assert s == "-" + d;
    } else if |s| >= 1 && AllDigits(s) && (s[0] != '0' || |s| == 1) {
      CanonicalDigits(s);
    }
  }

  /** Two numbers render alike only if they are equal. */
  lemma IntToStringInjective(m: int, n: int)
    requires IntToString(m) == IntToString(n)
    ensures m == n
  {
    IntToStringRoundTrip(m);
    IntToStringRoundTrip(n);
  }

  /** Only a minus sign and digits occur in a rendered number. */
  lemma NotInIntToString(n: int, c: char)
    requires c != '-' && !IsDigit(c)
    ensures c !in IntToString(n)
  {
    var s := IntToString(n);
    forall j | 0 <= j < |s| ensures s[j] != c {
      if n < 0 && j > 0 { assert s[j] == s[1..][j - 1]; }
    }
  }

  // ----- whitespace, trim, isBlank -----

  /**
   * Kotlin's `Char.isWhitespace()`: Java's `Character.isWhitespace` or
   * `Character.isSpaceChar` (the space, line and paragraph separators).
   */
  predicate IsWhitespace(c: char) {
    || c == ' ' || c == '\t' || c == '\n' || c == '\U{B}' || c == '\U{C}' || c == '\r'
    || '\U{1C}' <= c <= '\U{1F}'
    || c == '\U{A0}' || c == '\U{1680}' || '\U{2000}' <= c <= '\U{200A}'
    || c == '\U{2028}' || c == '\U{2029}' || c == '\U{202F}' || c == '\U{205F}' || c == '\U{3000}'
  }

  /** Kotlin's `CharSequence.isBlank()`: empty or whitespace only. */
  predicate IsBlank(s: string) {
    forall i :: 0 <= i < |s| ==> IsWhitespace(s[i])
  }

  /** The end of the run of whitespace that starts at position `i` of `s`. */
  function LeadingWhitespaceEnd(s: string, i: nat): (k: nat)
    requires i <= |s|
    ensures i <= k <= |s|
    ensures forall j :: i <= j < k ==> IsWhitespace(s[j])
    ensures k == |s| || !IsWhitespace(s[k])
    decreases |s| - i
  {
    if i < |s| && IsWhitespace(s[i]) then LeadingWhitespaceEnd(s, i + 1) else i
  }

  /** The start of the run of whitespace that ends `s[lo..e]`. */
  function TrailingWhitespaceStart(s: string, lo: nat, e: nat): (m: nat)
    requires lo <= e <= |s|
    ensures lo <= m <= e
    ensures forall j :: m <= j < e ==> IsWhitespace(s[j])
    ensures m == lo || !IsWhitespace(s[m - 1])
    decreases e
  {
    if lo < e && IsWhitespace(s[e - 1]) then TrailingWhitespaceStart(s, lo, e - 1) else e
  }

  /**
   * Kotlin's `String.trim()`: the slice `s[k..k + |r|]` left after dropping the
   * whitespace at both ends; it is empty exactly when `s` is blank.
   */
  function Trim(s: string): (r: string)
    ensures var k := LeadingWhitespaceEnd(s, 0);
      && k + |r| <= |s| && r == s[k..k + |r|]
      && (forall i :: 0 <= i < k ==> IsWhitespace(s[i]))
      && (forall i :: k + |r| <= i < |s| ==> IsWhitespace(s[i]))
    ensures r == [] || (!IsWhitespace(r[0]) && !IsWhitespace(r[|r| - 1]))
    ensures r == [] <==> IsBlank(s)
  {
    var k := LeadingWhitespaceEnd(s, 0);
    var e := TrailingWhitespaceStart(s, k, |s|);
    assert k < e ==> s[k..e][0] == s[k] && s[k..e][e - k - 1] == s[e - 1];
    s[k..e]
  }

  // ----- replace -----

  /** Kotlin's `s.replace("<c>", "")`: every occurrence of `c` removed, the rest kept in order. */
  function RemoveAll(s: string, c: char): (r: string)
    ensures c !in r
    ensures multiset(r) == multiset(s)[c := 0]
    ensures c !in s ==> r == s
  {
    if s == [] then []
    else
      var rest := RemoveAll(s[1..], c);
      assert s == [s[0]] + s[1..];
      if s[0] == c then rest else [s[0]] + rest
  }

  /** On one character, `replace` drops it when it is `c` and keeps it otherwise. */
  lemma RemoveAllSingle(x: char, c: char)
    ensures RemoveAll([x], c) == if x == c then [] else [x]
  {
    assert [x][1..] == [];
  }

  /** `replace` works piece by piece: the kept characters stay in their order. */
  lemma {:induction false} RemoveAllAppend(a: string, b: string, c: char)
    ensures RemoveAll(a + b, c) == RemoveAll(a, c) + RemoveAll(b, c)
  {
    if a != [] {
      assert (a + b)[1..] == a[1..] + b;
      RemoveAllAppend(a[1..], b, c);
    } else {
      assert a + b == b;
    }
  }

  // ----- substringAfterLast, substringBeforeLast -----

  /** Kotlin's `lastIndexOf(c)`: the last position holding `c`, or -1. */
  function LastIndexOf(s: string, c: char): (i: int)
    ensures -1 <= i < |s|
    ensures 0 <= i ==> s[i] == c
    ensures forall j :: i < j < |s| ==> s[j] != c
  {
    if s == [] then -1
    else if s[|s| - 1] == c then |s| - 1
    else LastIndexOf(s[..|s| - 1], c)
  }

  /**
   * Kotlin's `substringAfterLast(c)`: the text after the last `c`, or all of `s`
   * when there is none; in both cases the longest suffix of `s` free of `c`.
   */
  function SubstringAfterLast(s: string, c: char): (r: string)
    ensures |r| <= |s| && r == s[|s| - |r|..]
    ensures c !in r
    ensures |r| < |s| ==> s[|s| - |r| - 1] == c
    ensures c !in s ==> r == s
  {
    var i := LastIndexOf(s, c);
    if i < 0 then s else s[i + 1..]
  }

  /**
   * Kotlin's `substringBeforeLast(c)`: the text before the last `c`, or all of `s`
   * when there is none.
   */
  function SubstringBeforeLast(s: string, c: char): (r: string)
    ensures |r| <= |s| && r == s[..|r|]
    ensures |r| < |s| ==> s[|r|] == c && c !in s[|r| + 1..]
    ensures c !in s ==> r == s
    ensures c in s ==> |r| < |s|
  {
    var i := LastIndexOf(s, c);
    if i < 0 then s else s[..i]
  }

  /** After the last `c` of `a + [c] + b`, when `b` has none, comes `b`. */
  lemma SubstringAfterLastOfSuffix(a: string, c: char, b: string)
    requires c !in b
    ensures SubstringAfterLast(a + [c] + b, c) == b
  {
    var s := a + [c] + b;
    assert s[|a|] == c && s[|a| + 1..] == b;
    LastIndexOfUnique(s, c, |a|);
  }

  /** Before the last `c` of `a + [c] + b`, when `b` has none, comes `a`. */
  lemma SubstringBeforeLastOfSuffix(a: string, c: char, b: string)
    requires c !in b
    ensures SubstringBeforeLast(a + [c] + b, c) == a
  {
    var s := a + [c] + b;
    assert s[|a|] == c && s[|a| + 1..] == b;
    LastIndexOfUnique(s, c, |a|);
    assert s[..|a|] == a;
  }

  /** The last position holding `c` is the one with no `c` after it. */
  lemma LastIndexOfUnique(s: string, c: char, k: nat)
    requires k < |s| && s[k] == c && c !in s[k + 1..]
    ensures LastIndexOf(s, c) == k
  {
    forall j | k < j < |s| ensures s[j] != c {
      assert s[j] == s[k + 1..][j - k - 1];
    }
    var i := LastIndexOf(s, c);
    assert k <= i;
  }

  // ----- the model's own readers: first index, split on a separator -----

  /**
   * The first position holding `c`, or -1.  The app never calls `indexOf`: this is
   * how the model reads the hours and minutes back out of a rendered duration.
   */
  function IndexOf(s: string, c: char): (i: int)
    ensures -1 <= i < |s|
    ensures 0 <= i ==> s[i] == c
    ensures forall j :: 0 <= j < |s| && (i < 0 || j < i) ==> s[j] != c
  {
    if s == [] then -1
    else if s[0] == c then 0
    else var i := IndexOf(s[1..], c); if i < 0 then -1 else i + 1
  }

  /** The fields joined back with the separator `c` between them. */
  function JoinWith(fields: seq<string>, c: char): string
    requires |fields| >= 1
  {
    if |fields| == 1 then fields[0] else fields[0] + [c] + JoinWith(fields[1..], c)
  }

  /**
   * The fields of `s` between the separators `c`, empty fields included, read from
   * the front one character at a time.  The app never splits a string: this is how
   * the model reads the colon-separated timestamp pattern of the amount form.
   */
  function SplitOn(s: string, c: char): (fields: seq<string>)
    ensures |fields| >= 1
    ensures forall k :: 0 <= k < |fields| ==> c !in fields[k]
  {
    if s == [] then [[]]
    else
      var f := SplitOn(s[1..], c);
      if s[0] == c then [[]] + f else [[s[0]] + f[0]] + f[1..]
  }

  /** A string free of `c` is one field. */
  lemma {:induction false} SplitOnNoSeparator(a: string, c: char)
    requires c !in a
    ensures SplitOn(a, c) == [a]
  {
    if a != [] {
      SplitOnNoSeparator(a[1..], c);
      assert [a[0]] + a[1..] == a;
    }
  }

  /** A field free of `c`, then `c`: that field comes first, then the fields of the rest. */
  lemma {:induction false} SplitOnFirstField(a: string, c: char, t: string)
    requires c !in a
    ensures SplitOn(a + [c] + t, c) == [a] + SplitOn(t, c)
  {
    var s := a + [c] + t;
    if a == [] {
      assert s[1..] == t;
    } else {
      assert s[1..] == a[1..] + [c] + t;
      SplitOnFirstField(a[1..], c, t);
      assert [a[0]] + a[1..] == a;
    }
  }

  /** Joining the fields back with `c` gives `s` again: splitting loses nothing. */
  lemma {:induction false} JoinWithSplitOn(s: string, c: char)
    ensures JoinWith(SplitOn(s, c), c) == s
  {
    if s != [] {
      var f := SplitOn(s[1..], c);
      JoinWithSplitOn(s[1..], c);
      if s[0] == c {
        assert ([[]] + f)[1..] == f;
      } else {
        JoinWithExtendFirst(s[0], f, c);
      }
      assert s == [s[0]] + s[1..];
    }
  }

  lemma JoinWithExtendFirst(x: char, f: seq<string>, c: char)
    requires |f| >= 1
    ensures JoinWith([[x] + f[0]] + f[1..], c) == [x] + JoinWith(f, c)
  {
    var g := [[x] + f[0]] + f[1..];
    if |f| > 1 {
      assert g[1..] == f[1..];
    }
  }

  /** Splitting undoes joining: fields free of `c` are exactly what their join splits into. */
  lemma {:induction false} SplitOnJoinWith(fields: seq<string>, c: char)
    requires |fields| >= 1
    requires forall k :: 0 <= k < |fields| ==> c !in fields[k]
    ensures SplitOn(JoinWith(fields, c), c) == fields
  {
    if |fields| == 1 {
      SplitOnNoSeparator(fields[0], c);
    } else {
      SplitOnJoinWith(fields[1..], c);
      SplitOnFirstField(fields[0], c, JoinWith(fields[1..], c));
      assert fields == [fields[0]] + fields[1..];
    }
  }

  /** `g` is `f` up to some field, that last one cut short. */
  predicate FieldsPrefix(g: seq<string>, f: seq<string>) {
    1 <= |g| <= |f| && g[..|g| - 1] == f[..|g| - 1] && g[|g| - 1] <= f[|g| - 1]
  }

  lemma FieldsPrefixCons(x: string, g: seq<string>, f: seq<string>)
    requires FieldsPrefix(g, f)
    ensures FieldsPrefix([x] + g, [x] + f)
  {
    assert ([x] + g)[..|g|] == [x] + g[..|g| - 1];
    assert ([x] + f)[..|g|] == [x] + f[..|g| - 1];
  }

  lemma FieldsPrefixExtendFirst(x: char, g: seq<string>, f: seq<string>)
    requires FieldsPrefix(g, f)
    ensures FieldsPrefix([[x] + g[0]] + g[1..], [[x] + f[0]] + f[1..])
  {
    var g', f' := [[x] + g[0]] + g[1..], [[x] + f[0]] + f[1..];
    var n := |g| - 1;
    if n == 0 {
      assert g[0] == f[0][..|g[0]|];
      assert g'[0] == f'[0][..|g'[0]|];
    } else {
      assert g[0] == g[..n][0] == f[..n][0] == f[0];
      assert g'[..n] == [[x] + g[0]] + g[1..][..n - 1];
      assert f'[..n] == [[x] + f[0]] + f[1..][..n - 1];
      assert g[1..][..n - 1] == g[..n][1..] && f[1..][..n - 1] == f[..n][1..];
      assert g'[n] == g[n] && f'[n] == f[n];
    }
  }

  /**
   * Splitting a prefix of `s`: the fields of `s` up to the one the prefix ends in,
   * that last one cut short.
   */
  lemma {:induction false} SplitOnPrefix(s: string, c: char, n: nat)
    requires n <= |s|
    ensures FieldsPrefix(SplitOn(s[..n], c), SplitOn(s, c))
  {
    var f := SplitOn(s, c);
    if n == 0 {
      assert s[..0] == [];
      var none: seq<string> := [];
      assert [[]][..0] == none == f[..0];
    } else {
      var t := s[..n];
      assert t[1..] == s[1..][..n - 1];
      SplitOnPrefix(s[1..], c, n - 1);
      var g, h := SplitOn(s[1..][..n - 1], c), SplitOn(s[1..], c);
      if s[0] == c {
        FieldsPrefixCons([], g, h);
      } else {
        FieldsPrefixExtendFirst(s[0], g, h);
      }
    }
  }

  // ----- compareTo -----

  /**
   * Kotlin's `a.compareTo(b) <= 0`: lexicographic order on characters, a proper
   * prefix coming first.
   */
  predicate StrLe(a: string, b: string) {
    if a == [] then true
    else if b == [] then false
    else if a[0] != b[0] then a[0] < b[0]
    else StrLe(a[1..], b[1..])
  }

  lemma {:induction false} StrLeReflexive(a: string)
    ensures StrLe(a, a)
  {
    if a != [] { StrLeReflexive(a[1..]); }
  }

  lemma {:induction false} StrLeTotal(a: string, b: string)
    ensures StrLe(a, b) || StrLe(b, a)
  {
    if a != [] && b != [] && a[0] == b[0] { StrLeTotal(a[1..], b[1..]); }
  }

  lemma {:induction false} StrLeAntisymmetric(a: string, b: string)
    requires StrLe(a, b) && StrLe(b, a)
    ensures a == b
  {
    if a != [] && b != [] {
      StrLeAntisymmetric(a[1..], b[1..]);
      assert a == [a[0]] + a[1..] && b == [b[0]] + b[1..];
    }
  }

  lemma {:induction false} StrLeTransitive(a: string, b: string, c: string)
    requires StrLe(a, b) && StrLe(b, c)
    ensures StrLe(a, c)
  {
    if a != [] && b != [] && c != [] && a[0] == b[0] == c[0] {
      StrLeTransitive(a[1..], b[1..], c[1..]);
    }
  }
}
