/**
 * String operations of the .NET base library that the source relies on, over `seq<char>`:
 * ordinal and case-insensitive comparison, trimming, splitting and joining, and the
 * invariant-culture rendering and parsing of integers.
 */
module Text {
  import opened Outcomes

  /** ASCII lower-casing; every "ignore case" comparison in the model compares folded strings. */
  function Lower(c: char): char
  {
    if 'A' <= c <= 'Z' then (c as int + 32) as char else c
  }

  function Fold(s: string): (r: string)
    ensures |r| == |s|
    decreases |s|
  {
    if |s| == 0 then [] else [Lower(s[0])] + Fold(s[1..])
  }

  lemma {:induction false} FoldAt(s: string, i: nat)
    requires i < |s|
    ensures Fold(s)[i] == Lower(s[i])
    decreases |s|
  {
    if i > 0 {
      FoldAt(s[1..], i - 1);
    }
  }

  /** String.Equals(a, b, StringComparison.OrdinalIgnoreCase). */
  predicate EqualsIgnoreCase(a: string, b: string)
  {
    Fold(a) == Fold(b)
  }

  /** String.StartsWith(prefix, StringComparison.Ordinal). */
  predicate StartsWith(s: string, prefix: string)
  {
    |prefix| <= |s| && s[..|prefix|] == prefix
  }

  /** String.Contains(part), ordinal. */
  predicate Contains(s: string, part: string)
  {
    exists i | 0 <= i <= |s| :: StartsWith(s[i..], part)
  }

  /** String.StartsWith(prefix, StringComparison.OrdinalIgnoreCase): a raw character prefix, not path-segment aware. */
  predicate StartsWithIgnoreCase(s: string, prefix: string)
  {
    |prefix| <= |s| && EqualsIgnoreCase(s[..|prefix|], prefix)
  }

  /** Folding is idempotent, so a folded key compares like the string it came from. */
  lemma {:induction false} FoldIdempotent(s: string)
    ensures Fold(Fold(s)) == Fold(s)
    decreases |s|
  {
    if |s| > 0 {
      var f := Fold(s);
      assert f[1..] == Fold(s[1..]);
      FoldIdempotent(s[1..]);
    }
  }

  lemma {:induction false} FoldOfPrefix(s: string, n: nat)
    requires n <= |s|
    ensures Fold(s[..n]) == Fold(s)[..n]
    decreases |s|
  {
    if n > 0 {
      assert s[..n][1..] == s[1..][..n - 1];
      FoldOfPrefix(s[1..], n - 1);
    }
  }

  /** A case-insensitive prefix test is an ordinal prefix test on the folded strings. */
  lemma StartsWithIgnoreCaseIsFoldedPrefix(s: string, prefix: string)
    ensures StartsWithIgnoreCase(s, prefix) <==> StartsWith(Fold(s), Fold(prefix))
  {
    if |prefix| <= |s| {
      FoldOfPrefix(s, |prefix|);
    }
  }

  /** Every string starts with itself, ignoring case or not. */
  lemma StartsWithSelf(s: string)
    ensures StartsWith(s, s) && StartsWithIgnoreCase(s, s)
  {
    assert s[..|s|] == s;
  }

  /** String.TrimEnd(c): drops every trailing `c`. */
  function TrimEnd(s: string, c: char): (r: string)
    ensures |r| <= |s| && r == s[..|r|]
    ensures r == [] || r[|r| - 1] != c
    ensures forall i | |r| <= i < |s| :: s[i] == c
    decreases |s|
  {
    if |s| > 0 && s[|s| - 1] == c then TrimEnd(s[..|s| - 1], c) else s
  }

  /** String.TrimStart(c): drops every leading `c`. */
  function TrimStart(s: string, c: char): (r: string)
    ensures |r| <= |s| && r == s[|s| - |r|..]
    ensures r == [] || r[0] != c
    ensures forall i | 0 <= i < |s| - |r| :: s[i] == c
    decreases |s|
  {
    if |s| > 0 && s[0] == c then TrimStart(s[1..], c) else s
  }

  /** Trimming twice trims nothing more. */
  lemma {:induction false} TrimEndIdempotent(s: string, c: char)
    ensures TrimEnd(TrimEnd(s, c), c) == TrimEnd(s, c)
  {
  }

  lemma {:induction false} TrimStartIdempotent(s: string, c: char)
    ensures TrimStart(TrimStart(s, c), c) == TrimStart(s, c)
  {
  }

  /**
   * Char.IsWhiteSpace: the Unicode space, line and paragraph separators (U+00A0 among the
   * spaces), and the controls U+0009 to U+000D and U+0085.
   */
  predicate IsWhiteSpace(c: char)
  {
    ('\t' <= c <= '\r') || c == ' ' || c == '\U{0085}' || c == '\U{00A0}' || c == '\U{1680}'
    || ('\U{2000}' <= c <= '\U{200A}') || c == '\U{2028}' || c == '\U{2029}' || c == '\U{202F}'
    || c == '\U{205F}' || c == '\U{3000}'
  }

  /** String.IsNullOrWhiteSpace, for a string that is present. */
  predicate IsBlank(s: string)
  {
    forall i | 0 <= i < |s| :: IsWhiteSpace(s[i])
  }

  /** String.LastIndexOf(c), with -1 read as None. */
  function LastIndexOf(s: string, c: char): (r: Option<nat>)
    ensures r.Some? ==> r.value < |s| && s[r.value] == c && forall i | r.value < i < |s| :: s[i] != c
    ensures r.None? ==> forall i | 0 <= i < |s| :: s[i] != c
    decreases |s|
  {
    if |s| == 0 then None
    else if s[|s| - 1] == c then Some(|s| - 1)
    else LastIndexOf(s[..|s| - 1], c)
  }

  /** String.Split(sep): the pieces between separators, always at least one. */
  function Split(s: string, sep: char): (parts: seq<string>)
    ensures |parts| >= 1
    ensures forall k | 0 <= k < |parts| :: sep !in parts[k]
    decreases |s|
  {
    match LastIndexOf(s, sep)
    case None => [s]
    case Some(k) => Split(s[..k], sep) + [s[k + 1..]]
  }

  /** String.Join(sep, parts). */
  function Join(sep: char, parts: seq<string>): string
    decreases |parts|
  {
    if |parts| == 0 then ""
    else if |parts| == 1 then parts[0]
    else Join(sep, parts[..|parts| - 1]) + [sep] + parts[|parts| - 1]
  }

  /** Joining the pieces of a split with the same separator gives the string back. */
  lemma {:induction false} JoinSplit(s: string, sep: char)
    ensures Join(sep, Split(s, sep)) == s
    decreases |s|
  {
    match LastIndexOf(s, sep)
    case None =>
    case Some(k) =>
      var front := Split(s[..k], sep);
      var parts := front + [s[k + 1..]];
      assert parts[..|parts| - 1] == front;
      JoinSplit(s[..k], sep);
      assert s == s[..k] + [sep] + s[k + 1..];
  }

  /** The last piece of a split is what follows the last separator; the others re-join to what precedes it. */
  lemma SplitLast(s: string, sep: char)
    ensures var parts := Split(s, sep);
      match LastIndexOf(s, sep)
      case None => parts == [s]
      case Some(k) => parts[|parts| - 1] == s[k + 1..] && Join(sep, parts[..|parts| - 1]) == s[..k]
  {
    match LastIndexOf(s, sep)
    case None =>
    case Some(k) =>
      var parts := Split(s, sep);
      assert parts[..|parts| - 1] == Split(s[..k], sep);
      JoinSplit(s[..k], sep);
  }

  predicate IsDigit(c: char)
  {
    '0' <= c <= '9'
  }

  predicate AllDigits(s: string)
  {
    forall i | 0 <= i < |s| :: IsDigit(s[i])
  }

  function DigitChar(d: nat): char
    requires d < 10
  {
    ('0' as int + d) as char
  }

  function NatDigits(n: nat): (r: string)
    ensures |r| >= 1 && AllDigits(r)
    decreases n
  {
    if n < 10 then [DigitChar(n)] else NatDigits(n / 10) + [DigitChar(n % 10)]
  }

  /** Int32.ToString(CultureInfo.InvariantCulture): decimal digits, with a leading '-' when negative. */
  function DecimalString(n: int): string
  {
    if n < 0 then "-" + NatDigits(-n) else NatDigits(n)
  }

  function DigitsValue(s: string): nat
    requires AllDigits(s)
    decreases |s|
  {
    if |s| == 0 then 0 else DigitsValue(s[..|s| - 1]) * 10 + (s[|s| - 1] as int - '0' as int)
  }

  /** Int32.Parse: an optional sign followed by one or more decimal digits. */
  function ParseInt(s: string): Option<int>
  {
    if |s| > 1 && (s[0] == '-' || s[0] == '+') && AllDigits(s[1..]) then
      var magnitude: int := DigitsValue(s[1..]);
      Some(if s[0] == '-' then -magnitude else magnitude)
    else if |s| > 0 && AllDigits(s) then Some(DigitsValue(s))
    else None
  }

  lemma {:induction false} DigitsValueOfNatDigits(n: nat)
    ensures DigitsValue(NatDigits(n)) == n
    decreases n
  {
    if n >= 10 {
      var s := NatDigits(n);
      assert s[..|s| - 1] == NatDigits(n / 10);
      DigitsValueOfNatDigits(n / 10);
    }
  }

  /** Parsing the invariant rendering of a number gives the number back. */
  lemma ParseDecimalString(n: int)
    ensures ParseInt(DecimalString(n)) == Some(n)
  {
    if n < 0 {
      var d := NatDigits(-n);
      var s := "-" + d;
      assert s[1..] == d;
      DigitsValueOfNatDigits(-n);
      assert |s| > 1 && s[0] == '-' && AllDigits(s[1..]) && DigitsValue(s[1..]) == -n;
      assert DecimalString(n) == s;
    } else {
      var s := NatDigits(n);
      DigitsValueOfNatDigits(n);
      assert IsDigit(s[0]);
      assert !(s[0] == '-' || s[0] == '+');
      assert DecimalString(n) == s;
    }
  }

  lemma {:induction false} NatDigitsNoLeadingZero(n: nat)
    requires n > 0
    ensures NatDigits(n)[0] != '0'
    decreases n
  {
    if n >= 10 {
      NatDigitsNoLeadingZero(n / 10);
    }
  }

  /** The rendering of a number never starts with a zero it does not need, so "01" renders no number. */
  lemma DecimalStringIsNotPadded(n: int)
    ensures DecimalString(n) != "01"
  {
    if n > 0 {
      NatDigitsNoLeadingZero(n);
      assert DecimalString(n)[0] != "01"[0];
    } else if n == 0 {
      assert |DecimalString(n)| == 1;
    } else {
      assert DecimalString(n)[0] == '-';
    }
  }
}
