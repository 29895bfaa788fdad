/** The text of a cache key, `"${width}x${height}_${radius}_${type}"`, and
    how its fields are read back from it. */
module CacheKey {
  import opened Options

  predicate IsDigit(c: char) {
    '0' <= c <= '9'
  }

  predicate AllDigits(s: string) {
    forall i :: 0 <= i < |s| ==> IsDigit(s[i])
  }

  function DigitChar(d: nat): (c: char)
    requires d < 10
    ensures IsDigit(c)
  {
    ('0' as int + d) as char
  }

  function DigitValue(c: char): (d: nat)
    requires IsDigit(c)
    ensures d < 10
  {
    c as int - '0' as int
  }

  /** How Kotlin renders a non-negative `Int` in a string template: its
      decimal digits, most significant first, with no leading zeros. */
  function Decimal(n: nat): (s: string)
    ensures |s| >= 1 && AllDigits(s)
    ensures n >= 10 ==> s[0] != '0'
    decreases n
  {
    if n < 10 then [DigitChar(n)] else Decimal(n / 10) + [DigitChar(n % 10)]
  }

  /** The number a string of decimal digits denotes. */
  function ParseDecimal(s: string): nat
    requires AllDigits(s)
    decreases |s|
  {
    if |s| == 0 then 0 else ParseDecimal(s[..|s| - 1]) * 10 + DigitValue(s[|s| - 1])
  }

  /** Reading back the decimal rendering of n gives n. */
  lemma {:induction false} ParseDecimalOfDecimal(n: nat)
    ensures ParseDecimal(Decimal(n)) == n
  {
    if n >= 10 {
      var s := Decimal(n);
      assert s[..|s| - 1] == Decimal(n / 10);
      ParseDecimalOfDecimal(n / 10);
    }
  }

  /** The position of the first c in s, or |s| when there is none. */
  function Find(s: string, c: char): (i: nat)
    ensures i <= |s|
    ensures forall j :: 0 <= j < i ==> s[j] != c
    ensures i < |s| ==> s[i] == c
  {
    if |s| == 0 then 0 else if s[0] == c then 0 else 1 + Find(s[1..], c)
  }

  /** The text before and after the first c in s, or None when s has no c. */
  function SplitAt(s: string, c: char): (r: Option<(string, string)>)
    ensures r.None? <==> forall j :: 0 <= j < |s| ==> s[j] != c
    ensures r.Some? ==> s == r.value.0 + [c] + r.value.1 && forall j :: 0 <= j < |r.value.0| ==> r.value.0[j] != c
  {
    var i := Find(s, c);
    if i == |s| then None else Some((s[..i], s[i + 1..]))
  }

  /** In `a + [c] + b` with no c in a, the split falls on the c after a. */
  lemma SplitAtDelimiter(a: string, c: char, b: string)
    requires forall j :: 0 <= j < |a| ==> a[j] != c
    ensures SplitAt(a + [c] + b, c) == Some((a, b))
  {
    var s := a + [c] + b;
    assert s[|a|] == c;
    assert forall j :: 0 <= j < |a| ==> s[j] == a[j];
    assert s[..|a|] == a && s[|a| + 1..] == b;
  }

  /** True of a radius text that can sit between two `_` separators
      without being mistaken for one: Kotlin's rendering of a `Float` ("2.5",
      "1.0E-5", "NaN", "Infinity") never holds `_`. */
  predicate NoUnderscore(s: string) {
    forall j :: 0 <= j < |s| ==> s[j] != '_'
  }

  /** The four things a cache key is made of. */
  datatype KeyFields = KeyFields(width: nat, height: nat, radiusText: string, blurType: string)

  /** The key text: width and height in decimal, then the radius as the
      platform renders it, then the blur type, separated by `x`, `_`, `_`. */
  function KeyText(f: KeyFields): string {
    Decimal(f.width) + "x" + Decimal(f.height) + "_" + f.radiusText + "_" + f.blurType
  }

  /** Splits a key at its first `x`, the first `_` after it and the next `_`;
      the blur type is everything after that, so it may itself hold `_`. */
  function ParseKey(key: string): Option<KeyFields> {
    match SplitAt(key, 'x')
    case None => None
    case Some((w, rest)) =>
      match SplitAt(rest, '_')
      case None => None
      case Some((h, tail)) =>
        match SplitAt(tail, '_')
        case None => None
        case Some((radiusText, blurType)) =>
          if |w| == 0 || |h| == 0 || !AllDigits(w) || !AllDigits(h) then None
          else Some(KeyFields(ParseDecimal(w), ParseDecimal(h), radiusText, blurType))
  }

  /** Every key can be read back into the fields it was made of, provided the
      radius text holds no `_` (a rendered float never does). */
  lemma ParseKeyText(f: KeyFields)
    requires NoUnderscore(f.radiusText)
    ensures ParseKey(KeyText(f)) == Some(f)
  {
    var w, h := Decimal(f.width), Decimal(f.height);
    var tail := f.radiusText + "_" + f.blurType;
    var rest := h + "_" + tail;
    assert KeyText(f) == w + ['x'] + rest;
    SplitAtDelimiter(w, 'x', rest);
    assert rest == h + ['_'] + tail;
    SplitAtDelimiter(h, '_', tail);
    assert tail == f.radiusText + ['_'] + f.blurType;
    SplitAtDelimiter(f.radiusText, '_', f.blurType);
    ParseDecimalOfDecimal(f.width);
    ParseDecimalOfDecimal(f.height);
  }

  /** Different fields give different keys: two requests share a key only
      when their sizes, radius texts and blur types all agree. */
  lemma KeyTextInjective(f: KeyFields, g: KeyFields)
    requires NoUnderscore(f.radiusText) && NoUnderscore(g.radiusText)
    ensures KeyText(f) == KeyText(g) <==> f == g
  {
    ParseKeyText(f);
    ParseKeyText(g);
  }
}
