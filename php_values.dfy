/** PHP values as the CRUD helpers see them: scalars that are bound to
    placeholders or interpolated into SQL text, array keys, and the ordered
    entries of an associative array. */
module PhpValues {

  /** A scalar PHP value. */
  datatype Value = Str(s: string) | Int(n: int) | Bool(b: bool) | Null

  /** A PHP array key: PHP arrays are keyed by integers or by strings. */
  datatype Key = IntKey(i: int) | StrKey(s: string)

  /** One entry of an ordered PHP associative array, in iteration order. */
  datatype Entry = Entry(key: Key, value: Value)

  /** The text of the keys of an ordered array are pairwise distinct, as PHP
      array keys are. */
  predicate DistinctKeys(entries: seq<Entry>)
  {
    forall i, j :: 0 <= i < j < |entries| ==> KeyText(entries[i].key) != KeyText(entries[j].key)
  }

  function DigitChar(d: nat): (c: char)
    requires d < 10
    ensures '0' <= c <= '9'
    ensures c as int - '0' as int == d
  {
    "0123456789"[d]
  }

  /** The number a string of decimal digits denotes. */
  function DigitsValue(s: string): int
  {
    if s == [] then 0 else DigitsValue(s[..|s| - 1]) * 10 + (s[|s| - 1] as int - '0' as int)
  }

  /** The integer a decimal string denotes, with an optional leading minus. */
  function ParseInt(s: string): int
  {
    if |s| > 0 && s[0] == '-' then -DigitsValue(s[1..]) else DigitsValue(s)
  }

  /** Decimal notation of a natural number, without leading zeros. */
  function NatText(n: nat): (r: string)
    ensures |r| > 0
    ensures forall i :: 0 <= i < |r| ==> '0' <= r[i] <= '9'
  {
    if n < 10 then [DigitChar(n)] else NatText(n / 10) + [DigitChar(n % 10)]
  }

  /** PHP's conversion of an integer to a string. */
  function IntText(n: int): (r: string)
    ensures |r| > 0
    ensures forall i :: 0 < i < |r| ==> '0' <= r[i] <= '9'
    ensures r[0] == '-' <==> n < 0
  {
    if n < 0 then "-" + NatText(-n) else NatText(n)
  }

  /** Reading the decimal notation back gives the number. */
  lemma {:induction false} NatTextRoundTrip(n: nat)
    ensures DigitsValue(NatText(n)) == n
  {
    var r := NatText(n);
    if n < 10 {
      assert r[..0] == [];
    } else {
      NatTextRoundTrip(n / 10);
      assert r[..|r| - 1] == NatText(n / 10);
    }
  }

  /** Reading PHP's text of an integer back gives the integer. */
  lemma IntTextRoundTrip(n: int)
    ensures ParseInt(IntText(n)) == n
  {
    if n < 0 {
      var t := NatText(-n);
      assert IntText(n) == "-" + t;
      assert ("-" + t)[1..] == t;
      NatTextRoundTrip(-n);
    } else {
      var t := NatText(n);
      assert IntText(n) == t;
      assert '0' <= t[0] <= '9';
      NatTextRoundTrip(n);
    }
  }

  /** PHP's conversion of a scalar to a string, as string interpolation and
      implode perform it: true is "1", false and null are empty. */
  function ValueText(v: Value): (r: string)
    ensures v.Str? ==> r == v.s
    ensures v.Int? ==> |r| > 0 && ParseInt(r) == v.n
    ensures v.Bool? ==> (r == "1" <==> v.b) && (r == "" <==> !v.b)
    ensures v.Null? ==> r == ""
  {
    match v
    case Str(s) => s
    case Int(n) => IntTextRoundTrip(n); IntText(n)
    case Bool(b) => if b then "1" else ""
    case Null => ""
  }

  /** A key interpolated into a string. */
  function KeyText(k: Key): string
  {
    match k
    case IntKey(i) => IntText(i)
    case StrKey(s) => s
  }

  /** A key used as an element of a list (array_flatten puts keys in its result). */
  function KeyValue(k: Key): Value
  {
    match k
    case IntKey(i) => Int(i)
    case StrKey(s) => Str(s)
  }
}
