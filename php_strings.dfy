/** The PHP string built-ins the CRUD helpers use (implode, str_repeat,
    rtrim), and a count of the occurrences of a character, which states how
    many placeholders a statement holds. */
module PhpStrings {

  /** PHP's implode: the parts joined by sep, no separator before the first
      part or after the last. */
  function Implode(sep: string, parts: seq<string>): (r: string)
    ensures |parts| == 0 ==> r == ""
    ensures |parts| > 0 ==> parts[0] <= r
    ensures |parts| > 1 ==> parts[0] + sep <= r
  {
    if |parts| == 0 then ""
    else if |parts| == 1 then parts[0]
    else parts[0] + sep + Implode(sep, parts[1..])
  }

  /** PHP's str_repeat: s written n times. */
  function StrRepeat(s: string, n: nat): (r: string)
    ensures |r| == |s| * n
    ensures n > 0 ==> s <= r
  {
    if n == 0 then "" else MulStep(|s|, n); s + StrRepeat(s, n - 1)
  }

  /** PHP's rtrim with an explicit character list: the longest prefix of s
      obtained by removing characters of chars from its end. */
  function RTrim(s: string, chars: set<char>): (r: string)
    ensures r <= s
    ensures |r| > 0 ==> r[|r| - 1] !in chars
    ensures forall i :: |r| <= i < |s| ==> s[i] in chars
  {
    if |s| > 0 && s[|s| - 1] in chars then RTrim(s[..|s| - 1], chars) else s
  }

  /** The list of n copies of s. */
  function Copies(s: string, n: nat): (r: seq<string>)
    ensures |r| == n
  {
    seq(n, _ => s)
  }

  /** How many times c occurs in s. */
  function Occurrences(c: char, s: string): nat
  {
    if s == [] then 0 else (if s[0] == c then 1 else 0) + Occurrences(c, s[1..])
  }

  lemma {:induction false} OccurrencesConcat(c: char, a: string, b: string)
    ensures Occurrences(c, a + b) == Occurrences(c, a) + Occurrences(c, b)
  {
    if a == [] {
      assert a + b == b;
    } else {
      assert (a + b)[1..] == a[1..] + b;
      OccurrencesConcat(c, a[1..], b);
    }
  }

  lemma {:induction false} OccurrencesAbsent(c: char, s: string)
    requires c !in s
    ensures Occurrences(c, s) == 0
  {
    if s != [] {
      assert c !in s[1..];
      OccurrencesAbsent(c, s[1..]);
    }
  }

  lemma OccurrencesAbsentConcat(c: char, a: string, b: string)
    requires c !in a && c !in b
    ensures Occurrences(c, a + b) == 0
  {
    OccurrencesConcat(c, a, b);
    OccurrencesAbsent(c, a);
    OccurrencesAbsent(c, b);
  }

  /** A string made of two parts without c around one c holds c once. */
  lemma OccurrencesOnce(c: char, a: string, b: string)
    requires c !in a && c !in b
    ensures Occurrences(c, a + [c] + b) == 1
  {
    OccurrencesConcat(c, a + [c], b);
    OccurrencesConcat(c, a, [c]);
    OccurrencesAbsent(c, a);
    OccurrencesAbsent(c, b);
  }

  /** A character absent from the separator occurs in the joined string as
      often as in all parts together. */
  lemma {:induction false} OccurrencesImplode(c: char, sep: string, parts: seq<string>, k: nat)
    requires c !in sep
    requires forall i :: 0 <= i < |parts| ==> Occurrences(c, parts[i]) == k
    ensures Occurrences(c, Implode(sep, parts)) == k * |parts|
  {
    if |parts| > 1 {
      var rest := Implode(sep, parts[1..]);
      OccurrencesImplode(c, sep, parts[1..], k);
      assert Occurrences(c, rest) == k * (|parts| - 1);
      OccurrencesConcat(c, parts[0], sep);
      OccurrencesConcat(c, parts[0] + sep, rest);
      OccurrencesAbsent(c, sep);
      MulStep(k, |parts|);
    }
  }

  lemma MulStep(k: nat, n: nat)
    requires n > 0
    ensures k * n == k + k * (n - 1)
  {
  }

  /** Joining one more part appends the separator and that part: implode
      read from the back. */
  lemma {:induction false} ImplodeAppend(sep: string, parts: seq<string>, p: string)
    requires |parts| > 0
    ensures Implode(sep, parts + [p]) == Implode(sep, parts) + sep + p
  {
    var longer := parts + [p];
    if |parts| == 1 {
      assert longer[1..] == [p];
    } else {
      assert longer[1..] == parts[1..] + [p];
      ImplodeAppend(sep, parts[1..], p);
      var rest := Implode(sep, parts[1..]);
      calc {
        Implode(sep, longer);
        longer[0] + sep + Implode(sep, parts[1..] + [p]);
        parts[0] + sep + (rest + sep + p);
        (parts[0] + sep + rest) + sep + p;
      }
    }
  }

  /** One more copy goes at the end as well as at the front. */
  lemma {:induction false} StrRepeatAppend(s: string, n: nat)
    ensures StrRepeat(s, n + 1) == StrRepeat(s, n) + s
  {
    if n > 0 {
      StrRepeatAppend(s, n - 1);
    }
  }

  /** Joining parts whose last part is not empty ends with that part's last character. */
  lemma {:induction false} ImplodeLastChar(sep: string, parts: seq<string>)
    requires |parts| > 0 && |parts[|parts| - 1]| > 0
    ensures var r := Implode(sep, parts); var p := parts[|parts| - 1];
      |r| > 0 && r[|r| - 1] == p[|p| - 1]
  {
    if |parts| > 1 {
      ImplodeLastChar(sep, parts[1..]);
    }
  }

  /** rtrim removes exactly a trailing suffix made of trimmed characters when
      what precedes it does not end in one. */
  lemma {:induction false} RTrimSuffix(s: string, t: string, chars: set<char>)
    requires forall i :: 0 <= i < |t| ==> t[i] in chars
    requires |s| > 0 ==> s[|s| - 1] !in chars
    ensures RTrim(s + t, chars) == s
  {
    if t == [] {
      assert s + t == s;
    } else {
      var u := t[..|t| - 1];
      assert (s + t)[..|s + t| - 1] == s + u;
      RTrimSuffix(s, u, chars);
    }
  }

  /** str_repeat of "x, " is the implode of the copies with one separator left over. */
  lemma {:induction false} StrRepeatAsImplode(x: string, sep: string, n: nat)
    requires n > 0
    ensures StrRepeat(x + sep, n) == Implode(sep, Copies(x, n)) + sep
  {
    if n > 1 {
      StrRepeatAsImplode(x, sep, n - 1);
      assert Copies(x, n)[1..] == Copies(x, n - 1);
      assert Copies(x, n)[0] == x;
    }
  }
}
