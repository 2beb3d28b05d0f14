/**
 * Month-name resolution: `DateTime.ParseExact(month, "MMMM", InvariantCulture).Month`.
 * The "MMMM" pattern accepts exactly one full month name of the invariant
 * culture, matched without regard to letter case, and nothing around it.
 */
module Months {
  import opened Results
  import opened Entities

  /** The invariant culture's full month names, January first. */
  const MonthNames: seq<string> := [
    "January", "February", "March", "April", "May", "June",
    "July", "August", "September", "October", "November", "December"]

  function MonthName(m: MonthNumber): string {
    MonthNames[m - 1]
  }

  /** Upper-case a Latin letter; every other character is its own upper case. */
  function ToUpperAscii(c: char): (u: char)
    ensures 'a' <= c <= 'z' ==> 'A' <= u <= 'Z' && u as int == c as int - 32
    ensures !('a' <= c <= 'z') ==> u == c
  {
    if 'a' <= c <= 'z' then (c as int - 32) as char else c
  }

  /** Two strings that differ at most in the case of Latin letters. */
  predicate EqualsIgnoreCase(s: string, t: string) {
    |s| == |t| && forall i :: 0 <= i < |s| ==> ToUpperAscii(s[i]) == ToUpperAscii(t[i])
  }

  /** The first month from `m` on whose name `s` matches. */
  function ParseMonthFrom(s: string, m: MonthNumber): (r: Option<MonthNumber>)
    ensures r.Some? ==> m <= r.value && EqualsIgnoreCase(s, MonthName(r.value))
    ensures r.None? ==> forall n: MonthNumber :: m <= n ==> !EqualsIgnoreCase(s, MonthName(n))
    decreases 12 - m
  {
    if EqualsIgnoreCase(s, MonthName(m)) then Some(m)
    else if m == 12 then None
    else ParseMonthFrom(s, m + 1)
  }

  /** The month number `s` names, or None where ParseExact throws a FormatException. */
  function ParseMonth(s: string): (r: Option<MonthNumber>)
    ensures r.Some? <==> exists m: MonthNumber :: EqualsIgnoreCase(s, MonthName(m))
    ensures r.Some? ==> EqualsIgnoreCase(s, MonthName(r.value))
  {
    ParseMonthFrom(s, 1)
  }

  /** No two month names are equal ignoring case: they differ in length, first or third letter. */
  lemma MonthNamesDistinct(m: MonthNumber, n: MonthNumber)
    requires EqualsIgnoreCase(MonthName(m), MonthName(n))
    ensures m == n
  {
    var a, b := MonthName(m), MonthName(n);
    assert |a| == |b| && ToUpperAscii(a[0]) == ToUpperAscii(b[0]) && ToUpperAscii(a[2]) == ToUpperAscii(b[2]);
  }

  /** Resolution succeeds with `m` exactly for the strings equal to month `m`'s name ignoring case. */
  lemma ParseMonthExact(s: string, m: MonthNumber)
    ensures ParseMonth(s) == Some(m) <==> EqualsIgnoreCase(s, MonthName(m))
  {
    if EqualsIgnoreCase(s, MonthName(m)) {
      var r := ParseMonth(s);
      assert r.Some?;
      assert EqualsIgnoreCase(MonthName(m), MonthName(r.value)) by {
        var a, b := MonthName(m), MonthName(r.value);
        forall i | 0 <= i < |a| ensures ToUpperAscii(a[i]) == ToUpperAscii(b[i]) {
          assert ToUpperAscii(s[i]) == ToUpperAscii(a[i]);
        }
      }
      MonthNamesDistinct(m, r.value);
    }
  }

  /** A string that resolves to `m` matches `m`'s name and no other month's. */
  lemma ParseMonthOnly(s: string, m: MonthNumber)
    requires ParseMonth(s) == Some(m)
    ensures forall n: MonthNumber :: EqualsIgnoreCase(s, MonthName(n)) <==> n == m
  {
    forall n: MonthNumber ensures EqualsIgnoreCase(s, MonthName(n)) <==> n == m {
      ParseMonthExact(s, n);
    }
  }

  /** Every month's own name resolves to that month. */
  lemma ParseMonthName(m: MonthNumber)
    ensures ParseMonth(MonthName(m)) == Some(m)
  {
    ParseMonthExact(MonthName(m), m);
  }
}
