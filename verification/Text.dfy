/** The two ways the program builds keys out of text: "type:key" for buckets and "ms:suffix"
    for the members of a sorted set. Both can be taken apart again. */
module Text {

  function Digit(d: nat): char
    requires d < 10
  {
    '0' + d as char
  }

  /** fmt's %d for a non-negative number. */
  function Decimal(n: nat): string {
    if n < 10 then [Digit(n)] else Decimal(n / 10) + [Digit(n % 10)]
  }

  predicate IsDigits(s: string) {
    s != "" && forall i :: 0 <= i < |s| ==> '0' <= s[i] <= '9'
  }

  function ValueOf(s: string): int
    requires IsDigits(s)
  {
    (if |s| == 1 then 0 else 10 * ValueOf(s[..|s| - 1])) + (s[|s| - 1] as int - '0' as int)
  }

  lemma {:induction false} DecimalRoundTrip(n: nat)
    ensures IsDigits(Decimal(n)) && ValueOf(Decimal(n)) == n
  {
    if n >= 10 {
      DecimalRoundTrip(n / 10);
      assert Decimal(n)[..|Decimal(n)| - 1] == Decimal(n / 10);
    }
  }

  /** Text before the first colon and text after it are determined, whatever comes after. */
  lemma SplitAtColon(a: string, b: string, c: string, d: string)
    requires ':' !in a && ':' !in c
    requires a + ":" + b == c + ":" + d
    ensures a == c && b == d
  {
    var left, right := a + ":" + b, c + ":" + d;
    assert left[|a|] == ':' && forall i :: 0 <= i < |a| ==> left[i] == a[i];
    assert right[|c|] == ':' && forall i :: 0 <= i < |c| ==> right[i] == c[i];
    assert a == left[..|a|] && c == right[..|c|];
    assert b == left[|a| + 1..] && d == right[|c| + 1..];
  }

  /** The bucket a limiter charges. */
  function BucketKey(limitType: string, key: string): string {
    limitType + ":" + key
  }

  /** Buckets of different types, or of different keys of one type, never coincide; the keys
      may contain colons. */
  lemma BucketKeyInjective(t: string, k: string, t': string, k': string)
    requires ':' !in t && ':' !in t'
    ensures BucketKey(t, k) == BucketKey(t', k') <==> t == t' && k == k'
  {
    if BucketKey(t, k) == BucketKey(t', k') {
      SplitAtColon(t, k, t', k');
    }
  }

  /** The member a sorted set records for an attempt. */
  function Member(ms: nat, suffix: nat): string {
    Decimal(ms) + ":" + Decimal(suffix)
  }

  lemma MemberInjective(ms: nat, suffix: nat, ms': nat, suffix': nat)
    ensures Member(ms, suffix) == Member(ms', suffix') <==> ms == ms' && suffix == suffix'
  {
    if Member(ms, suffix) == Member(ms', suffix') {
      DecimalRoundTrip(ms);
      DecimalRoundTrip(ms');
      DecimalRoundTrip(suffix);
      DecimalRoundTrip(suffix');
      SplitAtColon(Decimal(ms), Decimal(suffix), Decimal(ms'), Decimal(suffix'));
    }
  }
}
