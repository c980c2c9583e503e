/** What every module shares: options, clocks and the shape of a content hash. */
module Basics {
  datatype Option<+T> = None | Some(value: T)

  /** Microseconds in UTC, from 1 January of year 0 of the proleptic Gregorian calendar. */
  type Time = int

  const DAY: int := 86_400_000_000

  predicate IsSha256(s: string) {
    |s| == 64 && forall i :: 0 <= i < |s| ==> '0' <= s[i] <= '9' || 'a' <= s[i] <= 'f'
  }

  /** A hash is 64 lower-case hexadecimal digits. */
  lemma Sha256IsHexadecimal(s: string)
    ensures IsSha256(s) <==> |s| == 64 && forall c :: c in s ==> c in "0123456789abcdef"
  {
    var digits := "0123456789abcdef";
    forall c ensures c in digits <==> '0' <= c <= '9' || 'a' <= c <= 'f' {
      if '0' <= c <= '9' {
        assert digits[c as int - '0' as int] == c;
      } else if 'a' <= c <= 'f' {
        assert digits[10 + c as int - 'a' as int] == c;
      }
    }
    assert forall i :: 0 <= i < |s| ==> s[i] in s;
  }
}
