/** Results of operations that may fail, values that may be missing, substrings, decimals, and the size of a subset. */
module Prelude {
  datatype Option<+T> = None | Some(value: T)

  datatype Result<+T, +E> = Ok(value: T) | Err(error: E)

  /** Substring search. */
  predicate Contains(needle: string, hay: string) {
    exists i :: 0 <= i <= |hay| - |needle| && IsAt(needle, hay, i)
  }

  predicate IsAt(needle: string, hay: string, i: nat) {
    i + |needle| <= |hay| && hay[i..i + |needle|] == needle
  }

  /** `hay` has `needle` in it somewhere. */
  ghost predicate Within(needle: string, hay: string) {
    exists before, after :: hay == before + needle + after
  }

  lemma ContainsIsWithin(needle: string, hay: string)
    ensures Contains(needle, hay) <==> Within(needle, hay)
  {
    if Contains(needle, hay) {
      var i :| 0 <= i <= |hay| - |needle| && IsAt(needle, hay, i);
      assert hay == hay[..i] + needle + hay[i + |needle|..];
    }
    if Within(needle, hay) {
      var before, after :| hay == before + needle + after;
      assert IsAt(needle, hay, |before|);
    }
  }

  /** A number in decimal digits. */
  function Decimal(n: nat): string {
    if n < 10 then [('0' as int + n) as char] else Decimal(n / 10) + [('0' as int + n % 10) as char]
  }

  lemma SubsetCount<T>(a: set<T>, b: set<T>)
    requires a <= b
    ensures |a| <= |b|
  {
    assert b == a + (b - a);
  }
}
