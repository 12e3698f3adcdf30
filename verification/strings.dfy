/** String helpers used by the extraction, pagination and orchestration modules. */
module Strings {

  /** `s.ends_with(suffix)`. */
  predicate EndsWith(s: string, suffix: string) {
    |suffix| <= |s| && s[|s| - |suffix|..] == suffix
  }

  /** The strings of `xs` written one after the other. */
  function Concat(xs: seq<string>): string {
    if |xs| == 0 then "" else Concat(xs[..|xs| - 1]) + xs[|xs| - 1]
  }

  /** Concatenation distributes over sequence append. */
  lemma {:induction false} ConcatAppend(a: seq<string>, b: seq<string>)
    ensures Concat(a + b) == Concat(a) + Concat(b)
    decreases |b|
  {
    if |b| == 0 {
      assert a + b == a;
    } else {
      var b', ab := b[..|b| - 1], a + b;
      assert ab[..|ab| - 1] == a + b';
      assert ab[|ab| - 1] == b[|b| - 1];
      ConcatAppend(a, b');
      assert Concat(ab) == Concat(a + b') + b[|b| - 1];
      assert Concat(b) == Concat(b') + b[|b| - 1];
    }
  }

}
