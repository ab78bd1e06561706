/** The handful of Python string operations the serializers rely on:
    `str.endswith('/')`, `str.rstrip('_')`, `sep.join(...)` and a
    simplified `repr` of a string. */
module Strings {

  /** `s.endswith('/')`. */
  predicate EndsWithSlash(s: string) {
    |s| > 0 && s[|s| - 1] == '/'
  }

  /** True when every character of `s` is an underscore. */
  predicate AllUnderscores(s: string) {
    forall i :: 0 <= i < |s| ==> s[i] == '_'
  }

  /** `s.rstrip('_')`: removes every trailing underscore, not just one. */
  function RStripUnderscores(s: string): (r: string)
    ensures r <= s
    ensures |r| == 0 || r[|r| - 1] != '_'
    ensures AllUnderscores(s[|r|..])
    ensures |s| == 0 || s[|s| - 1] != '_' ==> r == s
  {
    if |s| > 0 && s[|s| - 1] == '_' then
      var r := RStripUnderscores(s[..|s| - 1]);
      assert s[|r|..] == s[..|s| - 1][|r|..] + "_";
      r
    else
      s
  }

  /** The three properties above determine the stripped string uniquely:
      any prefix of `s` that does not end in `_` and is followed only by
      underscores is `s.rstrip('_')`. */
  lemma RStripUnique(s: string, t: string)
    requires t <= s
    requires |t| == 0 || t[|t| - 1] != '_'
    requires AllUnderscores(s[|t|..])
    ensures t == RStripUnderscores(s)
  {
    var r := RStripUnderscores(s);
    UnderscoreTail(s, t);
    UnderscoreTail(s, r);
  }

  /** Pointwise reading of `AllUnderscores` on a suffix. */
  lemma UnderscoreTail(s: string, t: string)
    requires t <= s
    requires AllUnderscores(s[|t|..])
    ensures forall i :: |t| <= i < |s| ==> s[i] == '_'
  {
    forall i | |t| <= i < |s|
      ensures s[i] == '_'
    {
      assert s[i] == s[|t|..][i - |t|];
    }
  }

  /** Stripping twice is stripping once. */
  lemma RStripIdempotent(s: string)
    ensures RStripUnderscores(RStripUnderscores(s)) == RStripUnderscores(s)
  {
    var r := RStripUnderscores(s);
    RStripUnique(r, r);
  }

  /** `sep.join(xs)`. */
  function Join(sep: string, xs: seq<string>): string
  {
    if |xs| == 0 then ""
    else if |xs| == 1 then xs[0]
    else xs[0] + sep + Join(sep, xs[1..])
  }

  /** Joining one more element adds exactly one separator, at the end. */
  lemma {:induction false} JoinSnoc(sep: string, xs: seq<string>, x: string)
    requires |xs| > 0
    ensures Join(sep, xs + [x]) == Join(sep, xs) + sep + x
  {
    if |xs| == 1 {
      assert xs + [x] == [xs[0], x];
    } else {
      assert (xs + [x])[1..] == xs[1..] + [x];
      JoinSnoc(sep, xs[1..], x);
    }
  }

  /** `''.join(xs)`. */
  function Concat(xs: seq<string>): string
  {
    if |xs| == 0 then "" else xs[0] + Concat(xs[1..])
  }

  /** Concatenation distributes over appending the pieces. */
  lemma {:induction false} ConcatAppend(xs: seq<string>, ys: seq<string>)
    ensures Concat(xs + ys) == Concat(xs) + Concat(ys)
  {
    if |xs| == 0 {
      assert xs + ys == ys;
    } else {
      assert (xs + ys)[1..] == xs[1..] + ys;
      ConcatAppend(xs[1..], ys);
    }
  }

  /** Python `repr` of a string, simplified to plain single quotes. */
  function Quote(s: string): (r: string)
    ensures |r| == |s| + 2 && r[0] == '\'' && r[|r| - 1] == '\''
    ensures r[1..|r| - 1] == s
  {
    "'" + s + "'"
  }
}
