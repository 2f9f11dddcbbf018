/** String helpers: Rust's `Vec<String>::join`, its inverse `split`, and
    prefix matching. */
module Strings {

  import opened Common

  /** The position of the first `ch` in `s`, or `|s|` when there is none. */
  function IndexOf(s: string, ch: char): (i: nat)
    ensures i <= |s|
    ensures i < |s| ==> s[i] == ch
    ensures forall k :: 0 <= k < i ==> s[k] != ch
  {
    if s == [] then 0 else if s[0] == ch then 0 else 1 + IndexOf(s[1..], ch)
  }

  lemma IndexOfConcat(a: string, b: string, ch: char)
    requires forall k :: 0 <= k < |a| ==> a[k] != ch
    requires b == [] || b[0] == ch
    ensures IndexOf(a + b, ch) == |a|
  {
    assert forall k :: 0 <= k < |a| ==> (a + b)[k] == a[k];
    if b != [] {
      assert (a + b)[|a|] == b[0];
    }
  }

  /** `xs.join(sep)`: the elements with `sep` between neighbours. */
  function Join(xs: seq<string>, sep: string): (s: string)
    ensures |xs| == 1 ==> s == xs[0]
  {
    if |xs| == 0 then "" else if |xs| == 1 then xs[0] else xs[0] + sep + Join(xs[1..], sep)
  }

  /** The pieces of `s` between occurrences of `sep`. */
  function Split(s: string, sep: char): (xs: seq<string>)
    ensures |xs| >= 1
    decreases |s|
  {
    var i := IndexOf(s, sep);
    if i == |s| then [s] else [s[..i]] + Split(s[i + 1..], sep)
  }

  /** Splitting a joined list on a separator that no element holds gives the
      list back. */
  lemma {:induction false} SplitJoin(xs: seq<string>, sep: char)
    requires |xs| >= 1
    requires forall j, k :: 0 <= j < |xs| && 0 <= k < |xs[j]| ==> xs[j][k] != sep
    ensures Split(Join(xs, [sep]), sep) == xs
  {
    if |xs| == 1 {
      IndexOfConcat(xs[0], [], sep);
      assert xs[0] + [] == xs[0];
    } else {
      var rest := Join(xs[1..], [sep]);
      var s := Join(xs, [sep]);
      assert s == xs[0] + ([sep] + rest);
      IndexOfConcat(xs[0], [sep] + rest, sep);
      assert s[..|xs[0]|] == xs[0];
      assert s[|xs[0]| + 1..] == rest;
      SplitJoin(xs[1..], sep);
      assert [xs[0]] + xs[1..] == xs;
    }
  }

  /** The rest of `s` after `p`, when `s` starts with `p`. */
  function StripPrefix(s: string, p: string): (r: Option<string>)
    ensures r.Some? ==> s == p + r.value
  {
    if |p| <= |s| && s[..|p|] == p then Some(s[|p|..]) else None
  }

  lemma StripPrefixConcat(p: string, t: string)
    ensures StripPrefix(p + t, p) == Some(t)
  {
  }
}
