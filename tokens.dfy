/**
 * The C tokenizer the configuration parsers rely on. `strtok` with one delimiter
 * returns the maximal runs of other characters, in order: a delimiter at either end
 * or two delimiters in a row never produce an empty token.
 */
module Tokens {
  import opened Wrappers

  /** Length of the leading run of characters other than `d`. */
  function RunLength(s: string, d: char): (n: nat)
    ensures n <= |s|
    ensures d !in s[..n]
    ensures n < |s| ==> s[n] == d
  {
    if s == [] || s[0] == d then 0 else 1 + RunLength(s[1..], d)
  }

  /** Every token `strtok(s, d)` returns, in order. */
  function Split(s: string, d: char): (ts: seq<string>)
    ensures forall k :: 0 <= k < |ts| ==> |ts[k]| > 0 && d !in ts[k]
    decreases |s|
  {
    if s == [] then []
    else if s[0] == d then Split(s[1..], d)
    else
      var n := RunLength(s, d);
      [s[..n]] + Split(s[n..], d)
  }

  /** The tokens written back with one delimiter between neighbours. */
  function Join(ts: seq<string>, d: char): string
  {
    if ts == [] then [] else if |ts| == 1 then ts[0] else ts[0] + [d] + Join(ts[1..], d)
  }

  predicate IsToken(t: string, d: char) {
    |t| > 0 && d !in t
  }

  lemma {:induction false} RunLengthOfToken(t: string, u: string, d: char)
    requires d !in t
    requires u == [] || u[0] == d
    ensures RunLength(t + u, d) == |t|
  {
    if t != [] {
      assert (t + u)[1..] == t[1..] + u;
      RunLengthOfToken(t[1..], u, d);
    }
  }

  /** Splitting undoes joining, for tokens that are non-empty and free of the delimiter. */
  lemma {:induction false} SplitJoin(ts: seq<string>, d: char)
    requires forall k :: 0 <= k < |ts| ==> IsToken(ts[k], d)
    ensures Split(Join(ts, d), d) == ts
  {
    if ts == [] {
    } else if |ts| == 1 {
      var t := ts[0];
      RunLengthOfToken(t, [], d);
      assert t + [] == t;
      assert t[|t|..] == [];
    } else {
      var t := ts[0];
      var rest := [d] + Join(ts[1..], d);
      assert Join(ts, d) == t + rest;
      RunLengthOfToken(t, rest, d);
      assert (t + rest)[..|t|] == t;
      assert (t + rest)[|t|..] == rest;
      assert rest[1..] == Join(ts[1..], d);
      SplitJoin(ts[1..], d);
      assert ts == [t] + ts[1..];
    }
  }

  /**
   * `first = strtok(token, ":"); second = strtok(NULL, ":")`: the first two colon-free
   * runs of an entry, or None when the entry has fewer than two (the caller asserts).
   * A third run, if any, is ignored.
   */
  function ColonPair(token: string): (r: Option<(string, string)>)
    ensures r.Some? <==> |Split(token, ':')| >= 2
    ensures r.Some? ==> r.value.0 == Split(token, ':')[0] && r.value.1 == Split(token, ':')[1]
  {
    var parts := Split(token, ':');
    if |parts| >= 2 then Some((parts[0], parts[1])) else None
  }

  /** An entry `a:b` written from two colon-free non-empty sides reads back as that pair. */
  lemma ColonPairOfJoin(a: string, b: string)
    requires IsToken(a, ':') && IsToken(b, ':')
    ensures ColonPair(a + ":" + b) == Some((a, b))
  {
    assert Join([a, b], ':') == a + ":" + b;
    SplitJoin([a, b], ':');
  }

  /**
   * An entry with one colon gives a pair iff both sides are non-empty: `:b`, `a:` and `:`
   * leave the second `strtok` without a token.
   */
  lemma ColonPairNeedsBothSides(a: string, b: string)
    requires ':' !in a && ':' !in b
    ensures ColonPair(a + ":" + b).Some? <==> a != [] && b != []
  {
    var e := a + ":" + b;
    if a != [] && b != [] {
      ColonPairOfJoin(a, b);
    } else if a == [] {
      assert e[1..] == b;
      assert Split(e, ':') == Split(b, ':');
      if b != [] {
        assert Join([b], ':') == b;
        SplitJoin([b], ':');
      }
    } else {
      RunLengthOfToken(a, ":", ':');
      assert e[RunLength(e, ':')..] == ":";
      assert Split(":", ':') == Split([], ':');
    }
  }
}
