/**
 * The mapping table of a parameter (`parseMappingTable`): comma-separated entries
 * `androidValue:pfwValue` that translate a value received from the Android side into
 * the literal the parameter framework expects.
 */
module MappingTable {
  import opened Wrappers
  import opened Tokens

  /** One (Android value, parameter-framework value) pair. */
  type MappingPair = (string, string)

  /** The pairs of the given entries in order, or None when an entry lacks a side (fatal). */
  function PairsOf(tokens: seq<string>): Option<seq<MappingPair>>
  {
    if tokens == [] then Some([])
    else
      match PairsOf(tokens[..|tokens| - 1])
      case None => None
      case Some(ps) =>
        match ColonPair(tokens[|tokens| - 1])
        case None => None
        case Some(p) => Some(ps + [p])
  }

  /** The table a value string describes; None stands for the "invalid value pair" assertion. */
  function MappingPairs(values: string): Option<seq<MappingPair>>
  {
    PairsOf(Split(values, ','))
  }

  /** The loop over the comma-separated entries, pushing one pair per entry. */
  method ParseMappingTable(values: string) returns (r: Option<seq<MappingPair>>)
    ensures r == MappingPairs(values)
  {
    var tokens := Split(values, ',');
    var pairs: seq<MappingPair> := [];
    var i := 0;
    while i < |tokens|
      invariant 0 <= i <= |tokens|
      invariant PairsOf(tokens[..i]) == Some(pairs)
    {
      assert tokens[..i + 1][..i] == tokens[..i];
      match ColonPair(tokens[i])
      case None =>
        assert PairsOf(tokens[..i + 1]) == None;
        FailedPrefix(tokens, i + 1);
        return None;
      case Some(p) =>
        pairs := pairs + [p];
      i := i + 1;
    }
    assert tokens[..i] == tokens;
    return Some(pairs);
  }

  /** Once a prefix of the entries is rejected, the whole list is. */
  lemma {:induction false} FailedPrefix(tokens: seq<string>, n: nat)
    requires n <= |tokens|
    requires PairsOf(tokens[..n]) == None
    ensures PairsOf(tokens) == None
    decreases |tokens| - n
  {
    if n < |tokens| {
      assert tokens[..n + 1][..n] == tokens[..n];
      FailedPrefix(tokens, n + 1);
    } else {
      assert tokens[..n] == tokens;
    }
  }

  /**
   * The table is accepted exactly when every entry has two non-empty sides; it then holds
   * one pair per entry, in order, made of the entry's first two colon-free runs.
   */
  lemma {:induction false} PairsOfIff(tokens: seq<string>)
    ensures PairsOf(tokens).Some? <==> forall k :: 0 <= k < |tokens| ==> ColonPair(tokens[k]).Some?
    ensures PairsOf(tokens).Some? ==>
      |PairsOf(tokens).value| == |tokens| &&
      forall k :: 0 <= k < |tokens| ==> PairsOf(tokens).value[k] == ColonPair(tokens[k]).value
  {
    if tokens != [] {
      var n := |tokens| - 1;
      PairsOfIff(tokens[..n]);
      assert forall k :: 0 <= k < n ==> tokens[..n][k] == tokens[k];
    }
  }

  /** Rendering well-formed pairs as `a:b,c:d` and parsing the result gives them back. */
  lemma {:induction false} MappingRoundTrip(ps: seq<MappingPair>)
    requires forall k :: 0 <= k < |ps| ==>
      IsToken(ps[k].0, ':') && IsToken(ps[k].1, ':') && ',' !in ps[k].0 && ',' !in ps[k].1
    ensures MappingPairs(Join(Render(ps), ',')) == Some(ps)
  {
    var es := Render(ps);
    forall k | 0 <= k < |es| ensures IsToken(es[k], ',') {
      EntryHasNoComma(ps[k].0, ps[k].1);
    }
    SplitJoin(es, ',');
    forall k | 0 <= k < |es| ensures ColonPair(es[k]) == Some(ps[k]) {
      ColonPairOfJoin(ps[k].0, ps[k].1);
    }
    PairsOfIff(es);
    assert PairsOf(es).value == ps;
  }

  /** Each pair written as one `a:b` entry. */
  function Render(ps: seq<MappingPair>): (es: seq<string>)
    ensures |es| == |ps|
    ensures forall k :: 0 <= k < |ps| ==> es[k] == ps[k].0 + ":" + ps[k].1
  {
    if ps == [] then [] else Render(ps[..|ps| - 1]) + [ps[|ps| - 1].0 + ":" + ps[|ps| - 1].1]
  }

  lemma EntryHasNoComma(a: string, b: string)
    requires |a| > 0 && ',' !in a && ',' !in b
    ensures IsToken(a + ":" + b, ',')
  {
    var e := a + ":" + b;
    forall i | 0 <= i < |e| ensures e[i] != ',' {
      if i < |a| { assert e[i] == a[i]; }
      else if i > |a| { assert e[i] == b[i - |a| - 1]; }
    }
  }

  /** An empty value string, or one made only of commas, gives an empty table. */
  lemma EmptyTable(values: string)
    requires forall i :: 0 <= i < |values| ==> values[i] == ','
    ensures MappingPairs(values) == Some([])
  {
    CommasOnlySplit(values);
  }

  lemma {:induction false} CommasOnlySplit(values: string)
    requires forall i :: 0 <= i < |values| ==> values[i] == ','
    ensures Split(values, ',') == []
    decreases |values|
  {
    if values != [] {
      CommasOnlySplit(values[1..]);
    }
  }
}
