/**
 * The value list of a criterion type in the configuration file
 * (`loadCriterionType`): comma-separated entries, each either a bare literal that
 * receives the next implicit code, or `code:literal` with an explicit code.
 */
module CriterionTypeValues {
  import opened Wrappers
  import opened Words
  import opened Tokens

  /** One (numerical code, literal) pair registered in a criterion type. */
  datatype ValuePair = ValuePair(code: Word, literal: string)

  /** The parsers the engine borrows: `0x`-prefixed unsigned hex, and signed decimal. */
  type HexParser = string -> Option<Word>
  type DecimalParser = string -> Option<Int32>

  /** Running state of the loop: the `index` variable, the pairs so far, not aborted. */
  datatype Decoder = Decoder(index: Word, pairs: seq<ValuePair>, ok: bool)

  /** The test `!string(first).compare(0, 2, "0x")`. */
  predicate IsHexPrefixed(s: string) {
    |s| >= 2 && s[..2] == "0x"
  }

  /**
   * The code an explicit entry carries. A failed conversion is only logged. Assuming it
   * leaves its output as it was, `index` keeps its value for hex and `signedIndex` stays 0.
   */
  function ExplicitCode(first: string, index: Word, hex: HexParser, dec: DecimalParser): Word
  {
    if IsHexPrefixed(first) then
      match hex(first)
      case Some(v) => v
      case None => index
    else
      match dec(first)
      case Some(v) => FromInt32(v)
      case None => 0
  }

  predicate IsBare(token: string) {
    ':' !in token
  }

  /** The code a bare literal at running index `i` gets: `1 << i` or `i`. */
  function ImplicitCode(i: Word, inclusive: bool): Word
  {
    if inclusive then Bit(i) else i
  }

  /** One iteration of the loop over the entries of the list. */
  function DecodeEntry(st: Decoder, token: string, inclusive: bool, hex: HexParser, dec: DecimalParser): Decoder
  {
    if !st.ok then st
    else if !IsBare(token) then
      match ColonPair(token)
      case None => st.(ok := false)
      case Some((first, second)) =>
        var code := ExplicitCode(first, st.index, hex, dec);
        Decoder(code, st.pairs + [ValuePair(code, second)], true)
    else
      Decoder((st.index + 1) % 0x1_0000_0000, st.pairs + [ValuePair(ImplicitCode(st.index, inclusive), token)], true)
  }

  /** The loop run over the given entries from the state `st`. */
  function Run(st: Decoder, tokens: seq<string>, inclusive: bool, hex: HexParser, dec: DecimalParser): Decoder
  {
    if tokens == [] then st
    else DecodeEntry(Run(st, tokens[..|tokens| - 1], inclusive, hex, dec), tokens[|tokens| - 1], inclusive, hex, dec)
  }

  /** The loop run over the given entries from `index == 0`. */
  function Decode(tokens: seq<string>, inclusive: bool, hex: HexParser, dec: DecimalParser): Decoder
  {
    Run(Decoder(0, [], true), tokens, inclusive, hex, dec)
  }

  /** The whole value list of one configuration node. */
  function DecodeValueList(values: string, inclusive: bool, hex: HexParser, dec: DecimalParser): Decoder
  {
    Decode(Split(values, ','), inclusive, hex, dec)
  }

  /** An entry is malformed when it has a colon but not two non-empty sides. */
  predicate WellFormed(token: string) {
    IsBare(token) || ColonPair(token).Some?
  }

  /** The literal an entry registers. */
  function LiteralOf(token: string): string
    requires WellFormed(token)
  {
    if IsBare(token) then token else ColonPair(token).value.1
  }

  /** `d` extends `st` by one pair per entry of `tokens`, carrying that entry's literal. */
  ghost predicate ExtendsWithLiterals(st: Decoder, d: Decoder, tokens: seq<string>)
    requires forall k :: 0 <= k < |tokens| ==> WellFormed(tokens[k])
  {
    && |d.pairs| == |st.pairs| + |tokens|
    && d.pairs[..|st.pairs|] == st.pairs
    && forall k :: 0 <= k < |tokens| ==> d.pairs[|st.pairs| + k].literal == LiteralOf(tokens[k])
  }

  lemma LiteralsStep(st: Decoder, dm: Decoder, tokens: seq<string>, t: string, inclusive: bool, hex: HexParser, dec: DecimalParser)
    requires forall k :: 0 <= k < |tokens| ==> WellFormed(tokens[k])
    requires dm.ok && WellFormed(t)
    requires ExtendsWithLiterals(st, dm, tokens)
    ensures DecodeEntry(dm, t, inclusive, hex, dec).ok
    ensures ExtendsWithLiterals(st, DecodeEntry(dm, t, inclusive, hex, dec), tokens + [t])
  {
    var d := DecodeEntry(dm, t, inclusive, hex, dec);
    var b := tokens + [t];
    assert d.pairs[..|dm.pairs|] == dm.pairs;
    assert d.pairs[|dm.pairs|].literal == LiteralOf(t);
    assert d.pairs[..|st.pairs|] == dm.pairs[..|st.pairs|];
    forall k | 0 <= k < |b|
      ensures d.pairs[|st.pairs| + k].literal == LiteralOf(b[k])
    {
      if k < |tokens| {
        assert d.pairs[|st.pairs| + k] == dm.pairs[|st.pairs| + k];
      }
    }
  }

  /**
   * From a running state, the loop finishes without a fatal assertion exactly when every
   * entry is well formed; it then appends one pair per entry, in order, carrying that
   * entry's literal.
   */
  lemma {:induction false} RunOkIff(st: Decoder, tokens: seq<string>, inclusive: bool, hex: HexParser, dec: DecimalParser)
    requires st.ok
    ensures Run(st, tokens, inclusive, hex, dec).ok <==> forall k :: 0 <= k < |tokens| ==> WellFormed(tokens[k])
    ensures Run(st, tokens, inclusive, hex, dec).ok ==> ExtendsWithLiterals(st, Run(st, tokens, inclusive, hex, dec), tokens)
  {
    if tokens == [] {
      assert st.pairs[..|st.pairs|] == st.pairs;
    } else {
      var front := tokens[..|tokens| - 1];
      RunOkIff(st, front, inclusive, hex, dec);
      OkStep(st, tokens, front, inclusive, hex, dec);
    }
  }

  lemma OkStep(st: Decoder, tokens: seq<string>, front: seq<string>, inclusive: bool, hex: HexParser, dec: DecimalParser)
    requires st.ok && tokens != [] && front == tokens[..|tokens| - 1]
    requires Run(st, front, inclusive, hex, dec).ok <==> forall k :: 0 <= k < |front| ==> WellFormed(front[k])
    requires Run(st, front, inclusive, hex, dec).ok ==> ExtendsWithLiterals(st, Run(st, front, inclusive, hex, dec), front)
    ensures Run(st, tokens, inclusive, hex, dec).ok <==> forall k :: 0 <= k < |tokens| ==> WellFormed(tokens[k])
    ensures Run(st, tokens, inclusive, hex, dec).ok ==> ExtendsWithLiterals(st, Run(st, tokens, inclusive, hex, dec), tokens)
  {
    var t := tokens[|tokens| - 1];
    var dm := Run(st, front, inclusive, hex, dec);
    assert tokens == front + [t];
    assert forall k :: 0 <= k < |front| ==> front[k] == tokens[k];
    if dm.ok && WellFormed(t) {
      LiteralsStep(st, dm, front, t, inclusive, hex, dec);
    }
  }

  /**
   * The list decodes without a fatal assertion exactly when every entry is well formed;
   * then there is one pair per entry, in order, carrying that entry's literal.
   */
  lemma DecodeOkIff(tokens: seq<string>, inclusive: bool, hex: HexParser, dec: DecimalParser)
    ensures var d := Decode(tokens, inclusive, hex, dec);
      d.ok <==> forall k :: 0 <= k < |tokens| ==> WellFormed(tokens[k])
    ensures var d := Decode(tokens, inclusive, hex, dec);
      d.ok ==> |d.pairs| == |tokens| &&
               forall k :: 0 <= k < |tokens| ==> d.pairs[k].literal == LiteralOf(tokens[k])
  {
    RunOkIff(Decoder(0, [], true), tokens, inclusive, hex, dec);
    var d := Decode(tokens, inclusive, hex, dec);
    if d.ok {
      assert forall k :: 0 <= k < |tokens| ==> d.pairs[0 + k] == d.pairs[k];
    }
  }

  /**
   * `d` extends `d0` by the bare literals `bare`, the j-th of them registered with the
   * implicit code of running index `d0.index + j`, taken modulo 2^32 as the unsigned
   * index wraps.
   */
  ghost predicate ContinuesWith(d0: Decoder, d: Decoder, bare: seq<string>, inclusive: bool)
  {
    && d.ok
    && d.index == (d0.index + |bare|) % 0x1_0000_0000
    && |d.pairs| == |d0.pairs| + |bare|
    && d.pairs[..|d0.pairs|] == d0.pairs
    && forall j :: 0 <= j < |bare| ==>
         d.pairs[|d0.pairs| + j] == ValuePair(ImplicitCode((d0.index + j) % 0x1_0000_0000, inclusive), bare[j])
  }

  lemma DecodeSnoc(pre: seq<string>, t: string, inclusive: bool, hex: HexParser, dec: DecimalParser)
    ensures Decode(pre + [t], inclusive, hex, dec) == DecodeEntry(Decode(pre, inclusive, hex, dec), t, inclusive, hex, dec)
  {
    assert (pre + [t])[..|pre + [t]| - 1] == pre;
  }

  lemma {:induction false} RunAppend(st: Decoder, a: seq<string>, b: seq<string>, inclusive: bool, hex: HexParser, dec: DecimalParser)
    ensures Run(st, a + b, inclusive, hex, dec) == Run(Run(st, a, inclusive, hex, dec), b, inclusive, hex, dec)
  {
    if b == [] {
      assert a + b == a;
    } else {
      var n := |b| - 1;
      RunAppend(st, a, b[..n], inclusive, hex, dec);
      assert (a + b)[..|a + b| - 1] == a + b[..n];
    }
  }

  lemma SuccMod(x: nat)
    ensures ((x % 0x1_0000_0000) + 1) % 0x1_0000_0000 == (x + 1) % 0x1_0000_0000
  {
  }

  lemma ContinuesStep(d0: Decoder, dm: Decoder, bare: seq<string>, t: string, inclusive: bool, hex: HexParser, dec: DecimalParser)
    requires ContinuesWith(d0, dm, bare, inclusive)
    requires IsBare(t)
    ensures ContinuesWith(d0, DecodeEntry(dm, t, inclusive, hex, dec), bare + [t], inclusive)
  {
    var d := DecodeEntry(dm, t, inclusive, hex, dec);
    var b := bare + [t];
    assert d.pairs == dm.pairs + [ValuePair(ImplicitCode(dm.index, inclusive), t)];
    SuccMod(d0.index + |bare|);
    assert d.pairs[..|d0.pairs|] == dm.pairs[..|d0.pairs|];
    forall j | 0 <= j < |b|
      ensures d.pairs[|d0.pairs| + j] == ValuePair(ImplicitCode((d0.index + j) % 0x1_0000_0000, inclusive), b[j])
    {
      if j < |bare| {
        assert d.pairs[|d0.pairs| + j] == dm.pairs[|d0.pairs| + j];
      }
    }
  }

  lemma {:induction false} RunBare(st: Decoder, bare: seq<string>, inclusive: bool, hex: HexParser, dec: DecimalParser)
    requires st.ok
    requires forall k :: 0 <= k < |bare| ==> IsBare(bare[k])
    ensures ContinuesWith(st, Run(st, bare, inclusive, hex, dec), bare, inclusive)
  {
    if bare == [] {
      assert st.pairs[..|st.pairs|] == st.pairs;
    } else {
      var front := bare[..|bare| - 1];
      RunBare(st, front, inclusive, hex, dec);
      BareStep(st, bare, front, inclusive, hex, dec);
    }
  }

  lemma BareStep(st: Decoder, bare: seq<string>, front: seq<string>, inclusive: bool, hex: HexParser, dec: DecimalParser)
    requires st.ok && bare != [] && front == bare[..|bare| - 1]
    requires IsBare(bare[|bare| - 1])
    requires ContinuesWith(st, Run(st, front, inclusive, hex, dec), front, inclusive)
    ensures ContinuesWith(st, Run(st, bare, inclusive, hex, dec), bare, inclusive)
  {
    assert bare == front + [bare[|bare| - 1]];
    ContinuesStep(st, Run(st, front, inclusive, hex, dec), front, bare[|bare| - 1], inclusive, hex, dec);
  }

  /**
   * Bare literals continue from the running index: after a prefix that leaves `index`
   * at `i`, the j-th following bare literal gets code `1 << (i + j)` in an inclusive type
   * and `i + j` in an exclusive one, and the index ends at `i` plus their number, all
   * modulo 2^32 since the index is an unsigned 32-bit counter.
   */
  lemma BareLiteralsContinue(pre: seq<string>, bare: seq<string>, inclusive: bool, hex: HexParser, dec: DecimalParser)
    requires Decode(pre, inclusive, hex, dec).ok
    requires forall k :: 0 <= k < |bare| ==> IsBare(bare[k])
    ensures ContinuesWith(Decode(pre, inclusive, hex, dec), Decode(pre + bare, inclusive, hex, dec), bare, inclusive)
  {
    RunAppend(Decoder(0, [], true), pre, bare, inclusive, hex, dec);
    RunBare(Decode(pre, inclusive, hex, dec), bare, inclusive, hex, dec);
  }

  /**
   * A list of bare literals only gets the implicit codes `1 << k` (inclusive) or `k`
   * (exclusive) for the k-th literal, and leaves the running index at their number,
   * both modulo 2^32.
   */
  lemma BareListCodes(tokens: seq<string>, inclusive: bool, hex: HexParser, dec: DecimalParser)
    requires forall k :: 0 <= k < |tokens| ==> IsBare(tokens[k])
    ensures var d := Decode(tokens, inclusive, hex, dec);
      && d.ok && d.index == |tokens| % 0x1_0000_0000 && |d.pairs| == |tokens|
      && (forall k :: 0 <= k < |tokens| ==> d.pairs[k] == ValuePair(ImplicitCode(k % 0x1_0000_0000, inclusive), tokens[k]))
  {
    RunBare(Decoder(0, [], true), tokens, inclusive, hex, dec);
    var d := Decode(tokens, inclusive, hex, dec);
    forall k | 0 <= k < |tokens| ensures d.pairs[k] == ValuePair(ImplicitCode(k % 0x1_0000_0000, inclusive), tokens[k]) {
      assert d.pairs[0 + k] == ValuePair(ImplicitCode((0 + k) % 0x1_0000_0000, inclusive), tokens[k]);
    }
  }

  /**
   * In an inclusive list of bare literals, the k-th code (for the first 32) is the single
   * bit k, so no two of them share a bit.
   */
  lemma BareInclusiveCodesAreSingleBits(tokens: seq<string>, hex: HexParser, dec: DecimalParser)
    requires forall k :: 0 <= k < |tokens| ==> IsBare(tokens[k])
    ensures var d := Decode(tokens, true, hex, dec);
      && |d.pairs| == |tokens|
      && forall i, k :: 0 <= i < |tokens| && i < 32 ==> (HasBit(d.pairs[i].code, k) <==> k == i)
  {
    BareListCodes(tokens, true, hex, dec);
    var d := Decode(tokens, true, hex, dec);
    forall i, k | 0 <= i < |tokens| && i < 32 ensures HasBit(d.pairs[i].code, k) <==> k == i {
      assert i % 0x1_0000_0000 == i;
      assert d.pairs[i].code == Bit(i);
      BitIsSingle(i, k);
    }
  }

  /**
   * An explicit entry registers its literal with its own code and sets the running index
   * to that code without incrementing it, so the next bare literal reuses the code
   * (exclusive) or its bit position (inclusive).
   */
  lemma ExplicitEntrySetsIndex(pre: seq<string>, token: string, inclusive: bool, hex: HexParser, dec: DecimalParser)
    requires Decode(pre, inclusive, hex, dec).ok
    requires !IsBare(token) && ColonPair(token).Some?
    ensures var d0 := Decode(pre, inclusive, hex, dec);
      var d := Decode(pre + [token], inclusive, hex, dec);
      var code := ExplicitCode(ColonPair(token).value.0, d0.index, hex, dec);
      d.ok && d.index == code && d.pairs == d0.pairs + [ValuePair(code, ColonPair(token).value.1)]
  {
    assert (pre + [token])[..|pre + [token]| - 1] == pre;
  }

  /** A literal that can stand alone in a value list. */
  predicate IsBareEntry(t: string) {
    IsToken(t, ',') && IsBare(t)
  }

  lemma SplitThree(a: string, b: string, c: string)
    requires IsToken(a, ',') && IsToken(b, ',') && IsToken(c, ',')
    ensures Split(a + "," + b + "," + c, ',') == [a, b, c]
  {
    assert [a, b, c][1..] == [b, c] && [b, c][1..] == [c];
    assert Join([b, c], ',') == b + "," + c;
    assert Join([a, b, c], ',') == a + "," + (b + "," + c);
    assert a + "," + (b + "," + c) == a + "," + b + "," + c;
    SplitJoin([a, b, c], ',');
  }

  /** `a,b,c` in an inclusive type registers a, b, c with codes 1, 2 and 4. */
  lemma InclusiveBareList(a: string, b: string, c: string, hex: HexParser, dec: DecimalParser)
    requires IsBareEntry(a) && IsBareEntry(b) && IsBareEntry(c)
    ensures DecodeValueList(a + "," + b + "," + c, true, hex, dec)
         == Decoder(3, [ValuePair(1, a), ValuePair(2, b), ValuePair(4, c)], true)
  {
    SplitThree(a, b, c);
    FirstThreeBits();
    BareListCodes([a, b, c], true, hex, dec);
    var d := Decode([a, b, c], true, hex, dec);
    assert d.pairs[0] == ValuePair(ImplicitCode(0, true), a);
    assert d.pairs[1] == ValuePair(ImplicitCode(1, true), b);
    assert d.pairs[2] == ValuePair(ImplicitCode(2, true), c);
    assert d.pairs == [d.pairs[0], d.pairs[1], d.pairs[2]];
  }

  /**
   * `0x10:x,y` in an exclusive type: the explicit entry moves the running index to the
   * code and does not advance it, so `y` gets the same code.
   */
  lemma ExplicitThenBare(first: string, x: string, y: string, v: Word, hex: HexParser, dec: DecimalParser)
    requires IsHexPrefixed(first) && hex(first) == Some(v)
    requires IsToken(first, ':') && IsToken(x, ':') && ',' !in first + x
    requires IsBareEntry(y)
    ensures DecodeValueList(first + ":" + x + "," + y, false, hex, dec)
         == Decoder((v + 1) % 0x1_0000_0000, [ValuePair(v, x), ValuePair(v, y)], true)
  {
    var e := first + ":" + x;
    assert Join([e, y], ',') == e + "," + y;
    SplitJoin([e, y], ',');
    ColonPairOfJoin(first, x);
    assert e[|first|] == ':';
    ExplicitEntrySetsIndex([], e, false, hex, dec);
    assert [] + [e] == [e];
    DecodeSnoc([e], y, false, hex, dec);
    assert [e] + [y] == [e, y];
  }

  /** A negative decimal code is reinterpreted as unsigned: `-1:z` registers z with 0xFFFFFFFF. */
  lemma NegativeDecimalCode(first: string, z: string, hex: HexParser, dec: DecimalParser)
    requires !IsHexPrefixed(first) && dec(first) == Some(-1)
    requires IsToken(first, ':') && IsToken(z, ':') && ',' !in first + z
    ensures DecodeValueList(first + ":" + z, false, hex, dec)
         == Decoder(0xFFFF_FFFF, [ValuePair(0xFFFF_FFFF, z)], true)
  {
    var e := first + ":" + z;
    assert Join([e], ',') == e;
    SplitJoin([e], ',');
    ColonPairOfJoin(first, z);
    assert e[|first|] == ':';
    ExplicitEntrySetsIndex([], e, false, hex, dec);
    assert [] + [e] == [e];
  }

  /**
   * The running index wraps as an unsigned 32-bit counter: in an exclusive type,
   * `-1:z,a,b` gives `a` the code 0xFFFFFFFF and `b` the code 0.
   */
  lemma IndexWraps(first: string, z: string, a: string, b: string, hex: HexParser, dec: DecimalParser)
    requires !IsHexPrefixed(first) && dec(first) == Some(-1)
    requires IsToken(first, ':') && IsToken(z, ':') && ',' !in first + z
    requires IsBareEntry(a) && IsBareEntry(b)
    ensures DecodeValueList(first + ":" + z + "," + a + "," + b, false, hex, dec)
         == Decoder(1, [ValuePair(0xFFFF_FFFF, z), ValuePair(0xFFFF_FFFF, a), ValuePair(0, b)], true)
  {
    var e := first + ":" + z;
    assert IsToken(e, ',');
    SplitThree(e, a, b);
    ColonPairOfJoin(first, z);
    assert e[|first|] == ':';
    ExplicitEntrySetsIndex([], e, false, hex, dec);
    assert [] + [e] == [e];
    assert ExplicitCode(first, 0, hex, dec) == 0xFFFF_FFFF;
    BareLiteralsContinue([e], [a, b], false, hex, dec);
    assert [e] + [a, b] == [e, a, b];
    var d0 := Decode([e], false, hex, dec);
    var d := Decode([e, a, b], false, hex, dec);
    assert d0.index == 0xFFFF_FFFF && |d0.pairs| == 1;
    assert ContinuesWith(d0, d, [a, b], false);
    var bare := [a, b];
    assert bare[0] == a && bare[1] == b;
    assert d.pairs[..1] == [ValuePair(0xFFFF_FFFF, z)];
    assert d.pairs[1] == ValuePair(0xFFFF_FFFF, a) by {
      var j := 0;
      assert d.pairs[|d0.pairs| + j] == ValuePair(ImplicitCode((d0.index + j) % 0x1_0000_0000, false), bare[j]);
    }
    assert d.pairs[2] == ValuePair(0, b) by {
      var j := 1;
      assert d.pairs[|d0.pairs| + j] == ValuePair(ImplicitCode((d0.index + j) % 0x1_0000_0000, false), bare[j]);
    }
    assert d.pairs == [d.pairs[0], d.pairs[1], d.pairs[2]];
  }

  /** An entry with nothing after its colon, such as `a:`, is a fatal assertion. */
  lemma EmptySideIsFatal(a: string, inclusive: bool, hex: HexParser, dec: DecimalParser)
    requires IsToken(a, ':') && ',' !in a
    ensures !DecodeValueList(a + ":", inclusive, hex, dec).ok
  {
    var e := a + ":";
    assert Join([e], ',') == e;
    SplitJoin([e], ',');
    assert Split(e, ':') == [a] by {
      RunLengthOfToken(a, ":", ':');
      assert e[|a|..] == ":";
      assert e[..|a|] == a;
      assert Split(":", ':') == Split("", ':');
    }
    assert e[|a|] == ':';
    DecodeOkIff([e], inclusive, hex, dec);
  }
}
