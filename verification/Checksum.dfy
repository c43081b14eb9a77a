/** The bech32 checksum of BIP-173: a 30-bit state folded over five-bit
    symbols. The step is linear over GF(2) and injective in its state, which is
    what makes the checksum solvable for exactly one six-symbol tail and makes
    every burst of at most six wrong symbols visible.

    Bit-level facts are proved on their own, about single steps; the lemmas
    about whole strings hide the bit operations and use only those facts. */
module Checksum {
  import opened Prelude
  import opened Regroup

  const GEN0: bv32 := 0x3b6a57b2
  const GEN1: bv32 := 0x26508e6d
  const GEN2: bv32 := 0x1ea119fa
  const GEN3: bv32 := 0x3d4233dd
  const GEN4: bv32 := 0x2a1462b3

  function Xor(a: bv32, b: bv32): bv32 { a ^ b }

  /** One generator, taken when its bit of the departing symbol is set. */
  function Tap(on: bool, g: bv32): bv32 { if on then g else 0 }

  predicate Bit(c: bv32, i: bv6)
    requires i < 32
  {
    (c >> i) & 1 != 0
  }

  function Taps(c: bv32): bv32 {
    Xor(Xor(Xor(Xor(Tap(Bit(c, 25), GEN0), Tap(Bit(c, 26), GEN1)), Tap(Bit(c, 27), GEN2)),
            Tap(Bit(c, 28), GEN3)), Tap(Bit(c, 29), GEN4))
  }

  function Shift(c: bv32): bv32 { (c & 0x1ff_ffff) << 5 }

  function Step(c: bv32, v: bv32): bv32 { Xor(Xor(Shift(c), v), Taps(c)) }

  /** A checksum state fits in 30 bits. */
  predicate State(c: bv32) { c < 0x4000_0000 }

  /** A five-bit word as a symbol of the checksum. */
  function Symbol(w: Word): bv32 { (w as bv5) as bv32 }

  function Fold(c: bv32, values: seq<Word>): bv32
    decreases |values|
  {
    if values == [] then c else Fold(Step(c, Symbol(values[0])), values[1..])
  }

  function Polymod(values: seq<Word>): bv32 { Fold(1, values) }

  // ------------------------------------------------------------------
  // Bit-level facts

  lemma XorFacts(a: bv32, b: bv32)
    ensures Xor(a, 0) == a && Xor(0, a) == a && Xor(a, a) == 0
    ensures Xor(a, Xor(a, b)) == b
  {}

  lemma XorSwap(a: bv32, b: bv32, c: bv32, d: bv32)
    ensures Xor(Xor(a, b), Xor(c, d)) == Xor(Xor(a, c), Xor(b, d))
  {
    hide Xor;
    XorLeft(a, b, Xor(c, d));
    XorLeft(b, c, d);
    XorCommutes(b, c);
    XorLeft(c, b, d);
    XorLeft(a, c, Xor(b, d));
  }

  lemma XorLeft(a: bv32, b: bv32, c: bv32)
    ensures Xor(Xor(a, b), c) == Xor(a, Xor(b, c))
  {}

  lemma XorCommutes(a: bv32, b: bv32)
    ensures Xor(a, b) == Xor(b, a)
  {}

  lemma XorState(a: bv32, b: bv32)
    requires State(a) && State(b)
    ensures State(Xor(a, b))
  {}

  lemma TapLinear(a: bool, b: bool, g: bv32)
    ensures Tap(a != b, g) == Xor(Tap(a, g), Tap(b, g))
  {
    if a { if b {} else {} } else { if b {} else {} }
  }

  lemma BitLinear(a: bv32, b: bv32, i: bv6)
    requires 25 <= i <= 29
    ensures Bit(Xor(a, b), i) == (Bit(a, i) != Bit(b, i))
  {
    OneBit(a >> i, b >> i);
    if i == 25 {
      assert (a ^ b) >> 25 == (a >> 25) ^ (b >> 25);
    } else if i == 26 {
      assert (a ^ b) >> 26 == (a >> 26) ^ (b >> 26);
    } else if i == 27 {
      assert (a ^ b) >> 27 == (a >> 27) ^ (b >> 27);
    } else if i == 28 {
      assert (a ^ b) >> 28 == (a >> 28) ^ (b >> 28);
    } else {
      assert (a ^ b) >> 29 == (a >> 29) ^ (b >> 29);
    }
  }

  lemma OneBit(x: bv32, y: bv32)
    ensures ((x ^ y) & 1 != 0) == ((x & 1 != 0) != (y & 1 != 0))
  {}

  lemma BitTapLinear(a: bv32, b: bv32, i: bv6, g: bv32)
    requires 25 <= i <= 29
    ensures Tap(Bit(Xor(a, b), i), g) == Xor(Tap(Bit(a, i), g), Tap(Bit(b, i), g))
  {
    hide Tap, Xor, Bit;
    BitLinear(a, b, i);
    TapLinear(Bit(a, i), Bit(b, i), g);
  }

  lemma TapsLinear(a: bv32, b: bv32)
    ensures Taps(Xor(a, b)) == Xor(Taps(a), Taps(b))
  {
    hide Tap, Xor, Bit;
    BitTapLinear(a, b, 25, GEN0);
    BitTapLinear(a, b, 26, GEN1);
    BitTapLinear(a, b, 27, GEN2);
    BitTapLinear(a, b, 28, GEN3);
    BitTapLinear(a, b, 29, GEN4);
    var a0, b0 := Tap(Bit(a, 25), GEN0), Tap(Bit(b, 25), GEN0);
    var a1, b1 := Xor(a0, Tap(Bit(a, 26), GEN1)), Xor(b0, Tap(Bit(b, 26), GEN1));
    var a2, b2 := Xor(a1, Tap(Bit(a, 27), GEN2)), Xor(b1, Tap(Bit(b, 27), GEN2));
    var a3, b3 := Xor(a2, Tap(Bit(a, 28), GEN3)), Xor(b2, Tap(Bit(b, 28), GEN3));
    XorSwap(a0, b0, Tap(Bit(a, 26), GEN1), Tap(Bit(b, 26), GEN1));
    XorSwap(a1, b1, Tap(Bit(a, 27), GEN2), Tap(Bit(b, 27), GEN2));
    XorSwap(a2, b2, Tap(Bit(a, 28), GEN3), Tap(Bit(b, 28), GEN3));
    XorSwap(a3, b3, Tap(Bit(a, 29), GEN4), Tap(Bit(b, 29), GEN4));
  }

  lemma ShiftLinear(a: bv32, b: bv32)
    ensures Shift(Xor(a, b)) == Xor(Shift(a), Shift(b))
  {}

  /** The step is linear over GF(2) in state and symbol together. */
  lemma StepLinear(a: bv32, b: bv32, x: bv32, y: bv32)
    ensures Step(Xor(a, b), Xor(x, y)) == Xor(Step(a, x), Step(b, y))
  {
    hide Xor, Shift, Taps;
    TapsLinear(a, b);
    ShiftLinear(a, b);
    XorSwap(Shift(a), Shift(b), x, y);
    XorSwap(Xor(Shift(a), x), Xor(Shift(b), y), Taps(a), Taps(b));
  }

  lemma StepBounded(c: bv32, v: bv32)
    requires State(c) && v < 32
    ensures State(Step(c, v))
  {}

  /** The low five bits of the generators are independent, so no nonzero state
      is shifted away. */
  lemma StepKernel(c: bv32)
    requires State(c) && Step(c, 0) == 0
    ensures c == 0
  {}

  lemma StepInjective(a: bv32, b: bv32, v: bv32)
    requires State(a) && State(b) && Step(a, v) == Step(b, v)
    ensures a == b
  {
    hide Xor, Step, State;
    StepLinear(a, b, v, v);
    XorFacts(v, v);
    XorFacts(Step(a, v), Step(b, v));
    XorState(a, b);
    StepKernel(Xor(a, b));
    XorFacts(a, b);
    XorFacts(a, a);
  }

  lemma SymbolBounded(w: Word)
    ensures Symbol(w) < 32
  {}

  lemma SymbolInjective(v: Word, w: Word)
    requires Symbol(v) == Symbol(w)
    ensures v == w
  {
    assert v as bv5 == w as bv5;
    FiveBits(v);
    FiveBits(w);
  }

  lemma FiveBits(w: Word)
    ensures (w as bv5) as int == w
  {}

  // ------------------------------------------------------------------
  // The fold

  lemma SymbolStep(c: bv32, w: Word)
    requires State(c)
    ensures State(Step(c, Symbol(w)))
  {
    hide Step, State, Symbol;
    SymbolBounded(w);
    StepBounded(c, Symbol(w));
  }

  lemma {:induction false} FoldBounded(c: bv32, values: seq<Word>)
    requires State(c)
    ensures State(Fold(c, values))
    decreases |values|
  {
    hide Step, Symbol, State;
    if values != [] {
      SymbolStep(c, values[0]);
      FoldBounded(Step(c, Symbol(values[0])), values[1..]);
    }
  }

  lemma {:induction false} FoldSplit(c: bv32, a: seq<Word>, b: seq<Word>)
    ensures Fold(c, a + b) == Fold(Fold(c, a), b)
    decreases |a|
  {
    hide Step, Symbol;
    if a == [] {
      assert a + b == b;
    } else {
      FoldSplit(Step(c, Symbol(a[0])), a[1..], b);
      assert (a + b)[1..] == a[1..] + b;
    }
  }

  lemma FoldLast(c: bv32, t: seq<Word>)
    requires t != []
    ensures Fold(c, t) == Step(Fold(c, t[..|t| - 1]), Symbol(t[|t| - 1]))
  {
    hide Step, Symbol;
    var x := t[|t| - 1];
    FoldSplit(c, t[..|t| - 1], [x]);
    assert t == t[..|t| - 1] + [x];
    assert [x][1..] == [];
  }

  /** Equal suffixes can never bring two different states back together. */
  lemma {:induction false} FoldInjective(a: bv32, b: bv32, values: seq<Word>)
    requires State(a) && State(b) && Fold(a, values) == Fold(b, values)
    ensures a == b
    decreases |values|
  {
    hide Step, Symbol, State;
    if values != [] {
      var v := Symbol(values[0]);
      SymbolStep(a, values[0]);
      SymbolStep(b, values[0]);
      FoldInjective(Step(a, v), Step(b, v), values[1..]);
      StepInjective(a, b, v);
    }
  }

  // ------------------------------------------------------------------
  // Six symbols at a time

  const ZEROS: seq<Word> := [0, 0, 0, 0, 0, 0]

  function Zeros(k: nat): seq<Word> {
    seq(k, i requires 0 <= i < k => 0)
  }

  /** A symbol shifted in behind a short state. */
  function Join(p: bv32, v: bv32): bv32 { (p << 5) ^ v }

  /** Symbols shifted into an empty state. */
  function Pack(t: seq<Word>): bv32 {
    if t == [] then 0 else Join(Pack(t[..|t| - 1]), Symbol(t[|t| - 1]))
  }

  predicate Holds(p: bv32, k: nat)
    requires k <= 6
  {
    p < if k == 0 then 1 else if k == 1 then 0x20 else if k == 2 then 0x400 else if k == 3 then 0x8000
        else if k == 4 then 0x10_0000 else if k == 5 then 0x200_0000 else 0x4000_0000
  }

  lemma JoinHolds(p: bv32, v: bv32, k: nat)
    requires k < 6 && Holds(p, k) && v < 32
    ensures Holds(Join(p, v), k + 1)
  {
    if k == 0 {} else if k == 1 {} else if k == 2 {} else if k == 3 {} else if k == 4 {} else {}
  }

  lemma HoldsFive(p: bv32, k: nat)
    requires k <= 5 && Holds(p, k)
    ensures Holds(p, 5)
  {}

  lemma {:induction false} PackHolds(t: seq<Word>)
    requires |t| <= 6
    ensures Holds(Pack(t), |t|)
  {
    hide Symbol, Join;
    if t != [] {
      hide Holds;
      PackHolds(t[..|t| - 1]);
      SymbolBounded(t[|t| - 1]);
      JoinHolds(Pack(t[..|t| - 1]), Symbol(t[|t| - 1]), |t| - 1);
    }
  }

  lemma JoinIsStep(p: bv32, v: bv32)
    requires Holds(p, 5) && v < 32
    ensures Step(p, v) == Join(p, v)
  {
    NoTaps(p);
    XorFacts(0, 0);
    XorFacts(Xor(Shift(p), v), 0);
  }

  lemma NoTaps(p: bv32)
    requires Holds(p, 5)
    ensures !Bit(p, 25) && !Bit(p, 26) && !Bit(p, 27) && !Bit(p, 28) && !Bit(p, 29) && Shift(p) == p << 5
  {}

  /** Folding a tail of at most six symbols adds the packed tail to what the
      same number of zero symbols would give. */
  lemma {:induction false} FoldTail(c: bv32, t: seq<Word>)
    requires |t| <= 6
    ensures Fold(c, t) == Xor(Fold(c, Zeros(|t|)), Pack(t))
  {
    hide Step, Symbol, Xor, Join, Holds;
    if t == [] {
      assert Zeros(0) == [];
      XorFacts(c, 0);
    } else {
      var k := |t| - 1;
      var init, v := t[..k], Symbol(t[k]);
      FoldTail(c, init);
      FoldLast(c, t);
      FoldLast(c, Zeros(|t|));
      assert Zeros(|t|)[..k] == Zeros(k);
      ZeroSymbol();
      var z := Fold(c, Zeros(k));
      PackHolds(init);
      HoldsFive(Pack(init), k);
      XorFacts(v, 0);
      StepLinear(z, Pack(init), 0, v);
      SymbolBounded(t[k]);
      JoinIsStep(Pack(init), v);
    }
  }

  lemma ZeroSymbol()
    ensures Symbol(0) == 0
  {}

  lemma JoinInjective(p: bv32, q: bv32, v: bv32, w: bv32)
    requires Holds(p, 5) && Holds(q, 5) && v < 32 && w < 32 && Join(p, v) == Join(q, w)
    ensures p == q && v == w
  {
    hide Join, Holds;
    JoinParts(p, v);
    JoinParts(q, w);
  }

  lemma JoinParts(p: bv32, v: bv32)
    requires Holds(p, 5) && v < 32
    ensures Join(p, v) & 31 == v && Join(p, v) >> 5 == p
  {}

  lemma {:induction false} PackInjective(s: seq<Word>, t: seq<Word>)
    requires |s| == |t| <= 6 && Pack(s) == Pack(t)
    ensures s == t
  {
    hide Symbol, Join, Holds;
    if s != [] {
      var k := |s| - 1;
      PackHolds(s[..k]);
      PackHolds(t[..k]);
      HoldsFive(Pack(s[..k]), k);
      HoldsFive(Pack(t[..k]), k);
      SymbolBounded(s[k]);
      SymbolBounded(t[k]);
      JoinInjective(Pack(s[..k]), Pack(t[..k]), Symbol(s[k]), Symbol(t[k]));
      PackInjective(s[..k], t[..k]);
      SymbolInjective(s[k], t[k]);
      assert s == s[..k] + [s[k]] && t == t[..k] + [t[k]];
    }
  }

  /** Two symbol strings that differ only inside a window of at most six
      symbols, and do differ there, never reach the same checksum state. */
  lemma BurstChanges(before: seq<Word>, s: seq<Word>, t: seq<Word>, after: seq<Word>)
    requires |s| == |t| <= 6 && s != t
    ensures Polymod(before + s + after) != Polymod(before + t + after)
  {
    hide Fold, Pack, Xor, State;
    var c := Fold(1, before);
    OneIsState();
    FoldBounded(1, before);
    FoldSplit(1, before, s);
    FoldSplit(1, before, t);
    FoldSplit(1, before + s, after);
    FoldSplit(1, before + t, after);
    FoldBounded(c, s);
    FoldBounded(c, t);
    if Fold(Fold(c, s), after) == Fold(Fold(c, t), after) {
      FoldInjective(Fold(c, s), Fold(c, t), after);
      FoldTail(c, s);
      FoldTail(c, t);
      XorFacts(Fold(c, Zeros(|s|)), Pack(s));
      XorFacts(Fold(c, Zeros(|s|)), Pack(t));
      PackInjective(s, t);
    }
  }

  lemma OneIsState()
    ensures State(1)
  {}

  // ------------------------------------------------------------------
  // The checksum of a string of symbols

  /** Five bits of a state, as a word. */
  function Cut(p: bv32, k: bv6): Word
    requires k <= 25
  {
    (((p >> k) & 31) as bv5) as int
  }

  /** The six symbols the encoders append. */
  function ChecksumOf(values: seq<Word>): (sum: seq<Word>)
    ensures |sum| == 6
  {
    var p := Xor(Polymod(values + ZEROS), 1);
    [Cut(p, 25), Cut(p, 20), Cut(p, 15), Cut(p, 10), Cut(p, 5), Cut(p, 0)]
  }

  lemma CutSymbol(p: bv32, k: bv6)
    requires k <= 25
    ensures Symbol(Cut(p, k)) == (p >> k) & 31
  {
    var x := ((p >> k) & 31) as bv5;
    BackAgain(x);
    Widen((p >> k) & 31);
  }

  lemma BackAgain(x: bv5)
    ensures (x as int) as bv5 == x
  {}

  lemma Widen(y: bv32)
    requires y < 32
    ensures (y as bv5) as bv32 == y
  {}

  lemma Reassemble(p: bv32)
    requires State(p)
    ensures Join(Join(Join(Join(Join(Join(0, (p >> 25) & 31), (p >> 20) & 31), (p >> 15) & 31),
                                (p >> 10) & 31), (p >> 5) & 31), (p >> 0) & 31) == p
  {}

  lemma {:induction false} PackSix(t: seq<Word>)
    requires |t| == 6
    ensures Pack(t) == Join(Join(Join(Join(Join(Join(0, Symbol(t[0])), Symbol(t[1])), Symbol(t[2])), Symbol(t[3])),
                                 Symbol(t[4])), Symbol(t[5]))
  {
    hide Join, Symbol, Pack;
    PackInit(t);
    PackInit(t[..5]);
    PackInit(t[..4]);
    PackInit(t[..3]);
    PackInit(t[..2]);
    PackInit(t[..1]);
    PackInit(t[..0]);
    assert t[..5][..4] == t[..4] && t[..4][..3] == t[..3] && t[..3][..2] == t[..2] && t[..2][..1] == t[..1];
    assert t[..1][..0] == t[..0];
  }

  lemma PackInit(t: seq<Word>)
    ensures t == [] ==> Pack(t) == 0
    ensures t != [] ==> Pack(t) == Join(Pack(t[..|t| - 1]), Symbol(t[|t| - 1]))
  {
    hide Join, Symbol;
  }

  lemma PackCuts(p: bv32)
    requires State(p)
    ensures Pack([Cut(p, 25), Cut(p, 20), Cut(p, 15), Cut(p, 10), Cut(p, 5), Cut(p, 0)]) == p
  {
    hide Join, Symbol, Pack, State, Cut;
    PackSix([Cut(p, 25), Cut(p, 20), Cut(p, 15), Cut(p, 10), Cut(p, 5), Cut(p, 0)]);
    CutSymbol(p, 25);
    CutSymbol(p, 20);
    CutSymbol(p, 15);
    CutSymbol(p, 10);
    CutSymbol(p, 5);
    CutSymbol(p, 0);
    Reassemble(p);
  }

  /** The appended checksum makes the whole string verify, and it is the only
      six-symbol tail that does. */
  lemma ChecksumExact(values: seq<Word>, tail: seq<Word>)
    requires |tail| == 6
    ensures Polymod(values + tail) == 1 <==> tail == ChecksumOf(values)
  {
    hide Fold, Pack, Cut, Xor, State;
    var c := Fold(1, values);
    OneIsState();
    FoldBounded(1, values);
    FoldSplit(1, values, tail);
    FoldSplit(1, values, ZEROS);
    assert Zeros(6) == ZEROS;
    FoldTail(c, tail);
    var z := Fold(c, ZEROS);
    FoldBounded(c, ZEROS);
    XorState(z, 1);
    PackCuts(Xor(z, 1));
    XorFacts(z, Pack(tail));
    XorFacts(z, 1);
    if Polymod(values + tail) == 1 {
      PackInjective(tail, ChecksumOf(values));
    }
  }

  // ------------------------------------------------------------------
  // The loops

  lemma StepUnrolled(c: bv32, v: bv32, c0: bv32, c1: bv32, c2: bv32, c3: bv32, c4: bv32, c5: bv32)
    requires c0 == Xor(Shift(c), v)
    requires c1 == if Bit(c, 25) then Xor(c0, GEN0) else c0
    requires c2 == if Bit(c, 26) then Xor(c1, GEN1) else c1
    requires c3 == if Bit(c, 27) then Xor(c2, GEN2) else c2
    requires c4 == if Bit(c, 28) then Xor(c3, GEN3) else c3
    requires c5 == if Bit(c, 29) then Xor(c4, GEN4) else c4
    ensures c5 == Step(c, v)
  {
    hide Xor, Bit, Shift;
    var t0, t1, t2 := Tap(Bit(c, 25), GEN0), Tap(Bit(c, 26), GEN1), Tap(Bit(c, 27), GEN2);
    var t3, t4 := Tap(Bit(c, 28), GEN3), Tap(Bit(c, 29), GEN4);
    XorFacts(c0, 0);
    XorFacts(c1, 0);
    XorFacts(c2, 0);
    XorFacts(c3, 0);
    XorFacts(c4, 0);
    assert c5 == Xor(Xor(Xor(Xor(Xor(c0, t0), t1), t2), t3), t4);
    XorLeft(c0, t0, t1);
    XorLeft(c0, Xor(t0, t1), t2);
    XorLeft(c0, Xor(Xor(t0, t1), t2), t3);
    XorLeft(c0, Xor(Xor(Xor(t0, t1), t2), t3), t4);
  }

  lemma TopBit(c: bv32, i: bv6)
    requires i < 5
    ensures ((c >> 25) >> i) & 1 != 0 <==> Bit(c, 25 + i)
  {
    assert (c >> 25) >> i == c >> (25 + i);
  }

  /** The fold over numbers that need not be five-bit symbols. */
  function FoldUnits(c: bv32, units: seq<bv32>): bv32
    decreases |units|
  {
    if units == [] then c else FoldUnits(Step(c, units[0]), units[1..])
  }

  function Symbols(words: seq<Word>): (r: seq<bv32>)
    ensures |r| == |words| && forall i :: 0 <= i < |r| ==> r[i] == Symbol(words[i])
  {
    seq(|words|, i requires 0 <= i < |words| => Symbol(words[i]))
  }

  lemma {:induction false} FoldSymbols(c: bv32, words: seq<Word>)
    ensures FoldUnits(c, Symbols(words)) == Fold(c, words)
    decreases |words|
  {
    hide Step, Symbol;
    if words != [] {
      FoldSymbols(Step(c, Symbol(words[0])), words[1..]);
      assert Symbols(words)[1..] == Symbols(words[1..]);
    }
  }

  lemma {:induction false} FoldUnitsLast(c: bv32, units: seq<bv32>, v: bv32)
    ensures FoldUnits(c, units + [v]) == Step(FoldUnits(c, units), v)
    decreases |units|
  {
    hide Step;
    if units == [] {
      assert ([] + [v])[1..] == [];
    } else {
      FoldUnitsLast(Step(c, units[0]), units[1..], v);
      assert (units + [v])[0] == units[0] && (units + [v])[1..] == units[1..] + [v];
    }
  }

  /** The browser's polymod, on unsigned 32-bit numbers. */
  method PolymodBrowser(values: seq<bv32>) returns (checksum: bv32)
    ensures checksum == FoldUnits(1, values)
    ensures forall words: seq<Word> :: values == Symbols(words) ==> checksum == Polymod(words) && State(checksum)
  {
    hide Xor, Bit, Shift, Symbol, Step, State, Symbols;
    checksum := 1;
    for i := 0 to |values|
      invariant checksum == FoldUnits(1, values[..i])
    {
      var c, top := checksum, checksum >> 25;
      var c0 := Xor(Shift(checksum), values[i]);
      var c1 := if top & 1 != 0 then Xor(c0, GEN0) else c0;
      var c2 := if (top >> 1) & 1 != 0 then Xor(c1, GEN1) else c1;
      var c3 := if (top >> 2) & 1 != 0 then Xor(c2, GEN2) else c2;
      var c4 := if (top >> 3) & 1 != 0 then Xor(c3, GEN3) else c3;
      checksum := if (top >> 4) & 1 != 0 then Xor(c4, GEN4) else c4;
      TopBit(c, 0);
      TopBit(c, 1);
      TopBit(c, 2);
      TopBit(c, 3);
      TopBit(c, 4);
      assert top >> 0 == top;
      StepUnrolled(c, values[i], c0, c1, c2, c3, c4, checksum);
      FoldUnitsLast(1, values[..i], values[i]);
      assert values[..i + 1] == values[..i] + [values[i]];
    }
    assert values[..|values|] == values;
    forall words: seq<Word> | values == Symbols(words) ensures checksum == Polymod(words) && State(checksum) {
      FoldSymbols(1, words);
      OneIsState();
      FoldBounded(1, words);
    }
  }

  function Wide(x: bv32): bv64 { x as bv64 }

  function Xor64(a: bv64, b: bv64): bv64 { a ^ b }

  function Top64(c: bv64): bv64 { c >> 25 }

  function Shift64(c: bv64): bv64 { (c & 0x1ff_ffff) << 5 }

  predicate Bit64(top: bv64, i: bv7)
    requires i < 64
  {
    (top >> i) & 1 != 0
  }

  lemma WideXor(a: bv32, b: bv32)
    ensures Wide(Xor(a, b)) == Xor64(Wide(a), Wide(b))
  {}

  lemma WideShift(c: bv32)
    ensures Wide(Shift(c)) == Shift64(Wide(c))
  {
    calc {
      Wide(Shift(c));
      ((c & 0x1ff_ffff) << 5) as bv64;
      { RawShift(c); }
      ((c as bv64) & 0x1ff_ffff) << 5;
      Shift64(Wide(c));
    }
  }

  lemma RawShift(c: bv32)
    ensures ((c & 0x1ff_ffff) << 5) as bv64 == ((c as bv64) & 0x1ff_ffff) << 5
  {}

  lemma WideBits(c: bv32, top: bv64)
    requires top == Top64(Wide(c))
    ensures Bit64(top, 0) == Bit(c, 25) && Bit64(top, 1) == Bit(c, 26) && Bit64(top, 2) == Bit(c, 27)
    ensures Bit64(top, 3) == Bit(c, 28) && Bit64(top, 4) == Bit(c, 29)
  {}

  lemma WideOne()
    ensures Wide(1) == 1
  {}

  lemma FoldNothing(c: bv32)
    ensures Fold(c, []) == c
  {}

  lemma WideStep(c: bv32, v: bv32, top: bv64, d0: bv64, d1: bv64, d2: bv64, d3: bv64, d4: bv64, d5: bv64)
    requires top == Top64(Wide(c))
    requires d0 == Xor64(Shift64(Wide(c)), Wide(v))
    requires d1 == if Bit64(top, 0) then Xor64(d0, Wide(GEN0)) else d0
    requires d2 == if Bit64(top, 1) then Xor64(d1, Wide(GEN1)) else d1
    requires d3 == if Bit64(top, 2) then Xor64(d2, Wide(GEN2)) else d2
    requires d4 == if Bit64(top, 3) then Xor64(d3, Wide(GEN3)) else d3
    requires d5 == if Bit64(top, 4) then Xor64(d4, Wide(GEN4)) else d4
    ensures d5 == Wide(Step(c, v))
  {
    hide Xor, Bit, Shift, Step, Wide, Xor64, Shift64, Bit64;
    WideBits(c, top);
    WideShift(c);
    WideXor(Shift(c), v);
    var c0 := Xor(Shift(c), v);
    WideXor(c0, GEN0);
    var c1 := if Bit(c, 25) then Xor(c0, GEN0) else c0;
    WideXor(c1, GEN1);
    var c2 := if Bit(c, 26) then Xor(c1, GEN1) else c1;
    WideXor(c2, GEN2);
    var c3 := if Bit(c, 27) then Xor(c2, GEN2) else c2;
    WideXor(c3, GEN3);
    var c4 := if Bit(c, 28) then Xor(c3, GEN3) else c3;
    WideXor(c4, GEN4);
    var c5 := if Bit(c, 29) then Xor(c4, GEN4) else c4;
    StepUnrolled(c, v, c0, c1, c2, c3, c4, c5);
  }

  /** The server's polymod, on unsigned 64-bit numbers: it never leaves the
      30 bits the browser's version works in. */
  method PolymodServer(values: seq<Word>) returns (checksum: bv64)
    ensures checksum == Wide(Polymod(values)) && State(Polymod(values))
  {
    hide Symbol, Step, State, Wide, Fold, Xor64, Shift64, Bit64, Top64;
    checksum := 1;
    WideOne();
    OneIsState();
    FoldNothing(1);
    for i := 0 to |values|
      invariant checksum == Wide(Fold(1, values[..i])) && State(Fold(1, values[..i]))
    {
      ghost var c := Fold(1, values[..i]);
      var top := Top64(checksum);
      var d0 := Xor64(Shift64(checksum), Wide(Symbol(values[i])));
      var d1 := if Bit64(top, 0) then Xor64(d0, Wide(GEN0)) else d0;
      var d2 := if Bit64(top, 1) then Xor64(d1, Wide(GEN1)) else d1;
      var d3 := if Bit64(top, 2) then Xor64(d2, Wide(GEN2)) else d2;
      var d4 := if Bit64(top, 3) then Xor64(d3, Wide(GEN3)) else d3;
      checksum := if Bit64(top, 4) then Xor64(d4, Wide(GEN4)) else d4;
      WideStep(c, Symbol(values[i]), top, d0, d1, d2, d3, d4, checksum);
      FoldLast(1, values[..i + 1]);
      assert values[..i + 1][..i] == values[..i];
      SymbolStep(c, values[i]);
    }
    assert values[..|values|] == values;
  }

  /** Five bits of the server's final state. */
  function Cut64(p: bv64, k: bv7): Word
    requires k <= 25
  {
    (((p >> k) & 31) as bv5) as int
  }

  lemma WideCut(p: bv32, k: bv6)
    requires k <= 25 && k % 5 == 0
    ensures Cut64(Wide(p), k as bv7) == Cut(p, k)
  {
    if k == 0 {
      assert ((Wide(p) >> 0) & 31) as bv5 == ((p >> 0) & 31) as bv5;
    } else if k == 5 {
      assert ((Wide(p) >> 5) & 31) as bv5 == ((p >> 5) & 31) as bv5;
    } else if k == 10 {
      assert ((Wide(p) >> 10) & 31) as bv5 == ((p >> 10) & 31) as bv5;
    } else if k == 15 {
      assert ((Wide(p) >> 15) & 31) as bv5 == ((p >> 15) & 31) as bv5;
    } else if k == 20 {
      assert ((Wide(p) >> 20) & 31) as bv5 == ((p >> 20) & 31) as bv5;
    } else {
      assert ((Wide(p) >> 25) & 31) as bv5 == ((p >> 25) & 31) as bv5;
    }
  }
}
