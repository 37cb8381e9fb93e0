/** CRC-16/XMODEM: generator x^16 + x^12 + x^5 + 1, zero initial value, most significant bit
    first, no final inversion. */
module Crc {

  const POLY: bv16 := 0x1021

  function Xor(a: bv16, b: bv16): bv16 { a ^ b }

  function Top(c: bv16): bool { c & 0x8000 != 0 }

  function Double(c: bv16): bv16 { c << 1 }

  /** One shift of the register; a bit shifted out subtracts the generator. */
  function Step(c: bv16): bv16 {
    if Top(c) then Xor(Double(c), POLY) else Double(c)
  }

  function Steps(c: bv16, n: nat): bv16 {
    if n == 0 then c else Step(Steps(c, n - 1))
  }

  function HighByte(b: bv8): bv16 { (b as bv16) << 8 }

  /** What the table holds for byte `b`: eight shifts of `b` in the high byte. */
  function Entry(b: bv8): bv16 {
    Steps(HighByte(b), 8)
  }

  function EntryAt(i: nat): bv16
    requires i < 256
  {
    Entry(i as bv8)
  }

  ghost predicate IsTable(t: seq<bv16>) {
    |t| == 256 && forall i :: 0 <= i < 256 ==> t[i] == EntryAt(i)
  }

  /** The generated table. */
  method MakeTable() returns (t: seq<bv16>)
    ensures IsTable(t)
  {
    hide EntryAt, Step;
    var a := new bv16[256](_ => 0);
    for i := 0 to 256
      invariant forall k :: 0 <= k < i ==> a[k] == EntryAt(k)
    {
      var e := MakeEntry(i);
      a[i] := e;
    }
    t := a[..];
  }

  method MakeEntry(i: nat) returns (crc: bv16)
    requires i < 256
    ensures crc == EntryAt(i)
  {
    crc := HighByte(i as bv8);
    for bit := 0 to 8
      invariant crc == Steps(HighByte(i as bv8), bit)
    {
      crc := ShiftOnce(crc);
    }
  }

  method ShiftOnce(c: bv16) returns (r: bv16)
    ensures r == Step(c)
  {
    if c & 0x8000 != 0 {
      r := (c << 1) ^ POLY;
    } else {
      r := c << 1;
    }
  }

  /** The byte that indexes the table. */
  function Index(c: bv16, b: bv8): bv8 { ((c >> 8) as bv8) ^ b }

  function ShiftByte(c: bv16): bv16 { c << 8 }

  /** The register after `data`, byte by byte through the table. */
  function ByTable(data: seq<bv8>): bv16 {
    if data == [] then 0
    else
      var c := ByTable(data[..|data| - 1]);
      Xor(ShiftByte(c), Entry(Index(c, data[|data| - 1])))
  }

  method CRC16(table: seq<bv16>, data: seq<bv8>) returns (crc: bv16)
    requires IsTable(table)
    ensures crc == ByTable(data)
  {
    hide Xor, ShiftByte, Entry, EntryAt, Index;
    crc := 0;
    for i := 0 to |data|
      invariant crc == ByTable(data[..i])
    {
      assert data[..i + 1][..i] == data[..i];
      var tmp := Index(crc, data[i]);
      ByteIndex(tmp);
      crc := Xor(ShiftByte(crc), table[tmp as nat]);
    }
    assert data[..|data|] == data;
  }

  lemma ByteIndex(b: bv8)
    ensures b as nat < 256 && EntryAt(b as nat) == Entry(b)
  {
    hide Entry;
    assert (b as nat) as bv8 == b;
  }

  // ----- Division of polynomials -----

  function TopMask(bit: bool): bv16 { if bit then 0x8000 else 0 }

  function LowMask(bit: bool): bv16 { if bit then 1 else 0 }

  /** The remainder register of long division: each coefficient is shifted in from below, and a
      leading 1 shifted out subtracts the generator. */
  function Divide(bits: seq<bool>): bv16 {
    if bits == [] then 0
    else Xor(Step(Divide(bits[..|bits| - 1])), LowMask(bits[|bits| - 1]))
  }

  function BitsOfByte(b: bv8): (s: seq<bool>)
    ensures |s| == 8
  {
    [b & 0x80 != 0, b & 0x40 != 0, b & 0x20 != 0, b & 0x10 != 0, b & 8 != 0, b & 4 != 0, b & 2 != 0, b & 1 != 0]
  }

  /** A message as coefficients, highest power first. */
  function Bits(data: seq<bv8>): (s: seq<bool>)
    ensures |s| == 8 * |data|
  {
    if data == [] then [] else Bits(data[..|data| - 1]) + BitsOfByte(data[|data| - 1])
  }

  function Zeros(n: nat): (z: seq<bool>)
    ensures |z| == n && forall i :: 0 <= i < n ==> !z[i]
  {
    seq(n, i => false)
  }

  /** The register that takes each bit in at the top. */
  function FromTop(bits: seq<bool>): bv16 {
    if bits == [] then 0
    else Step(Xor(FromTop(bits[..|bits| - 1]), TopMask(bits[|bits| - 1])))
  }

  // ----- Bit-vector facts -----

  lemma XorLaws(a: bv16, b: bv16, c: bv16)
    ensures Xor(Xor(a, b), c) == Xor(a, Xor(b, c)) && Xor(a, b) == Xor(b, a)
    ensures Xor(a, a) == 0 && Xor(a, 0) == a && Xor(0, a) == a
  {
  }

  lemma XorZero(x: bv16, y: bv16)
    ensures Xor(x, y) == 0 <==> x == y
  {
    hide Xor;
    XorLaws(x, y, y);
    XorLaws(y, y, x);
  }

  lemma XorTwice(y: bv16, m: bv16)
    ensures Xor(m, Xor(y, m)) == y
  {
    hide Xor;
    XorLaws(y, m, m);
    XorLaws(m, m, Xor(y, m));
    XorLaws(m, Xor(y, m), 0);
  }

  lemma XorCancel(x: bv16, y: bv16, m: bv16)
    ensures Xor(Xor(x, m), Xor(y, m)) == Xor(x, y) && Xor(Xor(m, x), Xor(m, y)) == Xor(x, y)
    ensures Xor(x, y) == 0 <==> x == y
  {
    hide Xor;
    XorZero(x, y);
    XorTwice(y, m);
    XorLaws(x, m, Xor(y, m));
    XorLaws(y, m, 0);
  }

  lemma DoubleLinear(a: bv16, b: bv16)
    ensures Double(Xor(a, b)) == Xor(Double(a), Double(b))
  {
  }

  lemma TopLinear(a: bv16, b: bv16)
    ensures Top(Xor(a, b)) == (Top(a) != Top(b))
    ensures !Top(0)
  {
  }

  lemma PolyMoves(x: bv16, y: bv16)
    ensures Xor(Xor(x, POLY), y) == Xor(Xor(x, y), POLY) && Xor(x, Xor(y, POLY)) == Xor(Xor(x, y), POLY)
    ensures Xor(Xor(x, POLY), Xor(y, POLY)) == Xor(x, y)
  {
    hide Xor;
    XorLaws(x, POLY, y);
    XorLaws(x, y, POLY);
    XorLaws(y, POLY, 0);
    XorCancel(x, y, POLY);
  }

  lemma StepLinear(a: bv16, b: bv16)
    ensures Step(Xor(a, b)) == Xor(Step(a), Step(b))
  {
    hide Xor, Double, Top;
    DoubleLinear(a, b);
    TopLinear(a, b);
    PolyMoves(Double(a), Double(b));
  }

  lemma StepZero(c: bv16)
    ensures Step(c) == 0 <==> c == 0
  {
    StepTopSet(c);
    StepTopClear(c);
  }

  lemma StepTopSet(c: bv16)
    ensures (c << 1) ^ POLY != 0
  {
  }

  lemma StepTopClear(c: bv16)
    ensures c & 0x8000 == 0 ==> (c << 1 == 0 <==> c == 0)
  {
  }

  lemma {:induction false} StepsLinear(a: bv16, b: bv16, n: nat)
    ensures Steps(Xor(a, b), n) == Xor(Steps(a, n), Steps(b, n))
  {
    hide Step, Xor;
    if n == 0 {
    } else {
      StepsLinear(a, b, n - 1);
      StepLinear(Steps(a, n - 1), Steps(b, n - 1));
    }
  }

  lemma {:induction false} StepsAdd(c: bv16, m: nat, n: nat)
    ensures Steps(Steps(c, m), n) == Steps(c, m + n)
  {
    hide Step;
    if n == 0 {
    } else {
      StepsAdd(c, m, n - 1);
    }
  }

  lemma {:induction false} StepsZero(c: bv16, n: nat)
    ensures Steps(c, n) == 0 <==> c == 0
  {
    hide Step;
    if n == 0 {
    } else {
      StepsZero(c, n - 1);
      StepZero(Steps(c, n - 1));
    }
  }

  // ----- The table against division -----

  /** The mask of bit `j` counted from the top. */
  function Place(j: nat): bv16
    requires j <= 15
  {
    if j == 0 then 0x8000 else Place(j - 1) >> 1
  }

  lemma PlaceStep(j: nat)
    requires 1 <= j <= 15
    ensures !Top(Place(j)) && Step(Place(j)) == Place(j - 1)
  {
    assert Place(1) == 0x4000 && Place(2) == 0x2000 && Place(3) == 0x1000 && Place(4) == 0x0800;
    assert Place(5) == 0x0400 && Place(6) == 0x0200 && Place(7) == 0x0100 && Place(8) == 0x0080;
    assert Place(9) == 0x0040 && Place(10) == 0x0020 && Place(11) == 0x0010 && Place(12) == 0x0008;
    assert Place(13) == 4 && Place(14) == 2 && Place(15) == 1;
  }

  /** `j` shifts carry the bit in place `j` to the top. */
  lemma {:induction false} PlaceClimbs(j: nat)
    requires j <= 15
    ensures Steps(Place(j), j) == 0x8000
  {
    hide Step, Place;
    if j == 0 {
      PlaceEnds();
    } else {
      PlaceStep(j);
      PlaceClimbs(j - 1);
      StepsAdd(Place(j), 1, j - 1);
      assert Steps(Place(j), 0) == Place(j);
      assert Steps(Place(j), 1) == Place(j - 1);
    }
  }

  lemma PlaceEnds()
    ensures Place(0) == 0x8000 && Place(15) == 1
  {
  }

  /** Fifteen shifts carry a low coefficient to the top. */
  lemma LowToTop(bit: bool)
    ensures Steps(LowMask(bit), 15) == TopMask(bit)
  {
    hide Steps;
    PlaceClimbs(15);
    PlaceEnds();
    StepsZero(0, 15);
  }

  /** The register that takes each bit in at the top is the long division register sixteen
      shifts on. */
  lemma {:induction false} FromTopIsDivide(bits: seq<bool>)
    ensures FromTop(bits) == Steps(Divide(bits), 16)
  {
    hide Step, Xor, TopMask, LowMask, Steps;
    if bits == [] {
      StepsZero(0, 16);
    } else {
      FromTopIsDivide(bits[..|bits| - 1]);
      OneMoreBit(Divide(bits[..|bits| - 1]), bits[|bits| - 1]);
    }
  }

  lemma OneMoreBit(d: bv16, bit: bool)
    ensures Step(Xor(Steps(d, 16), TopMask(bit))) == Steps(Xor(Step(d), LowMask(bit)), 16)
  {
    hide Step, Xor, TopMask, LowMask;
    StepLinear(Steps(d, 16), TopMask(bit));
    StepsLinear(Step(d), LowMask(bit), 16);
    LowToTop(bit);
    StepsAdd(LowMask(bit), 15, 1);
    StepsAdd(d, 1, 16);
    assert Steps(d, 0) == d && Steps(d, 1) == Step(d) && Steps(d, 17) == Step(Steps(d, 16));
    assert Steps(LowMask(bit), 16) == Step(TopMask(bit));
  }

  lemma {:induction false} DivideZeros(bits: seq<bool>, n: nat)
    ensures Divide(bits + Zeros(n)) == Steps(Divide(bits), n)
  {
    hide Step, Xor;
    var all := bits + Zeros(n);
    if n == 0 {
      assert all == bits;
    } else {
      assert all[..|all| - 1] == bits + Zeros(n - 1);
      DivideZeros(bits, n - 1);
      XorLaws(Steps(Divide(bits), n), 0, 0);
    }
  }

  /** Up to sixteen bits in the top of a word. */
  function TopWord(w: seq<bool>): bv16
    requires |w| <= 16
  {
    if w == [] then 0 else Xor(TopWord(w[..|w| - 1]), if w[|w| - 1] then Place(|w| - 1) else 0)
  }

  /** Feeding up to sixteen bits is adding them in the top and shifting. */
  lemma {:induction false} FeedWord(pre: seq<bool>, w: seq<bool>)
    requires |w| <= 16
    ensures FromTop(pre + w) == Steps(Xor(FromTop(pre), TopWord(w)), |w|)
  {
    hide Step, Xor, Place, TopMask;
    if w == [] {
      assert pre + w == pre;
      XorLaws(FromTop(pre), 0, 0);
    } else {
      assert (pre + w)[..|pre + w| - 1] == pre + w[..|w| - 1];
      FeedWord(pre, w[..|w| - 1]);
      FeedBit(FromTop(pre), TopWord(w[..|w| - 1]), |w| - 1, w[|w| - 1]);
    }
  }

  lemma FeedBit(c: bv16, t: bv16, j: nat, bit: bool)
    requires j <= 15
    ensures Step(Xor(Steps(Xor(c, t), j), TopMask(bit))) == Steps(Xor(c, Xor(t, if bit then Place(j) else 0)), j + 1)
  {
    hide Step, Xor, Place;
    var place := if bit then Place(j) else 0;
    PlaceClimbs(j);
    StepsZero(0, j);
    StepsLinear(Xor(c, t), place, j);
    XorLaws(c, t, place);
  }

  lemma TopWordNext(s: seq<bool>, n: nat)
    requires 1 <= n <= |s| && n <= 16
    ensures TopWord(s[..n]) == Xor(TopWord(s[..n - 1]), if s[n - 1] then Place(n - 1) else 0)
  {
    hide Xor, Place;
    assert s[..n][..n - 1] == s[..n - 1];
  }

  /** The eight bits of a byte in the top of a word are the byte in the high half. */
  lemma TopWordOfByte(b: bv8)
    ensures TopWord(BitsOfByte(b)) == HighByte(b)
  {
    var s := BitsOfByte(b);
    HighHalf(s);
    ByteFromBits(b);
  }

  function EightBits(s: seq<bool>): bv16
    requires |s| == 8
  {
    var first := Xor(Xor(Xor(Xor(0, if s[0] then 0x8000 else 0), if s[1] then 0x4000 else 0),
                         if s[2] then 0x2000 else 0), if s[3] then 0x1000 else 0);
    Xor(Xor(Xor(Xor(first, if s[4] then 0x800 else 0), if s[5] then 0x400 else 0),
            if s[6] then 0x200 else 0), if s[7] then 0x100 else 0)
  }

  lemma Places()
    ensures Place(0) == 0x8000 && Place(1) == 0x4000 && Place(2) == 0x2000 && Place(3) == 0x1000
    ensures Place(4) == 0x800 && Place(5) == 0x400 && Place(6) == 0x200 && Place(7) == 0x100
  {
  }

  lemma HighHalf(s: seq<bool>)
    requires |s| == 8
    ensures TopWord(s) == EightBits(s)
  {
    hide Xor, Place, TopWord;
    Places();
    TopWordNext(s, 1);
    TopWordNext(s, 2);
    TopWordNext(s, 3);
    TopWordNext(s, 4);
    TopWordNext(s, 5);
    TopWordNext(s, 6);
    TopWordNext(s, 7);
    TopWordNext(s, 8);
    assert s[..8] == s && s[..0] == [];
    EmptyWord();
  }

  lemma EmptyWord()
    ensures TopWord([]) == 0
  {
  }

  lemma ByteFromBits(b: bv8)
    ensures EightBits(BitsOfByte(b)) == HighByte(b)
  {
  }

  lemma SplitBytes(c: bv16, b: bv8)
    ensures Xor(c, HighByte(b)) == Xor(c & 0xff, HighByte(Index(c, b)))
  {
    hide Xor, HighByte, Index;
    HighBytes(c, b);
    XorLaws(c & 0xff, c & 0xff00, HighByte(b));
  }

  lemma HighBytes(c: bv16, b: bv8)
    ensures Xor(c & 0xff, c & 0xff00) == c
    ensures HighByte(Index(c, b)) == Xor(c & 0xff00, HighByte(b))
  {
  }

  /** Eight shifts of a low byte never reach the top. */
  lemma LowByteShifts(c: bv16)
    ensures Steps(c & 0xff, 8) == ShiftByte(c)
  {
    hide Step, ShiftByte;
    LowByteStep(c & 0xff, c);
    var l := c & 0xff;
    assert Steps(l, 0) == l;
    assert Steps(l, 1) == l << 1;
    assert Steps(l, 2) == l << 2;
    assert Steps(l, 3) == l << 3;
    assert Steps(l, 4) == l << 4;
    assert Steps(l, 5) == l << 5;
    assert Steps(l, 6) == l << 6;
    assert Steps(l, 7) == l << 7;
    assert Steps(l, 8) == l << 8;
  }

  lemma LowByteStep(l: bv16, c: bv16)
    requires l == c & 0xff
    ensures Step(l) == l << 1 && Step(l << 1) == l << 2 && Step(l << 2) == l << 3 && Step(l << 3) == l << 4
    ensures Step(l << 4) == l << 5 && Step(l << 5) == l << 6 && Step(l << 6) == l << 7 && Step(l << 7) == l << 8
    ensures l << 8 == ShiftByte(c)
  {
  }

  /** One table lookup does the work of eight bits. */
  lemma EntryIsEightBits(bits: seq<bool>, b: bv8)
    ensures var c := FromTop(bits);
            FromTop(bits + BitsOfByte(b)) == Xor(ShiftByte(c), Entry(Index(c, b)))
  {
    hide Step, Steps, FromTop, Xor, HighByte, Index, ShiftByte, TopWord, BitsOfByte;
    var c := FromTop(bits);
    FeedWord(bits, BitsOfByte(b));
    TopWordOfByte(b);
    SplitBytes(c, b);
    StepsLinear(c & 0xff, HighByte(Index(c, b)), 8);
    LowByteShifts(c);
  }

  lemma {:induction false} TableIsFromTop(data: seq<bv8>)
    ensures ByTable(data) == FromTop(Bits(data))
  {
    hide Entry, BitsOfByte, Xor, ShiftByte, Index, Step, TopMask;
    if data == [] {
    } else {
      TableIsFromTop(data[..|data| - 1]);
      EntryIsEightBits(Bits(data[..|data| - 1]), data[|data| - 1]);
    }
  }

  /** The table-driven CRC is the remainder of the message, times x^16, on long division by the
      generator. */
  lemma CrcIsDivision(data: seq<bv8>)
    ensures ByTable(data) == Divide(Bits(data) + Zeros(16))
  {
    hide Steps, FromTop, Divide, ByTable, Bits;
    TableIsFromTop(data);
    FromTopIsDivide(Bits(data));
    DivideZeros(Bits(data), 16);
  }

  // ----- What the checksum detects -----

  function HighOf(c: bv16): bv8 { (c >> 8) as bv8 }

  function LowOf(c: bv16): bv8 { (c & 0xff) as bv8 }

  /** A message followed by its own checksum leaves nothing. */
  lemma SelfCheck(data: seq<bv8>)
    ensures ByTable(data + [HighOf(ByTable(data)), LowOf(ByTable(data))]) == 0
  {
    hide Entry, Xor, ShiftByte, Index, HighOf, LowOf;
    var c := ByTable(data);
    var one := data + [HighOf(c)];
    var two := data + [HighOf(c), LowOf(c)];
    assert two[..|two| - 1] == one && one[..|one| - 1] == data;
    TwoBytesCancel(c);
  }

  lemma TwoBytesCancel(c: bv16)
    ensures Xor(ShiftByte(c), Entry(Index(c, HighOf(c)))) == ShiftByte(c)
    ensures Xor(ShiftByte(ShiftByte(c)), Entry(Index(ShiftByte(c), LowOf(c)))) == 0
  {
    hide Entry;
    IndexCancels(c);
    EntryZero();
  }

  lemma IndexCancels(c: bv16)
    ensures Index(c, HighOf(c)) == 0 && Index(ShiftByte(c), LowOf(c)) == 0
    ensures Xor(ShiftByte(c), 0) == ShiftByte(c) && Xor(ShiftByte(ShiftByte(c)), 0) == 0
  {
  }

  lemma EntryZero()
    ensures Entry(0) == 0
  {
    hide Steps;
    StepsZero(0, 8);
    assert HighByte(0) == 0;
  }

  /** A differing register stays different under equal input. */
  lemma {:induction false} DifferenceStays(p: seq<bool>, q: seq<bool>, suffix: seq<bool>)
    requires FromTop(p) != FromTop(q)
    ensures FromTop(p + suffix) != FromTop(q + suffix)
  {
    hide Step, Xor, TopMask;
    if suffix == [] {
      assert p + suffix == p && q + suffix == q;
    } else {
      var s := suffix[..|suffix| - 1];
      assert (p + suffix)[..|p + suffix| - 1] == p + s && (q + suffix)[..|q + suffix| - 1] == q + s;
      DifferenceStays(p, q, s);
      StepInjective(FromTop(p + s), FromTop(q + s), TopMask(suffix[|suffix| - 1]));
    }
  }

  lemma StepInjective(x: bv16, y: bv16, m: bv16)
    requires x != y
    ensures Step(Xor(x, m)) != Step(Xor(y, m))
  {
    hide Step, Xor;
    StepLinear(Xor(x, m), Xor(y, m));
    StepZero(Xor(Xor(x, m), Xor(y, m)));
    XorCancel(x, y, m);
    XorCancel(Step(Xor(x, m)), Step(Xor(y, m)), 0);
  }

  /** The top bit of the word is its first bit. */
  lemma {:induction false} FirstBitOnTop(w: seq<bool>)
    requires 1 <= |w| <= 16
    ensures Top(TopWord(w)) == w[0]
  {
    hide Xor, Place, Top;
    if |w| == 1 {
      assert w[..0] == [] && TopWord([]) == 0;
      PlaceEnds();
      OneBit();
    } else {
      var j := |w| - 1;
      FirstBitOnTop(w[..j]);
      PlaceNotTop(j);
      TopLinear(TopWord(w[..j]), if w[j] then Place(j) else 0);
    }
  }

  lemma OneBit()
    ensures Top(Xor(0, 0x8000)) && !Top(Xor(0, 0))
  {
  }

  lemma PlaceNotTop(j: nat)
    requires 1 <= j <= 15
    ensures !Top(Place(j)) && !Top(0)
  {
    PlaceStep(j);
  }

  /** Two words that start with different bits leave different registers. */
  lemma WindowDiffers(pre: seq<bool>, v: seq<bool>, w: seq<bool>)
    requires 1 <= |v| == |w| <= 16 && v[0] != w[0]
    ensures FromTop(pre + v) != FromTop(pre + w)
  {
    hide Steps, FromTop, TopWord, Xor, Top;
    var c, n := FromTop(pre), |v|;
    var x, y := TopWord(v), TopWord(w);
    FeedWord(pre, v);
    FeedWord(pre, w);
    FirstBitOnTop(v);
    FirstBitOnTop(w);
    TopLinear(x, y);
    StepsLinear(Xor(c, x), Xor(c, y), n);
    XorCancel(x, y, c);
    StepsZero(Xor(x, y), n);
    XorCancel(Steps(Xor(c, x), n), Steps(Xor(c, y), n), 0);
  }

  /** The index of the first difference. */
  lemma {:induction false} FirstDifference(a: seq<bool>, b: seq<bool>) returns (k: nat)
    requires |a| == |b| && a != b
    ensures k < |a| && a[k] != b[k] && a[..k] == b[..k]
  {
    if a[0] != b[0] {
      k := 0;
    } else {
      assert a == [a[0]] + a[1..] && b == [b[0]] + b[1..];
      k := FirstDifference(a[1..], b[1..]);
      k := k + 1;
      assert a[..k] == [a[0]] + a[1..][..k - 1] && b[..k] == [b[0]] + b[1..][..k - 1];
    }
  }

  lemma {:induction false} BitsInjective(x: seq<bv8>, y: seq<bv8>)
    requires |x| == |y| && Bits(x) == Bits(y)
    ensures x == y
  {
    hide BitsOfByte;
    if x == [] {
    } else {
      var p, q, n := x[..|x| - 1], y[..|y| - 1], |x| - 1;
      assert Bits(p) == Bits(x)[..8 * n] && Bits(q) == Bits(y)[..8 * n];
      assert BitsOfByte(x[n]) == Bits(x)[8 * n..] && BitsOfByte(y[n]) == Bits(y)[8 * n..];
      BitsInjective(p, q);
      ByteInjective(x[n], y[n]);
      assert x == p + [x[n]] && y == q + [y[n]];
    }
  }

  lemma ByteInjective(a: bv8, b: bv8)
    requires BitsOfByte(a) == BitsOfByte(b)
    ensures a == b
  {
    var s, t := BitsOfByte(a), BitsOfByte(b);
    assert s[0] == t[0] && s[1] == t[1] && s[2] == t[2] && s[3] == t[3];
    assert s[4] == t[4] && s[5] == t[5] && s[6] == t[6] && s[7] == t[7];
  }

  /** Every error burst of at most sixteen consecutive bits, wherever it starts, changes the
      checksum. */
  lemma BurstDetected(x: seq<bv8>, y: seq<bv8>, i: nat)
    requires |x| == |y| && x != y
    requires forall k :: 0 <= k < 8 * |x| && (k < i || k >= i + 16) ==> Bits(x)[k] == Bits(y)[k]
    ensures ByTable(x) != ByTable(y)
  {
    hide ByTable, FromTop, Bits;
    var a, b := Bits(x), Bits(y);
    if a == b {
      BitsInjective(x, y);
    }
    var k := FirstDifference(a, b);
    var e := if i + 16 < |a| then i + 16 else |a|;
    assert a[e..] == b[e..];
    WindowDiffers(a[..k], a[k..e], b[k..e]);
    DifferenceStays(a[..k] + a[k..e], a[..k] + b[k..e], a[e..]);
    assert a == a[..k] + a[k..e] + a[e..] && b == a[..k] + b[k..e] + a[e..];
    TableIsFromTop(x);
    TableIsFromTop(y);
  }

  /** The CRC of the single byte 1 is the generator below its leading term. */
  lemma OneGivesGenerator()
    ensures ByTable([1]) == 0x1021
  {
    OneEntry();
    hide Entry, Steps;
    assert [1][..0] == [];
    assert Index(0, 1) == 1 && ShiftByte(0) == 0;
  }

  lemma OneEntry()
    ensures Entry(1) == 0x1021
  {
    assert HighByte(1) == 0x100 && Steps(0x100, 0) == 0x100;
    assert Step(0x100) == 0x200 && Step(0x200) == 0x400 && Step(0x400) == 0x800 && Step(0x800) == 0x1000;
    assert Step(0x1000) == 0x2000 && Step(0x2000) == 0x4000 && Step(0x4000) == 0x8000 && Step(0x8000) == 0x1021;
    hide Step;
    assert Steps(0x100, 1) == 0x200;
    assert Steps(0x100, 2) == 0x400;
    assert Steps(0x100, 3) == 0x800;
    assert Steps(0x100, 4) == 0x1000;
    assert Steps(0x100, 5) == 0x2000;
    assert Steps(0x100, 6) == 0x4000;
    assert Steps(0x100, 7) == 0x8000;
  }
}
