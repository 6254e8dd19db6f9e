/**
 * MD4 (fteqtv/mdfour.c), against RFC 1320: the padding of sections 3.1 and 3.2, and the steps of section 3.4.
 */
module Mdfour {
  import opened Msg

  datatype Word = Word(bits: bv32)
  /** An unsigned number of 32 bits that is only added to and written. */
  type Count = n: int | 0 <= n < 0x1_0000_0000

  datatype State = State(a: Word, b: Word, c: Word, d: Word)

  // ---------- Words ----------

  function Select(x: bv32, y: bv32, z: bv32): bv32 {
    (x & y) | (!x & z)
  }

  function Majority(x: bv32, y: bv32, z: bv32): bv32 {
    (x & y) | (x & z) | (y & z)
  }

  function Parity(x: bv32, y: bv32, z: bv32): bv32 {
    x ^ y ^ z
  }

  function Turn(x: bv32, s: bv32): bv32
    requires 0 < s < 32
  {
    (x << s) | (x >> (32 - s))
  }

  function Sum(x: bv32, y: bv32): bv32 {
    x + y
  }

  function Number(x: bv32): (n: Count) {
    x as int
  }

  function F(x: Word, y: Word, z: Word): Word {
    Word(Select(x.bits, y.bits, z.bits))
  }

  function G(x: Word, y: Word, z: Word): Word {
    Word(Majority(x.bits, y.bits, z.bits))
  }

  function H(x: Word, y: Word, z: Word): Word {
    Word(Parity(x.bits, y.bits, z.bits))
  }

  function Shift(x: Word, s: nat): Word
    requires 0 < s < 32
  {
    Word(Turn(x.bits, s as bv32))
  }

  function Plus(x: Word, y: Word): Word {
    Word(Sum(x.bits, y.bits))
  }

  function Value(x: Word): (n: Count) {
    Number(x.bits)
  }

  // ---------- What the word functions do to numbers ----------

  /** Bit `i` of a number. */
  function Bit(n: nat, i: nat): (b: nat)
    ensures b <= 1
  {
    if i == 0 then n % 2 else Bit(n / 2, i - 1)
  }

  function Power2(n: nat): (p: nat)
    ensures p > 0
  {
    if n == 0 then 1 else 2 * Power2(n - 1)
  }

  predicate Odd(x: bv32) {
    x & 1 == 1
  }

  function Half(x: bv32): bv32 {
    x >> 1
  }

  function Twice(x: bv32): bv32 {
    x << 1
  }

  function TwiceAndOne(x: bv32): bv32 {
    (x << 1) | 1
  }

  /** No bit is lost when it is doubled. */
  predicate Small(x: bv32) {
    x < 0x8000_0000
  }

  lemma Doubled(q: bv32)
    requires q < 0x8000_0000
    ensures (q << 1) as int == 2 * (q as int) && ((q << 1) | 1) as int == 2 * (q as int) + 1
  {
  }

  lemma TwiceNumber(x: bv32)
    requires Small(x)
    ensures Number(Twice(x)) == 2 * Number(x) && Number(TwiceAndOne(x)) == 2 * Number(x) + 1
  {
    Doubled(x);
  }

  lemma TwiceOfHalf(x: bv32)
    ensures Small(Half(x)) && x == if Odd(x) then TwiceAndOne(Half(x)) else Twice(Half(x))
  {
  }

  lemma HalfNumber(x: bv32)
    ensures Number(Half(x)) == Number(x) / 2 && Number(x) % 2 == if Odd(x) then 1 else 0
  {
    hide Odd, Half, Twice, TwiceAndOne, Number, Small;
    TwiceOfHalf(x);
    TwiceNumber(Half(x));
  }

  lemma HalfOfSelect(x: bv32, y: bv32, z: bv32)
    ensures Half(Select(x, y, z)) == Select(Half(x), Half(y), Half(z))
  {
  }

  lemma HalfOfMajority(x: bv32, y: bv32, z: bv32)
    ensures Half(Majority(x, y, z)) == Majority(Half(x), Half(y), Half(z))
  {
  }

  lemma HalfOfParity(x: bv32, y: bv32, z: bv32)
    ensures Half(Parity(x, y, z)) == Parity(Half(x), Half(y), Half(z))
  {
  }

  lemma OddSelect(x: bv32, y: bv32, z: bv32)
    ensures Odd(Select(x, y, z)) == if Odd(x) then Odd(y) else Odd(z)
  {
  }

  lemma OddMajority(x: bv32, y: bv32, z: bv32)
    ensures Odd(Majority(x, y, z)) == if Odd(x) == Odd(y) then Odd(x) else Odd(z)
  {
  }

  lemma OddParity(x: bv32, y: bv32, z: bv32)
    ensures Odd(Parity(x, y, z)) == (Odd(x) == (Odd(y) == Odd(z)))
  {
  }

  /** At every place the first function selects. */
  lemma {:induction false} SelectBit(x: bv32, y: bv32, z: bv32, i: nat)
    ensures Bit(Number(Select(x, y, z)), i) == if Bit(Number(x), i) == 1 then Bit(Number(y), i) else Bit(Number(z), i)
    decreases i
  {
    hide Select, Number, Half, Odd;
    HalfNumber(x);
    HalfNumber(y);
    HalfNumber(z);
    HalfNumber(Select(x, y, z));
    if i == 0 {
      OddSelect(x, y, z);
    } else {
      HalfOfSelect(x, y, z);
      SelectBit(Half(x), Half(y), Half(z), i - 1);
    }
  }

  /** The second is the majority. */
  lemma {:induction false} MajorityBit(x: bv32, y: bv32, z: bv32, i: nat)
    ensures Bit(Number(Majority(x, y, z)), i)
            == if Bit(Number(x), i) + Bit(Number(y), i) + Bit(Number(z), i) >= 2 then 1 else 0
    decreases i
  {
    hide Majority, Number, Half, Odd;
    HalfNumber(x);
    HalfNumber(y);
    HalfNumber(z);
    HalfNumber(Majority(x, y, z));
    if i == 0 {
      OddMajority(x, y, z);
    } else {
      HalfOfMajority(x, y, z);
      MajorityBit(Half(x), Half(y), Half(z), i - 1);
    }
  }

  /** The third is the parity. */
  lemma {:induction false} ParityBit(x: bv32, y: bv32, z: bv32, i: nat)
    ensures (Bit(Number(Parity(x, y, z)), i) == 1)
            == ((Bit(Number(x), i) == 1) == ((Bit(Number(y), i) == 1) == (Bit(Number(z), i) == 1)))
    decreases i
  {
    hide Parity, Number, Half, Odd;
    HalfNumber(x);
    HalfNumber(y);
    HalfNumber(z);
    HalfNumber(Parity(x, y, z));
    if i == 0 {
      OddParity(x, y, z);
    } else {
      HalfOfParity(x, y, z);
      ParityBit(Half(x), Half(y), Half(z), i - 1);
    }
  }

  /** At each place F selects, G is the majority, and H the parity. */
  lemma MixBits(x: Word, y: Word, z: Word, i: nat)
    ensures var a, b, c := Bit(Value(x), i), Bit(Value(y), i), Bit(Value(z), i);
            && Bit(Value(F(x, y, z)), i) == (if a == 1 then b else c)
            && Bit(Value(G(x, y, z)), i) == (if a + b + c >= 2 then 1 else 0)
            && Bit(Value(H(x, y, z)), i) == (a + b + c) % 2
  {
    hide Select, Majority, Parity, Number, Bit;
    SelectBit(x.bits, y.bits, z.bits, i);
    MajorityBit(x.bits, y.bits, z.bits, i);
    ParityBit(x.bits, y.bits, z.bits, i);
  }

  // ---------- Addition ----------

  function Successor(x: bv32): bv32 {
    x + 1
  }

  lemma AfterTwice(h: bv32)
    ensures Successor(Twice(h)) == TwiceAndOne(h)
  {
  }

  lemma AfterTwiceAndOne(h: bv32)
    ensures Successor(TwiceAndOne(h)) == Twice(Successor(h))
  {
  }

  lemma StaysSmall(h: bv32)
    requires Small(h)
    ensures h == 0x7fff_ffff || Small(Successor(h))
  {
  }

  lemma LastWord()
    ensures Number(Successor(TwiceAndOne(0x7fff_ffff))) == 0 && Number(TwiceAndOne(0x7fff_ffff)) == 0xffff_ffff
  {
  }

  lemma {:induction false} SuccessorNumber(x: bv32)
    ensures Number(Successor(x)) == (Number(x) + 1) % 0x1_0000_0000
    decreases Number(x)
  {
    hide Number, Twice, TwiceAndOne, Successor, Half, Odd, Small;
    var h := Half(x);
    TwiceOfHalf(x);
    TwiceNumber(h);
    if !Odd(x) {
      AfterTwice(h);
    } else if h == 0x7fff_ffff {
      LastWord();
    } else {
      AfterTwiceAndOne(h);
      StaysSmall(h);
      SuccessorNumber(h);
      TwiceNumber(Successor(h));
    }
  }

  function Predecessor(x: bv32): bv32 {
    x - 1
  }

  lemma SuccessorOf(x: bv32)
    ensures Successor(Predecessor(x)) == x
  {
  }

  lemma SumZero(x: bv32)
    ensures Sum(x, 0) == x && Number(0) == 0
  {
  }

  lemma OnlyZero(x: bv32)
    requires x != 0
    ensures Number(x) != 0
  {
  }

  lemma PlusOne(x: bv32, y: bv32)
    ensures x + (y + 1) == (x + y) + 1
  {
  }

  lemma SumOfSuccessor(x: bv32, y: bv32)
    ensures Sum(x, Successor(y)) == Successor(Sum(x, y))
  {
    calc {
      Sum(x, Successor(y));
      Sum(x, y + 1);
      x + (y + 1);
      { PlusOne(x, y); }
      (x + y) + 1;
      Successor(x + y);
      Successor(Sum(x, y));
    }
  }

  lemma {:induction false} SumNumber(x: bv32, y: bv32)
    ensures Number(Sum(x, y)) == (Number(x) + Number(y)) % 0x1_0000_0000
    decreases Number(y)
  {
    hide Number, Sum, Successor, Predecessor;
    SumZero(x);
    if y != 0 {
      var z := Predecessor(y);
      SuccessorOf(y);
      OnlyZero(y);
      SuccessorNumber(z);
      SumOfSuccessor(x, z);
      SumNumber(x, z);
      SuccessorNumber(Sum(x, z));
    }
  }

  /** Addition is that of the numbers, without the carry out of the top. */
  lemma PlusWraps(x: Word, y: Word)
    ensures Value(Plus(x, y)) == (Value(x) + Value(y)) % 0x1_0000_0000
  {
    hide Number, Sum;
    SumNumber(x.bits, y.bits);
  }

  // ---------- Rotation ----------

  predicate TopBit(x: bv32) {
    x >> 31 == 1
  }

  function WithoutTop(x: bv32): bv32 {
    x & 0x7fff_ffff
  }

  lemma TopNumber(x: bv32)
    ensures Number(x) == (if TopBit(x) then 0x8000_0000 else 0) + Number(WithoutTop(x))
  {
  }

  lemma TurnWithTop(x: bv32)
    requires TopBit(x)
    ensures Turn(x, 1) == TwiceAndOne(WithoutTop(x))
  {
  }

  lemma TurnWithoutTop(x: bv32)
    requires !TopBit(x)
    ensures Turn(x, 1) == Twice(WithoutTop(x))
  {
  }

  lemma WithoutTopIsSmall(x: bv32)
    ensures Small(WithoutTop(x))
  {
  }

  lemma TurnOnce(x: bv32)
    ensures Number(Turn(x, 1)) == 2 * Number(x) % 0x1_0000_0000 + Number(x) / 0x8000_0000
  {
    hide Number, Twice, TwiceAndOne, WithoutTop, TopBit, Turn, Small;
    TopNumber(x);
    WithoutTopIsSmall(x);
    TwiceNumber(WithoutTop(x));
    if TopBit(x) {
      TurnWithTop(x);
    } else {
      TurnWithoutTop(x);
    }
  }

  lemma TurnedAgain(x: bv32, s: bv32)
    requires 0 < s < 31
    ensures (x << (s + 1)) | (x >> (31 - s))
            == (((x << s) | (x >> (32 - s))) << 1) | (((x << s) | (x >> (32 - s))) >> 31)
  {
  }

  lemma TurnMore(x: bv32, s: bv32)
    requires 0 < s < 31
    ensures Turn(x, s + 1) == Turn(Turn(x, s), 1)
  {
    TurnedAgain(x, s);
  }

  /** Multiplied by a power of two, what is carried out of the top comes in at the bottom. */
  function Turned(v: nat, m: nat, k: nat): nat
    requires k > 0
  {
    v * m % 0x1_0000_0000 + v / k
  }

  lemma Times(a: nat, b: nat, d: nat)
    requires a <= b
    ensures a * d <= b * d
  {
  }

  lemma DividesAs(n: nat, d: nat, q: nat, r: nat)
    requires n == q * d + r && r < d
    ensures n / d == q && n % d == r
  {
    var a := n / d;
    assert n == a * d + n % d;
    assert (q + 1) * d == q * d + d && (a + 1) * d == a * d + d;
    if a > q {
      Times(q + 1, a, d);
      assert false;
    }
    if a < q {
      Times(a + 1, q, d);
      assert false;
    }
  }

  lemma TurnedParts(h: nat, l: nat, m: nat, k: nat)
    requires m * k == 0x1_0000_0000 && l < k
    ensures Turned(h * k + l, m, k) == l * m + h
    ensures l * m + m <= 0x1_0000_0000
  {
    DividesAs(h * k + l, k, h, l);
    assert (h * k + l) * m == h * (m * k) + l * m;
    Times(l + 1, k, m);
    assert (l + 1) * m == l * m + m;
    DividesAs((h * k + l) * m, 0x1_0000_0000, h, l * m);
  }

  lemma QuotientBelow(h: nat, k: nat, l: nat, m: nat)
    requires h * k + l < m * k
    ensures h < m
  {
    if h >= m {
      Times(m, h, k);
      assert false;
    }
  }

  lemma TurnedOnceMore(v: nat, m: nat, k: nat)
    requires k > 0 && m * (2 * k) == 0x1_0000_0000 && v < 0x1_0000_0000
    ensures var s := Turned(v, m, 2 * k);
            2 * s % 0x1_0000_0000 + s / 0x8000_0000 == Turned(v, 2 * m, k)
  {
    hide Turned;
    var h, l := v / (2 * k), v % (2 * k);
    var b, r := l / k, l % k;
    TurnParts(v, k);
    QuotientBelow(h, 2 * k, l, m);
    TurnedParts(h, l, m, 2 * k);
    Regrouped(m, k);
    TurnedParts(2 * h + b, r, 2 * m, k);
    Expanded(b, r, m, k);
    TurnedBound(r, m, k, h);
    LastTurn(b, r * m + h);
  }

  lemma TurnParts(v: nat, k: nat)
    requires k > 0
    ensures var h, l := v / (2 * k), v % (2 * k);
            var b, r := l / k, l % k;
            v == h * (2 * k) + l && l == b * k + r && b < 2 && v == (2 * h + b) * k + r
  {
    var h, l := v / (2 * k), v % (2 * k);
    var b, r := l / k, l % k;
    QuotientBelow(b, k, r, 2);
    assert h * (2 * k) + (b * k + r) == (2 * h + b) * k + r;
  }

  lemma Regrouped(m: nat, k: nat)
    ensures (2 * m) * k == m * (2 * k) == 2 * (m * k)
  {
  }

  lemma Expanded(b: nat, r: nat, m: nat, k: nat)
    ensures (b * k + r) * m == b * (m * k) + r * m && r * (2 * m) == 2 * (r * m)
  {
  }

  lemma TurnedBound(r: nat, m: nat, k: nat, h: nat)
    requires r < k && h < m
    ensures r * m + h < m * k
  {
    Times(r + 1, k, m);
    assert (r + 1) * m == r * m + m;
  }

  lemma LastTurn(b: nat, low: nat)
    requires b < 2 && low < 0x8000_0000
    ensures var s := b * 0x8000_0000 + low; 2 * s % 0x1_0000_0000 + s / 0x8000_0000 == 2 * low + b
  {
  }

  lemma {:induction false} PowersMultiply(s: nat, t: nat)
    ensures Power2(s) * Power2(t) == Power2(s + t)
  {
    if s > 0 {
      PowersMultiply(s - 1, t);
      assert 2 * Power2(s - 1) * Power2(t) == 2 * (Power2(s - 1) * Power2(t));
    }
  }

  lemma WholePower()
    ensures Power2(32) == 0x1_0000_0000
  {
    assert Power2(8) == 0x100;
    PowersMultiply(8, 8);
    PowersMultiply(16, 16);
  }

  lemma NextPower(s: nat)
    ensures Power2(s + 1) == 2 * Power2(s)
  {
  }

  lemma FirstPowers()
    ensures Power2(1) == 2 && Power2(31) == 0x8000_0000
  {
    WholePower();
    NextPower(31);
    NextPower(0);
  }

  lemma AmountBefore(s: bv32)
    requires 1 < s < 32
    ensures var t := Predecessor(s); 0 < t < 31 && t + 1 == s && 1 <= Number(t) < 31 && Number(s) == Number(t) + 1
  {
    SuccessorOf(s);
    SuccessorNumber(Predecessor(s));
    FewBits(s);
    FewBits(Predecessor(s));
  }

  lemma FewBits(s: bv32)
    requires 0 < s < 32
    ensures 0 < Number(s) < 32
  {
  }

  function TurnedBy(v: Count, n: nat): nat
    requires n <= 32
  {
    Turned(v, Power2(n), Power2(32 - n))
  }

  lemma TurnedByOne(v: Count)
    ensures TurnedBy(v, 1) == 2 * v % 0x1_0000_0000 + v / 0x8000_0000
  {
    hide Power2;
    FirstPowers();
  }

  lemma TurnedByMore(v: Count, n: nat)
    requires n < 32
    ensures var s := TurnedBy(v, n);
            TurnedBy(v, n + 1) == 2 * s % 0x1_0000_0000 + s / 0x8000_0000
  {
    hide Power2, Turned;
    WholePower();
    PowersMultiply(n, 32 - n);
    NextPower(n);
    NextPower(31 - n);
    TurnedOnceMore(v, Power2(n), Power2(31 - n));
  }

  lemma {:induction false} TurnNumber(x: bv32, s: bv32)
    requires 0 < s < 32
    ensures 0 < Number(s) < 32 && Number(Turn(x, s)) == TurnedBy(Number(x), Number(s))
    decreases Number(s)
  {
    hide Turn, Number, TurnedBy, Predecessor;
    FewBits(s);
    if s == 1 {
      TurnOnce(x);
      OneBit();
      TurnedByOne(Number(x));
    } else {
      var t := Predecessor(s);
      AmountBefore(s);
      TurnNumber(x, t);
      TurnMore(x, t);
      TurnOnce(Turn(x, t));
      TurnedByMore(Number(x), Number(t));
    }
  }

  lemma OneBit()
    ensures Number(1) == 1
  {
  }

  lemma AmountAsBits(s: bv32)
    ensures Number(s) as bv32 == s
  {
  }

  /** Shift turns a word: what is carried out of the top comes in at the bottom. */
  lemma ShiftTurns(x: Word, s: bv32)
    requires 0 < s < 32
    ensures 0 < Number(s) < 32
    ensures Value(Shift(x, Number(s)))
            == Value(x) * Power2(Number(s)) % 0x1_0000_0000 + Value(x) / Power2(32 - Number(s))
  {
    hide Turn, Number, Power2;
    TurnNumber(x.bits, s);
    AmountAsBits(s);
  }

  // ---------- The compression function, by the tables of section 3.4 ----------

  /** The word that step `i` takes. */
  function Index(i: nat): (k: nat)
    requires i < 48
    ensures k < 16
  {
    var j := i % 16;
    if i < 16 then j
    else if i < 32 then j % 4 * 4 + j / 4
    else [0, 8, 4, 12][j % 4] + [0, 2, 1, 3][j / 4]
  }

  function Amount(i: nat): (s: nat)
    requires i < 48
    ensures 0 < s < 32
  {
    if i < 16 then [3, 7, 11, 19][i % 4]
    else if i < 32 then [3, 5, 9, 13][i % 4]
    else [3, 9, 11, 15][i % 4]
  }

  function Mix(i: nat, b: Word, c: Word, d: Word): Word {
    if i < 16 then F(b, c, d)
    else if i < 32 then Plus(G(b, c, d), Word(0x5A827999))
    else Plus(H(b, c, d), Word(0x6ED9EBA1))
  }

  /** One step: the first register gets a new value, and the registers rotate. */
  function Step(s: State, x: seq<Word>, i: nat): State
    requires |x| == 16 && i < 48
  {
    State(s.d, Shift(Plus(Plus(s.a, Mix(i, s.b, s.c, s.d)), x[Index(i)]), Amount(i)), s.b, s.c)
  }

  function Steps(s: State, x: seq<Word>, n: nat): State
    requires |x| == 16 && n <= 48
  {
    if n == 0 then s else Step(Steps(s, x, n - 1), x, n - 1)
  }

  function Compress(s: State, x: seq<Word>): State
    requires |x| == 16
  {
    var t := Steps(s, x, 48);
    State(Plus(t.a, s.a), Plus(t.b, s.b), Plus(t.c, s.c), Plus(t.d, s.d))
  }

  // ---------- Blocks and padding, by sections 3.1 to 3.3 ----------

  function GetWord(b: seq<Byte>): Word
    requires |b| == 4
  {
    Word((b[3] as bv32 << 24) | (b[2] as bv32 << 16) | (b[1] as bv32 << 8) | b[0] as bv32)
  }

  lemma JoinedBytes(p: bv32, q: bv32, r: bv32, t: bv32)
    requires p < 0x100 && q < 0x100 && r < 0x100 && t < 0x100
    ensures var w := (t << 24) | (r << 16) | (q << 8) | p;
            && w & 0xff == p && (w >> 8) & 0xff == q && (w >> 16) & 0xff == r && (w >> 24) & 0xff == t
  {
  }

  lemma ByteBits(b: Byte)
    ensures b as bv32 < 0x100
  {
  }

  /** A word holds the bytes of the message from its lowest eight bits up. */
  lemma WordBytes(b: seq<Byte>)
    requires |b| == 4
    ensures var w := GetWord(b).bits;
            && w & 0xff == b[0] as bv32 && (w >> 8) & 0xff == b[1] as bv32
            && (w >> 16) & 0xff == b[2] as bv32 && (w >> 24) & 0xff == b[3] as bv32
  {
    ByteBits(b[0]);
    ByteBits(b[1]);
    ByteBits(b[2]);
    ByteBits(b[3]);
    JoinedBytes(b[0] as bv32, b[1] as bv32, b[2] as bv32, b[3] as bv32);
  }

  function Words(block: seq<Byte>): (r: seq<Word>)
    requires |block| == 64
    ensures |r| == 16
  {
    seq(16, i requires 0 <= i < 16 => GetWord(block[4 * i..4 * i + 4]))
  }

  function Hashed(s: State, bytes: seq<Byte>): State
    decreases |bytes|
  {
    if |bytes| < 64 then s else Hashed(Compress(s, Words(bytes[..64])), bytes[64..])
  }

  const INITIAL: State := State(Word(0x67452301), Word(0xefcdab89), Word(0x98badcfe), Word(0x10325476))

  /** A one bit, zeros up to eight bytes before a multiple of 64, and the length in bits, low word first. */
  function Padded(msg: seq<Byte>): seq<Byte> {
    var bits := 8 * |msg|;
    msg + [0x80] + ZeroBytes((119 - |msg| % 64) % 64) + Long(bits) + Long(bits / 0x1_0000_0000)
  }

  function Digest(s: State): seq<Byte> {
    Long(Value(s.a)) + Long(Value(s.b)) + Long(Value(s.c)) + Long(Value(s.d))
  }

  // ---------- The tail ----------

  /** What mdfour_tail puts into its buffer for the bytes that are left, `total` being the length modulo 2^32. */
  function Tail(rest: seq<Byte>, total: nat): seq<Byte>
    requires |rest| < 64
  {
    rest + [0x80] + ZeroBytes((if |rest| <= 55 then 55 else 119) - |rest|) + Long(Counted(total * 8)) + ZeroBytes(4)
  }

  lemma {:induction false} HashedSum(s: State, a: seq<Byte>, b: seq<Byte>)
    requires |a| % 64 == 0
    ensures Hashed(s, a + b) == Hashed(Hashed(s, a), b)
    decreases |a|
  {
    hide Compress, Words;
    if a == [] {
      assert a + b == b;
    } else {
      assert (a + b)[..64] == a[..64] && (a + b)[64..] == a[64..] + b;
      HashedSum(Compress(s, Words(a[..64])), a[64..], b);
    }
  }

  lemma HighBits(m: nat, q: nat)
    ensures (m + 0x1_0000_0000 * q) % 0x100 == m % 0x100
    ensures (m + 0x1_0000_0000 * q) / 0x100 % 0x100 == m / 0x100 % 0x100
  {
    assert (m + 0x1_0000_0000 * q) / 0x100 == m / 0x100 + 0x100_0000 * q;
  }

  lemma HighHalf(m: nat, q: nat)
    ensures (m + 0x1_0000_0000 * q) / 0x1_0000 == m / 0x1_0000 + 0x1_0000 * q
  {
  }

  lemma HighBitsOfHalf(m: nat, q: nat)
    ensures (m + 0x1_0000 * q) % 0x100 == m % 0x100
    ensures (m + 0x1_0000 * q) / 0x100 % 0x100 == m / 0x100 % 0x100
  {
    assert (m + 0x1_0000 * q) / 0x100 == m / 0x100 + 0x100 * q;
  }

  /** Only the low 32 bits of a number are written. */
  lemma LongOfWord(n: nat)
    ensures Long(n % 0x1_0000_0000) == Long(n)
  {
    var m, q := n % 0x1_0000_0000, n / 0x1_0000_0000;
    assert n == m + 0x1_0000_0000 * q;
    HighBits(m, q);
    HighHalf(m, q);
    HighBitsOfHalf(m / 0x1_0000, q);
  }

  lemma LongOfNothing(n: nat)
    requires n < 0x1_0000_0000
    ensures Long(n) == ZeroBytes(4) <==> n == 0
  {
    hide Long;
    LongRoundTrip(n, []);
    LongRoundTrip(0, []);
    assert Long(n) + [] == Long(n) && Long(0) + [] == Long(0);
    assert Long(0) == ZeroBytes(4) by { LongOfZero(); }
  }

  lemma LongOfZero()
    ensures Long(0) == ZeroBytes(4)
  {
  }

  lemma CutFront(a: seq<Byte>, x: seq<Byte>, y: seq<Byte>)
    ensures a + x == a + y <==> x == y
  {
    assert (a + x)[|a|..] == x && (a + y)[|a|..] == y;
  }

  lemma ZerosAgree(w: nat, r: nat)
    requires w % 64 == 0 && r < 64
    ensures (119 - (w + r) % 64) % 64 == (if r <= 55 then 55 else 119) - r
  {
    assert (w + r) % 64 == r;
  }

  lemma BitsAgree(n: nat)
    ensures n % 0x1_0000_0000 * 8 % 0x1_0000_0000 == 8 * n % 0x1_0000_0000
    ensures n < 0x2000_0000_0000_0000 ==> 8 * n / 0x1_0000_0000 < 0x1_0000_0000
    ensures 8 * n / 0x1_0000_0000 == 0 <==> n < 0x2000_0000
  {
  }

  /** The source pads as section 3 says exactly when the length in bits fits one word. */
  lemma TailIsPadding(whole: seq<Byte>, rest: seq<Byte>)
    requires |whole| % 64 == 0 && |rest| < 64 && |whole| + |rest| < 0x2000_0000_0000_0000
    ensures whole + Tail(rest, (|whole| + |rest|) % 0x1_0000_0000) == Padded(whole + rest)
            <==> |whole| + |rest| < 0x2000_0000
  {
    hide Long, ZeroBytes;
    var n := |whole| + |rest|;
    var bits := 8 * n;
    ZerosAgree(|whole|, |rest|);
    BitsAgree(n);
    LongOfWord(bits);
    LongOfNothing(bits / 0x1_0000_0000);
    var zeros := ZeroBytes((119 - n % 64) % 64);
    var front := whole + rest + [0x80] + zeros + Long(bits);
    assert whole + (rest + [0x80] + zeros + Long(bits) + ZeroBytes(4)) == front + ZeroBytes(4);
    CutFront(front, ZeroBytes(4), Long(bits / 0x1_0000_0000));
  }

  /** The bytes that are hashed for a message of any length. */
  function Message(input: seq<Byte>): seq<Byte> {
    var n := |input| - |input| % 64;
    input[..n] + Tail(input[n..], Counted(|input|))
  }

  lemma MessageIs(input: seq<Byte>, n: nat)
    requires n % 64 == 0 && n <= |input| < n + 64
    ensures Message(input) == input[..n] + Tail(input[n..], Counted(|input|))
    ensures |input| < 0x2000_0000 ==> Message(input) == Padded(input)
  {
    hide Tail, Padded;
    assert |input| - |input| % 64 == n;
    if |input| < 0x2000_0000 {
      assert input[..n] + input[n..] == input;
      TailIsPadding(input[..n], input[n..]);
    }
  }

  // ---------- The implementation ----------

  function Round1(a: Word, b: Word, c: Word, d: Word, x: Word, s: nat): Word
    requires 0 < s < 32
  {
    Shift(Plus(Plus(a, F(b, c, d)), x), s)
  }

  function Round2(a: Word, b: Word, c: Word, d: Word, x: Word, s: nat): Word
    requires 0 < s < 32
  {
    Shift(Plus(Plus(Plus(a, G(b, c, d)), x), Word(0x5A827999)), s)
  }

  function Round3(a: Word, b: Word, c: Word, d: Word, x: Word, s: nat): Word
    requires 0 < s < 32
  {
    Shift(Plus(Plus(Plus(a, H(b, c, d)), x), Word(0x6ED9EBA1)), s)
  }

  lemma Reordered(a: Word, m: Word, x: Word, k: Word)
    ensures Plus(Plus(Plus(a, m), x), k) == Plus(Plus(a, Plus(m, k)), x)
  {
    hide Plus;
    PlusTwice(a, m, x);
    PlusTwice(Plus(a, m), x, k);
    PlusTwice(a, m, k);
    PlusTwice(a, Plus(m, k), x);
    PlusTwice(Plus(a, m), k, x);
  }

  lemma PlusAssociates(x: bv32, y: bv32, z: bv32)
    ensures (x + y) + z == x + (y + z)
  {
  }

  lemma SumAssociates(x: bv32, y: bv32, z: bv32)
    ensures Sum(Sum(x, y), z) == Sum(x, Sum(y, z))
  {
    calc {
      Sum(Sum(x, y), z);
      Sum(x + y, z);
      (x + y) + z;
      { PlusAssociates(x, y, z); }
      x + (y + z);
      Sum(x, y + z);
      Sum(x, Sum(y, z));
    }
  }

  lemma SumCommutes(x: bv32, y: bv32)
    ensures Sum(x, y) == Sum(y, x)
  {
  }

  /** Additions commute and associate. */
  lemma PlusTwice(x: Word, y: Word, z: Word)
    ensures Plus(Plus(x, y), z) == Plus(x, Plus(y, z)) && Plus(y, z) == Plus(z, y)
  {
    hide Sum;
    SumAssociates(x.bits, y.bits, z.bits);
    SumCommutes(y.bits, z.bits);
  }

  /** What a counter of 32 bits makes of a number. */
  function Counted(n: nat): Count {
    n % 0x1_0000_0000
  }

  lemma CountedSum(n: nat, k: nat)
    ensures Counted(Counted(n) + k) == Counted(n + k)
  {
  }

  /** The step that a line of the source makes. */
  lemma Line(s: State, x: seq<Word>, i: nat, k: nat, n: nat)
    requires |x| == 16 && i < 48 && k == Index(i) && n == Amount(i)
    ensures var v := if i < 16 then Round1(s.a, s.b, s.c, s.d, x[k], n)
                     else if i < 32 then Round2(s.a, s.b, s.c, s.d, x[k], n)
                     else Round3(s.a, s.b, s.c, s.d, x[k], n);
            Step(s, x, i) == State(s.d, v, s.b, s.c)
  {
    hide F, G, H, Shift, Plus, Index, Amount;
    Reordered(s.a, G(s.b, s.c, s.d), x[k], Word(0x5A827999));
    Reordered(s.a, H(s.b, s.c, s.d), x[k], Word(0x6ED9EBA1));
  }

  ghost predicate Reached(s: State, x: seq<Word>, n: nat, t: State) {
    |x| == 16 && n <= 48 && t == Steps(s, x, n)
  }

  lemma StepsMore(s: State, x: seq<Word>, n: nat)
    requires |x| == 16 && n < 48
    ensures Steps(s, x, n + 1) == Step(Steps(s, x, n), x, n)
  {
  }

  /** Four lines of the source, after which the registers are back in their places. */
  lemma FourLines(s: State, x: seq<Word>, i: nat, t: State, k0: nat, k1: nat, k2: nat, k3: nat,
                  n0: nat, n1: nat, n2: nat, n3: nat, A: Word, B: Word, C: Word, D: Word)
    requires i % 4 == 0 && i + 4 <= 48 && Reached(s, x, i, t)
    requires k0 == Index(i) && k1 == Index(i + 1) && k2 == Index(i + 2) && k3 == Index(i + 3)
    requires n0 == Amount(i) && n1 == Amount(i + 1) && n2 == Amount(i + 2) && n3 == Amount(i + 3)
    requires A == Round(i, t.a, t.b, t.c, t.d, x[k0], n0)
    requires D == Round(i, t.d, A, t.b, t.c, x[k1], n1)
    requires C == Round(i, t.c, D, A, t.b, x[k2], n2)
    requires B == Round(i, t.b, C, D, A, x[k3], n3)
    ensures Reached(s, x, i + 4, State(A, B, C, D))
  {
    hide Step, Index, Amount, Round1, Round2, Round3, Steps;
    StepsMore(s, x, i);
    StepsMore(s, x, i + 1);
    StepsMore(s, x, i + 2);
    StepsMore(s, x, i + 3);
    Line(t, x, i, k0, n0);
    Line(State(t.d, A, t.b, t.c), x, i + 1, k1, n1);
    Line(State(t.c, D, A, t.b), x, i + 2, k2, n2);
    Line(State(t.b, C, D, A), x, i + 3, k3, n3);
  }

  function Round(i: nat, a: Word, b: Word, c: Word, d: Word, x: Word, s: nat): Word
    requires 0 < s < 32
  {
    if i < 16 then Round1(a, b, c, d, x, s)
    else if i < 32 then Round2(a, b, c, d, x, s)
    else Round3(a, b, c, d, x, s)
  }

  lemma SecondTable()
    ensures Index(16) == 0 && Index(17) == 4 && Index(18) == 8 && Index(19) == 12
    ensures Index(20) == 1 && Index(21) == 5 && Index(22) == 9 && Index(23) == 13
    ensures Index(24) == 2 && Index(25) == 6 && Index(26) == 10 && Index(27) == 14
    ensures Index(28) == 3 && Index(29) == 7 && Index(30) == 11 && Index(31) == 15
    ensures Amount(16) == 3 && Amount(17) == 5 && Amount(18) == 9 && Amount(19) == 13
    ensures Amount(20) == 3 && Amount(21) == 5 && Amount(22) == 9 && Amount(23) == 13
    ensures Amount(24) == 3 && Amount(25) == 5 && Amount(26) == 9 && Amount(27) == 13
    ensures Amount(28) == 3 && Amount(29) == 5 && Amount(30) == 9 && Amount(31) == 13
  {
  }

  lemma ThirdTable()
    ensures Index(32) == 0 && Index(33) == 8 && Index(34) == 4 && Index(35) == 12
    ensures Index(36) == 2 && Index(37) == 10 && Index(38) == 6 && Index(39) == 14
    ensures Index(40) == 1 && Index(41) == 9 && Index(42) == 5 && Index(43) == 13
    ensures Index(44) == 3 && Index(45) == 11 && Index(46) == 7 && Index(47) == 15
    ensures Amount(32) == 3 && Amount(33) == 9 && Amount(34) == 11 && Amount(35) == 15
    ensures Amount(36) == 3 && Amount(37) == 9 && Amount(38) == 11 && Amount(39) == 15
    ensures Amount(40) == 3 && Amount(41) == 9 && Amount(42) == 11 && Amount(43) == 15
    ensures Amount(44) == 3 && Amount(45) == 9 && Amount(46) == 11 && Amount(47) == 15
  {
    ThirdIndex();
    ThirdIndexLater();
    ThirdAmounts();
    hide Index, Amount;
  }

  lemma ThirdIndex()
    ensures Index(32) == 0 && Index(33) == 8 && Index(34) == 4 && Index(35) == 12
    ensures Index(36) == 2 && Index(37) == 10 && Index(38) == 6 && Index(39) == 14
  {
  }

  lemma ThirdIndexLater()
    ensures Index(40) == 1 && Index(41) == 9 && Index(42) == 5 && Index(43) == 13
    ensures Index(44) == 3 && Index(45) == 11 && Index(46) == 7 && Index(47) == 15
  {
  }

  lemma ThirdAmounts()
    ensures Amount(32) == 3 && Amount(33) == 9 && Amount(34) == 11 && Amount(35) == 15
    ensures Amount(36) == 3 && Amount(37) == 9 && Amount(38) == 11 && Amount(39) == 15
    ensures Amount(40) == 3 && Amount(41) == 9 && Amount(42) == 11 && Amount(43) == 15
    ensures Amount(44) == 3 && Amount(45) == 9 && Amount(46) == 11 && Amount(47) == 15
  {
  }

  lemma WordsRead(s: State, x: seq<Word>, n: nat, t: State)
    requires Reached(s, x, n, t)
    ensures |x| == 16
  {
  }

  lemma NothingReached(s: State, x: seq<Word>)
    requires |x| == 16
    ensures Reached(s, x, 0, s)
  {
  }

  class Md {
    var A: Word
    var B: Word
    var C: Word
    var D: Word
    var totalN: Count

    ghost function Registers(): State
      reads this
    {
      State(A, B, C, D)
    }

    /** The sixteen lines of round 1. */
    static method FirstRound(x: seq<Word>, ghost s: State, a: Word, b: Word, c: Word, d: Word)
      returns (A: Word, B: Word, C: Word, D: Word)
      requires Reached(s, x, 0, State(a, b, c, d))
      ensures Reached(s, x, 16, State(A, B, C, D))
    {
      hide Round1, Round2, Round3, Reached;
      ghost var t := State(a, b, c, d);
      A, B, C, D := a, b, c, d;
      WordsRead(s, x, 0, t);
      A := Round1(A, B, C, D, x[0], 3);
      D := Round1(D, A, B, C, x[1], 7);
      C := Round1(C, D, A, B, x[2], 11);
      B := Round1(B, C, D, A, x[3], 19);
      FourLines(s, x, 0, t, 0, 1, 2, 3, 3, 7, 11, 19, A, B, C, D);
      t := State(A, B, C, D);
      A := Round1(A, B, C, D, x[4], 3);
      D := Round1(D, A, B, C, x[5], 7);
      C := Round1(C, D, A, B, x[6], 11);
      B := Round1(B, C, D, A, x[7], 19);
      FourLines(s, x, 4, t, 4, 5, 6, 7, 3, 7, 11, 19, A, B, C, D);
      t := State(A, B, C, D);
      A := Round1(A, B, C, D, x[8], 3);
      D := Round1(D, A, B, C, x[9], 7);
      C := Round1(C, D, A, B, x[10], 11);
      B := Round1(B, C, D, A, x[11], 19);
      FourLines(s, x, 8, t, 8, 9, 10, 11, 3, 7, 11, 19, A, B, C, D);
      t := State(A, B, C, D);
      A := Round1(A, B, C, D, x[12], 3);
      D := Round1(D, A, B, C, x[13], 7);
      C := Round1(C, D, A, B, x[14], 11);
      B := Round1(B, C, D, A, x[15], 19);
      FourLines(s, x, 12, t, 12, 13, 14, 15, 3, 7, 11, 19, A, B, C, D);
    }

    /** The sixteen lines of round 2. */
    static method SecondRound(x: seq<Word>, ghost s: State, a: Word, b: Word, c: Word, d: Word)
      returns (A: Word, B: Word, C: Word, D: Word)
      requires Reached(s, x, 16, State(a, b, c, d))
      ensures Reached(s, x, 32, State(A, B, C, D))
    {
      hide Round1, Round2, Round3, Reached, Index, Amount;
      SecondTable();
      ghost var t := State(a, b, c, d);
      A, B, C, D := a, b, c, d;
      WordsRead(s, x, 16, t);
      A := Round2(A, B, C, D, x[0], 3);
      D := Round2(D, A, B, C, x[4], 5);
      C := Round2(C, D, A, B, x[8], 9);
      B := Round2(B, C, D, A, x[12], 13);
      FourLines(s, x, 16, t, 0, 4, 8, 12, 3, 5, 9, 13, A, B, C, D);
      t := State(A, B, C, D);
      A := Round2(A, B, C, D, x[1], 3);
      D := Round2(D, A, B, C, x[5], 5);
      C := Round2(C, D, A, B, x[9], 9);
      B := Round2(B, C, D, A, x[13], 13);
      FourLines(s, x, 20, t, 1, 5, 9, 13, 3, 5, 9, 13, A, B, C, D);
      t := State(A, B, C, D);
      A := Round2(A, B, C, D, x[2], 3);
      D := Round2(D, A, B, C, x[6], 5);
      C := Round2(C, D, A, B, x[10], 9);
      B := Round2(B, C, D, A, x[14], 13);
      FourLines(s, x, 24, t, 2, 6, 10, 14, 3, 5, 9, 13, A, B, C, D);
      t := State(A, B, C, D);
      A := Round2(A, B, C, D, x[3], 3);
      D := Round2(D, A, B, C, x[7], 5);
      C := Round2(C, D, A, B, x[11], 9);
      B := Round2(B, C, D, A, x[15], 13);
      FourLines(s, x, 28, t, 3, 7, 11, 15, 3, 5, 9, 13, A, B, C, D);
    }

    /** The sixteen lines of round 3. */
    static method ThirdRound(x: seq<Word>, ghost s: State, a: Word, b: Word, c: Word, d: Word)
      returns (A: Word, B: Word, C: Word, D: Word)
      requires Reached(s, x, 32, State(a, b, c, d))
      ensures Reached(s, x, 48, State(A, B, C, D))
    {
      hide Round1, Round2, Round3, Reached, Index, Amount;
      ThirdTable();
      ghost var t := State(a, b, c, d);
      A, B, C, D := a, b, c, d;
      WordsRead(s, x, 32, t);
      A := Round3(A, B, C, D, x[0], 3);
      D := Round3(D, A, B, C, x[8], 9);
      C := Round3(C, D, A, B, x[4], 11);
      B := Round3(B, C, D, A, x[12], 15);
      FourLines(s, x, 32, t, 0, 8, 4, 12, 3, 9, 11, 15, A, B, C, D);
      t := State(A, B, C, D);
      A := Round3(A, B, C, D, x[2], 3);
      D := Round3(D, A, B, C, x[10], 9);
      C := Round3(C, D, A, B, x[6], 11);
      B := Round3(B, C, D, A, x[14], 15);
      FourLines(s, x, 36, t, 2, 10, 6, 14, 3, 9, 11, 15, A, B, C, D);
      t := State(A, B, C, D);
      A := Round3(A, B, C, D, x[1], 3);
      D := Round3(D, A, B, C, x[9], 9);
      C := Round3(C, D, A, B, x[5], 11);
      B := Round3(B, C, D, A, x[13], 15);
      FourLines(s, x, 40, t, 1, 9, 5, 13, 3, 9, 11, 15, A, B, C, D);
      t := State(A, B, C, D);
      A := Round3(A, B, C, D, x[3], 3);
      D := Round3(D, A, B, C, x[11], 9);
      C := Round3(C, D, A, B, x[7], 11);
      B := Round3(B, C, D, A, x[15], 15);
      FourLines(s, x, 44, t, 3, 11, 7, 15, 3, 9, 11, 15, A, B, C, D);
    }

    /** mdfour64. */
    method Mdfour64(M: array<Word>)
      requires M.Length == 16
      modifies this`A, this`B, this`C, this`D
      ensures Registers() == Compress(old(Registers()), M[..])
    {
      hide Reached, Plus, Steps;
      var x := M[..];
      ghost var s := Registers();
      NothingReached(s, x);
      var a, b, c, d := FirstRound(x, s, A, B, C, D);
      a, b, c, d := SecondRound(x, s, a, b, c, d);
      a, b, c, d := ThirdRound(x, s, a, b, c, d);
      AllSteps(s, x, State(a, b, c, d));
      A, B, C, D := Plus(a, A), Plus(b, B), Plus(c, C), Plus(d, D);
    }

    /** mdfour_begin. */
    method Begin()
      modifies this
      ensures Registers() == INITIAL && totalN == 0
    {
      A, B, C, D := Word(0x67452301), Word(0xefcdab89), Word(0x98badcfe), Word(0x10325476);
      totalN := 0;
    }

    /** mdfour_tail. */
    method TailBlocks(input: seq<Byte>)
      requires |input| < 64
      modifies this
      ensures Registers() == Hashed(old(Registers()), Tail(input, Counted(old(totalN) + |input|)))
    {
      hide Compress, Words, Hashed, Plus, Tail, Long, Counted;
      totalN := Counted(totalN + |input|);
      var b := Counted(totalN * 8);
      var n := |input|;
      var buf := StartTail(input);
      var M := new Word[16](_ => Word(0));
      if n <= 55 {
        Copy4(buf, 56, b);
        TailLayout(buf[..], input, totalN, 56);
        Copy64(M, buf[..64]);
        Mdfour64(M);
        OneBlock(old(Registers()), buf[..64]);
      } else {
        Copy4(buf, 120, b);
        TailLayout(buf[..], input, totalN, 120);
        Copy64(M, buf[..64]);
        Mdfour64(M);
        Copy64(M, buf[64..]);
        Mdfour64(M);
        ghost var tail := buf[..];
        assert tail[..128] == tail && buf[..64] == tail[..64] && buf[64..] == tail[64..];
        TwoBlocks(old(Registers()), tail);
      }
    }

    /** mdfour_update; the padding is the standard one for messages of less than 2^29 bytes. */
    method Update(input: seq<Byte>)
      requires totalN == 0
      modifies this
      ensures Registers() == Hashed(old(Registers()), Message(input))
      ensures |input| < 0x2000_0000 ==> Registers() == Hashed(old(Registers()), Padded(input))
    {
      hide Compress, Words, Hashed, Tail, Padded, Message, Plus, Counted;
      ghost var s := Registers();
      var M := new Word[16](_ => Word(0));
      var i := 0;
      NoBlocks(s);
      assert input[..0] == [];
      while |input| - i >= 64
        invariant 0 <= i <= |input| && i % 64 == 0 && totalN == Counted(i)
        invariant Registers() == Hashed(s, input[..i]) && fresh(M) && M.Length == 16
        decreases |input| - i
      {
        Copy64(M, input[i..i + 64]);
        Mdfour64(M);
        OneMoreBlock(s, input, i);
        CountedSum(i, 64);
        i := i + 64;
        totalN := Counted(totalN + 64);
      }
      CountedSum(i, |input| - i);
      TailBlocks(input[i..]);
      MessageIs(input, i);
      HashedSum(s, input[..i], Tail(input[i..], Counted(|input|)));
    }
  }

  /** The buffer of the tail with the bytes that are left and the end mark. */
  method StartTail(input: seq<Byte>) returns (buf: array<Byte>)
    requires |input| < 64
    ensures fresh(buf) && buf[..] == input + [0x80] + ZeroBytes(127 - |input|)
  {
    buf := new Byte[128](_ => 0);
    for i := 0 to |input|
      invariant buf[..i] == input[..i] && forall j :: i <= j < 128 ==> buf[j] == 0
    {
      buf[i] := input[i];
    }
    buf[|input|] := 0x80;
  }

  lemma TailLayout(buf: seq<Byte>, input: seq<Byte>, total: nat, o: nat)
    requires |input| < 64 && o == if |input| <= 55 then 56 else 120
    requires var start := input + [0x80] + ZeroBytes(127 - |input|);
             buf == start[..o] + Long(Counted(total * 8)) + start[o + 4..]
    ensures |buf| == 128 && buf[..o + 8] == Tail(input, total)
  {
    hide Long;
    var start := input + [0x80] + ZeroBytes(127 - |input|);
    assert start[..o] == input + [0x80] + ZeroBytes(o - 1 - |input|);
    assert start[o + 4..][..4] == ZeroBytes(4);
  }

  lemma NoBlocks(s: State)
    ensures Hashed(s, []) == s && Counted(0) == 0
  {
  }

  lemma OneMoreBlock(s: State, input: seq<Byte>, i: nat)
    requires i % 64 == 0 && i + 64 <= |input|
    ensures Hashed(s, input[..i + 64]) == Compress(Hashed(s, input[..i]), Words(input[i..i + 64]))
  {
    hide Compress, Words, Hashed;
    assert input[..i + 64] == input[..i] + input[i..i + 64];
    HashedSum(s, input[..i], input[i..i + 64]);
    OneBlock(Hashed(s, input[..i]), input[i..i + 64]);
  }

  lemma AllSteps(s: State, x: seq<Word>, t: State)
    requires Reached(s, x, 48, t)
    ensures |x| == 16 && Compress(s, x) == State(Plus(t.a, s.a), Plus(t.b, s.b), Plus(t.c, s.c), Plus(t.d, s.d))
  {
    hide Plus;
  }

  lemma OneBlock(s: State, b: seq<Byte>)
    requires |b| == 64
    ensures Hashed(s, b) == Compress(s, Words(b))
  {
    hide Compress, Words;
    assert b[..64] == b;
  }

  lemma TwoBlocks(s: State, b: seq<Byte>)
    requires |b| == 128
    ensures Hashed(s, b) == Compress(Compress(s, Words(b[..64])), Words(b[64..]))
  {
    hide Compress, Words, Hashed;
    assert b == b[..64] + b[64..];
    HashedSum(s, b[..64], b[64..]);
    OneBlock(s, b[..64]);
    OneBlock(Compress(s, Words(b[..64])), b[64..]);
  }

  /** copy64. */
  method Copy64(M: array<Word>, input: seq<Byte>)
    requires M.Length == 16 && |input| == 64
    modifies M
    ensures M[..] == Words(input)
  {
    hide GetWord;
    for i := 0 to 16
      invariant forall j :: 0 <= j < i ==> M[j] == GetWord(input[4 * j..4 * j + 4])
    {
      M[i] := GetWord(input[4 * i..4 * i + 4]);
    }
  }

  /** copy4 into a buffer at `o`. */
  method Copy4(out: array<Byte>, o: nat, x: Count)
    requires o + 4 <= out.Length
    modifies out
    ensures out[..] == old(out[..o]) + Long(x) + old(out[o + 4..])
  {
    out[o] := x % 0x100;
    out[o + 1] := x / 0x100 % 0x100;
    out[o + 2] := x / 0x1_0000 % 0x100;
    out[o + 3] := x / 0x100_0000 % 0x100;
    assert Long(x) == [x % 0x100, x / 0x100 % 0x100, x / 0x1_0000 % 0x100, x / 0x100_0000 % 0x100];
  }

  /** mdfour_result. */
  method Result(md: Md) returns (out: seq<Byte>)
    ensures out == Digest(md.Registers())
  {
    hide Long, Number;
    var buf := new Byte[16](_ => 0);
    Copy4(buf, 0, Value(md.A));
    Copy4(buf, 4, Value(md.B));
    Copy4(buf, 8, Value(md.C));
    Copy4(buf, 12, Value(md.D));
    out := buf[..];
  }

  /** mdfour: the digest of section 3.5, the standard one for every message of less than 2^29 bytes. */
  method Checksum(input: seq<Byte>) returns (out: seq<Byte>)
    ensures out == Digest(Hashed(INITIAL, Message(input)))
    ensures |input| < 0x2000_0000 ==> out == Digest(Hashed(INITIAL, Padded(input)))
    ensures input == [] ==>
              out == [0x31, 0xd6, 0xcf, 0xe0, 0xd1, 0x6a, 0xe9, 0x31, 0xb7, 0x3c, 0x59, 0xd7, 0xe0, 0xc0, 0x89, 0xc0]
  {
    hide Hashed, Padded, Message, Digest;
    var md := new Md;
    md.Begin();
    md.Update(input);
    out := Result(md);
    EmptyDigest();
  }

  // ---------- The empty message ----------

  /** The only block of the empty message. */
  function EmptyBlock(): (x: seq<Word>)
    ensures |x| == 16 && x[0] == Word(0x80) && forall i :: 0 < i < 16 ==> x[i] == Word(0)
  {
    seq(16, i => if i == 0 then Word(0x80) else Word(0))
  }

  lemma FirstWord(i: nat)
    requires i < 48
    ensures Index(i) == 0 <==> i % 16 == 0
  {
  }

  /** The word that step `i` takes, and what it mixes. */
  function EmptyWord(i: nat): bv32 {
    if i % 16 == 0 then 0x80 else 0
  }

  function EmptyMix(i: nat, b: bv32, c: bv32, d: bv32): bv32 {
    if i < 16 then Select(b, c, d)
    else if i < 32 then Sum(Majority(b, c, d), 0x5A827999)
    else Sum(Parity(b, c, d), 0x6ED9EBA1)
  }

  predicate EmptyAt(i: nat, a: bv32, b: bv32, c: bv32, d: bv32) {
    i <= 48 && Steps(INITIAL, EmptyBlock(), i) == State(Word(a), Word(b), Word(c), Word(d))
  }

  lemma MixOf(i: nat, b: bv32, c: bv32, d: bv32)
    ensures Mix(i, Word(b), Word(c), Word(d)) == Word(EmptyMix(i, b, c, d))
  {
    hide Select, Majority, Parity, Sum;
  }

  lemma EmptyStep(i: nat, a: bv32, b: bv32, c: bv32, d: bv32, s: bv32, v: bv32)
    requires i < 48 && EmptyAt(i, a, b, c, d)
    requires 0 < s < 32 && s == Amount(i) as bv32
    requires v == Turn(Sum(Sum(a, EmptyMix(i, b, c, d)), EmptyWord(i)), s)
    ensures EmptyAt(i + 1, d, v, b, c)
  {
    hide Mix, Turn, Sum, Index, Amount, Steps, EmptyMix;
    FirstWord(i);
    MixOf(i, b, c, d);
    StepsMore(INITIAL, EmptyBlock(), i);
  }

  lemma EmptySteps8()
    ensures EmptyAt(8, 0x34b4e040, 0xf5ef256b, 0x6c2bc1c2, 0x704dd255)
  {
    hide EmptyAt;
    EmptyStart();
    EmptyStep(0, 0x67452301, 0xefcdab89, 0x98badcfe, 0x10325476, 3, 0x000003f8);
    EmptyStep(1, 0x10325476, 0x000003f8, 0xefcdab89, 0x98badcfe, 7, 0x769a0254);
    EmptyStep(2, 0x98badcfe, 0x769a0254, 0x000003f8, 0xefcdab89, 11, 0x0446b910);
    EmptyStep(3, 0xefcdab89, 0x0446b910, 0x769a0254, 0x000003f8, 19, 0x740f9e7d);
    EmptyStep(4, 0x000003f8, 0x740f9e7d, 0x0446b910, 0x769a0254, 3, 0x34b4e040);
    EmptyStep(5, 0x769a0254, 0x34b4e040, 0x740f9e7d, 0x0446b910, 7, 0x704dd255);
    EmptyStep(6, 0x0446b910, 0x704dd255, 0x34b4e040, 0x740f9e7d, 11, 0x6c2bc1c2);
    EmptyStep(7, 0x740f9e7d, 0x6c2bc1c2, 0x704dd255, 0x34b4e040, 19, 0xf5ef256b);
  }

  lemma EmptySteps16()
    ensures EmptyAt(16, 0xaddcb303, 0x3665f296, 0x8ee8f245, 0xa483a664)
  {
    hide EmptyAt;
    EmptySteps8();
    EmptyStep(8, 0x34b4e040, 0xf5ef256b, 0x6c2bc1c2, 0x704dd255, 3, 0xc7059cb4);
    EmptyStep(9, 0x704dd255, 0xc7059cb4, 0xf5ef256b, 0x6c2bc1c2, 7, 0xbe8bdbae);
    EmptyStep(10, 0x6c2bc1c2, 0xbe8bdbae, 0xc7059cb4, 0xf5ef256b, 11, 0x8bf5399c);
    EmptyStep(11, 0xf5ef256b, 0x8bf5399c, 0xbe8bdbae, 0xc7059cb4, 19, 0x18be2386);
    EmptyStep(12, 0xc7059cb4, 0x18be2386, 0x8bf5399c, 0xbe8bdbae, 3, 0xaddcb303);
    EmptyStep(13, 0xbe8bdbae, 0xaddcb303, 0x18be2386, 0x8bf5399c, 7, 0xa483a664);
    EmptyStep(14, 0x8bf5399c, 0xa483a664, 0xaddcb303, 0x18be2386, 11, 0x8ee8f245);
    EmptyStep(15, 0x18be2386, 0x8ee8f245, 0xa483a664, 0xaddcb303, 19, 0x3665f296);
  }

  lemma EmptySteps24()
    ensures EmptyAt(24, 0x0bb1e72c, 0x3d0db9ec, 0x9e4a14b3, 0x6410a1c2)
  {
    hide EmptyAt;
    EmptySteps16();
    EmptyStep(16, 0xaddcb303, 0x3665f296, 0x8ee8f245, 0xa483a664, 3, 0x7a08fb05);
    EmptyStep(17, 0xa483a664, 0x7a08fb05, 0x3665f296, 0x8ee8f245, 5, 0xade24047);
    EmptyStep(18, 0x8ee8f245, 0xade24047, 0x7a08fb05, 0x3665f296, 9, 0x98bbca4f);
    EmptyStep(19, 0x3665f296, 0x98bbca4f, 0xade24047, 0x7a08fb05, 13, 0x66cec932);
    EmptyStep(20, 0x7a08fb05, 0x66cec932, 0x98bbca4f, 0xade24047, 3, 0x0bb1e72c);
    EmptyStep(21, 0xade24047, 0x0bb1e72c, 0x66cec932, 0x98bbca4f, 5, 0x6410a1c2);
    EmptyStep(22, 0x98bbca4f, 0x6410a1c2, 0x0bb1e72c, 0x66cec932, 9, 0x9e4a14b3);
    EmptyStep(23, 0x66cec932, 0x9e4a14b3, 0x6410a1c2, 0x0bb1e72c, 13, 0x3d0db9ec);
  }

  lemma EmptySteps32()
    ensures EmptyAt(32, 0x374891bf, 0x6f952b2e, 0xb49a4dae, 0x0a15c329)
  {
    hide EmptyAt;
    EmptySteps24();
    EmptyStep(24, 0x0bb1e72c, 0x3d0db9ec, 0x9e4a14b3, 0x6410a1c2, 3, 0x11e8953d);
    EmptyStep(25, 0x6410a1c2, 0x11e8953d, 0x3d0db9ec, 0x9e4a14b3, 5, 0x7b76231b);
    EmptyStep(26, 0x9e4a14b3, 0x7b76231b, 0x11e8953d, 0x3d0db9ec, 9, 0x727f1264);
    EmptyStep(27, 0x3d0db9ec, 0x727f1264, 0x7b76231b, 0x11e8953d, 13, 0xc8d84161);
    EmptyStep(28, 0x11e8953d, 0xc8d84161, 0x727f1264, 0x7b76231b, 3, 0x374891bf);
    EmptyStep(29, 0x7b76231b, 0x374891bf, 0xc8d84161, 0x727f1264, 5, 0x0a15c329);
    EmptyStep(30, 0x727f1264, 0x0a15c329, 0x374891bf, 0xc8d84161, 9, 0xb49a4dae);
    EmptyStep(31, 0xc8d84161, 0xb49a4dae, 0x0a15c329, 0x374891bf, 13, 0x6f952b2e);
  }

  lemma EmptySteps40()
    ensures EmptyAt(40, 0x36aace9e, 0xb8b9000f, 0x6f678dca, 0x31984c40)
  {
    hide EmptyAt;
    EmptySteps32();
    EmptyStep(32, 0x374891bf, 0x6f952b2e, 0xb49a4dae, 0x0a15c329, 3, 0xb9e91c4b);
    EmptyStep(33, 0x0a15c329, 0xb9e91c4b, 0x6f952b2e, 0xb49a4dae, 9, 0xac532bb7);
    EmptyStep(34, 0xb49a4dae, 0xac532bb7, 0xb9e91c4b, 0x6f952b2e, 11, 0x1ab10ced);
    EmptyStep(35, 0x6f952b2e, 0x1ab10ced, 0xac532bb7, 0xb9e91c4b, 15, 0x28f076bd);
    EmptyStep(36, 0xb9e91c4b, 0x28f076bd, 0x1ab10ced, 0xac532bb7, 3, 0x36aace9e);
    EmptyStep(37, 0xac532bb7, 0x36aace9e, 0x28f076bd, 0x1ab10ced, 9, 0x31984c40);
    EmptyStep(38, 0x1ab10ced, 0x31984c40, 0x36aace9e, 0x28f076bd, 11, 0x6f678dca);
    EmptyStep(39, 0x28f076bd, 0x6f678dca, 0x31984c40, 0x36aace9e, 15, 0xb8b9000f);
  }

  lemma EmptySteps48()
    ensures EmptyAt(48, 0x798ab330, 0x421bbf48, 0x3e9e5fb9, 0xb0576c6a)
  {
    hide EmptyAt;
    EmptySteps40();
    EmptyStep(40, 0x36aace9e, 0xb8b9000f, 0x6f678dca, 0x31984c40, 3, 0x5e5bde24);
    EmptyStep(41, 0x31984c40, 0x5e5bde24, 0xb8b9000f, 0x6f678dca, 9, 0xef178453);
    EmptyStep(42, 0x6f678dca, 0xef178453, 0x5e5bde24, 0xb8b9000f, 11, 0xb69f1f41);
    EmptyStep(43, 0xb8b9000f, 0xb69f1f41, 0xef178453, 0x5e5bde24, 15, 0x187317b3);
    EmptyStep(44, 0x5e5bde24, 0x187317b3, 0xb69f1f41, 0xef178453, 3, 0x798ab330);
    EmptyStep(45, 0xef178453, 0x798ab330, 0x187317b3, 0xb69f1f41, 9, 0xb0576c6a);
    EmptyStep(46, 0xb69f1f41, 0xb0576c6a, 0x798ab330, 0x187317b3, 11, 0x3e9e5fb9);
    EmptyStep(47, 0x187317b3, 0x3e9e5fb9, 0xb0576c6a, 0x798ab330, 15, 0x421bbf48);
  }

  lemma EmptyStart()
    ensures EmptyAt(0, 0x67452301, 0xefcdab89, 0x98badcfe, 0x10325476)
  {
  }

  lemma EmptyWords()
    ensures |Padded([])| == 64 && Words(Padded([])) == EmptyBlock()
  {
    hide GetWord, Long;
    var s := Padded([]);
    LongOfZero();
    assert s == [0x80] + ZeroBytes(63);
    ZeroWord();
    forall i | 0 <= i < 16
      ensures Words(s)[i] == EmptyBlock()[i]
    {
      assert s[4 * i..4 * i + 4] == if i == 0 then [0x80, 0, 0, 0] else [0, 0, 0, 0];
    }
  }

  lemma ZeroWord()
    ensures GetWord([0, 0, 0, 0]) == Word(0) && GetWord([0x80, 0, 0, 0]) == Word(0x80)
  {
  }

  lemma EmptySums()
    ensures Compress(INITIAL, EmptyBlock())
            == State(Word(0xe0cfd631), Word(0x31e96ad1), Word(0xd7593cb7), Word(0xc089c0e0))
  {
    EmptySteps48();
    hide Steps;
  }

  lemma FinalNumbers()
    ensures Number(0xe0cfd631) == 0xe0cfd631 && Number(0x31e96ad1) == 0x31e96ad1
    ensures Number(0xd7593cb7) == 0xd7593cb7 && Number(0xc089c0e0) == 0xc089c0e0
  {
  }

  lemma FinalBytes()
    ensures Digest(State(Word(0xe0cfd631), Word(0x31e96ad1), Word(0xd7593cb7), Word(0xc089c0e0)))
            == [0x31, 0xd6, 0xcf, 0xe0, 0xd1, 0x6a, 0xe9, 0x31, 0xb7, 0x3c, 0x59, 0xd7, 0xe0, 0xc0, 0x89, 0xc0]
  {
    hide Number, Long;
    FinalNumbers();
    FirstLongs();
  }

  lemma FirstLongs()
    ensures Long(0xe0cfd631) == [0x31, 0xd6, 0xcf, 0xe0] && Long(0x31e96ad1) == [0xd1, 0x6a, 0xe9, 0x31]
    ensures Long(0xd7593cb7) == [0xb7, 0x3c, 0x59, 0xd7] && Long(0xc089c0e0) == [0xe0, 0xc0, 0x89, 0xc0]
  {
  }

  /** The digest of the empty message is the one of section A.5. */
  lemma EmptyDigest()
    ensures Digest(Hashed(INITIAL, Padded([])))
            == [0x31, 0xd6, 0xcf, 0xe0, 0xd1, 0x6a, 0xe9, 0x31, 0xb7, 0x3c, 0x59, 0xd7, 0xe0, 0xc0, 0x89, 0xc0]
  {
    hide Compress, Words, Hashed, Padded, Digest;
    EmptyWords();
    OneBlock(INITIAL, Padded([]));
    EmptySums();
    FinalBytes();
  }
}
