/** Words and amounts of a signed order (crates/execution/src/signing.rs): the in-place decimal to
    uint256 parser, and the rounding of an order to base units. */
module Signing {
  import opened Money
  import opened Octets
  import opened Products

  function Pow256(n: nat): nat {
    if n == 0 then 1 else 256 * Pow256(n - 1)
  }

  /** The value of bytes read big-endian. */
  function BigEndian(s: seq<Byte>): nat {
    if s == [] then 0 else s[0] * Pow256(|s| - 1) + BigEndian(s[1..])
  }

  predicate IsDigit(c: Byte) {
    48 <= c <= 57
  }

  predicate AllDigits(s: seq<Byte>) {
    forall i :: 0 <= i < |s| ==> IsDigit(s[i])
  }

  function DecimalValue(s: seq<Byte>): nat
    requires AllDigits(s)
  {
    if s == [] then 0 else DecimalValue(s[..|s| - 1]) * 10 + (s[|s| - 1] - 48)
  }

  /** The character of a digit. */
  function DigitText(d: nat): Byte
    requires d < 10
  {
    "0123456789"[d] as int
  }

  /** A number written in decimal, as 0 or without leading zeros. */
  function DecimalText(n: nat): seq<Byte> {
    (if n < 10 then [] else DecimalText(n / 10)) + [DigitText(n % 10)]
  }

  lemma DigitsAreInOrder(d: nat)
    requires d < 10
    ensures IsDigit(DigitText(d)) && DigitText(d) == 48 + d
  {
  }

  /** The digits are the ten characters. */
  lemma DigitsAreTheTen(c: Byte)
    ensures IsDigit(c) <==> exists d: nat :: d < 10 && DigitText(d) == c
  {
    hide DigitText;
    if IsDigit(c) {
      DigitsAreInOrder(c - 48);
    }
    forall d: nat | d < 10
      ensures IsDigit(DigitText(d))
    {
      DigitsAreInOrder(d);
    }
  }

  /** Every number written in decimal is read as itself. */
  lemma {:induction false} DecimalTextIsRead(n: nat)
    ensures AllDigits(DecimalText(n)) && DecimalValue(DecimalText(n)) == n
  {
    hide DigitText, IsDigit;
    var t := DecimalText(n);
    var before := if n < 10 then [] else DecimalText(n / 10);
    DigitsAreInOrder(n % 10);
    if n >= 10 {
      DecimalTextIsRead(n / 10);
    }
    assert t == before + [DigitText(n % 10)];
    assert t[..|t| - 1] == before;
    assert DecimalValue(t) == DecimalValue(before) * 10 + n % 10;
  }

  lemma {:induction false} BigEndianBound(s: seq<Byte>)
    ensures BigEndian(s) < Pow256(|s|)
  {
    if s != [] {
      BigEndianBound(s[1..]);
      Scale(s[0], 255, Pow256(|s| - 1));
    }
  }

  lemma Scale(a: nat, b: nat, p: nat)
    requires a <= b
    ensures a * p <= b * p && (a < b ==> a * p + p <= b * p)
  {
    assert b * p == a * p + (b - a) * p;
    if a < b {
      assert (b - a) * p == p + (b - a - 1) * p;
    }
  }

  /** 256^32 is 2^256. */
  lemma WordModulus()
    ensures Pow256(32) == 0x1_0000000000000000_0000000000000000_0000000000000000_0000000000000000
  {
    assert Pow256(4) == 0x1_00000000;
    assert Pow256(8) == 0x1_00000000_00000000;
    assert Pow256(12) == 0x1_00000000_00000000_00000000;
    assert Pow256(16) == 0x1_00000000_00000000_00000000_00000000;
    assert Pow256(20) == 0x1_00000000_00000000_00000000_00000000_00000000;
    assert Pow256(24) == 0x1_00000000_00000000_00000000_00000000_00000000_00000000;
    assert Pow256(28) == 0x1_00000000_00000000_00000000_00000000_00000000_00000000_00000000;
  }

  /** One column of the schoolbook step: the byte written and the carry out account for the byte
      read and the carry in. */
  lemma Column(a: nat, b: nat, carryIn: nat, carryOut: nat, p: nat, low: nat, lowBefore: nat, d: nat)
    requires b + 256 * carryOut == a * 10 + carryIn
    requires low + carryIn * p == lowBefore * 10 + d
    ensures b * p + low + carryOut * (256 * p) == (a * p + lowBefore) * 10 + d
  {
    calc {
      b * p + low + carryOut * (256 * p);
      (b + 256 * carryOut) * p + low;
      (a * 10 + carryIn) * p + low;
      a * p * 10 + carryIn * p + low;
    }
  }

  /** acc = acc * 10 + d over the whole word, least significant byte first; the carry out is what
      does not fit. */
  method TimesTenPlus(acc: array<Byte>, d: nat) returns (carry: nat)
    requires acc.Length == 32 && d < 10
    modifies acc
    ensures carry < 10
    ensures BigEndian(acc[..]) + carry * Pow256(32) == BigEndian(old(acc[..])) * 10 + d
  {
    ghost var before := acc[..];
    carry := d;
    var i := 32;
    assert acc[32..] == [] && before[32..] == [];
    while i > 0
      invariant 0 <= i <= 32 && carry < 10
      invariant acc[..i] == before[..i]
      invariant BigEndian(acc[i..]) + carry * Pow256(32 - i) == BigEndian(before[i..]) * 10 + d
    {
      i := i - 1;
      ghost var low := acc[i + 1..];
      assert acc[i] == acc[..i + 1][i] == before[i];
      var v := acc[i] * 10 + carry;
      Column(before[i], v % 256, carry, v / 256, Pow256(31 - i), BigEndian(low), BigEndian(before[i + 1..]), d);
      acc[i] := v % 256;
      carry := v / 256;
      assert acc[i..] == [v % 256] + low;
      assert before[i..][1..] == before[i + 1..];
      assert acc[..i] == acc[..i + 1][..i] == before[..i];
    }
    assert acc[0..] == acc[..] && before[0..] == before;
  }

  /** Succeeds exactly on digit strings below 2^256. The 32 bytes then read back as the value, and no
      other 32 bytes do: two strings parse to the same word exactly when they have the same value. */
  method WordFromDecimalString(s: seq<Byte>) returns (r: Option<seq<Byte>>)
    ensures r.Some? <==> AllDigits(s) && DecimalValue(s) < Pow256(32)
    ensures r.Some? ==> |r.value| == 32 && BigEndian(r.value) == DecimalValue(s)
    ensures r.Some? ==> forall w: seq<Byte> :: |w| == 32 && BigEndian(w) == DecimalValue(s) ==> w == r.value
  {
    hide BigEndian, Pow256;
    var acc := new Byte[32](_ => 0);
    ZeroWord(acc[..]);
    for i := 0 to |s|
      invariant acc.Length == 32 && AllDigits(s[..i])
      invariant BigEndian(acc[..]) == DecimalValue(s[..i])
    {
      if !IsDigit(s[i]) {
        return None;
      }
      assert s[..i + 1][..i] == s[..i];
      var carry := TimesTenPlus(acc, s[i] - 48);
      if carry != 0 {
        CarryMeansTooLarge(BigEndian(acc[..]), carry, DecimalValue(s[..i + 1]));
        if AllDigits(s) {
          PrefixIsSmaller(s, i + 1);
        }
        return None;
      }
    }
    assert s[..|s|] == s;
    BigEndianBound(acc[..]);
    WordIsDetermined(acc[..]);
    r := Some(acc[..]);
  }

  lemma CarryMeansTooLarge(low: nat, carry: nat, value: nat)
    requires carry >= 1 && low + carry * Pow256(32) == value
    ensures value >= Pow256(32)
  {
    Scale(1, carry, Pow256(32));
  }

  lemma {:induction false} ZeroWord(s: seq<Byte>)
    requires forall i :: 0 <= i < |s| ==> s[i] == 0
    ensures BigEndian(s) == 0
  {
    if s != [] {
      ZeroWord(s[1..]);
    }
  }

  lemma {:induction false} PrefixIsSmaller(s: seq<Byte>, i: nat)
    requires AllDigits(s) && i <= |s|
    ensures DecimalValue(s[..i]) <= DecimalValue(s)
  {
    if i == |s| {
      assert s[..i] == s;
    } else {
      var n := |s| - 1;
      assert s[..n][..i] == s[..i];
      PrefixIsSmaller(s[..n], i);
    }
  }

  /** A word is determined by its value. */
  lemma WordIsDetermined(w: seq<Byte>)
    ensures forall v: seq<Byte> :: |v| == |w| && BigEndian(v) == BigEndian(w) ==> v == w
  {
    forall v: seq<Byte> | |v| == |w| && BigEndian(v) == BigEndian(w)
      ensures v == w
    {
      BigEndianIsInjective(v, w);
    }
  }

  /** Two words read big-endian to the same value only if they are the same word. */
  lemma {:induction false} BigEndianIsInjective(a: seq<Byte>, b: seq<Byte>)
    requires |a| == |b| && BigEndian(a) == BigEndian(b)
    ensures a == b
  {
    if a != [] {
      BigEndianBound(a[1..]);
      BigEndianBound(b[1..]);
      LeadingByteDecides(a[0], b[0], BigEndian(a[1..]), BigEndian(b[1..]), Pow256(|a| - 1));
      BigEndianIsInjective(a[1..], b[1..]);
    }
  }

  lemma LeadingByteDecides(x: nat, y: nat, low: nat, low': nat, p: nat)
    requires low < p && low' < p && x * p + low == y * p + low'
    ensures x == y && low == low'
  {
    if x < y {
      Scale(x, y, p);
    } else if y < x {
      Scale(y, x, p);
    }
  }

  // ----- base units

  const U128_LIMIT := 0x1_0000000000000000_0000000000000000

  /** Maker gives, taker receives, both in whole base units. */
  datatype Amounts = Amounts(maker: nat, taker: nat)

  function ScaledDown(d: real, scale: nat): int {
    Times(d, scale as real).Floor
  }

  function ScaledUp(d: real, scale: nat): int {
    Ceil(Times(d, scale as real))
  }

  function ToBase(d: real, scale: nat, roundUp: bool): Option<nat> {
    var r := if roundUp then ScaledUp(d, scale) else ScaledDown(d, scale);
    if 0 <= r < U128_LIMIT then Some(r) else None
  }

  /** A buy gives dollars and asks for tokens, both rounded down; a sell gives tokens rounded down
      and asks for dollars rounded up. An amount that rounds to zero or does not fit is refused. */
  function FromRequest(side: Side, qty: Qty, price: Price, scale: nat): Option<Amounts> {
    var notional := Times(qty, price);
    var maker := ToBase(if side == Buy then notional else qty, scale, false);
    var taker := if side == Buy then ToBase(qty, scale, false) else ToBase(notional, scale, true);
    if maker.None? || taker.None? || maker.value == 0 || taker.value == 0 then None
    else Some(Amounts(maker.value, taker.value))
  }

  lemma ScaledNotional(qty: Qty, price: Price, scale: nat)
    ensures Times(Times(qty, price), scale as real) == Times(Times(qty, scale as real), price)
  {
    hide Times;
    TimesSwap(qty, price, scale as real);
  }

  /** A sell never gives more tokens than intended, never asks for less money than they are worth at
      the limit, and so never implies a price below the limit. */
  lemma SellNeverImpliesWorse(qty: Qty, price: Price, scale: nat)
    ensures match FromRequest(Sell, qty, price, scale)
      case Some(a) =>
        && a.maker as real <= Times(qty, scale as real)
        && a.taker as real >= Times(Times(qty, price), scale as real)
        && a.taker as real >= Times(a.maker as real, price)
      case None => true
  {
    hide Times;
    ScaledNotional(qty, price, scale);
    TimesMonotone(ScaledDown(qty, scale) as real, Times(qty, scale as real), price);
  }

  /** A buy never offers more money than intended, and its implied price exceeds the limit by less
      than one base unit in total. */
  lemma BuyOverpaysLessThanOneUnit(qty: Qty, price: Price, scale: nat)
    ensures match FromRequest(Buy, qty, price, scale)
      case Some(a) =>
        && a.maker as real <= Times(Times(qty, price), scale as real)
        && a.maker as real < Times(a.taker as real, price) + 1.0
      case None => true
  {
    hide Times;
    ScaledNotional(qty, price, scale);
    var shares := Times(qty, scale as real);
    var whole := shares.Floor as real;
    TimesMonotone(shares, whole + 1.0, price);
    TimesPlus(price, whole, 1.0);
    TimesZero(price);
  }

  /** Rounding moves neither amount by a base unit: both of a buy's and the tokens of a sell go down, the
      money a sell asks for goes up. */
  lemma AmountsAreNearest(side: Side, qty: Qty, price: Price, scale: nat)
    ensures var tokens, money := Times(qty, scale as real), Times(Times(qty, price), scale as real);
      match FromRequest(side, qty, price, scale)
      case Some(a) =>
        if side == Buy then
          a.taker as real <= tokens < (a.taker + 1) as real && a.maker as real <= money < (a.maker + 1) as real
        else
          a.maker as real <= tokens < (a.maker + 1) as real && (a.taker - 1) as real < money <= a.taker as real
      case None => true
  {
    hide Times;
  }

  /** An order is accepted exactly when it is worth at least one base unit of what is rounded down, more
      than nothing of what is rounded up, and both amounts fit in 128 bits. */
  lemma AcceptedExactlyWhenItFits(side: Side, qty: Qty, price: Price, scale: nat)
    ensures var tokens, money := Times(qty, scale as real), Times(Times(qty, price), scale as real);
      FromRequest(side, qty, price, scale).Some? <==>
        && 1.0 <= tokens < U128_LIMIT as real
        && if side == Buy then 1.0 <= money < U128_LIMIT as real else 0.0 < money <= (U128_LIMIT - 1) as real
  {
    hide Times;
  }

  /** A buy, if it is accepted at all, implies a price no worse than the limit. */
  predicate BuyRespectsLimit(qty: Qty, price: Price, scale: nat) {
    match FromRequest(Buy, qty, price, scale)
    case Some(a) => a.maker as real <= Times(a.taker as real, price)
    case None => true
  }

  /** An accepted buy keeps within its limit exactly when dropping the fraction of a base unit of
      tokens does not lower the whole number of base units of money they cost. */
  lemma BuyRespectsLimitExactly(qty: Qty, price: Price, scale: nat)
    ensures var shares := Times(qty, scale as real);
      FromRequest(Buy, qty, price, scale).Some? ==>
        (BuyRespectsLimit(qty, price, scale) <==>
           Times(shares, price).Floor == Times(shares.Floor as real, price).Floor)
  {
    hide Times;
    ScaledNotional(qty, price, scale);
    var shares := Times(qty, scale as real);
    TimesMonotone(shares.Floor as real, shares, price);
  }

  /** A buy keeps within every limit exactly when it is for a whole number of base units, or for an
      amount that is refused at any limit: less than one base unit, or too many to represent. */
  lemma BuyRespectsEveryLimitExactlyWhenWhole(qty: Qty, scale: nat)
    ensures var shares := Times(qty, scale as real);
      (forall price: Price :: BuyRespectsLimit(qty, price, scale)) <==>
        shares == shares.Floor as real || shares < 1.0 || shares >= U128_LIMIT as real
  {
    hide Times, Quot;
    var shares := Times(qty, scale as real);
    TimesSign(qty, scale as real);
    forall price: Price
      ensures BuyRespectsLimit(qty, price, scale) ||
        !(shares == shares.Floor as real || shares < 1.0 || shares >= U128_LIMIT as real)
    {
      BuyRespectsLimitExactly(qty, price, scale);
    }
    if shares != shares.Floor as real && 1.0 < shares < U128_LIMIT as real {
      QuotTimes(1.0, shares);
      QuotBetween(1.0, shares, 0.0, 1.0);
      TimesZero(shares);
      var price: Price := Quot(1.0, shares);
      ScaledNotional(qty, price, scale);
      TimesMonotone(shares.Floor as real, shares, price);
      assert FromRequest(Buy, qty, price, scale) == Some(Amounts(1, shares.Floor));
      assert !BuyRespectsLimit(qty, price, scale);
    }
  }

  /** A buy at six decimals that offers 900001 base units of money for 1000001 of tokens at 0.90. */
  lemma ABuyCanImplyAWorsePrice()
    ensures FromRequest(Buy, 1.0000019, 0.9, 1000000) == Some(Amounts(900001, 1000001))
    ensures !BuyRespectsLimit(1.0000019, 0.9, 1000000)
  {
    assert Times(1.0000019, 0.9) == 0.90000171;
    assert Times(0.90000171, 1000000.0) == 900001.71;
    assert Times(1.0000019, 1000000.0) == 1000001.9;
  }
}
