/** Fee selection, caps and replacement bumps of the transaction manager. */
module Fees {
  import opened Options
  import opened Words

  datatype FeeMode = Eip1559 | LegacyOnly

  /** The price fields of an unsigned transaction, in wei. */
  datatype Fees = Dynamic(tip: int, cap: int) | Legacy(price: int)

  /** Signing limits; None disables a dimension. */
  datatype FeeCaps = FeeCaps(maxFeePerGas: Option<int>, maxTipPerGas: Option<int>, maxTotalCost: Option<int>)

  /** What the node answers while a transaction is built; None is a failed call. */
  datatype FeeQuote = FeeQuote(
    gasEstimate: Option<U64>,
    header: Option<Option<nat>>, // the head's BaseFee, itself absent before EIP-1559
    tip: Option<nat>,
    gasPrice: Option<nat>)

  datatype Priced = Priced(gas: U64, fees: Fees)

  const GAS_BUFFER_PERCENT: U64 := 20
  const MIN_REPLACEMENT_PERCENT: int := 10

  predicate WithinCap(limit: Option<int>, amount: int) {
    limit.None? || amount <= limit.value
  }

  predicate CheckFeeCaps(caps: FeeCaps, perGas: int, gas: U64, value: int) {
    && WithinCap(caps.maxFeePerGas, perGas)
    && WithinCap(caps.maxTotalCost, perGas * gas + value)
  }

  /** The whole promise of FeeCaps about one signed transaction. */
  predicate RespectsCaps(caps: FeeCaps, p: Priced, value: int) {
    match p.fees
    case Dynamic(tip, cap) => WithinCap(caps.maxTipPerGas, tip) && CheckFeeCaps(caps, cap, p.gas, value)
    case Legacy(price) => CheckFeeCaps(caps, price, p.gas, value)
  }

  /** EIP-1559 demands a fee cap at least as high as the tip. */
  predicate Coherent(fees: Fees) {
    fees.Dynamic? ==> fees.tip <= fees.cap
  }

  /** RLP has no negative numbers, so such fees cannot be serialized. */
  predicate Encodable(fees: Fees) {
    match fees
    case Dynamic(tip, cap) => 0 <= tip && 0 <= cap
    case Legacy(price) => 0 <= price
  }

  function BufferedGas(estimate: U64): U64 {
    Mul64(estimate, 100 + GAS_BUFFER_PERCENT) / 100
  }

  /** The EIP-1559 or legacy price of a fresh transaction, or None when a call fails or a cap is hit. */
  function BuildTx(mode: FeeMode, caps: FeeCaps, quote: FeeQuote, value: int): (r: Option<Priced>)
    ensures r.Some? ==> RespectsCaps(caps, r.value, value) && Coherent(r.value.fees) && Encodable(r.value.fees)
    ensures r.Some? && mode.LegacyOnly? ==> r.value.fees.Legacy?
    ensures r.Some? && r.value.fees.Dynamic? ==>
      && quote.tip == Some(r.value.fees.tip) && quote.header.Some? && quote.header.value.Some?
      && r.value.fees.cap - 2 * quote.header.value.value == r.value.fees.tip
  {
    if quote.gasEstimate.None? then None else
    var gas := BufferedGas(quote.gasEstimate.value);
    if mode.Eip1559? && quote.header.None? then None
    else if mode.Eip1559? && quote.header.value.Some? then
      if quote.tip.None? then None else
      var tip := quote.tip.value;
      var cap := quote.header.value.value * 2 + tip;
      if !WithinCap(caps.maxTipPerGas, tip) || !CheckFeeCaps(caps, cap, gas, value) then None
      else Some(Priced(gas, Dynamic(tip, cap)))
    else if quote.gasPrice.None? then None
    else if !CheckFeeCaps(caps, quote.gasPrice.value, gas, value) then None
    else Some(Priced(gas, Legacy(quote.gasPrice.value)))
  }

  /** ceil(v * (100 + pct) / 100), where 100 + pct is an int64 sum and may wrap. */
  function CeilPercent(v: int, pct: int): int {
    (v * WrapInt64(100 + pct) + 99) / 100
  }

  /** The bumped value of one fee field; None is an original of another transaction type. */
  function BumpFeeField(original: Option<nat>, current: nat, pct: int): int {
    var base: nat := if original.Some? && original.value > current then original.value else current;
    var bumped := CeilPercent(base, pct);
    if original.None? then bumped else
    var floor := CeilPercent(original.value, MIN_REPLACEMENT_PERCENT);
    var raised := if bumped < floor then floor else bumped;
    if raised <= original.value then original.value + 1 else raised
  }

  /** `next` strictly exceeds `prior` and clears the ten percent replacement minimum. */
  predicate Outbids(prior: int, next: int) {
    prior < next && 11 * prior <= 10 * next
  }

  /** Every requested percentage, even one whose int64 sum wraps, outbids the original. */
  lemma BumpOutbids(original: nat, current: nat, pct: int)
    ensures Outbids(original, BumpFeeField(Some(original), current, pct))
  {
    var floor := CeilPercent(original, MIN_REPLACEMENT_PERCENT);
    assert WrapInt64(100 + MIN_REPLACEMENT_PERCENT) == 110;
    assert floor == (original * 110 + 99) / 100;
    assert 100 * floor >= original * 110;
  }

  /** `b` outbids `a` in every fee field; says nothing across transaction types. */
  predicate FeesOutbid(a: Fees, b: Fees) {
    match (a, b)
    case (Dynamic(t0, c0), Dynamic(t1, c1)) => Outbids(t0, t1) && Outbids(c0, c1)
    case (Legacy(p0), Legacy(p1)) => Outbids(p0, p1)
    case _ => true
  }

  /** The rebuilt transaction with each field raised over the larger of original and suggestion;
      `orig` is None when the stored payload cannot be decoded. */
  function BuildBumpedTx(mode: FeeMode, caps: FeeCaps, quote: FeeQuote, value: int, pct: int, orig: Option<Fees>): Option<Priced>
    requires orig.Some? ==> Encodable(orig.value)
  {
    var base := BuildTx(mode, caps, quote, value);
    if base.None? then None else
    var fees := match base.value.fees
      case Dynamic(baseTip, baseCap) =>
        var same := orig.Some? && orig.value.Dynamic?;
        var tip := BumpFeeField(if same then Some(orig.value.tip as nat) else None, baseTip, pct);
        var raised := BumpFeeField(if same then Some(orig.value.cap as nat) else None, baseCap, pct);
        Dynamic(tip, if raised < tip then tip else raised)
      case Legacy(basePrice) =>
        var same := orig.Some? && orig.value.Legacy?;
        Legacy(BumpFeeField(if same then Some(orig.value.price as nat) else None, basePrice, pct));
    var bumped := Priced(base.value.gas, fees);
    if RespectsCaps(caps, bumped, value) then Some(bumped) else None
  }

  /** A replacement outbids its original in every field, and keeps the caps and the EIP-1559 shape. */
  lemma BumpedTxPolicy(mode: FeeMode, caps: FeeCaps, quote: FeeQuote, value: int, pct: int, orig: Fees)
    requires Encodable(orig)
    ensures var r := BuildBumpedTx(mode, caps, quote, value, pct, Some(orig));
      r.Some? ==> RespectsCaps(caps, r.value, value) && Coherent(r.value.fees) && FeesOutbid(orig, r.value.fees)
  {
    var base := BuildTx(mode, caps, quote, value);
    if base.Some? {
      match (base.value.fees, orig)
      case (Dynamic(baseTip, baseCap), Dynamic(tip, cap)) =>
        BumpOutbids(tip, baseTip, pct);
        BumpOutbids(cap, baseCap, pct);
      case (Legacy(basePrice), Legacy(price)) =>
        BumpOutbids(price, basePrice, pct);
      case _ =>
    }
  }

  function Pow(base: nat, exp: nat): nat {
    if exp == 0 then 1 else base * Pow(base, exp - 1)
  }

  predicate Escalates(values: seq<int>) {
    forall i :: 0 <= i < |values| - 1 ==> Outbids(values[i], values[i + 1])
  }

  /** k successive bumps compound: value_k * 10^k >= value_0 * 11^k. */
  lemma {:induction false} BumpsCompound(values: seq<int>)
    requires |values| > 0 && values[0] >= 0 && Escalates(values)
    ensures var k := |values| - 1;
      values[k] * Pow(10, k) >= values[0] * Pow(11, k) && values[k] >= values[0] + k
  {
    var k := |values| - 1;
    if k > 0 {
      var rest := values[..k];
      assert Escalates(rest);
      BumpsCompound(rest);
      var prior, ten, eleven := values[k - 1], Pow(10, k - 1), Pow(11, k - 1);
      assert Outbids(values[k - 1], values[k]);
      CompoundStep(values[0], prior, values[k], ten, eleven);
    }
  }

  lemma CompoundStep(first: int, prior: int, next: int, ten: nat, eleven: nat)
    requires prior * ten >= first * eleven && 10 * next >= 11 * prior
    ensures next * (10 * ten) >= first * (11 * eleven)
  {
    calc >= {
      next * (10 * ten);
      (10 * next) * ten;
      { MulMonotone(11 * prior, 10 * next, ten); }
      (11 * prior) * ten;
      11 * (prior * ten);
      11 * (first * eleven);
      first * (11 * eleven);
    }
  }

  lemma MulMonotone(a: int, b: int, c: nat)
    requires a <= b
    ensures a * c <= b * c
  {
  }

  // What a price amounts to

  /** No configured limit lies below the amount. */
  ghost predicate Affords(limit: Option<int>, amount: int) {
    forall l :: limit == Some(l) ==> amount <= l
  }

  /** The gas limit is the estimate and a fifth, rounded down, unless the product exceeds uint64. */
  lemma GasCoversEstimate(estimate: U64)
    requires estimate * 120 < 0x1_0000_0000_0000_0000
    ensures 100 * BufferedGas(estimate) <= 120 * estimate < 100 * BufferedGas(estimate) + 100
  {
  }

  /** A fresh EIP-1559 payload offers the suggested tip in full at a base fee `b` if and only if that is at most twice
      the quoted one; it is refused if and only if an answer is missing or a limit lies below what it may cost. */
  lemma DynamicPriceExactly(caps: FeeCaps, estimate: U64, base: nat, tip: Option<nat>, gasPrice: Option<nat>, value: int, b: int)
    ensures var r := BuildTx(Eip1559, caps, FeeQuote(Some(estimate), Some(Some(base)), tip, gasPrice), value);
      && (r.Some? ==>
            && r.value.fees.Dynamic? && r.value.gas == BufferedGas(estimate) && tip == Some(r.value.fees.tip)
            && (r.value.fees.cap - b >= r.value.fees.tip <==> b <= base + base))
      && (r.Some? <==>
            && tip.Some?
            && Affords(caps.maxTipPerGas, tip.value) && Affords(caps.maxFeePerGas, base + base + tip.value)
            && Affords(caps.maxTotalCost, (base + base + tip.value) * BufferedGas(estimate) + value))
  {
    if tip.Some? {
      assert base * 2 + tip.value == base + base + tip.value;
    }
  }

  /** Without a base fee, or in legacy mode, the payload pays the suggested gas price, refused for the same reasons. */
  lemma LegacyPriceExactly(mode: FeeMode, caps: FeeCaps, estimate: U64, header: Option<Option<nat>>, tip: Option<nat>, gasPrice: Option<nat>, value: int)
    requires mode.LegacyOnly? || header == Some(None)
    ensures var r := BuildTx(mode, caps, FeeQuote(Some(estimate), header, tip, gasPrice), value);
      && (r.Some? ==> r.value.gas == BufferedGas(estimate) && exists p :: gasPrice == Some(p) && r.value.fees == Legacy(p))
      && (r.Some? <==>
            && gasPrice.Some?
            && Affords(caps.maxFeePerGas, gasPrice.value)
            && Affords(caps.maxTotalCost, gasPrice.value * BufferedGas(estimate) + value))
  {
  }

  /** Without a gas estimate or, in EIP-1559 mode, a header there is no payload. */
  lemma UnansweredQuote(mode: FeeMode, caps: FeeCaps, quote: FeeQuote, value: int)
    requires quote.gasEstimate.None? || (mode.Eip1559? && quote.header.None?)
    ensures BuildTx(mode, caps, quote, value).None?
  {
  }

  lemma CeilingIsLeast(v: int, pct: int, w: int)
    requires -0x8000_0000_0000_0000 <= 100 + pct < 0x8000_0000_0000_0000
    ensures 100 * w >= v * (100 + pct) <==> w >= CeilPercent(v, pct)
  {
  }

  /** `w` is an acceptable bump: the percentage over both the original and the current suggestion, ten percent over the
      original, and above it. */
  ghost predicate Acceptable(original: nat, current: nat, pct: int, w: int) {
    && 100 * w >= original * (100 + pct) && 100 * w >= current * (100 + pct)
    && 100 * w >= original * 110 && w > original
  }

  /** `v` is where the numbers that qualify begin. */
  ghost predicate IsLeast(qualifies: int -> bool, v: int) {
    forall w :: qualifies(w) <==> w >= v
  }

  lemma LeastIsUnique(qualifies: int -> bool, v: int, w: int)
    requires IsLeast(qualifies, v) && qualifies(w) && !qualifies(w - 1)
    ensures v == w
  {
  }

  /** A bump by a positive percentage is the least acceptable one. */
  lemma BumpIsLeast(original: nat, current: nat, pct: int, w: int)
    requires 0 < pct && 100 + pct < 0x8000_0000_0000_0000
    ensures Acceptable(original, current, pct, w) <==> w >= BumpFeeField(Some(original), current, pct)
  {
    var base := if original > current then original else current;
    CeilingIsLeast(base, pct, w);
    CeilingIsLeast(original, MIN_REPLACEMENT_PERCENT, w);
    LargerProduct(original, current, 100 + pct, w);
  }

  lemma LargerProduct(a: nat, b: nat, c: nat, w: int)
    ensures 100 * w >= (if a > b then a else b) * c <==> 100 * w >= a * c && 100 * w >= b * c
  {
    if a > b {
      MulMonotone(b, a, c);
    } else {
      MulMonotone(a, b, c);
    }
  }

  /** Without a comparable original a bump is the least value the percentage over the suggestion allows. */
  lemma FreshBumpIsLeast(current: nat, pct: int, w: int)
    requires 0 < pct && 100 + pct < 0x8000_0000_0000_0000
    ensures 100 * w >= current * (100 + pct) <==> w >= BumpFeeField(None, current, pct)
  {
    CeilingIsLeast(current, pct, w);
  }

  /** A replacement of an EIP-1559 payload: the tip is the least acceptable bump over the original's and the suggested
      one, the cap the least over the original's and a fresh one's that is not below the tip; it is refused if and only if
      the fresh price is, or a limit lies below it. */
  lemma BumpedExactly(caps: FeeCaps, estimate: U64, base: nat, tip: nat, value: int, pct: int, origTip: nat, origCap: nat, newTip: int, newCap: int)
    requires 0 < pct && 100 + pct < 0x8000_0000_0000_0000
    requires IsLeast(w => Acceptable(origTip, tip, pct, w), newTip)
    requires IsLeast(w => w >= newTip && Acceptable(origCap, base + base + tip, pct, w), newCap)
    ensures var quote := FeeQuote(Some(estimate), Some(Some(base)), Some(tip), None);
      var r := BuildBumpedTx(Eip1559, caps, quote, value, pct, Some(Dynamic(origTip, origCap)));
      && (r.Some? ==> r.value == Priced(BufferedGas(estimate), Dynamic(newTip, newCap)))
      && (r.Some? <==>
            && BuildTx(Eip1559, caps, quote, value).Some?
            && Affords(caps.maxTipPerGas, newTip) && Affords(caps.maxFeePerGas, newCap)
            && Affords(caps.maxTotalCost, newCap * BufferedGas(estimate) + value))
  {
    var quoted := base + base + tip;
    var t, c := BumpFeeField(Some(origTip), tip, pct), BumpFeeField(Some(origCap), quoted, pct);
    assert base * 2 + tip == quoted;
    BumpIsLeast(origTip, tip, pct, t);
    BumpIsLeast(origTip, tip, pct, t - 1);
    LeastIsUnique(w => Acceptable(origTip, tip, pct, w), newTip, t);
    var raised := if c < t then t else c;
    BumpIsLeast(origCap, quoted, pct, raised);
    BumpIsLeast(origCap, quoted, pct, raised - 1);
    LeastIsUnique(w => w >= newTip && Acceptable(origCap, quoted, pct, w), newCap, raised);
    BumpedValue(caps, FeeQuote(Some(estimate), Some(Some(base)), Some(tip), None), value, pct, origTip, origCap, quoted, t, raised);
    AffordsWithin(caps, newTip, newCap, BufferedGas(estimate), value);
  }

  lemma BumpedValue(caps: FeeCaps, quote: FeeQuote, value: int, pct: int, origTip: nat, origCap: nat, quoted: nat, tip: int, cap: int)
    requires quote.gasEstimate.Some? && quote.header.Some? && quote.header.value.Some? && quote.tip.Some?
    requires quoted == quote.header.value.value * 2 + quote.tip.value
    requires tip == BumpFeeField(Some(origTip), quote.tip.value, pct)
    requires cap == var c := BumpFeeField(Some(origCap), quoted, pct); if c < tip then tip else c
    ensures var p := Priced(BufferedGas(quote.gasEstimate.value), Dynamic(tip, cap));
      BuildBumpedTx(Eip1559, caps, quote, value, pct, Some(Dynamic(origTip, origCap)))
        == if BuildTx(Eip1559, caps, quote, value).Some? && RespectsCaps(caps, p, value) then Some(p) else None
  {
  }

  lemma AffordsWithin(caps: FeeCaps, tip: int, perGas: int, gas: U64, value: int)
    ensures WithinCap(caps.maxTipPerGas, tip) <==> Affords(caps.maxTipPerGas, tip)
    ensures CheckFeeCaps(caps, perGas, gas, value) <==> Affords(caps.maxFeePerGas, perGas) && Affords(caps.maxTotalCost, perGas * gas + value)
  {
  }

  /** The same for a legacy payload. */
  lemma LegacyBumpedExactly(caps: FeeCaps, estimate: U64, header: Option<Option<nat>>, price: nat, value: int, pct: int, original: nat, newPrice: int)
    requires 0 < pct && 100 + pct < 0x8000_0000_0000_0000
    requires IsLeast(w => Acceptable(original, price, pct, w), newPrice)
    ensures var quote := FeeQuote(Some(estimate), header, None, Some(price));
      var r := BuildBumpedTx(LegacyOnly, caps, quote, value, pct, Some(Legacy(original)));
      && (r.Some? ==> r.value == Priced(BufferedGas(estimate), Legacy(newPrice)))
      && (r.Some? <==>
            && BuildTx(LegacyOnly, caps, quote, value).Some?
            && Affords(caps.maxFeePerGas, newPrice) && Affords(caps.maxTotalCost, newPrice * BufferedGas(estimate) + value))
  {
    var p := BumpFeeField(Some(original), price, pct);
    BumpIsLeast(original, price, pct, p);
    BumpIsLeast(original, price, pct, p - 1);
    LeastIsUnique(w => Acceptable(original, price, pct, w), newPrice, p);
    AffordsWithin(caps, 0, newPrice, BufferedGas(estimate), value);
  }

  /** An original that does not decode, or of the other transaction type, counts for nothing. */
  lemma OtherTypeIgnored(mode: FeeMode, caps: FeeCaps, quote: FeeQuote, value: int, pct: int, orig: Option<Fees>)
    requires orig.Some? ==> Encodable(orig.value)
    requires var base := BuildTx(mode, caps, quote, value); base.Some? && (orig.Some? ==> orig.value.Dynamic? != base.value.fees.Dynamic?)
    ensures BuildBumpedTx(mode, caps, quote, value, pct, orig) == BuildBumpedTx(mode, caps, quote, value, pct, None)
  {
  }

  /** Then each field is the least the percentage over the fresh price allows. */
  lemma FreshBumpedExactly(caps: FeeCaps, estimate: U64, base: nat, tip: nat, value: int, pct: int, newTip: int, newCap: int)
    requires 0 < pct && 100 + pct < 0x8000_0000_0000_0000
    requires IsLeast(w => 100 * w >= tip * (100 + pct), newTip)
    requires IsLeast(w => 100 * w >= (base + base + tip) * (100 + pct), newCap)
    ensures var r := BuildBumpedTx(Eip1559, caps, FeeQuote(Some(estimate), Some(Some(base)), Some(tip), None), value, pct, None);
      r.Some? ==> r.value == Priced(BufferedGas(estimate), Dynamic(newTip, if newCap < newTip then newTip else newCap))
  {
    var quoted := base + base + tip;
    var t, c := BumpFeeField(None, tip, pct), BumpFeeField(None, quoted, pct);
    assert base * 2 + tip == quoted;
    FreshBumpIsLeast(tip, pct, t);
    FreshBumpIsLeast(tip, pct, t - 1);
    LeastIsUnique(w => 100 * w >= tip * (100 + pct), newTip, t);
    FreshBumpIsLeast(quoted, pct, c);
    FreshBumpIsLeast(quoted, pct, c - 1);
    LeastIsUnique(w => 100 * w >= quoted * (100 + pct), newCap, c);
  }

  /** Without limits a Replace never lacks a price that a Submit would have. */
  lemma UncappedBump(mode: FeeMode, quote: FeeQuote, value: int, pct: int, orig: Option<Fees>)
    requires orig.Some? ==> Encodable(orig.value)
    ensures var none := FeeCaps(None, None, None);
      BuildBumpedTx(mode, none, quote, value, pct, orig).Some? <==> BuildTx(mode, none, quote, value).Some?
  {
  }
}
