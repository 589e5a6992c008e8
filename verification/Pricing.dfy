/**
 The charge for one AI request and its settlement in the wallet's currency, over exact reals.
 */
module Pricing {
  import opened Common

  datatype FailedMode = FailedNever | FailedProviderCostOnly | FailedMinimumFee
  datatype UserKeyMode = UserKeyNever | UserKeyPlatformFeeOnly | UserKeyFullPrice
  datatype KeySource = PlatformKey | UserKey
  datatype RequestStatus = Success | Error | QuotaExceeded
  datatype PricingSource = FromProvider | Estimated

  datatype Policy = Policy(
    enabled: bool, markupPercent: real, minimumFeeUsd: real, roundingUsd: real, maxChargeUsd: Option<real>,
    chargeFailedRequests: FailedMode, chargeUserKeyRequests: UserKeyMode, displayEstimatedPriceToUser: bool)

  datatype Reason = PricingDisabled | ZeroCharge

  datatype Breakdown = Breakdown(
    providerCostUsd: real, platformFeeUsd: real, chargedCostUsd: real, pricingSource: PricingSource,
    policySnapshot: Policy, chargeable: bool, reason: Option<Reason>)

  // ---------------------------------------------------------------- rounding

  function MaxReal(a: real, b: real): real {
    if a >= b then a else b
  }

  function MinReal(a: real, b: real): real {
    if a <= b then a else b
  }

  /** Halves go up, for negative numbers too. */
  function Round(x: real): int {
    (x + 0.5).Floor
  }

  function Ceil(x: real): (c: int)
    ensures x <= c as real < x + 1.0
  {
    -((-x).Floor)
  }

  function RoundToIncrement(value: real, increment: real): real {
    if increment <= 0.0 then value else Round(value / increment) as real * increment
  }

  // ---------------------------------------------------------------- the amount before rounding

  function PercentOf(amount: real, percent: real): real {
    amount * percent / 100.0
  }

  function Fee(policy: Policy, provider: real): real {
    MaxReal(PercentOf(provider, policy.markupPercent), MaxReal(0.0, policy.minimumFeeUsd))
  }

  /** What a request costs by its mode: a failed one by the failure mode alone, whatever the key. */
  function ModeAmount(policy: Policy, provider: real, keySource: KeySource, status: RequestStatus): real {
    if status != Success then
      match policy.chargeFailedRequests
      case FailedNever => 0.0
      case FailedProviderCostOnly => provider
      case FailedMinimumFee => MaxReal(0.0, policy.minimumFeeUsd)
    else if keySource == PlatformKey then provider + Fee(policy, provider)
    else
      match policy.chargeUserKeyRequests
      case UserKeyNever => 0.0
      case UserKeyPlatformFeeOnly => Fee(policy, provider)
      case UserKeyFullPrice => provider + Fee(policy, provider)
  }

  function Capped(policy: Policy, amount: real): real {
    if policy.maxChargeUsd.Some? then MinReal(amount, policy.maxChargeUsd.value) else amount
  }

  function Amount(policy: Policy, providerCostUsd: real, keySource: KeySource, status: RequestStatus): real {
    Capped(policy, ModeAmount(policy, MaxReal(0.0, providerCostUsd), keySource, status))
  }

  function Charge(policy: Policy, providerCostUsd: real, keySource: KeySource, status: RequestStatus): real {
    if policy.enabled
    then MaxReal(0.0, RoundToIncrement(Amount(policy, providerCostUsd, keySource, status), policy.roundingUsd))
    else 0.0
  }

  method AmountBeforeRounding(policy: Policy, providerCostUsd: real, minimumFee: real, platformFeeUsd: real,
                              keySource: KeySource, status: RequestStatus)
    returns (chargedCostUsd: real)
    requires providerCostUsd >= 0.0 && minimumFee == MaxReal(0.0, policy.minimumFeeUsd)
    requires platformFeeUsd == Fee(policy, providerCostUsd)
    ensures chargedCostUsd == Amount(policy, providerCostUsd, keySource, status)
  {
    chargedCostUsd := providerCostUsd + platformFeeUsd;

    if keySource == UserKey {
      if policy.chargeUserKeyRequests == UserKeyNever {
        chargedCostUsd := 0.0;
      }
      if policy.chargeUserKeyRequests == UserKeyPlatformFeeOnly {
        chargedCostUsd := platformFeeUsd;
      }
      if policy.chargeUserKeyRequests == UserKeyFullPrice {
        chargedCostUsd := providerCostUsd + platformFeeUsd;
      }
    }

    if status != Success {
      if policy.chargeFailedRequests == FailedNever {
        chargedCostUsd := 0.0;
      } else if policy.chargeFailedRequests == FailedProviderCostOnly {
        chargedCostUsd := if providerCostUsd > 0.0 then providerCostUsd else 0.0;
      } else if policy.chargeFailedRequests == FailedMinimumFee {
        chargedCostUsd := minimumFee;
      }
    }

    if policy.maxChargeUsd.Some? {
      chargedCostUsd := MinReal(chargedCostUsd, policy.maxChargeUsd.value);
    }
  }

  method CalculateWithPolicy(policy: Policy, providerCost: real, pricingSource: PricingSource,
                             keySource: KeySource, status: RequestStatus)
    returns (b: Breakdown)
    ensures b.chargedCostUsd == Charge(policy, providerCost, keySource, status)
    ensures b.chargeable <==> b.chargedCostUsd > 0.0
    ensures b.reason == if !policy.enabled then Some(PricingDisabled)
                        else if b.chargeable then None else Some(ZeroCharge)
    ensures b.providerCostUsd == RoundToIncrement(MaxReal(0.0, providerCost), policy.roundingUsd)
    ensures b.platformFeeUsd == RoundToIncrement(Fee(policy, MaxReal(0.0, providerCost)), policy.roundingUsd)
    ensures b.pricingSource == pricingSource && b.policySnapshot == policy
  {
    var providerCostUsd := MaxReal(0.0, providerCost);
    var minimumFee := MaxReal(0.0, policy.minimumFeeUsd);
    var platformFeeUsd := MaxReal(PercentOf(providerCostUsd, policy.markupPercent), minimumFee);
    var chargedCostUsd := AmountBeforeRounding(policy, providerCostUsd, minimumFee, platformFeeUsd, keySource, status);

    var roundedCharged := RoundToIncrement(chargedCostUsd, policy.roundingUsd);
    var roundedProvider := RoundToIncrement(providerCostUsd, policy.roundingUsd);
    var roundedFee := RoundToIncrement(platformFeeUsd, policy.roundingUsd);

    if !policy.enabled {
      return Breakdown(roundedProvider, roundedFee, 0.0, pricingSource, policy, false, Some(PricingDisabled));
    }
    if roundedCharged <= 0.0 {
      return Breakdown(roundedProvider, roundedFee, 0.0, pricingSource, policy, false, Some(ZeroCharge));
    }
    return Breakdown(roundedProvider, roundedFee, roundedCharged, pricingSource, policy, true, None);
  }

  // ---------------------------------------------------------------- the charge, case by case

  /**
   The exact charge, before cap and rounding. The fee is the markup's share of the provider cost, at least the minimum
   fee and at least nothing. A success costs the provider's price and the fee, on the user's own key only as far as the
   mode says; a failure costs nothing, the provider's price or the minimum fee.
   */
  lemma ExactCharge(policy: Policy, cost: real, keySource: KeySource, status: RequestStatus)
    requires policy.enabled && policy.roundingUsd <= 0.0 && policy.maxChargeUsd == None
    ensures var charge := Charge(policy, cost, keySource, status);
            var provider := if cost > 0.0 then cost else 0.0;
            var least := if policy.minimumFeeUsd > 0.0 then policy.minimumFeeUsd else 0.0;
            var share := provider * policy.markupPercent / 100.0;
            var fee := if share > least then share else least;
            && (status == Success && keySource == PlatformKey ==> charge == provider + fee)
            && (status == Success && keySource == UserKey ==>
                  && (policy.chargeUserKeyRequests == UserKeyFullPrice ==> charge == provider + fee)
                  && (policy.chargeUserKeyRequests == UserKeyPlatformFeeOnly ==> charge == fee)
                  && (policy.chargeUserKeyRequests == UserKeyNever ==> charge == 0.0))
            && (status != Success ==>
                  && (policy.chargeFailedRequests == FailedNever ==> charge == 0.0)
                  && (policy.chargeFailedRequests == FailedProviderCostOnly ==> charge == provider)
                  && (policy.chargeFailedRequests == FailedMinimumFee ==> charge == least))
  {
    FeeMonotone(policy, policy, MaxReal(0.0, cost), MaxReal(0.0, cost));
  }

  /** The policy without cap and rounding. */
  function Uncapped(policy: Policy): Policy {
    policy.(roundingUsd := 0.0, maxChargeUsd := None)
  }

  /**
   How cap and rounding change the exact charge: the smaller of it and the cap, then the multiple k of the increment
   whose half-open interval of one increment holds that, and never less than nothing.
   */
  lemma CapThenRounding(policy: Policy, cost: real, keySource: KeySource, status: RequestStatus)
    requires policy.enabled
    ensures var charge, exact := Charge(policy, cost, keySource, status), Charge(Uncapped(policy), cost, keySource, status);
            var r := policy.roundingUsd;
            var cap := policy.maxChargeUsd;
            var due := if cap.Some? && cap.value < exact then cap.value else exact;
            && (r <= 0.0 ==> charge == if due > 0.0 then due else 0.0)
            && (r > 0.0 ==> exists k: int :: && charge == (if k > 0 then Times(k, r) else 0.0)
                                             && Times(k, r) - r / 2.0 <= due < Times(k, r) + r / 2.0)
  {
    ExactIsModeAmount(policy, cost, keySource, status);
    if policy.roundingUsd > 0.0 {
      NearestMultiple(Amount(policy, cost, keySource, status), policy.roundingUsd);
    }
  }

  lemma ExactIsModeAmount(policy: Policy, cost: real, keySource: KeySource, status: RequestStatus)
    requires policy.enabled
    ensures Charge(Uncapped(policy), cost, keySource, status) == ModeAmount(policy, MaxReal(0.0, cost), keySource, status)
    ensures Amount(policy, cost, keySource, status)
         == Capped(policy, ModeAmount(policy, MaxReal(0.0, cost), keySource, status))
  {
    FeeMonotone(policy, policy, MaxReal(0.0, cost), MaxReal(0.0, cost));
  }

  lemma NearestMultiple(due: real, r: real)
    requires r > 0.0
    ensures exists k: int :: && MaxReal(0.0, RoundToIncrement(due, r)) == (if k > 0 then Times(k, r) else 0.0)
                             && Times(k, r) - r / 2.0 <= due < Times(k, r) + r / 2.0
  {
    RoundingIsNear(due, r);
    var k := Round(due / r);
    assert RoundToIncrement(due, r) == Times(k, r);
    SignOfMultiple(k, r);
  }

  lemma SignOfMultiple(k: int, r: real)
    requires r > 0.0
    ensures Times(k, r) > 0.0 <==> k > 0
  {
    if k > 0 {
      ScaleMonotone(1.0, k as real, r);
    } else {
      ScaleMonotone(k as real, 0.0, r);
    }
  }

  /** A full price is the same on both keys; the fee alone is the price less the provider cost; a failure ignores the key. */
  lemma KeyRelations(policy: Policy, cost: real, status: RequestStatus)
    ensures policy.chargeUserKeyRequests == UserKeyFullPrice ==>
              Charge(policy, cost, UserKey, status) == Charge(policy, cost, PlatformKey, status)
    ensures policy.enabled && policy.chargeUserKeyRequests == UserKeyPlatformFeeOnly ==>
              Charge(Uncapped(policy), cost, UserKey, Success)
              == Charge(Uncapped(policy), cost, PlatformKey, Success) - (if cost > 0.0 then cost else 0.0)
    ensures status != Success ==> Charge(policy, cost, UserKey, status) == Charge(policy, cost, PlatformKey, status)
    ensures Charge(policy, cost, UserKey, Error) == Charge(policy, cost, UserKey, QuotaExceeded)
    ensures !policy.enabled ==> forall keySource :: Charge(policy, cost, keySource, status) == 0.0
  {
    ExactCharge(Uncapped(policy).(enabled := true), cost, UserKey, Success);
    ExactCharge(Uncapped(policy).(enabled := true), cost, PlatformKey, Success);
  }

  // ---------------------------------------------------------------- override and settlement

  datatype BillingOverride = BillingOverride(feeExempt: bool, markupPercent: Option<real>)

  function EffectivePolicy(policy: Policy, override: Option<BillingOverride>): Policy {
    match override
    case None => policy
    case Some(o) =>
      if o.feeExempt then policy.(markupPercent := 0.0, minimumFeeUsd := 0.0)
      else if o.markupPercent.Some? then policy.(markupPercent := o.markupPercent.value)
      else policy
  }

  /** An exemption takes away the whole fee, an override sets the markup, and neither changes anything else. */
  lemma OverrideMeaning(policy: Policy, override: BillingOverride, cost: real)
    requires cost >= 0.0
    ensures var p := EffectivePolicy(policy, Some(override));
            && SameButFees(p, policy)
            && (override.feeExempt ==> Fee(p, cost) == 0.0)
            && (!override.feeExempt ==>
                  && p.minimumFeeUsd == policy.minimumFeeUsd
                  && Fee(p, cost) == MaxReal(PercentOf(cost, override.markupPercent.UnwrapOr(policy.markupPercent)),
                                             MaxReal(0.0, policy.minimumFeeUsd)))
  {
  }

  datatype SettleError = UnsupportedCurrency(currency: string) | InsufficientBalance

  /** `configuredRate` is the environment's rate when it reads as a finite number. */
  function UsdToRubRate(configuredRate: Option<real>): (rate: real)
    ensures rate > 0.0
    ensures configuredRate == Some(rate) || (rate == 90.0 && !(configuredRate.Some? && configuredRate.value > 0.0))
  {
    if configuredRate.Some? && configuredRate.value > 0.0 then configuredRate.value else 90.0
  }

  /** Minor units of the wallet's currency for one dollar; None for a currency that is not billed. */
  function MinorPerUsd(currency: string, configuredRate: Option<real>): (f: Option<real>)
    ensures f.Some? ==> f.value > 0.0
  {
    if currency == "RUB" then Some(UsdToRubRate(configuredRate) * 100.0)
    else if currency == "USD" then Some(100.0)
    else None
  }

  /** Kopecks at the configured rate if that is positive, else at 90 roubles; cents; and nothing else. */
  lemma CurrencyMeaning(currency: string, rate: real)
    ensures MinorPerUsd("RUB", Some(rate)) == Some(if rate > 0.0 then rate * 100.0 else 9000.0)
    ensures MinorPerUsd("RUB", None) == Some(9000.0)
    ensures forall configuredRate :: MinorPerUsd("USD", configuredRate) == Some(100.0)
    ensures forall configuredRate :: MinorPerUsd(currency, configuredRate) == None <==> currency != "RUB" && currency != "USD"
  {
    assert "RUB"[0] == 'R' && "USD"[0] == 'U';
  }

  function ConvertUsdToWalletMinor(usdAmount: real, currency: string, configuredRate: Option<real>)
    : Result<int, SettleError>
  {
    if usdAmount <= 0.0 then Ok(0)
    else if currency == "RUB" then Ok(Ceil(usdAmount * UsdToRubRate(configuredRate) * 100.0))
    else if currency == "USD" then Ok(Ceil(usdAmount * 100.0))
    else Err(UnsupportedCurrency(currency))
  }

  /** The debit in minor units for a charge; a charge of nothing never looks at the wallet. */
  function Settle(charge: real, currency: string, balance: int, configuredRate: Option<real>): Result<int, SettleError> {
    if charge <= 0.0 then Ok(0)
    else
      var minor :- ConvertUsdToWalletMinor(charge, currency, configuredRate);
      if minor > 0 && balance < minor then Err(InsufficientBalance) else Ok(minor)
  }

  // ---------------------------------------------------------------- monotonicity

  lemma ScaleMonotone(x: real, y: real, k: real)
    requires x <= y && k >= 0.0
    ensures x * k <= y * k
  {
  }

  lemma DivideMonotone(x: real, y: real, r: real)
    requires x <= y && r > 0.0
    ensures x / r <= y / r
  {
    assert y / r - x / r == (y - x) / r;
  }

  lemma RoundingMonotone(x: real, y: real, increment: real)
    requires x <= y
    ensures RoundToIncrement(x, increment) <= RoundToIncrement(y, increment)
  {
    if increment > 0.0 {
      DivideMonotone(x, y, increment);
      assert Round(x / increment) <= Round(y / increment);
      ScaleMonotone(Round(x / increment) as real, Round(y / increment) as real, increment);
    }
  }

  /** Everything but the two fees is the same. */
  predicate SameButFees(p: Policy, q: Policy) {
    p.(markupPercent := 0.0, minimumFeeUsd := 0.0) == q.(markupPercent := 0.0, minimumFeeUsd := 0.0)
  }

  /** `q` asks for no less than `p` in markup and in minimum fee. */
  predicate NoCheaper(p: Policy, q: Policy) {
    SameButFees(p, q) && p.markupPercent <= q.markupPercent && p.minimumFeeUsd <= q.minimumFeeUsd
  }

  lemma FeeMonotone(p: Policy, q: Policy, cost: real, higher: real)
    requires 0.0 <= cost <= higher
    requires p.markupPercent <= q.markupPercent || (p.markupPercent <= 0.0 && p.minimumFeeUsd <= 0.0)
    requires p.minimumFeeUsd <= q.minimumFeeUsd || p.minimumFeeUsd <= 0.0
    ensures 0.0 <= Fee(p, cost) <= Fee(q, higher)
  {
    if p.markupPercent <= 0.0 {
      assert cost * p.markupPercent <= 0.0;
    } else {
      ScaleMonotone(cost, higher, p.markupPercent);
      ScaleMonotone(p.markupPercent, q.markupPercent, higher);
      assert cost * p.markupPercent <= higher * q.markupPercent;
    }
  }

  lemma ChargeFollowsFee(p: Policy, q: Policy, cost: real, higher: real, keySource: KeySource, status: RequestStatus)
    requires SameButFees(p, q) && cost <= higher
    requires MaxReal(0.0, p.minimumFeeUsd) <= MaxReal(0.0, q.minimumFeeUsd)
    requires Fee(p, MaxReal(0.0, cost)) <= Fee(q, MaxReal(0.0, higher))
    ensures Charge(p, cost, keySource, status) <= Charge(q, higher, keySource, status)
  {
    SharedFields(p, q);
    RoundingMonotone(Amount(p, cost, keySource, status), Amount(q, higher, keySource, status), p.roundingUsd);
  }

  lemma SharedFields(p: Policy, q: Policy)
    requires SameButFees(p, q)
    ensures p.enabled == q.enabled && p.roundingUsd == q.roundingUsd && p.maxChargeUsd == q.maxChargeUsd
    ensures p.chargeFailedRequests == q.chargeFailedRequests && p.chargeUserKeyRequests == q.chargeUserKeyRequests
  {
    var p0, q0 := p.(markupPercent := 0.0, minimumFeeUsd := 0.0), q.(markupPercent := 0.0, minimumFeeUsd := 0.0);
    assert p0.enabled == q0.enabled && p0.roundingUsd == q0.roundingUsd && p0.maxChargeUsd == q0.maxChargeUsd;
    assert p0.chargeFailedRequests == q0.chargeFailedRequests && p0.chargeUserKeyRequests == q0.chargeUserKeyRequests;
  }

  /**
   The charge never falls when provider cost, markup or minimum fee rise, for every key source, status
   and mode, through cap and rounding. The markup may be negative: the fee never is.
   */
  lemma ChargeIsMonotone(p: Policy, q: Policy, cost: real, higher: real, keySource: KeySource, status: RequestStatus)
    requires NoCheaper(p, q) && cost <= higher
    ensures Charge(p, cost, keySource, status) <= Charge(q, higher, keySource, status)
  {
    FeeMonotone(p, q, MaxReal(0.0, cost), MaxReal(0.0, higher));
    ChargeFollowsFee(p, q, cost, higher, keySource, status);
  }

  /** A smaller charge settles wherever a larger one does, and for no more. */
  lemma SettleIsMonotone(charge: real, higher: real, currency: string, balance: int, configuredRate: Option<real>)
    requires charge <= higher && Settle(higher, currency, balance, configuredRate).Ok?
    ensures Settle(charge, currency, balance, configuredRate).Ok?
    ensures Settle(charge, currency, balance, configuredRate).value
         <= Settle(higher, currency, balance, configuredRate).value
  {
    ConversionIsMonotone(charge, higher, currency, configuredRate);
  }

  lemma ConversionIsMonotone(usd: real, higher: real, currency: string, configuredRate: Option<real>)
    requires usd <= higher && ConvertUsdToWalletMinor(higher, currency, configuredRate).Ok?
    ensures ConvertUsdToWalletMinor(usd, currency, configuredRate).Ok?
    ensures 0 <= ConvertUsdToWalletMinor(usd, currency, configuredRate).value
              <= ConvertUsdToWalletMinor(higher, currency, configuredRate).value
  {
    var rate := UsdToRubRate(configuredRate);
    ScaledCeilIsMonotone(usd, higher, rate);
    CeilIsMonotone(usd * 100.0, higher * 100.0);
    if currency == "RUB" {
      assert higher > 0.0 ==> ConvertUsdToWalletMinor(higher, currency, configuredRate).value == Ceil(higher * rate * 100.0);
      assert usd > 0.0 ==> ConvertUsdToWalletMinor(usd, currency, configuredRate).value == Ceil(usd * rate * 100.0);
    }
  }

  lemma CeilIsMonotone(x: real, y: real)
    requires x <= y
    ensures Ceil(x) <= Ceil(y)
    ensures x > 0.0 ==> Ceil(x) > 0
    ensures y > 0.0 ==> Ceil(y) > 0
  {
  }

  lemma ScaledCeilIsMonotone(x: real, y: real, k: real)
    requires x <= y && k > 0.0
    ensures Ceil(x * k * 100.0) <= Ceil(y * k * 100.0)
    ensures x > 0.0 ==> Ceil(x * k * 100.0) > 0
    ensures y > 0.0 ==> Ceil(y * k * 100.0) > 0
  {
    ScaleMonotone(x, y, k);
    CeilIsMonotone(x * k * 100.0, y * k * 100.0);
  }

  function Debit(policy: Policy, cost: real, keySource: KeySource, status: RequestStatus,
                 currency: string, balance: int, configuredRate: Option<real>): Result<int, SettleError>
  {
    Settle(Charge(policy, cost, keySource, status), currency, balance, configuredRate)
  }

  /** An override that exempts from the fees, or that does not raise the markup. */
  predicate Lenient(override: BillingOverride, policy: Policy) {
    override.feeExempt || (override.markupPercent.Some? ==> override.markupPercent.value <= policy.markupPercent)
  }

  /** A lenient override never raises the debit and never makes a settlement fail, in any currency. */
  lemma LenientOverrideNeverRaises(policy: Policy, override: BillingOverride, cost: real, keySource: KeySource,
                                   status: RequestStatus, currency: string, balance: int, configuredRate: Option<real>)
    requires Lenient(override, policy)
    requires Debit(policy, cost, keySource, status, currency, balance, configuredRate).Ok?
    ensures var lenient := Debit(EffectivePolicy(policy, Some(override)), cost, keySource, status,
                                 currency, balance, configuredRate);
            lenient.Ok? && lenient.value <= Debit(policy, cost, keySource, status, currency, balance, configuredRate).value
  {
    var p := EffectivePolicy(policy, Some(override));
    FeeMonotone(p, policy, MaxReal(0.0, cost), MaxReal(0.0, cost));
    ChargeFollowsFee(p, policy, cost, cost, keySource, status);
    SettleIsMonotone(Charge(p, cost, keySource, status), Charge(policy, cost, keySource, status),
                     currency, balance, configuredRate);
  }

  // ---------------------------------------------------------------- the range of a charge

  function Times(k: int, r: real): real {
    k as real * r
  }

  ghost predicate IsMultiple(x: real, r: real) {
    exists k :: x == Times(k, r)
  }

  lemma RoundingIsNear(x: real, r: real)
    requires r > 0.0
    ensures IsMultiple(RoundToIncrement(x, r), r)
    ensures x - r / 2.0 < RoundToIncrement(x, r) <= x + r / 2.0
  {
    var k := Round(x / r);
    assert RoundToIncrement(x, r) == Times(k, r);
    assert x / r - 0.5 < k as real <= x / r + 0.5;
    NearQuotient(x, x / r, k as real - x / r, r);
    assert x / r + (k as real - x / r) == k as real;
  }

  lemma StrictScale(x: real, y: real, k: real)
    requires x < y && k > 0.0
    ensures x * k < y * k
  {
  }

  lemma Distribute(a: real, b: real, r: real)
    ensures (a + b) * r == a * r + b * r
  {
  }

  /** Scaling an offset of at most one half gives an offset of at most half the increment. */
  lemma NearQuotient(x: real, quotient: real, off: real, r: real)
    requires r > 0.0 && x == quotient * r && -0.5 < off <= 0.5
    ensures x - r / 2.0 < (quotient + off) * r <= x + r / 2.0
  {
    assert off * r <= 0.5 * r;
    assert (off + 0.5) * r > 0.0;
    assert (off + 0.5) * r == off * r + 0.5 * r;
    Distribute(quotient, off, r);
  }

  lemma MultipleIsKept(m: real, r: real)
    requires r > 0.0 && IsMultiple(m, r)
    ensures RoundToIncrement(m, r) == m
  {
    var k :| m == Times(k, r);
    assert m / r == k as real;
  }

  lemma PositiveIff(x: real, r: real)
    requires r > 0.0
    ensures RoundToIncrement(x, r) > 0.0 <==> x >= r / 2.0
  {
    var k := Round(x / r);
    if x >= r / 2.0 {
      DivideMonotone(r / 2.0, x, r);
      assert r / 2.0 / r == 0.5;
      assert k >= 1;
      ScaleMonotone(1.0, k as real, r);
    } else {
      StrictScale(x, r / 2.0, 1.0 / r);
      assert x / r == x * (1.0 / r);
      assert r / 2.0 * (1.0 / r) == 0.5;
      assert k <= 0;
      ScaleMonotone(k as real, 0.0, r);
    }
  }

  lemma AmountIsNonNegative(policy: Policy, cost: real, keySource: KeySource, status: RequestStatus)
    requires policy.maxChargeUsd.Some? ==> policy.maxChargeUsd.value >= 0.0
    ensures Amount(policy, cost, keySource, status) >= 0.0
  {
    FeeMonotone(policy, policy, MaxReal(0.0, cost), MaxReal(0.0, cost));
  }

  /**
   With a positive increment and a cap that is not negative: the charge is a multiple of the increment,
   within half an increment of the exact amount, at most half an increment above the cap, and at most the
   cap when that is itself a multiple. It is positive exactly from half an increment on.
   */
  lemma ChargeRange(policy: Policy, cost: real, keySource: KeySource, status: RequestStatus)
    requires policy.enabled && policy.roundingUsd > 0.0
    requires policy.maxChargeUsd.Some? ==> policy.maxChargeUsd.value >= 0.0
    ensures var r, charge, amount := policy.roundingUsd, Charge(policy, cost, keySource, status),
                                     Amount(policy, cost, keySource, status);
            && charge >= 0.0 && IsMultiple(charge, r)
            && amount - r / 2.0 < charge <= amount + r / 2.0
            && (charge > 0.0 <==> amount >= r / 2.0)
            && (policy.maxChargeUsd.Some? ==>
                  && charge <= policy.maxChargeUsd.value + r / 2.0
                  && (IsMultiple(policy.maxChargeUsd.value, r) ==> charge <= policy.maxChargeUsd.value))
  {
    var r, amount := policy.roundingUsd, Amount(policy, cost, keySource, status);
    AmountIsNonNegative(policy, cost, keySource, status);
    RoundingIsNear(amount, r);
    PositiveIff(amount, r);
    NothingIsAMultiple(r);
    RoundingMonotone(0.0, amount, r);
    MultipleIsKept(0.0, r);
    if policy.maxChargeUsd.Some? {
      RoundingMonotone(amount, policy.maxChargeUsd.value, r);
      if IsMultiple(policy.maxChargeUsd.value, r) {
        MultipleIsKept(policy.maxChargeUsd.value, r);
      }
    }
  }

  lemma NothingIsAMultiple(r: real)
    ensures IsMultiple(0.0, r)
  {
    assert 0.0 == Times(0, r);
  }

  /**
   The exact condition for a charge above the cap m: m itself rounds up, and the amount rounds to the
   same multiple as m.
   */
  lemma ChargePassesCapIff(policy: Policy, cost: real, keySource: KeySource, status: RequestStatus)
    requires policy.enabled && policy.roundingUsd > 0.0
    requires policy.maxChargeUsd.Some? && policy.maxChargeUsd.value >= 0.0
    ensures var r, m := policy.roundingUsd, policy.maxChargeUsd.value;
            Charge(policy, cost, keySource, status) > m <==>
              && RoundToIncrement(m, r) > m
              && Round(Amount(policy, cost, keySource, status) / r) == Round(m / r)
  {
    RoundsAboveIff(Amount(policy, cost, keySource, status), policy.maxChargeUsd.value, policy.roundingUsd);
  }

  lemma RoundsAboveIff(amount: real, m: real, r: real)
    requires r > 0.0 && amount <= m && m >= 0.0
    ensures RoundToIncrement(amount, r) > m <==> RoundToIncrement(m, r) > m && Round(amount / r) == Round(m / r)
  {
    DivideMonotone(amount, m, r);
    RoundingMonotone(amount, m, r);
    RoundingIsNear(m, r);
    var k, cap := Round(amount / r), Round(m / r);
    assert RoundToIncrement(amount, r) == Times(k, r) && RoundToIncrement(m, r) == Times(cap, r);
    if k < cap {
      OneStepBelow(k, cap, m, r);
    }
  }

  lemma OneStepBelow(k: int, cap: int, m: real, r: real)
    requires r > 0.0 && k < cap && Times(cap, r) <= m + r / 2.0
    ensures Times(k, r) <= m
  {
    ScaleMonotone(k as real, cap as real - 1.0, r);
    Distribute(cap as real, -1.0, r);
  }

  /** So a policy keeps every charge under its cap exactly when the cap does not round up. */
  lemma PolicyKeepsCapIff(policy: Policy)
    requires policy.enabled && policy.roundingUsd > 0.0
    requires policy.maxChargeUsd.Some? && policy.maxChargeUsd.value >= 0.0
    ensures (forall cost, keySource, status :: Charge(policy, cost, keySource, status) <= policy.maxChargeUsd.value)
       <==> RoundToIncrement(policy.maxChargeUsd.value, policy.roundingUsd) <= policy.maxChargeUsd.value
  {
    var m := policy.maxChargeUsd.value;
    if RoundToIncrement(m, policy.roundingUsd) <= m {
      forall cost, keySource, status
        ensures Charge(policy, cost, keySource, status) <= m
      {
        ChargePassesCapIff(policy, cost, keySource, status);
      }
    } else {
      FeeMonotone(policy, policy, m, m);
      assert Amount(policy, m, PlatformKey, Success) == m;
      ChargePassesCapIff(policy, m, PlatformKey, Success);
      assert Charge(policy, m, PlatformKey, Success) > m;
    }
  }

  /** The cap can be exceeded by rounding: with increment 1, a charge capped at 0.6 rounds to 1. */
  lemma RoundingCanPassTheCap()
    ensures var policy := Policy(true, 0.0, 0.0, 1.0, Some(0.6), FailedNever, UserKeyNever, false);
            Charge(policy, 5.0, PlatformKey, Success) == 1.0
  {
    var policy := Policy(true, 0.0, 0.0, 1.0, Some(0.6), FailedNever, UserKeyNever, false);
    assert Amount(policy, 5.0, PlatformKey, Success) == 0.6;
    assert Round(0.6 / 1.0) == 1;
  }

  /** A settled debit covers the exact amount and overshoots it by less than one minor unit. */
  lemma DebitCoversCharge(charge: real, currency: string, balance: int, configuredRate: Option<real>)
    requires charge >= 0.0 && Settle(charge, currency, balance, configuredRate).Ok?
    requires MinorPerUsd(currency, configuredRate).Some?
    ensures var debit := Settle(charge, currency, balance, configuredRate).value;
            var exact := charge * MinorPerUsd(currency, configuredRate).value;
            && exact <= debit as real < exact + 1.0
            && (debit > 0 <==> charge > 0.0)
            && (debit > 0 ==> debit <= balance)
  {
    var perUsd := MinorPerUsd(currency, configuredRate).value;
    if charge > 0.0 {
      StrictScale(0.0, charge, perUsd);
      assert charge * UsdToRubRate(configuredRate) * 100.0 == charge * (UsdToRubRate(configuredRate) * 100.0);
    }
  }

  /** A settlement fails exactly for a positive charge in a foreign currency or above the balance. */
  lemma SettleFailsIff(charge: real, currency: string, balance: int, configuredRate: Option<real>)
    ensures Settle(charge, currency, balance, configuredRate).Err? <==>
              && charge > 0.0
              && (MinorPerUsd(currency, configuredRate).None?
                  || balance as real < charge * MinorPerUsd(currency, configuredRate).value)
    ensures Settle(charge, currency, balance, configuredRate) == Err(UnsupportedCurrency(currency)) <==>
              charge > 0.0 && currency != "RUB" && currency != "USD"
  {
    if charge > 0.0 && MinorPerUsd(currency, configuredRate).Some? {
      var perUsd := MinorPerUsd(currency, configuredRate).value;
      StrictScale(0.0, charge, perUsd);
      assert charge * UsdToRubRate(configuredRate) * 100.0 == charge * (UsdToRubRate(configuredRate) * 100.0);
    }
  }
}
