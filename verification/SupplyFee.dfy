/** The amount left when the whole native balance is supplied (integration/aave/aave.service.ts). */
module SupplyFee {
  import opened Common
  import opened Units

  const ETH_DECIMALS := 18

  /**
   * The fee estimate of a native supply: for a maximal amount, the requested amount less the gas cost with
   * a 20% buffer, printed, provided something is left. The fees are read once for the buffer and again for
   * the network fee, and may differ; a missing gas price counts as zero.
   */
  method EstimateNativeSupply(requested: nat, gasUsed: nat, bufferPrice: Option<nat>, maxFeePerGas: Option<nat>,
                              isMaxAmount: bool)
    returns (networkFee: nat, adjustedAmount: Option<string>)
    ensures networkFee == gasUsed * maxFeePerGas.UnwrapOr(0)
    ensures adjustedAmount.Some? <==> isMaxAmount && BufferedCost(gasUsed, bufferPrice.UnwrapOr(0)) < requested
    ensures adjustedAmount.Some? ==>
              ParseUnits(adjustedAmount.value, ETH_DECIMALS) ==
              Some(requested - BufferedCost(gasUsed, bufferPrice.UnwrapOr(0)))
  {
    hide BufferedCost, FormatUnits, ParseUnits;
    adjustedAmount := None;
    if isMaxAmount {
      var price := bufferPrice.UnwrapOr(0);
      var gasCost := BufferedCost(gasUsed, price);
      var adjusted: int := requested - gasCost;
      if adjusted > 0 {
        adjustedAmount := Some(FormatUnits(adjusted, ETH_DECIMALS));
        ParseFormat(adjusted, ETH_DECIMALS);
      }
    }
    networkFee := gasUsed * maxFeePerGas.UnwrapOr(0);
  }

  function BufferedCost(gasUsed: nat, price: nat): nat {
    gasUsed * price * 12 / 10
  }

  /**
   * The adjusted amount is a positive integer that survives printing and reading, and together with the gas
   * at a later price it stays within the requested amount exactly when that price has risen by at most 20%:
   * rounding the buffer down costs nothing.
   */
  lemma AdjustedAmountIsAffordableIff(requested: nat, gasUsed: nat, price: nat, later: nat)
    requires gasUsed > 0 && BufferedCost(gasUsed, price) < requested
    ensures var adjusted := requested - BufferedCost(gasUsed, price);
            && adjusted > 0
            && 10 * (requested - adjusted) <= 12 * gasUsed * price < 10 * (requested - adjusted) + 10
            && ParseUnits(FormatUnits(adjusted, ETH_DECIMALS), ETH_DECIMALS) == Some(adjusted)
            && (adjusted + gasUsed * later <= requested <==> 10 * later <= 12 * price)
  {
    hide FormatUnits, ParseUnits;
    ParseFormat(requested - BufferedCost(gasUsed, price), ETH_DECIMALS);
    FlooredBuffer(gasUsed * price, gasUsed * later);
    CancelFactor(gasUsed, 10 * later, 12 * price);
    assert gasUsed * (10 * later) == 10 * (gasUsed * later);
    assert gasUsed * (12 * price) == 12 * (gasUsed * price);
  }

  lemma FlooredBuffer(now: nat, later: nat)
    ensures now * 12 / 10 >= later <==> 12 * now >= 10 * later
  {
  }

  lemma CancelFactor(k: nat, x: nat, y: nat)
    requires k > 0
    ensures k * x <= k * y <==> x <= y
  {
    if x <= y {
      assert k * y == k * x + k * (y - x);
    } else {
      PositiveProduct(k, x - y);
      assert k * x == k * y + k * (x - y);
    }
  }

  lemma {:induction false} PositiveProduct(k: nat, d: nat)
    requires k > 0 && d > 0
    ensures k * d > 0
  {
    if k > 1 {
      PositiveProduct(k - 1, d);
      assert k * d == (k - 1) * d + d;
    }
  }
}
