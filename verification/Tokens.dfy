/**
 * A fungible token of the wallet, with the fields that loading and transfers write (integration/ft/impl/ft-impl.ts).
 * Its chain is a number, negative for Bitcoin.
 */
module Tokens {
  import opened Common

  /** A rate is not loaded, known to be missing, or a number (by its exact text) with the change over a day. */
  datatype Rate = Unset | Null | Rate(value: string, dayChangePercent: Option<string>, dayChangePositive: Option<bool>)

  /** What can be read from a token. */
  datatype View = View(address: string, chainId: int, balance: Option<nat>, rate: Rate, inited: bool)

  class FT {
    const address: string
    const chainId: int
    var balance: Option<nat>
    var rate: Rate
    var inited: bool

    constructor (address: string, chainId: int)
      ensures Contents() == View(address, chainId, None, Unset, false)
    {
      this.address := address;
      this.chainId := chainId;
      balance := None;
      rate := Unset;
      inited := false;
    }

    function Contents(): View
      reads this
    {
      View(address, chainId, balance, rate, inited)
    }
  }

  function Views(tokens: seq<FT>): (r: seq<View>)
    reads tokens
    ensures |r| == |tokens| && forall i :: 0 <= i < |tokens| ==> r[i] == tokens[i].Contents()
  {
    seq(|tokens|, i requires 0 <= i < |tokens| reads tokens => tokens[i].Contents())
  }

  predicate SameToken(a: View, b: View) {
    a.address == b.address && a.chainId == b.chainId
  }
}
