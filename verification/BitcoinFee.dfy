/**
 * The network fee of a Bitcoin transfer (integration/bitcoin/bitcoin.service.ts): the canister selects
 * utxos for an amount and names a fee; while they do not cover amount plus fee, it is asked again for that
 * sum.
 */
module BitcoinFee {
  import opened Common

  datatype Selection = Selection(fee: nat, utxos: seq<nat>)

  /** The canister: its answer to the n-th request of the given amount, or an error. */
  type Selector = (nat, nat) -> Option<Selection>

  function Sum(values: seq<nat>): nat {
    if values == [] then 0 else values[0] + Sum(values[1..])
  }

  /** Every amount the wallet can afford is answered with utxos worth at least that amount. */
  ghost predicate Covers(select: Selector, balance: nat) {
    forall n: nat, a: nat :: a <= balance && select(n, a).Some? ==> a <= Sum(select(n, a).value.utxos)
  }

  /** The selections emitted in turn, and whether a request failed. */
  datatype Stream = Stream(values: seq<Selection>, failed: bool)

  /** The body of the recursion: whether a selection makes it go on. */
  predicate AsksAgain(amount: nat, balance: nat, s: Selection) {
    amount + s.fee <= balance && Sum(s.utxos) < amount + s.fee
  }

  /** Ask for `request`, and again while the selection does not cover amount plus fee. */
  function Expand(select: Selector, amount: nat, balance: nat, request: nat, n: nat): (r: Stream)
    requires Covers(select, balance)
    requires amount == request || amount <= request <= balance
    ensures r.values == [] ==> r.failed
    ensures forall i :: 0 <= i < |r.values| - 1 ==> AsksAgain(amount, balance, r.values[i])
    ensures !r.failed ==> !AsksAgain(amount, balance, r.values[|r.values| - 1])
    ensures |r.values| <= 1 + if request <= balance then balance - request else 0
    decreases if request <= balance then balance - request + 1 else 0
  {
    match select(n, request)
    case None => Stream([], true)
    case Some(s) =>
      if !AsksAgain(amount, balance, s) then Stream([s], false)
      else
        var rest := Expand(select, amount, balance, amount + s.fee, n + 1);
        Stream([s] + rest.values, rest.failed)
  }

  /** The fee for an amount given as text, which the wallet reads as `satoshis`. */
  function GetFee(text: string, confirmations: Result<(), string>, satoshis: nat, balance: nat, select: Selector)
    : (r: Result<Selection, string>)
    requires Covers(select, balance)
  {
    if text == "0" then Ok(Selection(0, []))
    else if confirmations.Err? then Err(confirmations.error)
    else if satoshis == balance then
      match select(0, satoshis)
      case None => Err("Unable to calculate transaction fee for BTC.")
      case Some(s) => Ok(s)
    else
      var emitted := Expand(select, satoshis, balance, satoshis, 0);
      if emitted.failed then Err("Unable to calculate transaction fee for BTC.")
      else Ok(emitted.values[|emitted.values| - 1])
  }

  /** The amount asked for by the i-th request of a stream. */
  function Requested(amount: nat, first: nat, values: seq<Selection>, i: nat): nat
    requires i <= |values|
  {
    if i == 0 then first else amount + values[i - 1].fee
  }

  /** The first selection of a stream, and what follows it. */
  lemma ExpandOnce(select: Selector, amount: nat, balance: nat, request: nat, n: nat, v: seq<Selection>)
    requires Covers(select, balance)
    requires amount == request || amount <= request <= balance
    requires v == Expand(select, amount, balance, request, n).values
    ensures |v| > 0 ==> select(n, request) == Some(v[0])
    ensures |v| > 1 ==>
              && request < amount + v[0].fee <= balance
              && v[1..] == Expand(select, amount, balance, amount + v[0].fee, n + 1).values
  {
    hide Sum;
    if |v| > 1 {
      assert select(n, request) == Some(v[0]) && AsksAgain(amount, balance, v[0]);
    }
  }

  /**
   * Each selection answers a request for the amount plus the previous fee, and while the recursion goes on
   * each request exceeds the one before, so the fees strictly increase, within what the wallet can afford.
   */
  lemma {:induction false} FeesIncreaseWhileAsking(select: Selector, amount: nat, balance: nat, request: nat, n: nat,
                                                   v: seq<Selection>, i: nat)
    requires Covers(select, balance)
    requires amount == request || amount <= request <= balance
    requires v == Expand(select, amount, balance, request, n).values
    requires i < |v|
    ensures select(n + i, Requested(amount, request, v, i)) == Some(v[i])
    ensures i < |v| - 1 ==> Requested(amount, request, v, i) < amount + v[i].fee <= balance
    ensures 0 < i < |v| - 1 ==> v[i - 1].fee < v[i].fee
    decreases i
  {
    hide Expand, Covers;
    ExpandOnce(select, amount, balance, request, n, v);
    if i > 0 {
      FeesIncreaseWhileAsking(select, amount, balance, amount + v[0].fee, n + 1, v[1..], i - 1);
    }
  }

  /**
   * For a selector that covers what it is asked for, the fee is found after at most one request more than
   * the satoshis left beside the amount; it is paid by the selected utxos, or the wallet cannot pay it, or
   * the whole balance is sent.
   */
  lemma FeeIsPaidOrUnaffordable(text: string, confirmations: Result<(), string>, satoshis: nat, balance: nat,
                                select: Selector)
    requires Covers(select, balance)
    ensures var r := GetFee(text, confirmations, satoshis, balance, select);
            r.Ok? && text != "0" ==>
              || satoshis + r.value.fee <= Sum(r.value.utxos)
              || balance < satoshis + r.value.fee
    ensures |Expand(select, satoshis, balance, satoshis, 0).values| <=
              1 + if satoshis <= balance then balance - satoshis else 0
    ensures text == "0" ==> GetFee(text, confirmations, satoshis, balance, select) == Ok(Selection(0, []))
    ensures text != "0" && confirmations.Err? ==>
              GetFee(text, confirmations, satoshis, balance, select) == Err(confirmations.error)
  {
    var emitted := Expand(select, satoshis, balance, satoshis, 0);
    assert !emitted.failed ==> !AsksAgain(satoshis, balance, emitted.values[|emitted.values| - 1]);
  }

  /**
   * Answers a[0], a[1], .. of the selector, the first to a request for `first`, each other to a request for the
   * amount plus the fee before, and none of them the end: the wallet could pay, but the outputs could not.
   */
  ghost predicate AsksOn(select: Selector, amount: nat, balance: nat, first: nat, n: nat, a: seq<Selection>) {
    forall i :: 0 <= i < |a| ==> AsksOnAt(select, amount, balance, first, n, a, i)
  }

  ghost predicate AsksOnAt(select: Selector, amount: nat, balance: nat, first: nat, n: nat, a: seq<Selection>, i: nat)
    requires i < |a|
  {
    && select(n + i, if i == 0 then first else amount + a[i - 1].fee) == Some(a[i])
    && Sum(a[i].utxos) < amount + a[i].fee <= balance
  }

  lemma AsksOnCons(select: Selector, amount: nat, balance: nat, first: nat, n: nat, s: Selection, more: seq<Selection>)
    requires select(n, first) == Some(s) && Sum(s.utxos) < amount + s.fee <= balance
    requires AsksOn(select, amount, balance, amount + s.fee, n + 1, more)
    ensures AsksOn(select, amount, balance, first, n, [s] + more)
    ensures NextRequest(amount, first, [s] + more) == NextRequest(amount, amount + s.fee, more)
  {
    hide Sum;
    var a := [s] + more;
    forall i | 0 <= i < |a| ensures AsksOnAt(select, amount, balance, first, n, a, i) {
      if i > 0 {
        assert AsksOnAt(select, amount, balance, amount + s.fee, n + 1, more, i - 1);
        assert a[i] == more[i - 1] && (i > 1 ==> a[i - 1] == more[i - 2]);
        assert n + 1 + (i - 1) == n + i;
      }
    }
  }

  /** The request after those answered by a. */
  function NextRequest(amount: nat, first: nat, a: seq<Selection>): nat {
    if a == [] then first else amount + a[|a| - 1].fee
  }

  lemma ExpandFirst(select: Selector, amount: nat, balance: nat, request: nat, n: nat)
    requires Covers(select, balance)
    requires amount == request || amount <= request <= balance
    ensures var e := Expand(select, amount, balance, request, n);
            match select(n, request)
            case None => e.failed
            case Some(s) =>
              if AsksAgain(amount, balance, s) then
                request < amount + s.fee <= balance &&
                var rest := Expand(select, amount, balance, amount + s.fee, n + 1);
                e == Stream([s] + rest.values, rest.failed)
              else e == Stream([s], false)
  {
    hide Sum;
  }

  lemma {:induction false} ExpandEnds(select: Selector, amount: nat, balance: nat, request: nat, n: nat)
    returns (a: seq<Selection>)
    requires Covers(select, balance)
    requires amount == request || amount <= request <= balance
    ensures AsksOn(select, amount, balance, request, n, a)
    ensures var e := Expand(select, amount, balance, request, n);
            match select(n + |a|, NextRequest(amount, request, a))
            case None => e.failed
            case Some(s) => !(Sum(s.utxos) < amount + s.fee <= balance) && !e.failed && e.values == a + [s]
    decreases if request <= balance then balance - request + 1 else 0
  {
    hide Sum, Covers, AsksOn, Expand;
    a := [];
    NothingAsked(select, amount, balance, request, n);
    ExpandFirst(select, amount, balance, request, n);
    if select(n, request).Some? && AsksAgain(amount, balance, select(n, request).value) {
      var s := select(n, request).value;
      var more := ExpandEnds(select, amount, balance, amount + s.fee, n + 1);
      AsksOnCons(select, amount, balance, request, n, s, more);
      a := [s] + more;
      hide AsksAgain, NextRequest;
      assert n + 1 + |more| == n + |a|;
    }
  }

  lemma NothingAsked(select: Selector, amount: nat, balance: nat, first: nat, n: nat)
    ensures AsksOn(select, amount, balance, first, n, [])
  {
  }

  /**
   * The fee is the selector's own answer: to the one request for the whole balance when that is sent, and otherwise
   * to the first request, for the amount plus the fee answered before, whose answer the wallet or the outputs settle;
   * and there is none exactly when a request fails.
   */
  lemma FeeIsSelectorsAnswer(text: string, satoshis: nat, balance: nat, select: Selector) returns (a: seq<Selection>)
    requires Covers(select, balance) && text != "0"
    ensures satoshis == balance ==> a == []
    ensures AsksOn(select, satoshis, balance, satoshis, 0, a)
    ensures var r := GetFee(text, Ok(()), satoshis, balance, select);
            match select(|a|, NextRequest(satoshis, satoshis, a))
            case None => r.Err?
            case Some(s) => r == Ok(s) && (satoshis != balance ==> !(Sum(s.utxos) < satoshis + s.fee <= balance))
  {
    hide Sum, Covers, AsksOn;
    a := [];
    NothingAsked(select, satoshis, balance, satoshis, 0);
    if satoshis != balance {
      a := ExpandEnds(select, satoshis, balance, satoshis, 0);
    }
  }

  /** The outputs add up one by one. */
  lemma SumIsTotal(utxos: seq<nat>, more: seq<nat>, v: nat)
    ensures Sum([]) == 0 && Sum([v]) == v && Sum(utxos + more) == Sum(utxos) + Sum(more)
  {
    if utxos == [] {
      assert utxos + more == more;
      assert [v][1..] == [];
    } else {
      assert (utxos + more)[1..] == utxos[1..] + more;
      SumIsTotal(utxos[1..], more, v);
    }
  }

  /** The n-th request of the recursion for a selector that never fails, whether or not it ends. */
  function NthRequest(select: (nat, nat) -> Selection, amount: nat, n: nat): nat {
    if n == 0 then amount else amount + select(n - 1, NthRequest(select, amount, n - 1)).fee
  }

  /** Without the covering assumption the recursion need not end: a fixed fee and no utxos make it ask forever. */
  lemma {:induction false} MayAskForever(fee: nat, amount: nat, balance: nat, n: nat)
    requires amount + fee <= balance && fee > 0
    ensures var select := (k: nat, a: nat) => Selection(fee, []);
            AsksAgain(amount, balance, select(n, NthRequest(select, amount, n)))
  {
  }
}
