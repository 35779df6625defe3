/**
 * Approve-then-call on an EVM chain (integration/aave/aave.service.ts): a token allowance is raised when
 * it is too small, and the transaction that uses it follows with the next nonce.
 */
module AaveService {
  import opened Common
  import opened Retry
  import opened EvmChain

  /** One broadcast attempt: whether the node took the transaction, what is mined meanwhile, and its reply. */
  datatype Delivery = Delivery(accepted: bool, mining: seq<Decision>, reply: Attempt<()>)

  /** Everything the RPC node does for one transaction, from reading the nonce to waiting for it to be mined. */
  datatype Rpc = Rpc(
    nonce: nat,
    estimates: Result<(), Failure>,   // its reads of fees, gas or a nonce; an error ends the operation before it signs
    broadcast: nat -> Delivery,
    waiting: seq<Decision>,           // mined while the receipt is awaited
    receiptFails: bool)               // the receipt cannot be read, even with retries

  const RETRIES := 5

  /** What each attempt of a broadcast returns or throws. */
  function Replies(net: nat -> Delivery): nat -> Attempt<()> {
    (k: nat) => net(k).reply
  }

  /**
   * What an operation signed is the whole of what the chain adds: a prefix of it is mined in order,
   * nothing twice, all of it successfully when the operation succeeds; and no contract call finds an
   * allowance smaller than it needs.
   */
  ghost predicate Delivered(c: Chain, signed: seq<Tx>, c2: Chain, signed2: seq<Tx>, ok: bool) {
    && signed <= signed2 && c.mined <= c2.mined
    && |c2.mined| - |c.mined| <= |signed2| - |signed|
    && (forall i :: |c.mined| <= i < |c2.mined| ==> c2.mined[i].tx == signed2[i - |c.mined| + |signed|])
    && InOrder(c2)
    && SpendsCovered(c2, |c.mined|)
    && (ok ==> |c2.mined| - |c.mined| == |signed2| - |signed|
               && forall i :: |c.mined| <= i < |c2.mined| ==> c2.mined[i].ok)
  }

  lemma DeliveredAnyway(c: Chain, signed: seq<Tx>, c2: Chain, signed2: seq<Tx>)
    ensures Delivered(c, signed, c2, signed2, true) ==> Delivered(c, signed, c2, signed2, false)
  {
  }

  /** A delivered operation goes on with one more transaction. */
  lemma DeliverOneMore(c: Chain, signed: seq<Tx>, c1: Chain, signed1: seq<Tx>, c2: Chain, tx: Tx, ok: bool)
    requires Delivered(c, signed, c1, signed1, true)
    requires tx.nonce == NextNonce(c1) && OnlyBroadcast(c1, tx, c2)
    requires tx.call.Spend? ==> Allowance(c1, tx.call.token, tx.call.spender) >= tx.call.amount
    requires ok ==> OnlyMined(c1, tx, c2) && c2.mined[|c1.mined|].ok
    ensures Delivered(c, signed, c2, signed1 + [tx], ok)
  {
    if c2.mined != c1.mined {
      assert OnlyMined(c1, tx, c2);
      assert c2.mined[..|c1.mined|] == c1.mined;
    }
  }

  /** The transactions signed on top of `signed` carry the nonces from `first` on, without repeat or gap. */
  ghost predicate Consecutive(signed: seq<Tx>, signed2: seq<Tx>, first: nat) {
    && signed <= signed2
    && forall i :: |signed| <= i < |signed2| ==> signed2[i].nonce == first + (i - |signed|)
  }

  // ---------------------------------------------------------------- what one transaction comes to

  predicate RateLimited(d: Delivery) {
    d.reply.Throws? && IsRateLimit(d.reply.failure)
  }

  /** The last attempt of a broadcast: the first that is not rate-limited, or the last there may be. */
  function LastAttempt(net: nat -> Delivery, from: nat): (r: nat)
    requires from < RETRIES
    ensures from <= r < RETRIES
    ensures forall k :: from <= k < r ==> RateLimited(net(k))
    ensures r == RETRIES - 1 || !RateLimited(net(r))
    decreases RETRIES - from
  {
    if from == RETRIES - 1 || !RateLimited(net(from)) then from else LastAttempt(net, from + 1)
  }

  /** The chain after the first n attempts to broadcast a transaction. */
  function AfterAttempts(c: Chain, tx: Tx, net: nat -> Delivery, n: nat): Chain {
    if n == 0 then c else
    var before := AfterAttempts(c, tx, net, n - 1);
    MineAll(if net(n - 1).accepted then Submit(before, tx) else before, net(n - 1).mining)
  }

  predicate BroadcastReturns(rpc: Rpc) {
    rpc.broadcast(LastAttempt(rpc.broadcast, 0)).reply.Returns?
  }

  /** The chain when a transaction has been broadcast and, if that went well, waited for. */
  function AfterSend(c: Chain, tx: Tx, rpc: Rpc): Chain {
    var broadcast := AfterAttempts(c, tx, rpc.broadcast, LastAttempt(rpc.broadcast, 0) + 1);
    if BroadcastReturns(rpc) then MineAll(broadcast, rpc.waiting) else broadcast
  }

  predicate MinedOk(c: Chain, tx: Tx) {
    exists i | 0 <= i < |c.mined| :: c.mined[i].tx == tx && c.mined[i].ok
  }

  /** A transaction goes through unless broadcasting it, mining it or reading its receipt fails. */
  predicate GoesThrough(c: Chain, tx: Tx, rpc: Rpc) {
    BroadcastReturns(rpc) && !rpc.receiptFails && MinedOk(AfterSend(c, tx, rpc), tx)
  }

  /** From a quiet chain, a transaction of the next nonce is all that is broadcast or mined. */
  ghost predicate OnlyBroadcastIfNext(start: Chain, tx: Tx, c: Chain) {
    Quiet(start) && tx.nonce == NextNonce(start) ==> OnlyBroadcast(start, tx, c)
  }

  lemma NothingSent(start: Chain, tx: Tx)
    ensures OnlyBroadcastIfNext(start, tx, start)
  {
  }

  lemma AttemptOnlyBroadcasts(start: Chain, tx: Tx, c: Chain, d: Delivery)
    requires OnlyBroadcastIfNext(start, tx, c)
    ensures OnlyBroadcastIfNext(start, tx, MineAll(if d.accepted then Submit(c, tx) else c, d.mining))
  {
    if Quiet(start) && tx.nonce == NextNonce(start) {
      hide MineAll, Submit, Quiet, OnlyBroadcast;
      SubmitOnlyBroadcasts(start, tx, c);
      MineAllOnlyBroadcasts(start, tx, if d.accepted then Submit(c, tx) else c, d.mining);
    }
  }

  class Wallet {
    var chain: Chain
    var signed: seq<Tx>

    /** withRetry around broadcastTransaction: the same signed transaction may reach the node several times. */
    method Broadcast(tx: Tx, net: nat -> Delivery) returns (r: Result<(), Failure>, ghost calls: nat)
      modifies this`chain
      ensures IsRetried(Replies(net), RETRIES, r, calls)
      ensures calls == LastAttempt(net, 0) + 1 && chain == AfterAttempts(old(chain), tx, net, calls)
      ensures old(Quiet(chain)) && tx.nonce == old(NextNonce(chain)) ==> OnlyBroadcast(old(chain), tx, chain)
    {
      hide MineAll, Submit, OnlyBroadcast, Quiet, NextNonce, IsRateLimit;
      ghost var start := chain;
      calls := 0;
      NothingSent(start, tx);
      var attempt := 0;
      while attempt < RETRIES
        invariant 0 <= attempt < RETRIES && calls == attempt
        invariant forall k :: 0 <= k < attempt ==> Replies(net)(k).Throws? && IsRateLimit(Replies(net)(k).failure)
        invariant chain == AfterAttempts(start, tx, net, attempt)
        invariant LastAttempt(net, 0) == LastAttempt(net, attempt)
        invariant OnlyBroadcastIfNext(start, tx, chain)
        decreases RETRIES - attempt
      {
        var d := net(attempt);
        assert Replies(net)(attempt) == d.reply;
        calls := calls + 1;
        AttemptOnlyBroadcasts(start, tx, chain, d);
        if d.accepted {
          chain := Submit(chain, tx);
        }
        chain := MineAll(chain, d.mining);
        match d.reply {
          case Returns(v) => return Ok(v), calls;
          case Throws(f) =>
            if !IsRateLimit(f) || attempt == RETRIES - 1 {
              return Err(f), calls;
            }
        }
        attempt := attempt + 1;
      }
    }

    /** Sign, broadcast and wait: succeeds only when the transaction was mined without reverting. */
    method SignAndSend(tx: Tx, rpc: Rpc) returns (ok: bool)
      modifies this
      ensures signed == old(signed) + [tx]
      ensures chain == AfterSend(old(chain), tx, rpc)
      ensures ok <==> GoesThrough(old(chain), tx, rpc)
      ensures old(Quiet(chain)) && tx.nonce == old(NextNonce(chain)) ==>
                && OnlyBroadcast(old(chain), tx, chain)
                && (ok && old(InOrder(chain)) ==> OnlyMined(old(chain), tx, chain) && chain.mined[|old(chain.mined)|].ok)
    {
      ghost var start := chain;
      signed := signed + [tx];
      var sent, _ := Broadcast(tx, rpc.broadcast);
      if sent.Err? {
        return false;
      }
      if Quiet(start) && tx.nonce == NextNonce(start) {
        MineAllOnlyBroadcasts(start, tx, chain, rpc.waiting);
      }
      chain := MineAll(chain, rpc.waiting);
      ok := !rpc.receiptFails && MinedOk(chain, tx);
    }

    /**
     * Approve amount unless the allowance read already covers it. Returns the nonce after the approval's,
     * or nothing when no approval was needed.
     */
    method EnsureAllowance(token: string, spender: string, amount: nat, allowanceRead: nat, rpc: Rpc)
      returns (r: Result<Option<nat>, Failure>)
      modifies this
      ensures r == Ok(None) <==> allowanceRead >= amount
      ensures signed == old(signed) +
              if allowanceRead < amount && rpc.estimates.Ok? then [Tx(rpc.nonce, Approve(token, spender, amount))] else []
      ensures chain == if allowanceRead < amount && rpc.estimates.Ok?
                       then AfterSend(old(chain), Tx(rpc.nonce, Approve(token, spender, amount)), rpc) else old(chain)
      ensures r.Ok? <==> (allowanceRead >= amount ||
                (rpc.estimates.Ok? && GoesThrough(old(chain), Tx(rpc.nonce, Approve(token, spender, amount)), rpc)))
      ensures r.Ok? && r.value.Some? ==> rpc.estimates.Ok? && r.value.value == rpc.nonce + 1
      ensures r.Err? && rpc.estimates.Err? ==> r.error == rpc.estimates.error
      ensures old(Quiet(chain)) && old(InOrder(chain)) && (allowanceRead < amount ==> rpc.nonce == old(NextNonce(chain))) ==>
                && Delivered(old(chain), old(signed), chain, signed, r.Ok?)
                && (r.Ok? ==> Quiet(chain))
                && (r.Ok? && r.value.Some? ==>
                      NextNonce(chain) == rpc.nonce + 1 && Allowance(chain, token, spender) == amount)
    {
      if allowanceRead >= amount {
        return Ok(None);
      }
      if rpc.estimates.Err? {
        return Err(rpc.estimates.error);
      }
      var tx := Tx(rpc.nonce, Approve(token, spender, amount));
      var ok := SignAndSend(tx, rpc);
      if old(Quiet(chain)) && old(InOrder(chain)) && rpc.nonce == old(NextNonce(chain)) {
        DeliverOneMore(old(chain), old(signed), old(chain), old(signed), chain, tx, ok);
      }
      // the next nonce is not read again: the node may lag behind the transaction it has just confirmed
      return if ok then Ok(Some(rpc.nonce + 1)) else Err(Failure(true, "approval failed"));
    }

    /** The last step of an operation: the contract call, with the approval's successor nonce or a nonce read now. */
    method CallContract(token: string, spender: string, amount: nat, approved: Option<nat>, call: Rpc,
                        ghost start: Chain, ghost signedBefore: seq<Tx>)
      returns (ok: bool)
      modifies this
      ensures signed == old(signed) +
              [Tx(if approved.Some? then approved.value else call.nonce, Spend(token, spender, amount))]
      ensures var tx := Tx(if approved.Some? then approved.value else call.nonce, Spend(token, spender, amount));
              chain == AfterSend(old(chain), tx, call) && (ok <==> GoesThrough(old(chain), tx, call))
      ensures && old(Delivered(start, signedBefore, chain, signed, true)) && old(Quiet(chain))
              && old(Allowance(chain, token, spender)) >= amount
              && (if approved.Some? then approved.value else call.nonce) == old(NextNonce(chain)) ==>
                Delivered(start, signedBefore, chain, signed, ok)
    {
      ghost var before, signedThen := chain, signed;
      var tx := Tx(if approved.Some? then approved.value else call.nonce, Spend(token, spender, amount));
      ok := SignAndSend(tx, call);
      if && Delivered(start, signedBefore, before, signedThen, true) && Quiet(before)
         && Allowance(before, token, spender) >= amount && tx.nonce == NextNonce(before) {
        DeliverOneMore(start, signedBefore, before, signedThen, chain, tx, ok);
      }
    }

    /**
     * Nothing of the account is pending, the first nonce read is right, and an allowance read as
     * sufficient is sufficient. Later nonce reads may be arbitrarily stale.
     */
    ghost predicate Correct(token: string, spender: string, amount: nat, allowanceRead: nat, approval: Rpc, call: Rpc)
      reads this
    {
      && InOrder(chain) && Quiet(chain)
      && (if allowanceRead < amount then approval.nonce else call.nonce) == NextNonce(chain)
      && (allowanceRead >= amount ==> Allowance(chain, token, spender) >= amount)
    }

    /** Supply an ERC-20 token: the pool pulls `amount` of it from the wallet. */
    method SupplyErc20(token: string, pool: string, amount: nat, allowanceRead: nat, approval: Rpc, call: Rpc)
      returns (ok: bool)
      modifies this
      ensures ok <==> && AllGoesThrough(old(chain), token, pool, amount, allowanceRead, approval, call)
                      && (allowanceRead >= amount ==> call.estimates.Ok?)
      ensures old(signed) <= signed <= old(signed) + Signs(token, pool, amount, allowanceRead, approval, call)
      ensures ok ==> signed == old(signed) + Signs(token, pool, amount, allowanceRead, approval, call)
      ensures ok ==> forall tx :: tx in Signs(token, pool, amount, allowanceRead, approval, call) ==> MinedOk(chain, tx)
      ensures Consecutive(old(signed), signed, if allowanceRead < amount then approval.nonce else call.nonce)
      ensures old(Correct(token, pool, amount, allowanceRead, approval, call)) ==>
                Delivered(old(chain), old(signed), chain, signed, ok)
    {
      hide Delivered, Quiet, InOrder, MinedOk, AfterSend, BroadcastReturns, Allowance, NextNonce;
      var approved := EnsureAllowance(token, pool, amount, allowanceRead, approval);
      if approved.Err? || (approved.value.None? && call.estimates.Err?) {
        DeliveredAnyway(old(chain), old(signed), chain, signed);
        return false;
      }
      ghost var c1 := chain;
      ok := CallContract(token, pool, amount, approved.value, call, old(chain), old(signed));
      StaysMined(c1, if approved.value.Some? then approved.value.value else call.nonce, token, pool, amount, call);
    }

    /**
     * Withdraw the native token: the gateway pulls `amount` of the aToken. Gas is estimated again after the
     * approval, and the wallet must be able to pay for it.
     */
    method WithdrawNative(aToken: string, gateway: string, amount: nat, allowanceRead: nat, approval: Rpc, call: Rpc,
                          gasEstimate: nat, maxFeePerGas: nat, walletBalance: nat)
      returns (ok: bool)
      modifies this
      ensures ok <==> && AllGoesThrough(old(chain), aToken, gateway, amount, allowanceRead, approval, call)
                      && call.estimates.Ok? && gasEstimate * 120 / 100 * maxFeePerGas <= walletBalance
      ensures old(signed) <= signed <= old(signed) + Signs(aToken, gateway, amount, allowanceRead, approval, call)
      ensures ok ==> signed == old(signed) + Signs(aToken, gateway, amount, allowanceRead, approval, call)
      ensures ok ==> forall tx :: tx in Signs(aToken, gateway, amount, allowanceRead, approval, call) ==> MinedOk(chain, tx)
      ensures Consecutive(old(signed), signed, if allowanceRead < amount then approval.nonce else call.nonce)
      ensures old(Correct(aToken, gateway, amount, allowanceRead, approval, call)) ==>
                Delivered(old(chain), old(signed), chain, signed, ok)
    {
      hide Delivered, Quiet, InOrder, MinedOk, AfterSend, BroadcastReturns, Allowance, NextNonce;
      var approved := EnsureAllowance(aToken, gateway, amount, allowanceRead, approval);
      if approved.Err? || call.estimates.Err? || walletBalance < GasCost(gasEstimate, maxFeePerGas) {
        DeliveredAnyway(old(chain), old(signed), chain, signed);
        return false;
      }
      ghost var c1 := chain;
      ok := CallContract(aToken, gateway, amount, approved.value, call, old(chain), old(signed));
      StaysMined(c1, if approved.value.Some? then approved.value.value else call.nonce, aToken, gateway, amount, call);
    }
  }

  /** What an operation signs: the approval, if the allowance read is too small, and the call, with the next nonce. */
  function Signs(token: string, spender: string, amount: nat, allowanceRead: nat, approval: Rpc, call: Rpc): seq<Tx> {
    if allowanceRead < amount
    then [Tx(approval.nonce, Approve(token, spender, amount)), Tx(approval.nonce + 1, Spend(token, spender, amount))]
    else [Tx(call.nonce, Spend(token, spender, amount))]
  }

  /** The reads before the approval succeed, and whatever is signed goes through, the call on the chain the approval left. */
  predicate AllGoesThrough(c: Chain, token: string, spender: string, amount: nat, allowanceRead: nat,
                           approval: Rpc, call: Rpc) {
    var txs := Signs(token, spender, amount, allowanceRead, approval, call);
    if allowanceRead < amount
    then && approval.estimates.Ok? && GoesThrough(c, txs[0], approval)
         && GoesThrough(AfterSend(c, txs[0], approval), txs[1], call)
    else GoesThrough(c, txs[0], call)
  }

  lemma {:induction false} MineAllExtends(c: Chain, ds: seq<Decision>)
    ensures c.mined <= MineAll(c, ds).mined
    decreases |ds|
  {
    if ds != [] {
      MineAllExtends(Mine(c, ds[0]), ds[1..]);
    }
  }

  lemma {:induction false} AttemptsExtend(c: Chain, tx: Tx, net: nat -> Delivery, n: nat)
    ensures c.mined <= AfterAttempts(c, tx, net, n).mined
  {
    hide MineAll;
    if n > 0 {
      AttemptsExtend(c, tx, net, n - 1);
      var before := AfterAttempts(c, tx, net, n - 1);
      MineAllExtends(if net(n - 1).accepted then Submit(before, tx) else before, net(n - 1).mining);
    }
  }

  /** Whatever was mined before a transaction is sent is mined after. */
  lemma StaysMined(c: Chain, nonce: nat, token: string, spender: string, amount: nat, rpc: Rpc)
    ensures forall tx :: MinedOk(c, tx) ==> MinedOk(AfterSend(c, Tx(nonce, Spend(token, spender, amount)), rpc), tx)
  {
    hide AfterAttempts, MineAll;
    var sent := Tx(nonce, Spend(token, spender, amount));
    var n := LastAttempt(rpc.broadcast, 0) + 1;
    AttemptsExtend(c, sent, rpc.broadcast, n);
    MineAllExtends(AfterAttempts(c, sent, rpc.broadcast, n), rpc.waiting);
    assert c.mined <= AfterSend(c, sent, rpc).mined;
    forall tx | MinedOk(c, tx) ensures MinedOk(AfterSend(c, sent, rpc), tx) {
      var i :| 0 <= i < |c.mined| && c.mined[i].tx == tx && c.mined[i].ok;
      assert AfterSend(c, sent, rpc).mined[i] == c.mined[i];
    }
  }

  // ---------------------------------------------------------------- when all goes well

  /** The transaction is the account's next, nothing else of it is pending, and it finds the allowance it needs. */
  predicate Ready(c: Chain, tx: Tx) {
    && tx.nonce == NextNonce(c)
    && (tx.call.Spend? ==> tx.call.amount <= Allowance(c, tx.call.token, tx.call.spender))
    && forall t :: t in c.pool ==> t.nonce < NextNonce(c)
  }

  /** The same, but for the transaction itself, which is in the pool. */
  predicate Pending(c: Chain, tx: Tx) {
    && tx.nonce == NextNonce(c) && tx in c.pool
    && (tx.call.Spend? ==> tx.call.amount <= Allowance(c, tx.call.token, tx.call.spender))
    && forall t :: t in c.pool ==> t.nonce < NextNonce(c) || t == tx
  }

  predicate Accepting(ds: seq<Decision>, tx: Tx) {
    forall i :: 0 <= i < |ds| && ds[i].tx == tx ==> !ds[i].reverts
  }

  lemma MinePending(c: Chain, tx: Tx, d: Decision)
    requires (Pending(c, tx) || MinedOk(c, tx)) && (d.tx == tx ==> !d.reverts)
    ensures Pending(Mine(c, d), tx) || MinedOk(Mine(c, d), tx)
    ensures d.tx == tx ==> MinedOk(Mine(c, d), tx)
  {
    var c2 := Mine(c, d);
    if MinedOk(c, tx) {
      var i :| 0 <= i < |c.mined| && c.mined[i].tx == tx && c.mined[i].ok;
      assert c2.mined[i] == c.mined[i];
    } else if d.tx == tx {
      assert c2.mined[|c.mined|].tx == tx;
    }
  }

  lemma {:induction false} MineAllPending(c: Chain, tx: Tx, ds: seq<Decision>)
    requires (Pending(c, tx) || MinedOk(c, tx)) && Accepting(ds, tx)
    ensures Pending(MineAll(c, ds), tx) || MinedOk(MineAll(c, ds), tx)
    ensures (exists i :: 0 <= i < |ds| && ds[i].tx == tx) ==> MinedOk(MineAll(c, ds), tx)
    decreases |ds|
  {
    hide Pending, Mine, MinedOk;
    if ds != [] {
      MinePending(c, tx, ds[0]);
      assert forall i :: 0 <= i < |ds[1..]| ==> ds[1..][i] == ds[i + 1];
      MineAllPending(Mine(c, ds[0]), tx, ds[1..]);
      if MinedOk(Mine(c, ds[0]), tx) {
        MinedStays(Mine(c, ds[0]), tx, ds[1..]);
      }
      if i :| 0 <= i < |ds| && ds[i].tx == tx {
        assert i > 0 ==> ds[1..][i - 1].tx == tx;
      }
    }
  }

  lemma MinedStays(c: Chain, tx: Tx, ds: seq<Decision>)
    requires MinedOk(c, tx)
    ensures MinedOk(MineAll(c, ds), tx)
  {
    hide MineAll;
    MineAllExtends(c, ds);
    var i :| 0 <= i < |c.mined| && c.mined[i].tx == tx && c.mined[i].ok;
    assert MineAll(c, ds).mined[i] == c.mined[i];
  }

  lemma {:induction false} MineAllReady(c: Chain, tx: Tx, ds: seq<Decision>)
    requires Ready(c, tx)
    ensures MineAll(c, ds) == c
    decreases |ds|
  {
    if ds != [] {
      assert Mine(c, ds[0]) == c;
      MineAllReady(c, tx, ds[1..]);
    }
  }

  lemma SubmitReady(c: Chain, tx: Tx)
    requires Ready(c, tx) || Pending(c, tx) || MinedOk(c, tx)
    ensures Pending(Submit(c, tx), tx) || MinedOk(Submit(c, tx), tx)
  {
  }

  /** As long as no attempt has reached the node the chain waits; from then on the transaction is pending or mined. */
  lemma {:induction false} AttemptsDeliver(c: Chain, tx: Tx, net: nat -> Delivery, n: nat)
    requires Ready(c, tx) && forall k :: 0 <= k < n ==> Accepting(net(k).mining, tx)
    ensures var a := AfterAttempts(c, tx, net, n);
            if exists k :: 0 <= k < n && net(k).accepted then Pending(a, tx) || MinedOk(a, tx) else a == c
  {
    hide Ready, Pending, MinedOk, Submit, MineAll;
    if n > 0 {
      AttemptsDeliver(c, tx, net, n - 1);
      var before := AfterAttempts(c, tx, net, n - 1);
      if net(n - 1).accepted {
        SubmitReady(before, tx);
        MineAllPending(Submit(before, tx), tx, net(n - 1).mining);
      } else if exists k :: 0 <= k < n - 1 && net(k).accepted {
        MineAllPending(before, tx, net(n - 1).mining);
      } else {
        MineAllReady(c, tx, net(n - 1).mining);
      }
    }
  }

  /**
   * A node that does its part: some attempt of the broadcast returns, those before are rate-limited, one of them
   * reaches the pool, the transaction is mined at the latest while it is waited for, never reverting, and the
   * receipt is read.
   */
  ghost predicate NodeServes(rpc: Rpc, tx: Tx, k: nat) {
    && k < RETRIES
    && (forall j :: 0 <= j < k ==> rpc.broadcast(j).reply.Throws? && IsRateLimit(rpc.broadcast(j).reply.failure))
    && rpc.broadcast(k).reply.Returns?
    && (exists j :: 0 <= j <= k && rpc.broadcast(j).accepted)
    && (forall j :: 0 <= j <= k ==> Accepting(rpc.broadcast(j).mining, tx)) && Accepting(rpc.waiting, tx)
    && (exists i :: 0 <= i < |rpc.waiting| && rpc.waiting[i].tx == tx)
    && !rpc.receiptFails
  }

  lemma {:induction false} LastAttemptIs(net: nat -> Delivery, from: nat, k: nat)
    requires from <= k < RETRIES && !RateLimited(net(k))
    requires forall j :: from <= j < k ==> RateLimited(net(j))
    ensures LastAttempt(net, from) == k
    decreases k - from
  {
    if from < k {
      LastAttemptIs(net, from + 1, k);
    }
  }

  lemma ServedGoesThrough(c: Chain, tx: Tx, rpc: Rpc, k: nat)
    requires Ready(c, tx) && NodeServes(rpc, tx, k)
    ensures GoesThrough(c, tx, rpc)
  {
    LastAttemptIs(rpc.broadcast, 0, k);
    hide Ready, Pending, MinedOk, MineAll, AfterAttempts, LastAttempt;
    AttemptsDeliver(c, tx, rpc.broadcast, k + 1);
    var j :| 0 <= j <= k && rpc.broadcast(j).accepted;
    MineAllPending(AfterAttempts(c, tx, rpc.broadcast, k + 1), tx, rpc.waiting);
  }

  /**
   * An operation whose node does its part for everything signed goes through, with nonces as they should be first
   * read and an allowance read that is true: the call finds the chain the approval left, ready for it.
   */
  lemma ServedOperation(c: Chain, token: string, spender: string, amount: nat, allowanceRead: nat,
                        approval: Rpc, call: Rpc, k: nat, m: nat)
    requires InOrder(c) && Quiet(c)
    requires (if allowanceRead < amount then approval.nonce else call.nonce) == NextNonce(c)
    requires allowanceRead >= amount ==> Allowance(c, token, spender) >= amount
    requires var txs := Signs(token, spender, amount, allowanceRead, approval, call);
             if allowanceRead < amount
             then approval.estimates.Ok? && NodeServes(approval, txs[0], k) && NodeServes(call, txs[1], m)
             else NodeServes(call, txs[0], m)
    ensures AllGoesThrough(c, token, spender, amount, allowanceRead, approval, call)
  {
    hide NodeServes, AfterSend, GoesThrough;
    var txs := Signs(token, spender, amount, allowanceRead, approval, call);
    if allowanceRead < amount {
      ServedGoesThrough(c, txs[0], approval, k);
      ApprovalReadies(c, txs[0], approval, txs[1]);
      ServedGoesThrough(AfterSend(c, txs[0], approval), txs[1], call, m);
    } else {
      ServedGoesThrough(c, txs[0], call, m);
    }
  }

  lemma {:induction false} AttemptsOnlyBroadcast(c: Chain, tx: Tx, net: nat -> Delivery, n: nat)
    requires Quiet(c) && tx.nonce == NextNonce(c)
    ensures OnlyBroadcast(c, tx, AfterAttempts(c, tx, net, n))
  {
    hide OnlyBroadcast, MineAll, Submit;
    if n == 0 {
      NothingBroadcast(c, tx);
    } else {
      AttemptsOnlyBroadcast(c, tx, net, n - 1);
      var before := AfterAttempts(c, tx, net, n - 1);
      SubmitOnlyBroadcasts(c, tx, before);
      MineAllOnlyBroadcasts(c, tx, if net(n - 1).accepted then Submit(before, tx) else before, net(n - 1).mining);
    }
  }

  lemma NothingBroadcast(c: Chain, tx: Tx)
    requires Quiet(c)
    ensures OnlyBroadcast(c, tx, c)
  {
  }

  lemma ApprovalReadies(c: Chain, approve: Tx, rpc: Rpc, spend: Tx)
    requires InOrder(c) && Quiet(c) && approve.nonce == NextNonce(c) && approve.call.Approve?
    requires GoesThrough(c, approve, rpc)
    requires spend == Tx(approve.nonce + 1, Spend(approve.call.token, approve.call.spender, approve.call.amount))
    ensures Ready(AfterSend(c, approve, rpc), spend)
  {
    hide AfterAttempts, MineAll, LastAttempt;
    var n := LastAttempt(rpc.broadcast, 0) + 1;
    AttemptsOnlyBroadcast(c, approve, rpc.broadcast, n);
    MineAllOnlyBroadcasts(c, approve, AfterAttempts(c, approve, rpc.broadcast, n), rpc.waiting);
    var c2 := AfterSend(c, approve, rpc);
    assert forall i :: 0 <= i < |c.mined| ==> c.mined[i].tx != approve;
    assert OnlyMined(c, approve, c2);
  }

  /** The cost of the estimated gas with a buffer of 20%. */
  function GasCost(gasEstimate: nat, maxFeePerGas: nat): nat {
    gasEstimate * 120 / 100 * maxFeePerGas
  }
}
