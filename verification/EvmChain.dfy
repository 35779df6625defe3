/**
 * An EVM chain as one account sees it: transactions broadcast to the pool, mined in nonce order, and
 * the token allowances they set and use. What the chain decides (which pooled transaction is mined when,
 * whether it reverts, how much a spender pulls) is given from outside.
 */
module EvmChain {
  datatype Call =
    | Approve(token: string, spender: string, amount: nat)
    | Spend(token: string, spender: string, amount: nat)  // a contract call in which the spender pulls the token

  datatype Tx = Tx(nonce: nat, call: Call)

  /** A mined transaction, whether it succeeded, and the allowance it found. */
  datatype Mined = Mined(tx: Tx, ok: bool, allowance: nat)

  datatype Chain = Chain(mined: seq<Mined>, pool: set<Tx>, allowances: map<(string, string), nat>)

  /** Mine tx if it is pooled and next in order; reverts and pulled are the chain's choice. */
  datatype Decision = Decision(tx: Tx, reverts: bool, pulled: nat)

  function Allowance(c: Chain, token: string, spender: string): nat {
    if (token, spender) in c.allowances then c.allowances[(token, spender)] else 0
  }

  /** The nonce of the account's next transaction. */
  function NextNonce(c: Chain): nat {
    |c.mined|
  }

  function Submit(c: Chain, tx: Tx): Chain {
    if tx.nonce < NextNonce(c) then c else c.(pool := c.pool + {tx})
  }

  /** A call pulling more than the allowance reverts; a reverted transaction uses its nonce and changes nothing else. */
  function Mine(c: Chain, d: Decision): Chain {
    if d.tx !in c.pool || d.tx.nonce != NextNonce(c) then c else
    var token, spender, amount := d.tx.call.token, d.tx.call.spender, d.tx.call.amount;
    var before := Allowance(c, token, spender);
    var ok := !d.reverts && (d.tx.call.Spend? ==> amount <= before);
    var left := if d.tx.call.Approve? then amount else if d.pulled <= amount <= before then before - d.pulled else before;
    Chain(c.mined + [Mined(d.tx, ok, before)], c.pool - {d.tx},
          if ok then c.allowances[(token, spender) := left] else c.allowances)
  }

  function MineAll(c: Chain, ds: seq<Decision>): Chain
    decreases |ds|
  {
    if ds == [] then c else MineAll(Mine(c, ds[0]), ds[1..])
  }

  datatype Step = Submitted(tx: Tx) | Decided(decision: Decision)

  function Run(c: Chain, steps: seq<Step>): Chain
    decreases |steps|
  {
    if steps == [] then c else
    Run(if steps[0].Submitted? then Submit(c, steps[0].tx) else Mine(c, steps[0].decision), steps[1..])
  }

  /** The i-th mined transaction carries nonce i. */
  ghost predicate InOrder(c: Chain) {
    forall i :: 0 <= i < |c.mined| ==> c.mined[i].tx.nonce == i
  }

  /**
   * Whatever is broadcast, how often, and whatever the chain decides: history is only extended, in nonce
   * order, so a transaction broadcast any number of times is mined at most once.
   */
  lemma {:induction false} MinedAtMostOnce(c: Chain, steps: seq<Step>)
    requires InOrder(c)
    ensures InOrder(Run(c, steps))
    ensures c.mined <= Run(c, steps).mined
    ensures forall i, j :: 0 <= i < j < |Run(c, steps).mined| ==> Run(c, steps).mined[i].tx != Run(c, steps).mined[j].tx
    decreases |steps|
  {
    if steps != [] {
      MinedAtMostOnce(if steps[0].Submitted? then Submit(c, steps[0].tx) else Mine(c, steps[0].decision), steps[1..]);
    }
  }

  /** A spender's call only succeeds on a sufficient allowance. */
  ghost predicate SpendsCovered(c: Chain, from: nat) {
    forall i :: from <= i < |c.mined| && c.mined[i].tx.call.Spend? ==> c.mined[i].allowance >= c.mined[i].tx.call.amount
  }

  /** No transaction of the account is pending. */
  ghost predicate Quiet(c: Chain) {
    forall tx :: tx in c.pool ==> tx.nonce < NextNonce(c)
  }

  /** c2 is c after tx, and nothing else, was broadcast any number of times: it is pending, or mined once. */
  ghost predicate OnlyBroadcast(c: Chain, tx: Tx, c2: Chain) {
    || (&& c2.mined == c.mined && c2.allowances == c.allowances
        && forall t :: t in c2.pool ==> t.nonce < NextNonce(c) || t == tx)
    || OnlyMined(c, tx, c2)
  }

  ghost predicate OnlyMined(c: Chain, tx: Tx, c2: Chain) {
    && |c2.mined| == |c.mined| + 1
    && c2.mined == c.mined + [c2.mined[|c.mined|]]
    && c2.mined[|c.mined|].tx == tx
    && c2.mined[|c.mined|].allowance == Allowance(c, tx.call.token, tx.call.spender)
    && (c2.mined[|c.mined|].ok && tx.call.Approve? ==>
          Allowance(c2, tx.call.token, tx.call.spender) == tx.call.amount)
    && Quiet(c2)
  }

  lemma SubmitOnlyBroadcasts(c: Chain, tx: Tx, c2: Chain)
    requires Quiet(c) && tx.nonce == NextNonce(c) && OnlyBroadcast(c, tx, c2)
    ensures OnlyBroadcast(c, tx, Submit(c2, tx))
  {
  }

  lemma {:induction false} MineAllOnlyBroadcasts(c: Chain, tx: Tx, c2: Chain, ds: seq<Decision>)
    requires Quiet(c) && tx.nonce == NextNonce(c) && OnlyBroadcast(c, tx, c2)
    ensures OnlyBroadcast(c, tx, MineAll(c2, ds))
    decreases |ds|
  {
    if ds != [] {
      MineOnlyBroadcasts(c, tx, c2, ds[0]);
      MineAllOnlyBroadcasts(c, tx, Mine(c2, ds[0]), ds[1..]);
    }
  }

  lemma MineOnlyBroadcasts(c: Chain, tx: Tx, c2: Chain, d: Decision)
    requires Quiet(c) && tx.nonce == NextNonce(c) && OnlyBroadcast(c, tx, c2)
    ensures OnlyBroadcast(c, tx, Mine(c2, d))
  {
    if d.tx in c2.pool && d.tx.nonce == NextNonce(c2) {
      assert c2.mined == c.mined;
      assert d.tx == tx;
      assert Mine(c2, d).mined == c.mined + [Mine(c2, d).mined[|c.mined|]];
    }
  }

  /** Mining in numbers: what is mined leaves the pool; an approval sets the allowance and a call uses up what it pulls. */
  lemma MinedInNumbers(c: Chain, d: Decision)
    requires d.tx in c.pool && d.tx.nonce == NextNonce(c)
    ensures var token, spender, amount := d.tx.call.token, d.tx.call.spender, d.tx.call.amount;
            var c2 := Mine(c, d);
            && d.tx !in c2.pool && c2.pool + {d.tx} == c.pool && |c2.mined| == |c.mined| + 1
            && c2.mined[|c.mined|].tx == d.tx
            && (c2.mined[|c.mined|].ok <==> !d.reverts && (d.tx.call.Spend? ==> amount <= Allowance(c, token, spender)))
            && Allowance(c2, token, spender) ==
               (if !c2.mined[|c.mined|].ok then Allowance(c, token, spender)
                else if d.tx.call.Approve? then amount
                else Allowance(c, token, spender) - if d.pulled <= amount then d.pulled else 0)
    ensures (d.tx.call.token, d.tx.call.spender) !in c.allowances ==> Allowance(c, d.tx.call.token, d.tx.call.spender) == 0
  {
  }
}
