/** The lending positions shown right after a supply or a withdrawal (features/transfer-modal/utils.ts). */
module Positions {
  import opened Common
  import opened Units

  datatype Position = Position(chainId: nat, asset: string, symbol: string, balance: nat, balanceFormatted: string,
                               balanceUsd: string, decimals: nat, supplyAPY: string)

  /** A token: its symbol and decimals, and the dollar text of an amount, when its rate is known. */
  datatype Token = Token(symbol: string, decimals: nat, usd: string -> Option<string>)

  datatype Change = Supply(amount: string, apy: string) | Withdraw(amount: string) | WithdrawAll

  /** The list is replaced, or left alone because the asset is not in it, or the amount does not parse. */
  datatype Outcome = Replaced(positions: seq<Position>) | Unchanged | Throws

  /** The position of an asset on a chain in the list, or the length. */
  function FindIndex(ps: seq<Position>, asset: string, chainId: nat): (i: nat)
    ensures i <= |ps|
    ensures i < |ps| ==> ps[i].asset == asset && ps[i].chainId == chainId
    ensures forall k :: 0 <= k < i ==> !(ps[k].asset == asset && ps[k].chainId == chainId)
  {
    if ps == [] || (ps[0].asset == asset && ps[0].chainId == chainId) then 0 else 1 + FindIndex(ps[1..], asset, chainId)
  }

  function WithBalance(p: Position, balance: nat, token: Token): Position {
    var text := FormatUnits(balance, p.decimals);
    p.(balance := balance, balanceFormatted := text + " " + p.symbol, balanceUsd := token.usd(text).UnwrapOr(p.balanceUsd))
  }

  function NewPosition(asset: string, chainId: nat, amount: string, supplied: nat, apy: string, token: Token): Position {
    Position(chainId, asset, token.symbol, supplied, FormatUnits(supplied, token.decimals) + " " + token.symbol,
             token.usd(amount).UnwrapOr(""), token.decimals, if apy == "" then "0.00%" else apy)
  }

  /** A balance never goes below zero. */
  function Less(balance: nat, withdrawn: nat): nat {
    if balance > withdrawn then balance - withdrawn else 0
  }

  function GetUpdatedPositions(ps: seq<Position>, asset: string, chainId: nat, change: Change, token: Token): Outcome {
    var index := FindIndex(ps, asset, chainId);
    match change
    case Supply(amount, apy) =>
      var supplied := ParseUnits(amount, token.decimals);
      if supplied.None? then Throws
      else if index < |ps| then Replaced(ps[index := WithBalance(ps[index], ps[index].balance + supplied.value, token)])
      else Replaced(ps + [NewPosition(asset, chainId, amount, supplied.value, apy, token)])
    case WithdrawAll =>
      if index == |ps| then Unchanged else Replaced(ps[..index] + ps[index + 1..])
    case Withdraw(amount) =>
      if index == |ps| then Unchanged else
      var p := ps[index];
      var withdrawn := ParseUnits(amount, p.decimals);
      if withdrawn.None? then Throws
      else Replaced(ps[index := WithBalance(p, Less(p.balance, withdrawn.value), token)])
  }

  /** The first supply of an asset is undone by withdrawing all of it. */
  lemma SupplyThenWithdrawAll(ps: seq<Position>, asset: string, chainId: nat, amount: string, apy: string, token: Token)
    requires FindIndex(ps, asset, chainId) == |ps| && ParseUnits(amount, token.decimals).Some?
    ensures var after := GetUpdatedPositions(ps, asset, chainId, Supply(amount, apy), token);
            after.Replaced? && GetUpdatedPositions(after.positions, asset, chainId, WithdrawAll, token) == Replaced(ps)
  {
    var after := GetUpdatedPositions(ps, asset, chainId, Supply(amount, apy), token).positions;
    assert FindIndex(after, asset, chainId) == |ps| by {
      assert forall k :: 0 <= k < |ps| ==> after[k] == ps[k];
      assert after[|ps|].asset == asset && after[|ps|].chainId == chainId;
    }
    assert after[..|ps|] + after[|ps| + 1..] == ps;
  }

  /** What a position shows: its text reads back as its balance. */
  ghost predicate ReadsBack(p: Position) {
    exists text :: p.balanceFormatted == text + " " + p.symbol && ParseUnits(text, p.decimals) == Some(p.balance)
  }

  /** A new position, before it has a balance: of the token, and with a yield of nothing if none is known. */
  function NewOne(asset: string, chainId: nat, token: Token, apy: string): Position {
    Position(chainId, asset, token.symbol, 0, "", "", token.decimals, if |apy| > 0 then apy else "0.00%")
  }

  lemma FormattedReadsBack(p: Position)
    requires p.balanceFormatted == FormatUnits(p.balance, p.decimals) + " " + p.symbol
    ensures ReadsBack(p)
  {
    ParseFormat(p.balance, p.decimals);
  }

  /**
   * A supply or withdrawal changes the balance of the position found, or of a new one at the end, by the amount
   * as the token or the position reads it, not below zero, and the text shown reads back as the new balance.
   */
  lemma ChangeIsShown(ps: seq<Position>, asset: string, chainId: nat, change: Change, token: Token)
    requires GetUpdatedPositions(ps, asset, chainId, change, token).Replaced? && !change.WithdrawAll?
    ensures var i := FindIndex(ps, asset, chainId);
            var qs := GetUpdatedPositions(ps, asset, chainId, change, token).positions;
            var before := if i < |ps| then ps[i].balance else 0;
            i < |qs| && ReadsBack(qs[i]) && qs[i].asset == asset && qs[i].chainId == chainId
            && (change.Supply? ==> ParseUnits(change.amount, token.decimals) == Some(qs[i].balance - before))
            && qs[i] == (if i < |ps| then ps[i] else NewOne(asset, chainId, token, if change.Supply? then change.apy else ""))
                 .(balance := qs[i].balance, balanceFormatted := qs[i].balanceFormatted, balanceUsd := qs[i].balanceUsd)
            && (change.Withdraw? ==> exists moved: nat :: ParseUnits(change.amount, qs[i].decimals) == Some(moved)
                                       && (if moved <= before then qs[i].balance == before - moved else qs[i].balance == 0))
  {
    hide FormatUnits, ParseUnits;
    var i := FindIndex(ps, asset, chainId);
    var q := GetUpdatedPositions(ps, asset, chainId, change, token).positions[i];
    FormattedReadsBack(q);
    if change.Withdraw? {
      var moved := ParseUnits(change.amount, ps[i].decimals).value;
      assert ParseUnits(change.amount, q.decimals) == Some(moved);
    }
  }

  /** A position whose texts are those of its balance. */
  predicate Consistent(p: Position, token: Token) {
    WithBalance(p, p.balance, token) == p
  }

  lemma FoundAgain(ps: seq<Position>, asset: string, chainId: nat, balance: nat, token: Token)
    requires FindIndex(ps, asset, chainId) < |ps|
    ensures var i := FindIndex(ps, asset, chainId);
            FindIndex(ps[i := WithBalance(ps[i], balance, token)], asset, chainId) == i
  {
    var i := FindIndex(ps, asset, chainId);
    var qs := ps[i := WithBalance(ps[i], balance, token)];
    assert qs[i].asset == asset && qs[i].chainId == chainId;
    assert forall k :: 0 <= k < i ==> qs[k] == ps[k];
  }

  /** The list with the balance of one position replaced. */
  function Put(ps: seq<Position>, i: nat, balance: nat, token: Token): (r: seq<Position>)
    requires i < |ps|
    ensures |r| == |ps|
  {
    ps[i := WithBalance(ps[i], balance, token)]
  }

  /** The token's rate gives the dollar text of the balance, or is not known, so that any text is kept. */
  ghost predicate Shown(p: Position, token: Token) {
    && Consistent(p, token)
    && (token.usd(FormatUnits(p.balance, p.decimals)).Some? || forall text :: token.usd(text).None?)
  }

  lemma PutBackIff(ps: seq<Position>, i: nat, between: nat, balance: nat, token: Token)
    requires i < |ps| && Shown(ps[i], token)
    ensures Put(Put(ps, i, between, token), i, balance, token) == ps <==> balance == ps[i].balance
  {
    hide FormatUnits;
    var qs := Put(Put(ps, i, between, token), i, balance, token);
    if balance == ps[i].balance {
      assert qs[i] == ps[i];
      assert qs == ps;
    } else {
      assert qs[i].balance != ps[i].balance;
    }
  }

  lemma SupplyPuts(ps: seq<Position>, asset: string, chainId: nat, amount: string, apy: string, token: Token)
    requires FindIndex(ps, asset, chainId) < |ps| && ParseUnits(amount, token.decimals).Some?
    ensures var i := FindIndex(ps, asset, chainId);
            GetUpdatedPositions(ps, asset, chainId, Supply(amount, apy), token) ==
            Replaced(Put(ps, i, ps[i].balance + ParseUnits(amount, token.decimals).value, token))
  {
    hide FormatUnits, ParseUnits, WithBalance;
  }

  lemma WithdrawPuts(ps: seq<Position>, asset: string, chainId: nat, amount: string, token: Token)
    requires FindIndex(ps, asset, chainId) < |ps| && ParseUnits(amount, ps[FindIndex(ps, asset, chainId)].decimals).Some?
    ensures var i := FindIndex(ps, asset, chainId);
            GetUpdatedPositions(ps, asset, chainId, Withdraw(amount), token) ==
            Replaced(Put(ps, i, Less(ps[i].balance, ParseUnits(amount, ps[i].decimals).value), token))
  {
    hide FormatUnits, ParseUnits, WithBalance;
  }

  lemma PutKeeps(ps: seq<Position>, asset: string, chainId: nat, balance: nat, token: Token)
    requires FindIndex(ps, asset, chainId) < |ps|
    ensures var i := FindIndex(ps, asset, chainId);
            var qs := Put(ps, i, balance, token);
            FindIndex(qs, asset, chainId) == i && qs[i].decimals == ps[i].decimals && qs[i].balance == balance
  {
    hide FormatUnits;
    FoundAgain(ps, asset, chainId, balance, token);
  }

  /**
   * For a position already listed, whether or not its dollar rate is known, supplying an amount and withdrawing
   * it again restores the list exactly when the amount reads the same with the decimals of the position as
   * with those of the token, or nothing was there and no more was supplied than withdrawn.
   */
  lemma SupplyThenWithdrawRestoresIff(ps: seq<Position>, asset: string, chainId: nat, amount: string, apy: string,
                                      token: Token)
    requires FindIndex(ps, asset, chainId) < |ps| && Shown(ps[FindIndex(ps, asset, chainId)], token)
    requires ParseUnits(amount, token.decimals).Some?
    requires ParseUnits(amount, ps[FindIndex(ps, asset, chainId)].decimals).Some?
    ensures var p := ps[FindIndex(ps, asset, chainId)];
            var up, down := ParseUnits(amount, token.decimals).value, ParseUnits(amount, p.decimals).value;
            var after := GetUpdatedPositions(ps, asset, chainId, Supply(amount, apy), token);
            after.Replaced? &&
            (GetUpdatedPositions(after.positions, asset, chainId, Withdraw(amount), token) == Replaced(ps)
             <==> up == down || (p.balance == 0 && up <= down))
  {
    hide FormatUnits, ParseUnits, GetUpdatedPositions, Shown, Put;
    var i := FindIndex(ps, asset, chainId);
    var up, down := ParseUnits(amount, token.decimals).value, ParseUnits(amount, ps[i].decimals).value;
    SupplyPuts(ps, asset, chainId, amount, apy, token);
    PutKeeps(ps, asset, chainId, ps[i].balance + up, token);
    WithdrawPuts(Put(ps, i, ps[i].balance + up, token), asset, chainId, amount, token);
    PutBackIff(ps, i, ps[i].balance + up, Less(ps[i].balance + up, down), token);
  }

  /** Withdrawing and supplying the same again restores the list exactly when the balance covered the withdrawal. */
  lemma WithdrawThenSupplyRestoresIff(ps: seq<Position>, asset: string, chainId: nat, amount: string, apy: string,
                                      token: Token)
    requires FindIndex(ps, asset, chainId) < |ps| && Shown(ps[FindIndex(ps, asset, chainId)], token)
    requires ParseUnits(amount, token.decimals).Some? && ps[FindIndex(ps, asset, chainId)].decimals == token.decimals
    ensures var p := ps[FindIndex(ps, asset, chainId)];
            var after := GetUpdatedPositions(ps, asset, chainId, Withdraw(amount), token);
            after.Replaced? &&
            (GetUpdatedPositions(after.positions, asset, chainId, Supply(amount, apy), token) == Replaced(ps)
             <==> ParseUnits(amount, token.decimals).value <= p.balance)
  {
    hide FormatUnits, ParseUnits, GetUpdatedPositions, Shown, Put;
    var i := FindIndex(ps, asset, chainId);
    var moved := ParseUnits(amount, token.decimals).value;
    var less := Less(ps[i].balance, moved);
    WithdrawPuts(ps, asset, chainId, amount, token);
    PutKeeps(ps, asset, chainId, less, token);
    SupplyPuts(Put(ps, i, less, token), asset, chainId, amount, apy, token);
    PutBackIff(ps, i, less, less + moved, token);
  }

  lemma OthersBeside(left: seq<Position>, middle: seq<Position>, right: seq<Position>, asset: string, chainId: nat)
    requires |middle| <= 1 && forall p :: p in middle ==> p.asset == asset && p.chainId == chainId
    ensures Filter(left + middle + right, Others(asset, chainId)) ==
            Filter(left, Others(asset, chainId)) + Filter(right, Others(asset, chainId))
  {
    FilterAppend(left + middle, right, Others(asset, chainId));
    FilterAppend(left, middle, Others(asset, chainId));
  }

  /** A change concerns one place of the list: the position found, or a new one at the end. */
  lemma OnePlaceChanges(ps: seq<Position>, asset: string, chainId: nat, change: Change, token: Token)
    returns (left: seq<Position>, was: seq<Position>, now: seq<Position>, right: seq<Position>)
    requires GetUpdatedPositions(ps, asset, chainId, change, token).Replaced?
    ensures ps == left + was + right
    ensures GetUpdatedPositions(ps, asset, chainId, change, token).positions == left + now + right
    ensures |was| <= 1 && forall p :: p in was ==> p.asset == asset && p.chainId == chainId
    ensures |now| <= 1 && forall p :: p in now ==> p.asset == asset && p.chainId == chainId
  {
    hide FormatUnits, ParseUnits, GetUpdatedPositions, WithBalance, Put;
    var i := FindIndex(ps, asset, chainId);
    left := ps[..i];
    if i == |ps| {
      var q := OnlySupplyAdds(ps, asset, chainId, change, token);
      was, now, right := [], [q], [];
    } else {
      was, right := [ps[i]], ps[i + 1..];
      assert ps == left + was + right;
      if change.WithdrawAll? {
        now := [];
        assert GetUpdatedPositions(ps, asset, chainId, change, token).positions == left + now + right by {
          WithdrawAllDrops(ps, asset, chainId, token);
        }
      } else {
        var balance := ChangePuts(ps, asset, chainId, change, token);
        now := [WithBalance(ps[i], balance, token)];
        PutReplaces(ps, i, balance, token);
      }
    }
  }

  lemma PutReplaces(ps: seq<Position>, i: nat, balance: nat, token: Token)
    requires i < |ps|
    ensures Put(ps, i, balance, token) == ps[..i] + [WithBalance(ps[i], balance, token)] + ps[i + 1..]
    ensures WithBalance(ps[i], balance, token).asset == ps[i].asset
    ensures WithBalance(ps[i], balance, token).chainId == ps[i].chainId
  {
  }

  lemma OnlySupplyAdds(ps: seq<Position>, asset: string, chainId: nat, change: Change, token: Token)
    returns (q: Position)
    requires GetUpdatedPositions(ps, asset, chainId, change, token).Replaced? && FindIndex(ps, asset, chainId) == |ps|
    ensures GetUpdatedPositions(ps, asset, chainId, change, token).positions == ps + [q]
    ensures q.asset == asset && q.chainId == chainId
  {
    hide FormatUnits, ParseUnits;
    q := NewPosition(asset, chainId, change.amount, ParseUnits(change.amount, token.decimals).value, change.apy, token);
  }

  lemma WithdrawAllDrops(ps: seq<Position>, asset: string, chainId: nat, token: Token)
    requires FindIndex(ps, asset, chainId) < |ps|
    ensures var i := FindIndex(ps, asset, chainId);
            GetUpdatedPositions(ps, asset, chainId, WithdrawAll, token) == Replaced(ps[..i] + ps[i + 1..])
  {
  }

  lemma ChangePuts(ps: seq<Position>, asset: string, chainId: nat, change: Change, token: Token) returns (balance: nat)
    requires GetUpdatedPositions(ps, asset, chainId, change, token).Replaced?
    requires FindIndex(ps, asset, chainId) < |ps| && !change.WithdrawAll?
    ensures GetUpdatedPositions(ps, asset, chainId, change, token).positions ==
            Put(ps, FindIndex(ps, asset, chainId), balance, token)
  {
    hide FormatUnits, ParseUnits, WithBalance;
    var p := ps[FindIndex(ps, asset, chainId)];
    balance := if change.Supply? then p.balance + ParseUnits(change.amount, token.decimals).value
               else Less(p.balance, ParseUnits(change.amount, p.decimals).value);
  }

  /** Whatever the change, the positions of other assets and chains stay as they are, in their order. */
  lemma OthersStay(ps: seq<Position>, asset: string, chainId: nat, change: Change, token: Token)
    requires GetUpdatedPositions(ps, asset, chainId, change, token).Replaced?
    ensures Filter(GetUpdatedPositions(ps, asset, chainId, change, token).positions, Others(asset, chainId)) ==
            Filter(ps, Others(asset, chainId))
  {
    hide GetUpdatedPositions, Filter, Others;
    var left, was, now, right := OnePlaceChanges(ps, asset, chainId, change, token);
    OthersBeside(left, was, right, asset, chainId);
    OthersBeside(left, now, right, asset, chainId);
  }

  function Others(asset: string, chainId: nat): Position -> bool {
    (p: Position) => !(p.asset == asset && p.chainId == chainId)
  }
}
