/**
 * Balances shown right after a transfer, before the chain is asked again (features/transfer-modal/utils.ts):
 * token objects are updated in place, then merged into the catalogue of all tokens.
 */
module TokenBalances {
  import opened Common
  import opened Tokens
  import opened Units

  /** An amount sent or, if add, received, with a fee; without a chain it is for the first token of the address. */
  datatype Update = Update(address: string, chainId: Option<int>, amount: string, decimals: nat, fee: Option<nat>,
                           add: bool)

  predicate Matches(u: Update, t: FT) {
    t.address == u.address && (u.chainId == None || u.chainId == Some(t.chainId))
  }

  /** The position of the first token an update is for, or the number of tokens. */
  function FindIndex(tokens: seq<FT>, u: Update): (i: nat)
    ensures i <= |tokens|
    ensures i < |tokens| ==> Matches(u, tokens[i])
    ensures forall k :: 0 <= k < i ==> !Matches(u, tokens[k])
  {
    if tokens == [] || Matches(u, tokens[0]) then 0 else 1 + FindIndex(tokens[1..], u)
  }

  predicate Hits(tokens: seq<FT>, u: Update, t: FT) {
    var i := FindIndex(tokens, u);
    i < |tokens| && tokens[i] == t
  }

  /** What an update moves: the amount in base units and the fee; nothing when the amount does not parse. */
  function Moved(u: Update): Option<nat> {
    var parsed := ParseUnits(u.amount, u.decimals);
    if parsed.None? then None else Some(parsed.value + if u.fee.Some? then u.fee.value else 0)
  }

  /** A balance never goes below zero. */
  function NewBalance(current: nat, moved: nat, add: bool): nat {
    if add then current + moved else if current > moved then current - moved else 0
  }

  /** An update that finds a token must parse. */
  predicate Parses(tokens: seq<FT>, u: Update) {
    FindIndex(tokens, u) < |tokens| ==> Moved(u).Some?
  }

  /** The balance of a token after one update. */
  function UpdatedBalance(tokens: seq<FT>, u: Update, t: FT, before: Option<nat>): Option<nat> {
    if Hits(tokens, u, t) && Moved(u).Some? then Some(NewBalance(before.UnwrapOr(0), Moved(u).value, u.add)) else before
  }

  /** The balance of a token after updates: only those that find the token count, in order. */
  function Folded(tokens: seq<FT>, updates: seq<Update>, t: FT, start: Option<nat>): Option<nat> {
    if updates == [] then start else
    UpdatedBalance(tokens, updates[|updates| - 1], t, Folded(tokens, updates[..|updates| - 1], t, start))
  }

  /** The number of updates made: all, or those before the first that throws. */
  function Made(tokens: seq<FT>, updates: seq<Update>): (n: nat)
    ensures n <= |updates|
  {
    if updates == [] then 0 else
    var n := |updates| - 1;
    var before := Made(tokens, updates[..n]);
    if before == n && Parses(tokens, updates[n]) then n + 1 else before
  }

  lemma {:induction false} MadeStops(tokens: seq<FT>, updates: seq<Update>, n: nat)
    requires n < |updates| && Made(tokens, updates[..n + 1]) <= n
    ensures Made(tokens, updates) == Made(tokens, updates[..n + 1])
  {
    if n + 1 == |updates| {
      assert updates[..n + 1] == updates;
    } else {
      hide Parses;
      assert updates[..|updates| - 1][..n + 1] == updates[..n + 1];
      MadeStops(tokens, updates[..|updates| - 1], n);
    }
  }

  /** Writes the balance of the token an update finds; an amount that does not parse throws before the write. */
  method UpdateOne(u: Update, updatedTokens: seq<FT>) returns (r: Result<seq<FT>, string>)
    modifies updatedTokens
    ensures r.Ok? <==> Parses(updatedTokens, u)
    ensures r.Ok? ==> r.value == updatedTokens
    ensures r.Err? ==> forall t :: t in updatedTokens ==> t.Contents() == old(t.Contents())
    ensures r.Ok? ==> forall t :: t in updatedTokens ==>
              t.Contents() == old(t.Contents()).(balance := UpdatedBalance(updatedTokens, u, t, old(t.balance)))
  {
    var index := FindIndex(updatedTokens, u);
    if index == |updatedTokens| {
      return Ok(updatedTokens);
    }
    var token := updatedTokens[index];
    var current := token.balance.UnwrapOr(0);
    var moved := Moved(u);
    if moved.None? {
      return Err("invalid amount");
    }
    token.balance := Some(NewBalance(current, moved.value, u.add));
    return Ok(updatedTokens[index := token]);
  }

  /** Every token's balance becomes the fold of the updates that find it; an amount that does not parse ends the loop. */
  method GetTokensWithUpdatedBalance(updates: seq<Update>, allTokens: seq<FT>) returns (r: Result<seq<FT>, string>)
    modifies allTokens
    ensures r.Ok? <==> Made(allTokens, updates) == |updates|
    ensures r.Ok? ==> r.value == allTokens
    ensures forall t :: t in allTokens ==>
              t.Contents() == old(t.Contents()).(balance :=
                Folded(allTokens, updates[..Made(allTokens, updates)], t, old(t.balance)))
  {
    hide Parses, UpdatedBalance;
    r := Ok(allTokens);
    for n := 0 to |updates|
      invariant r == Ok(allTokens)
      invariant Made(allTokens, updates[..n]) == n
      invariant forall t :: t in allTokens ==>
                  t.Contents() == old(t.Contents()).(balance := Folded(allTokens, updates[..n], t, old(t.balance)))
    {
      assert updates[..n + 1][..n] == updates[..n];
      r := UpdateOne(updates[n], r.value);
      if r.Err? {
        MadeStops(allTokens, updates, n);
        assert updates[..Made(allTokens, updates)] == updates[..n];
        return;
      }
    }
    assert updates[..|updates|] == updates;
  }

  /** One update, in numbers: the amount as its decimals tell, and the fee on top, are added or taken, down to zero. */
  lemma UpdateInNumbers(tokens: seq<FT>, u: Update, t: FT, before: Option<nat>, amount: nat)
    requires Hits(tokens, u, t) && ParseUnits(u.amount, u.decimals) == Some(amount)
    ensures var current := if before.Some? then before.value else 0;
            var moved := amount + if u.fee.Some? then u.fee.value else 0;
            UpdatedBalance(tokens, u, t, before) ==
            Some(if u.add then current + moved else if moved <= current then current - moved else 0)
    ensures Parses(tokens, u)
  {
    hide ParseUnits, FindIndex;
  }

  /** An update of a listed token throws exactly when its amount does not parse. */
  lemma ThrowsIff(tokens: seq<FT>, u: Update)
    ensures Parses(tokens, u) <==>
            ParseUnits(u.amount, u.decimals).Some? || forall i :: 0 <= i < |tokens| ==> !Matches(u, tokens[i])
  {
    hide ParseUnits;
    var i := FindIndex(tokens, u);
  }

  // ---------------------------------------------------------------- which updates count, and what they add up to

  predicate SameKey(a: FT, b: FT) {
    a.address == b.address && a.chainId == b.chainId
  }

  predicate UniqueKeys(tokens: seq<FT>) {
    forall i, j :: 0 <= i < j < |tokens| ==> !SameKey(tokens[i], tokens[j])
  }

  /** With unique keys, an update with a chain counts for a listed token exactly when it is for its address and chain. */
  lemma HitsIff(tokens: seq<FT>, u: Update, t: FT)
    requires UniqueKeys(tokens) && t in tokens && u.chainId.Some?
    ensures Hits(tokens, u, t) <==> u.address == t.address && u.chainId == Some(t.chainId)
  {
    var i := FindIndex(tokens, u);
    if u.address == t.address && u.chainId == Some(t.chainId) {
      var k :| 0 <= k < |tokens| && tokens[k] == t;
      assert Matches(u, tokens[k]);
      assert i == k by {
        if i < k {
          assert SameKey(tokens[i], tokens[k]);
        }
      }
    }
  }

  /** What the updates that find a token move in all. */
  function Total(tokens: seq<FT>, updates: seq<Update>, t: FT): nat {
    if updates == [] then 0 else
    var u := updates[|updates| - 1];
    Total(tokens, updates[..|updates| - 1], t) + if Hits(tokens, u, t) then Moved(u).UnwrapOr(0) else 0
  }

  predicate AllParse(tokens: seq<FT>, updates: seq<Update>) {
    forall i :: 0 <= i < |updates| ==> Parses(tokens, updates[i])
  }

  predicate AllAre(updates: seq<Update>, add: bool) {
    forall i :: 0 <= i < |updates| ==> updates[i].add == add
  }

  /** Amounts sent add up, however they are split: the balance falls by their total, and not below zero. */
  lemma {:induction false} SendingAddsUp(tokens: seq<FT>, updates: seq<Update>, t: FT, start: Option<nat>)
    requires AllParse(tokens, updates) && AllAre(updates, false)
    ensures Folded(tokens, updates, t, start).UnwrapOr(0) == NewBalance(start.UnwrapOr(0), Total(tokens, updates, t), false)
  {
    if updates != [] {
      hide Moved, Hits;
      SendingAddsUp(tokens, updates[..|updates| - 1], t, start);
    }
  }

  lemma {:induction false} ReceivingAddsUp(tokens: seq<FT>, updates: seq<Update>, t: FT, start: Option<nat>)
    requires AllParse(tokens, updates) && AllAre(updates, true)
    ensures Folded(tokens, updates, t, start).UnwrapOr(0) == start.UnwrapOr(0) + Total(tokens, updates, t)
  {
    if updates != [] {
      hide Moved, Hits;
      ReceivingAddsUp(tokens, updates[..|updates| - 1], t, start);
    }
  }

  /** Sending and then taking the same back restores a token's balance exactly when the balance covered it. */
  lemma RefundRestoresIff(tokens: seq<FT>, u: Update, t: FT, start: Option<nat>)
    requires !u.add && Moved(u).Some? && Hits(tokens, u, t)
    ensures AllParse(tokens, [u, u.(add := true)])
    ensures Folded(tokens, [u, u.(add := true)], t, start).UnwrapOr(0) == start.UnwrapOr(0) <==>
            Moved(u).value <= start.UnwrapOr(0)
  {
    hide Moved, FindIndex;
    SameHit(tokens, u, t);
    var sent := [u];
    assert sent + [u.(add := true)] == [u, u.(add := true)];
    assert [u, u.(add := true)][..1] == sent && sent[..0] == [];
    assert Folded(tokens, sent, t, start) == Some(NewBalance(start.UnwrapOr(0), Moved(u).value, false));
  }

  lemma SameHit(tokens: seq<FT>, u: Update, t: FT)
    ensures Moved(u.(add := true)) == Moved(u)
    ensures Hits(tokens, u.(add := true), t) == Hits(tokens, u, t)
    ensures FindIndex(tokens, u.(add := true)) == FindIndex(tokens, u)
  {
    SameIndex(tokens, u);
    hide FindIndex, ParseUnits;
  }

  lemma {:induction false} SameIndex(tokens: seq<FT>, u: Update)
    ensures FindIndex(tokens, u.(add := true)) == FindIndex(tokens, u)
  {
    if tokens != [] {
      SameIndex(tokens[1..], u);
    }
  }

  // ---------------------------------------------------------------- merging into the catalogue

  function TokenKey(t: FT): string {
    t.address + ":" + DecInt(t.chainId)
  }

  /** Keys tell tokens apart, whatever their addresses: the text of a chain holds no colon. */
  lemma SameTokenKeyIff(a: FT, b: FT)
    ensures TokenKey(a) == TokenKey(b) <==> SameKey(a, b)
  {
    if TokenKey(a) == TokenKey(b) {
      DecIntHasNoColon(a.chainId);
      DecIntHasNoColon(b.chainId);
      SameSuffix(a.address, DecInt(a.chainId), b.address, DecInt(b.chainId));
      DecIntInjective(a.chainId, b.chainId);
    }
  }

  predicate NoColon(s: string) {
    forall i :: 0 <= i < |s| ==> s[i] != ':'
  }

  lemma DecIntHasNoColon(n: int)
    ensures NoColon(DecInt(n))
  {
    hide Dec;
  }

  lemma SameSuffix(x: string, d: string, y: string, e: string)
    requires NoColon(d) && NoColon(e) && x + ":" + d == y + ":" + e
    ensures x == y && d == e
  {
    var s, r := x + ":" + d, y + ":" + e;
    assert s[|x|] == ':' && r[|y|] == ':';
    assert s[..|x|] == x && r[..|y|] == y && s[|x| + 1..] == d && r[|y| + 1..] == e;
  }

  /** The Map of updated tokens by key: of two with the same key, the later stands. */
  function ByKey(updates: seq<FT>): map<string, FT> {
    if updates == [] then map[] else
    var last := updates[|updates| - 1];
    ByKey(updates[..|updates| - 1])[TokenKey(last) := last]
  }

  function Merge(fullList: seq<FT>, updates: seq<FT>): (r: seq<FT>)
    ensures |r| == |fullList|
  {
    var byKey := ByKey(updates);
    seq(|fullList|, i requires 0 <= i < |fullList| =>
      if TokenKey(fullList[i]) in byKey then byKey[TokenKey(fullList[i])] else fullList[i])
  }

  ghost predicate LastOfKey(updates: seq<FT>, k: nat, t: FT)
    requires k < |updates|
  {
    SameKey(updates[k], t) && forall j :: k < j < |updates| ==> !SameKey(updates[j], t)
  }

  lemma {:induction false} ByKeyHolds(updates: seq<FT>, t: FT)
    ensures TokenKey(t) in ByKey(updates) <==> exists k :: 0 <= k < |updates| && SameKey(updates[k], t)
    ensures TokenKey(t) in ByKey(updates) ==>
              exists k :: 0 <= k < |updates| && LastOfKey(updates, k, t) && updates[k] == ByKey(updates)[TokenKey(t)]
  {
    hide TokenKey, DecInt;
    if updates != [] {
      var n := |updates| - 1;
      ByKeyHolds(updates[..n], t);
      SameTokenKeyIff(updates[n], t);
      if SameKey(updates[n], t) {
        assert LastOfKey(updates, n, t);
      } else if TokenKey(t) in ByKey(updates) {
        var k :| 0 <= k < n && LastOfKey(updates[..n], k, t) && updates[..n][k] == ByKey(updates[..n])[TokenKey(t)];
        forall j | k < j < |updates| ensures !SameKey(updates[j], t) {
          if j < n {
            assert updates[..n][j] == updates[j];
          }
        }
        assert LastOfKey(updates, k, t);
      }
      forall k | 0 <= k < n && SameKey(updates[k], t) ensures TokenKey(t) in ByKey(updates) {
        assert updates[..n][k] == updates[k];
      }
    }
  }

  ghost predicate Updated(updates: seq<FT>, t: FT) {
    exists k :: 0 <= k < |updates| && SameKey(updates[k], t)
  }

  /** The catalogue keeps its length, order and keys; a token is replaced exactly by the last update of its key, if any. */
  lemma MergeIsByKey(fullList: seq<FT>, updates: seq<FT>, i: nat)
    requires i < |fullList|
    ensures SameKey(Merge(fullList, updates)[i], fullList[i])
    ensures !Updated(updates, fullList[i]) ==> Merge(fullList, updates)[i] == fullList[i]
    ensures Updated(updates, fullList[i]) ==>
              exists k :: 0 <= k < |updates| && LastOfKey(updates, k, fullList[i])
                       && Merge(fullList, updates)[i] == updates[k]
  {
    ByKeyHolds(updates, fullList[i]);
  }

  lemma MergeUnique(fullList: seq<FT>, updates: seq<FT>, i: nat, t: FT)
    requires i < |fullList| && UniqueKeys(updates) && t in updates && SameKey(t, fullList[i])
    ensures Merge(fullList, updates)[i] == t
  {
    var k :| 0 <= k < |updates| && updates[k] == t;
    assert Updated(updates, fullList[i]);
    MergeIsByKey(fullList, updates, i);
  }

  /** The updates for a key, folded over a balance: what the shown balance of the key's token should be. */
  function Expected(updates: seq<Update>, address: string, chainId: int, start: Option<nat>): Option<nat>
    requires forall i :: 0 <= i < |updates| ==> Moved(updates[i]).Some?
  {
    if updates == [] then start else
    var u := updates[|updates| - 1];
    assert Moved(updates[|updates| - 1]).Some?;
    var before := Expected(updates[..|updates| - 1], address, chainId, start);
    if u.address == address && u.chainId == Some(chainId)
    then Some(NewBalance(before.UnwrapOr(0), Moved(u).value, u.add)) else before
  }

  lemma {:induction false} FoldedIsExpected(tokens: seq<FT>, updates: seq<Update>, t: FT, start: Option<nat>)
    requires UniqueKeys(tokens) && t in tokens
    requires forall i :: 0 <= i < |updates| ==> Moved(updates[i]).Some? && updates[i].chainId.Some?
    ensures AllParse(tokens, updates)
    ensures Folded(tokens, updates, t, start) == Expected(updates, t.address, t.chainId, start)
  {
    if updates != [] {
      hide Moved, Hits, FindIndex, UniqueKeys;
      FoldedIsExpected(tokens, updates[..|updates| - 1], t, start);
      HitsIff(tokens, updates[|updates| - 1], t);
    }
  }

  lemma {:induction false} MadeAll(tokens: seq<FT>, updates: seq<Update>)
    requires forall i :: 0 <= i < |updates| ==> Moved(updates[i]).Some?
    ensures Made(tokens, updates) == |updates|
  {
    hide Moved, FindIndex;
    if updates != [] {
      MadeAll(tokens, updates[..|updates| - 1]);
    }
  }

  /**
   * Updating the loaded tokens and merging them into the catalogue: each catalogue position keeps its key, and
   * shows the loaded token of its key with the balance after exactly the updates for that key, in order;
   * positions without a loaded token show what they showed.
   */
  method UpdateAndMerge(updates: seq<Update>, inited: seq<FT>, catalogue: seq<FT>) returns (r: seq<FT>)
    requires UniqueKeys(inited)
    requires forall i :: 0 <= i < |updates| ==> Moved(updates[i]).Some? && updates[i].chainId.Some?
    modifies inited
    ensures |r| == |catalogue|
    ensures forall i :: 0 <= i < |r| ==> SameKey(r[i], catalogue[i])
    ensures forall i, t :: 0 <= i < |r| && t in inited && SameKey(t, catalogue[i]) ==>
              r[i] == t && t.Contents() ==
                old(t.Contents()).(balance := Expected(updates, t.address, t.chainId, old(t.balance)))
    ensures forall i :: 0 <= i < |r| && !Updated(inited, catalogue[i]) ==>
              r[i] == catalogue[i] && r[i].Contents() == old(r[i].Contents())
  {
    hide Moved, TokenKey, UniqueKeys;
    MadeAll(inited, updates);
    var updated := GetTokensWithUpdatedBalance(updates, inited);
    assert updates[..|updates|] == updates;
    forall t | t in inited
      ensures t.Contents() == old(t.Contents()).(balance := Expected(updates, t.address, t.chainId, old(t.balance)))
    {
      FoldedIsExpected(inited, updates, t, old(t.balance));
    }
    r := Merge(catalogue, updated.value);
    forall i | 0 <= i < |r|
      ensures SameKey(r[i], catalogue[i])
      ensures !Updated(inited, catalogue[i]) ==> r[i] == catalogue[i] && r[i] !in inited
    {
      MergeIsByKey(catalogue, inited, i);
      if r[i] in inited {
        assert Updated(inited, catalogue[i]);
      }
    }
    forall i, t | 0 <= i < |r| && t in inited && SameKey(t, catalogue[i]) ensures r[i] == t {
      MergeUnique(catalogue, inited, i, t);
    }
  }
}
