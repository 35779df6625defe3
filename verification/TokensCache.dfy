/** Saving the loaded fields of tokens and putting them back (integration/ft/ft-service.ts). */
module TokensCache {
  import opened Common
  import opened Tokens
  import opened Units

  const EVM_NATIVE := "evm-native"

  /** A field of the saved text: left out, null, or a text. */
  datatype Field = Missing | NullField | Text(text: string)

  /** One saved token; entries saved before chains were recorded have no chain. */
  datatype Data = Data(address: string, chainId: Option<int>, balance: Option<string>, rate: Field,
                       dayChangePercent: Option<string>, dayChangePositive: Option<bool>, inited: bool)

  datatype DayChange = DayChange(value: string, positive: bool)

  /** The change over a day as tokens show it: none unless there is a text for it. */
  function DayChangeOf(rate: Rate): Option<DayChange> {
    if rate.Rate? && rate.dayChangePercent.Some? && rate.dayChangePercent.value != ""
    then Some(DayChange(rate.dayChangePercent.value, rate.dayChangePositive == Some(true))) else None
  }

  function SaveRate(rate: Rate): Field {
    match rate
    case Unset => Missing
    case Null => NullField
    case Rate(value, _, _) => Text(value)
  }

  function Save(v: View): Data {
    var change := DayChangeOf(v.rate);
    Data(v.address, Some(v.chainId), if v.balance.Some? then Some(Dec(v.balance.value)) else None, SaveRate(v.rate),
         if change.Some? then Some(change.value.value) else None,
         if change.Some? then Some(change.value.positive) else None, v.inited)
  }

  function Serialize(tokens: seq<FT>): (r: seq<Data>)
    reads tokens
    ensures r == SaveAll(Views(tokens))
  {
    seq(|tokens|, i requires 0 <= i < |tokens| reads tokens => Save(tokens[i].Contents()))
  }

  function SaveAll(vs: seq<View>): (r: seq<Data>)
    ensures |r| == |vs| && forall i :: 0 <= i < |vs| ==> r[i] == Save(vs[i])
  {
    seq(|vs|, i requires 0 <= i < |vs| => Save(vs[i]))
  }

  /** An entry is for a token of its address and chain; one without a chain is for any, but no EVM native coin. */
  predicate Matches(d: Data, address: string, chainId: int) {
    d.address == address &&
    (if d.address == EVM_NATIVE then d.chainId == Some(chainId) else d.chainId == None || d.chainId == Some(chainId))
  }

  /** The position of the first entry for a token, or the length. */
  function Find(cached: seq<Data>, address: string, chainId: int): (i: nat)
    ensures i <= |cached|
    ensures i < |cached| ==> Matches(cached[i], address, chainId)
    ensures forall k :: 0 <= k < i ==> !Matches(cached[k], address, chainId)
  {
    if cached == [] || Matches(cached[0], address, chainId) then 0 else 1 + Find(cached[1..], address, chainId)
  }

  /** Balances are saved as digits. */
  predicate WellFormed(d: Data) {
    d.balance.Some? ==> IsDigits(d.balance.value)
  }

  predicate AllWellFormed(cached: seq<Data>) {
    forall i :: 0 <= i < |cached| ==> WellFormed(cached[i])
  }

  function Apply(d: Data, v: View): View
    requires WellFormed(d)
  {
    View(v.address, v.chainId,
         if d.balance.Some? && d.balance.value != "" then Some(Val(d.balance.value)) else v.balance,
         match d.rate
         case Missing => v.rate
         case NullField => Null
         case Text(text) => Rate(text, d.dayChangePercent, d.dayChangePositive),
         d.inited)
  }

  function Restore(cached: seq<Data>, v: View): View
    requires AllWellFormed(cached)
  {
    var i := Find(cached, v.address, v.chainId);
    if i < |cached| then Apply(cached[i], v) else v
  }

  lemma RestoreTwice(cached: seq<Data>, v: View)
    requires AllWellFormed(cached)
    ensures Restore(cached, Restore(cached, v)) == Restore(cached, v)
  {
  }

  /** Writes the saved fields of one token. */
  method RestoreOne(cached: seq<Data>, token: FT)
    requires AllWellFormed(cached)
    modifies token
    ensures token.Contents() == Restore(cached, old(token.Contents()))
  {
    var i := Find(cached, token.address, token.chainId);
    if i == |cached| {
      return;
    }
    var data := cached[i];
    if data.balance.Some? && data.balance.value != "" {
      token.balance := Some(Val(data.balance.value));
    }
    if data.rate != Missing {
      if data.rate != NullField {
        token.rate := Rate(data.rate.text, data.dayChangePercent, data.dayChangePositive);
      } else {
        token.rate := Null;
      }
    }
    token.inited := data.inited;
  }

  /** Tokens are written in place, one after the other; the same token may be listed more than once. */
  method Deserialize(cached: seq<Data>, tokens: seq<FT>) returns (r: seq<FT>)
    requires AllWellFormed(cached)
    modifies tokens
    ensures r == tokens
    ensures forall t :: t in tokens ==> t.Contents() == Restore(cached, old(t.Contents()))
  {
    hide Restore, AllWellFormed;
    for n := 0 to |tokens|
      invariant forall t :: t in tokens[..n] ==> t.Contents() == Restore(cached, old(t.Contents()))
      invariant forall t :: t in tokens && t !in tokens[..n] ==> t.Contents() == old(t.Contents())
    {
      RestoreTwice(cached, old(tokens[n].Contents()));
      RestoreOne(cached, tokens[n]);
      assert tokens[..n + 1] == tokens[..n] + [tokens[n]];
    }
    assert tokens[..|tokens|] == tokens;
    return tokens;
  }

  // ---------------------------------------------------------------- the round trip

  /** A rate as it comes back: the change over a day only if there is a text for it, its sign always known. */
  function Normal(rate: Rate): Rate {
    if rate.Rate? then
      var change := DayChangeOf(rate);
      Rate(rate.value, if change.Some? then Some(change.value.value) else None,
           if change.Some? then Some(change.value.positive) else None)
    else rate
  }

  /** No earlier token has the address and chain of token i. */
  predicate FirstOfItsKey(vs: seq<View>, i: nat)
    requires i < |vs|
  {
    forall k :: 0 <= k < i ==> !SameToken(vs[k], vs[i])
  }

  lemma SavedWellFormed(vs: seq<View>)
    ensures AllWellFormed(SaveAll(vs))
  {
  }

  /**
   * What was saved comes back on a token with the same address and chain: the balance unless it was unset,
   * zero included, the rate unless it was unset, null included, and the flag always.
   */
  lemma SavedIsRestored(vs: seq<View>, i: nat, v: View)
    requires i < |vs| && FirstOfItsKey(vs, i) && SameToken(vs[i], v)
    ensures AllWellFormed(SaveAll(vs))
    ensures Restore(SaveAll(vs), v) ==
            View(v.address, v.chainId, if vs[i].balance.Some? then vs[i].balance else v.balance,
                 if vs[i].rate.Unset? then v.rate else Normal(vs[i].rate), vs[i].inited)
  {
    var cached := SaveAll(vs);
    var j := Find(cached, v.address, v.chainId);
    assert Matches(cached[i], v.address, v.chainId);
    assert j == i by {
      if j < i {
        assert SameToken(vs[j], vs[i]);
      }
    }
    if vs[i].balance.Some? {
      ValDec(vs[i].balance.value);
    }
  }

  /** On a fresh token everything comes back, so that saving again gives the same text. */
  lemma FreshIsRestored(vs: seq<View>, i: nat, target: View)
    requires i < |vs| && FirstOfItsKey(vs, i) && target == View(vs[i].address, vs[i].chainId, None, Unset, false)
    ensures AllWellFormed(SaveAll(vs))
    ensures Restore(SaveAll(vs), target) == vs[i].(rate := Normal(vs[i].rate))
    ensures Save(Restore(SaveAll(vs), target)) == Save(vs[i])
    ensures DayChangeOf(Restore(SaveAll(vs), target).rate) == DayChangeOf(vs[i].rate)
  {
    SavedIsRestored(vs, i, target);
  }

  /** A token that was not saved is left as it is. */
  lemma AbsentIsUntouched(vs: seq<View>, v: View)
    requires forall i :: 0 <= i < |vs| ==> !SameToken(vs[i], v)
    ensures AllWellFormed(SaveAll(vs)) && Restore(SaveAll(vs), v) == v
  {
    var cached := SaveAll(vs);
    var j := Find(cached, v.address, v.chainId);
    if j < |cached| {
      assert SameToken(vs[j], v);
    }
  }

  /** The whole cycle: saved tokens with distinct keys, put back on fresh tokens for the same keys. */
  method SaveAndLoad(saved: seq<FT>, blank: seq<FT>) returns (r: seq<FT>)
    requires |blank| == |saved|
    requires forall i, j :: 0 <= i < j < |saved| ==> !SameToken(saved[i].Contents(), saved[j].Contents())
    requires forall i :: 0 <= i < |saved| ==>
               blank[i].Contents() == View(saved[i].address, saved[i].chainId, None, Unset, false) && blank[i] !in saved
    modifies blank
    ensures r == blank
    ensures forall i :: 0 <= i < |saved| ==>
              blank[i].Contents() == old(saved[i].Contents()).(rate := Normal(old(saved[i].rate)))
    ensures Serialize(blank) == old(Serialize(saved))
  {
    var cached := Serialize(saved);
    ghost var vs := Views(saved);
    SavedWellFormed(vs);
    forall i | 0 <= i < |saved|
      ensures Restore(cached, blank[i].Contents()) == vs[i].(rate := Normal(vs[i].rate))
      ensures Save(Restore(cached, blank[i].Contents())) == Save(vs[i])
    {
      FreshIsRestored(vs, i, blank[i].Contents());
    }
    r := Deserialize(cached, blank);
  }

  /** The rate of a restored token, field by field: the day change is kept with its text, and its sign is then known. */
  lemma RateComesBack(vs: seq<View>, i: nat, target: View, value: string, percent: Option<string>, positive: Option<bool>)
    requires i < |vs| && FirstOfItsKey(vs, i) && target == View(vs[i].address, vs[i].chainId, None, Unset, false)
    requires vs[i].rate == Rate(value, percent, positive)
    ensures AllWellFormed(SaveAll(vs))
    ensures Restore(SaveAll(vs), target).rate ==
            if percent.Some? && |percent.value| > 0 then Rate(value, percent, Some(positive == Some(true)))
            else Rate(value, None, None)
  {
    FreshIsRestored(vs, i, target);
  }

  /**
   * A saved entry counts for a token of its address and chain, and an entry saved without a chain for a token of its
   * address on any chain, except for the native coins of EVM chains, which share one address.
   */
  lemma EntryCountsIff(d: Data, v: View)
    ensures Find([d], v.address, v.chainId) == 0 <==>
            d.address == v.address &&
            (d.chainId == Some(v.chainId) || (d.chainId == None && v.address != "evm-native"))
  {
  }
}
