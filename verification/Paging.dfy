/**
 * Pages of token approvals: the service that flattens and slices them (integration/ft/ft-service.ts), the
 * reducer that accumulates them (features/permissions/utils.ts), and the page that loads them
 * (features/permissions/index.tsx).
 */
module Paging {
  import opened Common

  const PAGE_SIZE: nat := 10

  datatype Token = Token(address: string, decimals: nat)

  datatype Detail = Detail(toSpender: string, allowance: nat)

  datatype Item = Item(token: Token, detail: Detail)

  /** Asking a token for its approvals; it may fail. */
  type Source = Token -> Result<seq<Detail>, string>

  // ---------------------------------------------------------------- the service

  function ItemsOf(token: Token, details: seq<Detail>): (r: seq<Item>)
    ensures |r| == |details|
  {
    seq(|details|, i requires 0 <= i < |details| => Item(token, details[i]))
  }

  predicate AllAnswer(tokens: seq<Token>, source: Source) {
    forall i :: 0 <= i < |tokens| ==> source(tokens[i]).Ok?
  }

  /** All approvals, token by token. */
  function Flatten(tokens: seq<Token>, source: Source): seq<Item>
    requires AllAnswer(tokens, source)
  {
    if tokens == [] then [] else
    var n := |tokens| - 1;
    assert AllAnswer(tokens[..n], source);
    Flatten(tokens[..n], source) + ItemsOf(tokens[n], source(tokens[n]).value)
  }

  lemma {:induction false} FlattenOfPart(tokens: seq<Token>, source: Source, i: nat)
    requires i <= |tokens| && AllAnswer(tokens, source)
    ensures AllAnswer(tokens[..i], source)
    ensures Flatten(tokens[..i], source) <= Flatten(tokens, source)
  {
    if i == |tokens| {
      assert tokens[..i] == tokens;
    } else {
      var n := |tokens| - 1;
      assert AllAnswer(tokens[..n], source);
      FlattenOfPart(tokens[..n], source, i);
      assert tokens[..n][..i] == tokens[..i];
    }
  }

  /** The approvals of a token come, in the token's order, right after those of the tokens before it. */
  lemma FlattenAt(tokens: seq<Token>, source: Source, i: nat)
    requires i < |tokens| && AllAnswer(tokens, source)
    ensures AllAnswer(tokens[..i], source) && AllAnswer(tokens[..i + 1], source)
    ensures var all, before, details := Flatten(tokens, source), |Flatten(tokens[..i], source)|, source(tokens[i]).value;
            && |Flatten(tokens[..i + 1], source)| == before + |details| <= |all|
            && forall k :: 0 <= k < |details| ==> all[before + k] == Item(tokens[i], details[k])
  {
    FlattenOfPart(tokens, source, i);
    FlattenOfPart(tokens, source, i + 1);
    assert tokens[..i + 1][..i] == tokens[..i];
    var part := Flatten(tokens[..i + 1], source);
    assert part == Flatten(tokens[..i], source) + ItemsOf(tokens[i], source(tokens[i]).value);
    assert forall k :: 0 <= k < |part| ==> Flatten(tokens, source)[k] == part[k];
  }

  function Min(a: nat, b: nat): nat {
    if a < b then a else b
  }

  /** A slice, as JavaScript takes it: bounds past the end stop at the end. */
  function Slice<T>(s: seq<T>, from: nat, to: nat): seq<T>
    requires from <= to
  {
    s[Min(from, |s|)..Min(to, |s|)]
  }

  /**
   * Tokens are asked chunk by chunk, all of a chunk before any approval of the chunk is kept.
   * The outcome does not depend on the chunk size.
   */
  method GetIcrc2Allowances(tokens: seq<Token>, source: Source, offset: nat, limit: nat, chunkSize: nat)
    returns (r: Result<seq<Item>, string>)
    requires chunkSize > 0
    ensures r.Ok? <==> AllAnswer(tokens, source)
    ensures r.Err? ==> exists i :: 0 <= i < |tokens| && source(tokens[i]) == Err(r.error)
    ensures r.Ok? ==> r.value == Slice(Flatten(tokens, source), offset, offset + limit)
  {
    var allFlattened: seq<Item> := [];
    var i := 0;
    while i < |tokens|
      invariant AllAnswer(tokens[..Min(i, |tokens|)], source)
      invariant allFlattened == Flatten(tokens[..Min(i, |tokens|)], source)
    {
      var end := Min(i + chunkSize, |tokens|);
      for k := i to end
        invariant AllAnswer(tokens[..k], source)
      {
        if source(tokens[k]).Err? {
          return Err(source(tokens[k]).error);
        }
      }
      for k := i to end
        invariant AllAnswer(tokens[..end], source) && AllAnswer(tokens[..k], source)
        invariant allFlattened == Flatten(tokens[..k], source)
      {
        assert tokens[..end][k] == tokens[k];
        assert tokens[..k + 1][..k] == tokens[..k];
        allFlattened := allFlattened + ItemsOf(tokens[k], source(tokens[k]).value);
      }
      i := i + chunkSize;
    }
    assert tokens[..|tokens|] == tokens;
    return Ok(Slice(allFlattened, offset, offset + limit));
  }

  // ---------------------------------------------------------------- the reducer

  datatype State = State(page: nat, hasMore: bool, isLoadingMore: bool, allowancesList: seq<Item>)

  datatype Action =
    | Reset(list: seq<Item>)
    | LoadMoreStart
    | LoadMoreSuccess(list: seq<Item>)
    | RemoveAllowance(token: Token, address: string)
    | UpdateAllowance(token: Token, address: string, amount: nat)

  predicate Matches(item: Item, token: Token, address: string) {
    item.token.address == token.address && item.detail.toSpender == address
  }

  function Others(token: Token, address: string): Item -> bool {
    (item: Item) => !Matches(item, token, address)
  }

  function WithAmount(item: Item, amount: nat): Item {
    item.(detail := item.detail.(allowance := amount))
  }

  function Update(list: seq<Item>, token: Token, address: string, amount: nat): (r: seq<Item>)
    ensures |r| == |list|
  {
    seq(|list|, i requires 0 <= i < |list| =>
      if Matches(list[i], token, address) then WithAmount(list[i], amount) else list[i])
  }

  function Reduce(s: State, a: Action): State {
    match a
    case Reset(list) => State(1, |list| == PAGE_SIZE, false, list)
    case LoadMoreStart => s.(isLoadingMore := true)
    case LoadMoreSuccess(list) =>
      State(s.page + 1, |list| == PAGE_SIZE, false, s.allowancesList + list)
    case RemoveAllowance(token, address) =>
      s.(allowancesList := Filter(s.allowancesList, Others(token, address)))
    case UpdateAllowance(token, address, amount) =>
      s.(allowancesList := Update(s.allowancesList, token, address, amount))
  }

  // ---------------------------------------------------------------- loading page after page

  /** The page asks for more: the batch is dispatched, or an empty one when asking fails. */
  function LoadMore(full: seq<Item>, s: State, ok: bool): State {
    if !s.hasMore then s else
    var asking := Reduce(s, LoadMoreStart);
    var batch := if ok then Slice(full, asking.page * PAGE_SIZE, asking.page * PAGE_SIZE + PAGE_SIZE) else [];
    Reduce(asking, LoadMoreSuccess(batch))
  }

  /** The first page, then one attempt to load more for each element, which says whether it succeeds. */
  function Loaded(full: seq<Item>, attempts: seq<bool>): State {
    if attempts == [] then Reduce(State(0, false, false, []), Reset(Slice(full, 0, PAGE_SIZE))) else
    LoadMore(full, Loaded(full, attempts[..|attempts| - 1]), attempts[|attempts| - 1])
  }

  /** All is loaded up to the current page, and more is expected when that page is full. */
  predicate UpToDate(full: seq<Item>, s: State) {
    && s.page >= 1 && !s.isLoadingMore
    && s.allowancesList == full[..Min(s.page * PAGE_SIZE, |full|)]
    && (s.hasMore <==> s.page * PAGE_SIZE <= |full|)
  }

  /** A load failed: loading has stopped, one page short of where the page number stands. */
  predicate CutShort(full: seq<Item>, s: State) {
    && s.page >= 2 && !s.isLoadingMore && !s.hasMore
    && (s.page - 1) * PAGE_SIZE <= |full| && s.allowancesList == full[..(s.page - 1) * PAGE_SIZE]
  }

  lemma LoadMoreKeeps(full: seq<Item>, s: State, ok: bool)
    requires UpToDate(full, s) || CutShort(full, s)
    ensures UpToDate(full, LoadMore(full, s, ok)) || CutShort(full, LoadMore(full, s, ok))
    ensures UpToDate(full, s) && ok ==> UpToDate(full, LoadMore(full, s, ok))
    ensures UpToDate(full, s) && s.hasMore && ok ==> LoadMore(full, s, ok).page == s.page + 1
  {
    if s.hasMore {
      var from := s.page * PAGE_SIZE;
      assert full[..from] + full[from..Min(from + PAGE_SIZE, |full|)] == full[..Min(from + PAGE_SIZE, |full|)];
      assert full[..from] + [] == full[..from];
    }
  }

  lemma {:induction false} LoadedIsPaged(full: seq<Item>, attempts: seq<bool>)
    ensures UpToDate(full, Loaded(full, attempts)) || CutShort(full, Loaded(full, attempts))
    ensures (forall i :: 0 <= i < |attempts| ==> attempts[i]) ==> UpToDate(full, Loaded(full, attempts))
  {
    hide UpToDate, CutShort, LoadMore;
    if attempts == [] {
      FirstPage(full);
    } else {
      LoadedIsPaged(full, attempts[..|attempts| - 1]);
      LoadMoreKeeps(full, Loaded(full, attempts[..|attempts| - 1]), attempts[|attempts| - 1]);
    }
  }

  lemma FirstPage(full: seq<Item>)
    ensures UpToDate(full, Loaded(full, []))
  {
  }

  /** However loads succeed and fail, the list is the beginning of the full list, and loading is over after each. */
  lemma ListIsPrefix(full: seq<Item>, attempts: seq<bool>)
    ensures Loaded(full, attempts).allowancesList <= full && !Loaded(full, attempts).isLoadingMore
  {
    LoadedIsPaged(full, attempts);
  }

  /** Without failures, the list shows everything exactly when no more is expected, but for an empty last page. */
  lemma NoMoreMeansComplete(full: seq<Item>, attempts: seq<bool>)
    requires forall i :: 0 <= i < |attempts| ==> attempts[i]
    ensures !Loaded(full, attempts).hasMore ==> Loaded(full, attempts).allowancesList == full
    ensures Loaded(full, attempts).hasMore && Loaded(full, attempts).allowancesList == full ==>
              |full| == Loaded(full, attempts).page * PAGE_SIZE
  {
    LoadedIsPaged(full, attempts);
  }

  lemma StoppedStays(full: seq<Item>, attempts: seq<bool>, later: seq<bool>)
    requires !Loaded(full, attempts).hasMore
    ensures Loaded(full, attempts + later) == Loaded(full, attempts)
    decreases |later|
  {
    if later == [] {
      assert attempts + later == attempts;
    } else {
      StoppedStays(full, attempts, later[..|later| - 1]);
      assert (attempts + later)[..|attempts + later| - 1] == attempts + later[..|later| - 1];
    }
  }

  /**
   * When a load fails, loading stops for good, and what is shown is complete exactly when the pages
   * loaded before the failure were the whole list.
   */
  lemma FailureStopsLoading(full: seq<Item>, before: seq<bool>, later: seq<bool>)
    requires (forall i :: 0 <= i < |before| ==> before[i]) && Loaded(full, before).hasMore
    ensures var s := Loaded(full, before + [false] + later);
            s.allowancesList == Loaded(full, before).allowancesList && !s.hasMore
            && (s.allowancesList == full <==> |full| == (|before| + 1) * PAGE_SIZE)
  {
    hide Loaded;
    AllLoaded(full, before);
    LoadedFail(full, before);
    StoppedStays(full, before + [false], later);
  }

  lemma LoadedFail(full: seq<Item>, before: seq<bool>)
    requires Loaded(full, before).hasMore
    ensures var s := Loaded(full, before + [false]);
            !s.hasMore && s.allowancesList == Loaded(full, before).allowancesList
  {
    assert (before + [false])[..|before|] == before;
  }

  /** While loads succeed and more is expected, each load moves one page on. */
  lemma {:induction false} AllLoaded(full: seq<Item>, attempts: seq<bool>)
    requires forall i :: 0 <= i < |attempts| ==> attempts[i]
    ensures UpToDate(full, Loaded(full, attempts))
    ensures Loaded(full, attempts).hasMore ==> Loaded(full, attempts).page == |attempts| + 1
  {
    LoadedIsPaged(full, attempts);
    if attempts != [] {
      AllLoaded(full, attempts[..|attempts| - 1]);
    }
  }

  /** Loading stops: after a tenth as many attempts as there are approvals, no more is expected. */
  lemma LoadingStops(full: seq<Item>, attempts: seq<bool>)
    requires |attempts| * PAGE_SIZE + PAGE_SIZE > |full|
    ensures !Loaded(full, attempts).hasMore
  {
    MoreMeansAllLoaded(full, attempts);
    if Loaded(full, attempts).hasMore {
      AllLoaded(full, attempts);
    }
  }

  lemma {:induction false} MoreMeansAllLoaded(full: seq<Item>, attempts: seq<bool>)
    ensures Loaded(full, attempts).hasMore ==> forall i :: 0 <= i < |attempts| ==> attempts[i]
  {
    if attempts != [] {
      MoreMeansAllLoaded(full, attempts[..|attempts| - 1]);
    }
  }

  // ---------------------------------------------------------------- removing and updating

  lemma {:induction false} RemoveForgetsUpdate(list: seq<Item>, token: Token, address: string, amount: nat)
    ensures Filter(Update(list, token, address, amount), Others(token, address)) == Filter(list, Others(token, address))
  {
    if list != [] {
      RemoveForgetsUpdate(list[1..], token, address, amount);
      assert Update(list, token, address, amount)[1..] == Update(list[1..], token, address, amount);
    }
  }

  lemma RemovedIsGone(list: seq<Item>, token: Token, address: string)
    ensures forall item :: item in Filter(list, Others(token, address)) ==> !Matches(item, token, address)
  {
    forall item | item in Filter(list, Others(token, address)) ensures !Matches(item, token, address) {
      FilterMember(list, Others(token, address), item);
    }
  }

  /**
   * Removing an approval makes an earlier update of it immaterial and a later one idle; of two updates
   * the second stands. None of the three touches the paging.
   */
  lemma RemoveAndUpdateLaws(s: State, token: Token, address: string, amount: nat, other: nat)
    ensures var remove, update := RemoveAllowance(token, address), UpdateAllowance(token, address, amount);
            Reduce(Reduce(s, update), remove) == Reduce(s, remove) &&
            Reduce(Reduce(s, remove), update) == Reduce(s, remove) &&
            Reduce(Reduce(s, UpdateAllowance(token, address, other)), update) == Reduce(s, update)
  {
    var list := s.allowancesList;
    RemoveForgetsUpdate(list, token, address, amount);
    RemovedIsGone(list, token, address);
    var kept := Filter(list, Others(token, address));
    assert forall i :: 0 <= i < |kept| ==> kept[i] in kept;
    assert Update(kept, token, address, amount) == kept;
    assert Update(Update(list, token, address, other), token, address, amount) == Update(list, token, address, amount);
  }

  /**
   * Removing takes out the approvals of that token to that spender and no others; updating writes the amount of
   * those and of no others; and starting to load shows it.
   */
  lemma ActionsConcern(s: State, token: Token, address: string, amount: nat, i: nat)
    requires i < |s.allowancesList|
    ensures var item := s.allowancesList[i];
            var concerned := item.token.address == token.address && item.detail.toSpender == address;
            var updated := Reduce(s, UpdateAllowance(token, address, amount)).allowancesList;
            && (item in Reduce(s, RemoveAllowance(token, address)).allowancesList <==> !concerned)
            && |updated| == |s.allowancesList|
            && updated[i] == (if concerned then Item(item.token, Detail(item.detail.toSpender, amount)) else item)
    ensures Reduce(s, LoadMoreStart) == s.(isLoadingMore := true)
  {
    FilterMember(s.allowancesList, Others(token, address), s.allowancesList[i]);
  }
}
