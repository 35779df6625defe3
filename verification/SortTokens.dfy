/**
 * The order of the token list (integration/ft/ft-service.ts, sortTokens): tokens are taken out of the list
 * in place, and the result is one stable sort by a single key.
 */
module SortTokens {
  import opened Common
  import InsertionSort

  datatype Category =
    | Sns | ChainFusion | Known | Native | Erc20 | Community | Spam | ChainFusionTestnet | Testnet
    | Unlisted(name: string)

  /** A token object; ref tells objects with the same address and category apart. */
  datatype Token = Token(ref: nat, address: string, category: Category)

  const ICP := "ryjl3-tyaaa-aaaaa-aaaba-cai"
  const BTC := "btc-native"
  const ETH := "eth-native"
  const NFIDW := "mih44-vaaaa-aaaaq-aaekq-cai"
  const CKBTC := "mxzaz-hqaaa-aaaar-qaada-cai"
  const CKETH := "ss2fx-dyaaa-aaaar-qacoq-cai"

  const TOP_NATIVE_IDS: seq<string> := [ICP, BTC, ETH]
  const NFID_IDS: seq<string> := [NFIDW, CKBTC, CKETH]

  /** categoryOrder; a category without an entry comes last. */
  function Rank(c: Category): (r: nat)
    ensures 1 <= r <= 10
  {
    match c
    case Native => 1
    case ChainFusion => 2
    case Sns => 3
    case Known => 4
    case Community => 5
    case Erc20 => 6
    case ChainFusionTestnet => 7
    case Testnet => 8
    case Spam => 9
    case Unlisted(_) => 10
  }

  const CATEGORIES: seq<Category> :=
    [Native, ChainFusion, Sns, Known, Community, Erc20, ChainFusionTestnet, Testnet, Spam]

  /** The categories in their order; any other comes after them all. */
  lemma CategoriesInOrder(i: nat, j: nat, name: string)
    requires i < |CATEGORIES| && j < |CATEGORIES|
    ensures Rank(CATEGORIES[i]) < Rank(CATEGORIES[j]) <==> i < j
    ensures Rank(CATEGORIES[i]) < Rank(Unlisted(name))
  {
  }

  // ---------------------------------------------------------------- the algorithm's pieces

  function Find(s: seq<Token>, id: string): (r: Option<Token>)
    ensures r.Some? ==> r.value in s && r.value.address == id
  {
    if s == [] then None else if s[0].address == id then Some(s[0]) else Find(s[1..], id)
  }

  function FindAll(s: seq<Token>, ids: seq<string>): seq<Token> {
    if ids == [] then [] else FindAll(s, ids[..|ids| - 1]) + ToSeq(Find(s, ids[|ids| - 1]))
  }

  /** tokens.splice(tokens.indexOf(t), 1) for a token of the list. */
  function Without(s: seq<Token>, t: Token): seq<Token> {
    if s == [] then [] else if s[0] == t then s[1..] else [s[0]] + Without(s[1..], t)
  }

  function WithoutAll(s: seq<Token>, ts: seq<Token>): seq<Token> {
    if ts == [] then s else Without(WithoutAll(s, ts[..|ts| - 1]), ts[|ts| - 1])
  }

  function RankLeq(): (Token, Token) -> bool {
    (t: Token, u: Token) => Rank(t.category) <= Rank(u.category)
  }

  /** A stable sort by category rank. */
  function SortByRank(s: seq<Token>): seq<Token> {
    InsertionSort.Sort(s, RankLeq())
  }

  function Insert(t: Token, s: seq<Token>): seq<Token> {
    InsertionSort.Insert(t, s, RankLeq())
  }

  function IsNative(): Token -> bool {
    (t: Token) => t.category == Native
  }

  function IsOther(): Token -> bool {
    (t: Token) => t.category != Native
  }

  function HasRank(rank: nat): Token -> bool {
    (t: Token) => Rank(t.category) == rank
  }

  class TokenList {
    var items: seq<Token>

    method IndexOf(t: Token) returns (i: int)
      requires t in items
      ensures 0 <= i < |items| && items[i] == t && t !in items[..i]
    {
      i := 0;
      while items[i] != t
        invariant 0 <= i < |items| && t !in items[..i]
        decreases |items| - i
      {
        i := i + 1;
      }
    }

    /** The first token of each address, where there is one. */
    method FindFirsts(ids: seq<string>) returns (found: seq<Token>)
      ensures found == FindAll(items, ids)
    {
      found := [];
      for k := 0 to |ids|
        invariant found == FindAll(items, ids[..k])
      {
        assert ids[..k + 1][..k] == ids[..k];
        found := found + ToSeq(Find(items, ids[k]));
      }
      assert ids[..|ids|] == ids;
    }

    /** Take tokens out of the list, one after the other. */
    method Remove(taken: seq<Token>)
      requires forall k :: 0 <= k < |taken| ==> taken[k] in WithoutAll(items, taken[..k])
      modifies this
      ensures items == WithoutAll(old(items), taken)
    {
      for k := 0 to |taken|
        invariant items == WithoutAll(old(items), taken[..k])
      {
        assert taken[..k + 1][..k] == taken[..k];
        var i := IndexOf(taken[k]);
        SpliceIsWithout(items, taken[k], i);
        items := items[..i] + items[i + 1..];
      }
      assert taken[..|taken|] == taken;
    }

    method TakeFirsts(ids: seq<string>) returns (taken: seq<Token>)
      requires Distinct(ids)
      modifies this
      ensures taken == FindAll(old(items), ids)
      ensures items == WithoutAll(old(items), taken)
    {
      taken := FindFirsts(ids);
      forall k | 0 <= k < |taken| ensures taken[k] in WithoutAll(items, taken[..k]) {
        StillThere(items, ids, k);
      }
      Remove(taken);
    }

    method SortTokens() returns (sorted: seq<Token>)
      modifies this
      ensures sorted == Sorted(old(items))
      ensures sorted == ByKey(old(items), 0)
    {
      SortedIsByKey(items);
      IdsAreDistinct();
      var topNative := TakeFirsts(TOP_NATIVE_IDS);
      var afterNative := TakeFirsts(NFID_IDS);
      var remainingNative := Filter(items, IsNative());
      var others := Filter(items, IsOther());
      sorted := topNative + remainingNative + afterNative + SortByRank(others);
    }
  }

  function Sorted(s: seq<Token>): seq<Token> {
    var topNative := FindAll(s, TOP_NATIVE_IDS);
    var left := WithoutAll(s, topNative);
    var afterNative := FindAll(left, NFID_IDS);
    var rest := WithoutAll(left, afterNative);
    topNative + Filter(rest, IsNative()) + afterNative
      + SortByRank(Filter(rest, IsOther()))
  }

  predicate Distinct(ids: seq<string>) {
    forall i, j :: 0 <= i < j < |ids| ==> ids[i] != ids[j]
  }

  lemma IdsAreDistinct()
    ensures Distinct(TOP_NATIVE_IDS + NFID_IDS) && Distinct(TOP_NATIVE_IDS) && Distinct(NFID_IDS)
  {
    assert ICP[0] == 'r' && BTC[0] == 'b' && ETH[0] == 'e' && NFIDW[0] == 'm' && CKBTC[0] == 'm' && CKETH[0] == 's';
    assert NFIDW[1] == 'i' && CKBTC[1] == 'x';
  }

  lemma {:induction false} SpliceIsWithout(s: seq<Token>, t: Token, i: nat)
    requires i < |s| && s[i] == t && t !in s[..i]
    ensures s[..i] + s[i + 1..] == Without(s, t)
  {
    if i > 0 {
      assert s[0] in s[..i];
      assert s[1..][..i - 1] == s[1..i];
      SpliceIsWithout(s[1..], t, i - 1);
      var front, back := s[1..][..i - 1], s[1..][i..];
      assert s[..i] == [s[0]] + front && s[i + 1..] == back;
      assert [s[0]] + front + back == [s[0]] + (front + back);
    }
  }

  // ---------------------------------------------------------------- removing the first of an address

  /** The list without its first token of the given address. */
  function DropFirst(s: seq<Token>, id: string): seq<Token> {
    if s == [] then [] else if s[0].address == id then s[1..] else [s[0]] + DropFirst(s[1..], id)
  }

  function DropFirsts(s: seq<Token>, ids: seq<string>): seq<Token> {
    if ids == [] then s else DropFirst(DropFirsts(s, ids[..|ids| - 1]), ids[|ids| - 1])
  }

  lemma {:induction false} WithoutIsDropFirst(s: seq<Token>, id: string)
    ensures Find(s, id).Some? ==> Without(s, Find(s, id).value) == DropFirst(s, id)
    ensures Find(s, id).None? ==> DropFirst(s, id) == s
  {
    if s != [] && s[0].address != id {
      WithoutIsDropFirst(s[1..], id);
    }
  }

  lemma {:induction false} FindAfterDrop(s: seq<Token>, id: string, other: string)
    requires id != other
    ensures Find(DropFirst(s, other), id) == Find(s, id)
  {
    if s != [] && s[0].address != other && s[0].address != id {
      FindAfterDrop(s[1..], id, other);
    }
  }

  lemma {:induction false} FindAfterDrops(s: seq<Token>, id: string, ids: seq<string>)
    requires id !in ids
    ensures Find(DropFirsts(s, ids), id) == Find(s, id)
  {
    if ids != [] {
      FindAfterDrops(s, id, ids[..|ids| - 1]);
      FindAfterDrop(DropFirsts(s, ids[..|ids| - 1]), id, ids[|ids| - 1]);
    }
  }

  /** Removing the tokens found for some addresses removes the first token of each address. */
  lemma {:induction false} RemovalIsDropFirsts(s: seq<Token>, ids: seq<string>)
    requires Distinct(ids)
    ensures WithoutAll(s, FindAll(s, ids)) == DropFirsts(s, ids)
  {
    if ids != [] {
      var front, id := ids[..|ids| - 1], ids[|ids| - 1];
      RemovalIsDropFirsts(s, front);
      FindAfterDrops(s, id, front);
      WithoutIsDropFirst(DropFirsts(s, front), id);
      var found, more := FindAll(s, front), FindAll(s, ids);
      if Find(s, id).Some? {
        assert more == found + [Find(s, id).value];
        assert more[..|more| - 1] == found;
      } else {
        assert more == found;
      }
    }
  }

  /** Every token found is still in the list when its turn to be removed comes. */
  lemma {:induction false} StillThere(s: seq<Token>, ids: seq<string>, k: nat)
    requires Distinct(ids) && k < |FindAll(s, ids)|
    ensures FindAll(s, ids)[k] in WithoutAll(s, FindAll(s, ids)[..k])
  {
    var front, id := ids[..|ids| - 1], ids[|ids| - 1];
    var found, all := FindAll(s, front), FindAll(s, ids);
    if k < |found| {
      StillThere(s, front, k);
      assert all[..k] == found[..k];
    } else {
      assert all[..k] == found;
      RemovalIsDropFirsts(s, front);
      FindAfterDrops(s, id, front);
    }
  }

  // ---------------------------------------------------------------- one key

  const KEYS := 16

  /** The position of an id in a list of ids, or the length of the list. */
  function Position(ids: seq<string>, id: string): (r: nat)
    ensures r <= |ids|
    ensures r < |ids| ==> ids[r] == id
    ensures r == |ids| <==> id !in ids
  {
    if ids == [] then 0 else if ids[0] == id then 0 else 1 + Position(ids[1..], id)
  }

  /**
   * The sort key of a token in a list in which the addresses `seen` came before it: the first tokens of the
   * top native addresses, the other natives, the first tokens of the NFID addresses, and the rest by rank.
   */
  function Key(t: Token, seen: set<string>): (r: nat)
    ensures r < KEYS
  {
    if t.address in TOP_NATIVE_IDS && t.address !in seen then Position(TOP_NATIVE_IDS, t.address)
    else if t.address in NFID_IDS && t.address !in seen then 4 + Position(NFID_IDS, t.address)
    else if t.category == Native then 3
    else 5 + Rank(t.category)
  }

  /** The tokens of s with the given key, in order. */
  function Bucket(s: seq<Token>, key: nat, seen: set<string>): seq<Token> {
    if s == [] then []
    else (if Key(s[0], seen) == key then [s[0]] else []) + Bucket(s[1..], key, seen + {s[0].address})
  }

  /** A stable sort by key: the buckets from a key on, one after the other. */
  function ByKey(s: seq<Token>, from: nat, seen: set<string> := {}): seq<Token>
    decreases KEYS - from
  {
    if from >= KEYS then [] else Bucket(s, from, seen) + ByKey(s, from + 1, seen)
  }

  /** The tokens that are not the first of one of the addresses. */
  function Rest(s: seq<Token>, ids: set<string>, seen: set<string>): seq<Token> {
    if s == [] then []
    else (if s[0].address in ids && s[0].address !in seen then [] else [s[0]])
         + Rest(s[1..], ids, seen + {s[0].address})
  }

  lemma {:induction false} RestIgnoresSeen(s: seq<Token>, ids: set<string>, id: string, seen: set<string>)
    requires id in seen
    ensures Rest(s, ids + {id}, seen) == Rest(s, ids, seen)
  {
    if s != [] {
      RestIgnoresSeen(s[1..], ids, id, seen + {s[0].address});
    }
  }

  lemma RestOfHead(s: seq<Token>, ids: set<string>, seen: set<string>)
    requires s != []
    ensures Rest(s, ids, seen) == (if s[0].address in ids && s[0].address !in seen then [] else [s[0]])
                                  + Rest(s[1..], ids, seen + {s[0].address})
  {
  }

  lemma DropFirstOfCons(t: Token, s: seq<Token>, id: string)
    ensures DropFirst([t] + s, id) == if t.address == id then s else [t] + DropFirst(s, id)
  {
    assert ([t] + s)[1..] == s;
  }

  lemma {:induction false} DropFromRest(s: seq<Token>, ids: set<string>, id: string, seen: set<string>)
    requires id !in ids && id !in seen
    ensures DropFirst(Rest(s, ids, seen), id) == Rest(s, ids + {id}, seen)
  {
    if s != [] {
      hide Rest, DropFirst;
      var more := Rest(s[1..], ids, seen + {s[0].address});
      RestOfHead(s, ids, seen);
      RestOfHead(s, ids + {id}, seen);
      DropFirstOfCons(s[0], more, id);
      if s[0].address == id {
        RestIgnoresSeen(s[1..], ids, id, seen + {id});
        assert [] + Rest(s[1..], ids + {id}, seen + {id}) == Rest(s[1..], ids + {id}, seen + {id});
      } else {
        DropFromRest(s[1..], ids, id, seen + {s[0].address});
        assert [] + more == more && [] + DropFirst(more, id) == DropFirst(more, id);
      }
    }
  }

  lemma {:induction false} RestOfNothing(s: seq<Token>, seen: set<string>)
    ensures Rest(s, {}, seen) == s
  {
    if s != [] {
      RestOfNothing(s[1..], seen + {s[0].address});
    }
  }

  function Ids(ids: seq<string>): set<string> {
    set id | id in ids
  }

  lemma {:induction false} DropFirstsIsRest(s: seq<Token>, base: set<string>, ids: seq<string>)
    requires Distinct(ids) && Ids(ids) !! base
    ensures DropFirsts(Rest(s, base, {}), ids) == Rest(s, base + Ids(ids), {})
  {
    if ids == [] {
      assert base + Ids(ids) == base;
    } else {
      var front, id := ids[..|ids| - 1], ids[|ids| - 1];
      assert ids == front + [id];
      assert Ids(ids) == Ids(front) + {id};
      DropFirstsIsRest(s, base, front);
      DropFromRest(s, base + Ids(front), id, {});
      assert base + Ids(front) + {id} == base + Ids(ids);
    }
  }

  /** The bucket of an address's first token holds the token that the search finds. */
  lemma {:induction false} FirstBucket(s: seq<Token>, id: string, key: nat, seen: set<string>)
    requires (id in TOP_NATIVE_IDS && key == Position(TOP_NATIVE_IDS, id)) ||
             (id in NFID_IDS && key == 4 + Position(NFID_IDS, id))
    ensures Bucket(s, key, seen) == if id in seen then [] else ToSeq(Find(s, id))
  {
    IdsAreDistinct();
    if s != [] {
      FirstBucket(s[1..], id, key, seen + {s[0].address});
      KeyOfFirst(s[0], id, key, seen);
    }
  }

  lemma IdsAreApart(a: string)
    ensures !(a in TOP_NATIVE_IDS && a in NFID_IDS)
    ensures |TOP_NATIVE_IDS| == |NFID_IDS| == 3
  {
    IdsAreDistinct();
  }

  lemma KeyOfFirst(t: Token, id: string, key: nat, seen: set<string>)
    requires (id in TOP_NATIVE_IDS && key == Position(TOP_NATIVE_IDS, id)) ||
             (id in NFID_IDS && key == 4 + Position(NFID_IDS, id))
    ensures Key(t, seen) == key <==> t.address == id && id !in seen
  {
    hide Position, TOP_NATIVE_IDS, NFID_IDS;
    IdsAreApart(id);
    IdsAreApart(t.address);
  }

  /** The other buckets are what is left, by category and rank. */
  lemma {:induction false} OtherBucket(s: seq<Token>, key: nat, seen: set<string>)
    requires key == 3 || 7 <= key < KEYS
    ensures var rest := Rest(s, Ids(TOP_NATIVE_IDS) + Ids(NFID_IDS), seen);
            Bucket(s, key, seen) ==
            if key == 3 then Filter(rest, IsNative()) else Filter(Filter(rest, IsOther()), HasRank(key - 5))
  {
    if s != [] {
      OtherBucket(s[1..], key, seen + {s[0].address});
      var more := Rest(s[1..], Ids(TOP_NATIVE_IDS) + Ids(NFID_IDS), seen + {s[0].address});
      var rest := Rest(s, Ids(TOP_NATIVE_IDS) + Ids(NFID_IDS), seen);
      assert rest == more || (rest == [s[0]] + more && rest[1..] == more);
      KeyOfOther(s[0], key, seen);
      FilterTwice(rest, more, s[0], key);
    }
  }

  lemma KeyOfOther(t: Token, key: nat, seen: set<string>)
    requires key == 3 || 7 <= key < KEYS
    ensures Key(t, seen) == key <==>
            && !(t.address in Ids(TOP_NATIVE_IDS) + Ids(NFID_IDS) && t.address !in seen)
            && (if key == 3 then t.category == Native else t.category != Native && Rank(t.category) == key - 5)
  {
  }

  lemma FilterTwice(rest: seq<Token>, more: seq<Token>, t: Token, key: nat)
    requires rest == more || rest == [t] + more
    ensures rest == [t] + more ==>
              Filter(rest, IsNative()) == (if t.category == Native then [t] else []) + Filter(more, IsNative())
    ensures rest == [t] + more && key >= 7 ==>
              Filter(Filter(rest, IsOther()), HasRank(key - 5)) ==
              (if t.category != Native && Rank(t.category) == key - 5 then [t] else [])
              + Filter(Filter(more, IsOther()), HasRank(key - 5))
  {
    if rest == [t] + more {
      assert rest[1..] == more;
      var f := Filter(more, IsOther());
      assert ([t] + f)[1..] == f;
    }
  }

  /** Sorting by rank puts the tokens of each rank in a block, in their order. */
  function ByRank(s: seq<Token>, from: nat): seq<Token>
    decreases 11 - from
  {
    if from > 10 then [] else Filter(s, HasRank(from)) + ByRank(s, from + 1)
  }

  lemma {:induction false} RanksFrom(s: seq<Token>, from: nat, u: Token)
    requires u in ByRank(s, from)
    ensures Rank(u.category) >= from
    decreases 11 - from
  {
    FilterMember(s, HasRank(from), u);
    if u !in Filter(s, HasRank(from)) {
      RanksFrom(s, from + 1, u);
    }
  }

  lemma ByRankFrom(s: seq<Token>, from: nat)
    requires from <= 10
    ensures ByRank(s, from) == Filter(s, HasRank(from)) + ByRank(s, from + 1)
  {
    hide Filter;
  }

  lemma FilterCons(t: Token, s: seq<Token>, p: Token -> bool)
    ensures Filter([t] + s, p) == (if p(t) then [t] else []) + Filter(s, p)
  {
    assert ([t] + s)[1..] == s;
  }

  lemma {:induction false} LowerRankSkipped(t: Token, s: seq<Token>, from: nat)
    requires Rank(t.category) < from
    ensures ByRank([t] + s, from) == ByRank(s, from)
    decreases 11 - from
  {
    if from <= 10 {
      hide Filter, ByRank;
      ByRankFrom(s, from);
      ByRankFrom([t] + s, from);
      FilterCons(t, s, HasRank(from));
      LowerRankSkipped(t, s, from + 1);
    }
  }

  lemma {:induction false} InsertPast(t: Token, block: seq<Token>, later: seq<Token>)
    requires forall u :: u in block ==> Rank(u.category) < Rank(t.category)
    ensures Insert(t, block + later) == block + Insert(t, later)
  {
    hide Rank;
    if block == [] {
      assert block + later == later;
    } else {
      assert (block + later)[1..] == block[1..] + later;
      InsertPast(t, block[1..], later);
    }
  }

  lemma InsertFirst(t: Token, s: seq<Token>)
    requires s == [] || Rank(t.category) <= Rank(s[0].category)
    ensures Insert(t, s) == [t] + s
  {
    hide Rank;
  }

  /** A token of the lowest rank goes before the others of its rank. */
  lemma InsertInBlock(t: Token, s: seq<Token>)
    ensures Insert(t, ByRank(s, Rank(t.category))) == ByRank([t] + s, Rank(t.category))
  {
    hide Filter, ByRank, Insert, Rank;
    var from := Rank(t.category);
    if ByRank(s, from) != [] {
      RanksFrom(s, from, ByRank(s, from)[0]);
    }
    InsertFirst(t, ByRank(s, from));
    ByRankFrom(s, from);
    ByRankFrom([t] + s, from);
    FilterCons(t, s, HasRank(from));
    LowerRankSkipped(t, s, from + 1);
    assert [t] + Filter(s, HasRank(from)) + ByRank(s, from + 1) == [t] + (Filter(s, HasRank(from)) + ByRank(s, from + 1));
  }

  lemma {:induction false} InsertByRank(t: Token, s: seq<Token>, from: nat)
    requires from <= Rank(t.category)
    ensures Insert(t, ByRank(s, from)) == ByRank([t] + s, from)
    decreases 11 - from
  {
    hide Filter, ByRank, Insert, Rank;
    if Rank(t.category) == from {
      InsertInBlock(t, s);
    } else {
      var block := Filter(s, HasRank(from));
      forall u | u in block ensures Rank(u.category) < Rank(t.category) {
        FilterMember(s, HasRank(from), u);
      }
      ByRankFrom(s, from);
      ByRankFrom([t] + s, from);
      FilterCons(t, s, HasRank(from));
      InsertByRank(t, s, from + 1);
      InsertPast(t, block, ByRank(s, from + 1));
      assert [] + block == block;
    }
  }

  lemma {:induction false} SortIsByRank(s: seq<Token>)
    ensures SortByRank(s) == ByRank(s, 1)
  {
    hide ByRank;
    if s == [] {
      NothingByRank(1);
    } else {
      SortIsByRank(s[1..]);
      InsertByRank(s[0], s[1..], 1);
      assert s == [s[0]] + s[1..];
    }
  }

  lemma {:induction false} NothingByRank(from: nat)
    ensures ByRank([], from) == []
    decreases 11 - from
  {
    if from <= 10 {
      NothingByRank(from + 1);
    }
  }

  lemma {:induction false} RankBuckets(s: seq<Token>, others: seq<Token>, key: nat)
    requires 7 <= key <= KEYS
    requires others == Filter(Rest(s, Ids(TOP_NATIVE_IDS) + Ids(NFID_IDS), {}), IsOther())
    ensures ByKey(s, key) == ByRank(others, key - 5)
    decreases KEYS - key
  {
    if key < KEYS {
      OtherBucket(s, key, {});
      RankBuckets(s, others, key + 1);
    }
  }

  /** No token that is not native has the rank of the natives. */
  lemma {:induction false} NoOtherOfRankOne(s: seq<Token>)
    ensures Filter(Filter(s, IsOther()), HasRank(1)) == []
  {
    if s != [] {
      NoOtherOfRankOne(s[1..]);
      FilterTwice(s, s[1..], s[0], 0);
      if s[0].category != Native {
        var f := Filter(s[1..], IsOther());
        assert ([s[0]] + f)[1..] == f;
      }
    }
  }

  lemma FoundAreBuckets(s: seq<Token>)
    ensures FindAll(s, TOP_NATIVE_IDS) == Bucket(s, 0, {}) + Bucket(s, 1, {}) + Bucket(s, 2, {})
    ensures FindAll(DropFirsts(s, TOP_NATIVE_IDS), NFID_IDS) == Bucket(s, 4, {}) + Bucket(s, 5, {}) + Bucket(s, 6, {})
  {
    IdsAreDistinct();
    Positions();
    FirstBucket(s, ICP, 0, {});
    FirstBucket(s, BTC, 1, {});
    FirstBucket(s, ETH, 2, {});
    FindThree(s, ICP, BTC, ETH);
    FirstBucket(s, NFIDW, 4, {});
    FirstBucket(s, CKBTC, 5, {});
    FirstBucket(s, CKETH, 6, {});
    var left := DropFirsts(s, TOP_NATIVE_IDS);
    FindThree(left, NFIDW, CKBTC, CKETH);
    FindAfterDrops(s, NFIDW, TOP_NATIVE_IDS);
    FindAfterDrops(s, CKBTC, TOP_NATIVE_IDS);
    FindAfterDrops(s, CKETH, TOP_NATIVE_IDS);
  }

  lemma Positions()
    ensures Position(TOP_NATIVE_IDS, ICP) == 0 && Position(TOP_NATIVE_IDS, BTC) == 1 && Position(TOP_NATIVE_IDS, ETH) == 2
    ensures Position(NFID_IDS, NFIDW) == 0 && Position(NFID_IDS, CKBTC) == 1 && Position(NFID_IDS, CKETH) == 2
    ensures {ICP, BTC, ETH} !! {NFIDW, CKBTC, CKETH}
  {
    IdsAreDistinct();
    assert TOP_NATIVE_IDS[0] == ICP && TOP_NATIVE_IDS[1] == BTC && TOP_NATIVE_IDS[2] == ETH;
    assert NFID_IDS[0] == NFIDW && NFID_IDS[1] == CKBTC && NFID_IDS[2] == CKETH;
    var all := TOP_NATIVE_IDS + NFID_IDS;
    assert all[0] == ICP && all[1] == BTC && all[2] == ETH && all[3] == NFIDW && all[4] == CKBTC && all[5] == CKETH;
  }

  lemma FindThree(s: seq<Token>, a: string, b: string, c: string)
    ensures FindAll(s, [a, b, c]) == ToSeq(Find(s, a)) + ToSeq(Find(s, b)) + ToSeq(Find(s, c))
  {
    assert [a, b, c][..2] == [a, b] && [a, b][..1] == [a] && [a][..0] == [];
    assert FindAll(s, [a]) == FindAll(s, []) + ToSeq(Find(s, a));
    assert FindAll(s, [a, b]) == FindAll(s, [a]) + ToSeq(Find(s, b));
  }

  lemma ByKeyInParts(s: seq<Token>)
    ensures ByKey(s, 0) == Bucket(s, 0, {}) + Bucket(s, 1, {}) + Bucket(s, 2, {}) + Bucket(s, 3, {})
                           + (Bucket(s, 4, {}) + Bucket(s, 5, {}) + Bucket(s, 6, {})) + ByKey(s, 7)
  {
    hide Bucket;
    assert ByKey(s, 5) == Bucket(s, 5, {}) + (Bucket(s, 6, {}) + ByKey(s, 7));
    assert ByKey(s, 3) == Bucket(s, 3, {}) + (Bucket(s, 4, {}) + ByKey(s, 5));
    assert ByKey(s, 1) == Bucket(s, 1, {}) + (Bucket(s, 2, {}) + ByKey(s, 3));
  }

  /** The whole procedure is one stable sort by key. */
  lemma SortedIsByKey(s: seq<Token>)
    ensures Sorted(s) == ByKey(s, 0)
  {
    IdsAreDistinct();
    Positions();
    hide FindAll, WithoutAll, DropFirsts, Bucket, ByKey, ByRank, SortByRank;
    var topIds, nfidIds := Ids(TOP_NATIVE_IDS), Ids(NFID_IDS);
    RestOfNothing(s, {});
    RemovalIsDropFirsts(s, TOP_NATIVE_IDS);
    DropFirstsIsRest(s, {}, TOP_NATIVE_IDS);
    assert {} + topIds == topIds;
    var left := Rest(s, topIds, {});
    RemovalIsDropFirsts(left, NFID_IDS);
    assert nfidIds !! topIds;
    DropFirstsIsRest(s, topIds, NFID_IDS);
    var rest := Rest(s, topIds + nfidIds, {});
    FoundAreBuckets(s);
    OtherBucket(s, 3, {});
    var others := Filter(rest, IsOther());
    SortIsByRank(others);
    SkipRankOne(rest);
    RankBuckets(s, others, 7);
    ByKeyInParts(s);
  }

  lemma SkipRankOne(rest: seq<Token>)
    ensures ByRank(Filter(rest, IsOther()), 1) == ByRank(Filter(rest, IsOther()), 2)
  {
    NoOtherOfRankOne(rest);
  }

  // ---------------------------------------------------------------- permutation

  lemma {:induction false} WithoutMultiset(s: seq<Token>, t: Token)
    requires t in s
    ensures multiset(Without(s, t)) + multiset{t} == multiset(s)
  {
    assert s == [s[0]] + s[1..];
    if s[0] != t {
      WithoutMultiset(s[1..], t);
    }
  }

  lemma WithoutAllLast(s: seq<Token>, ts: seq<Token>)
    requires ts != []
    ensures WithoutAll(s, ts) == Without(WithoutAll(s, ts[..|ts| - 1]), ts[|ts| - 1])
  {
    hide Without;
  }

  lemma {:induction false} RemovalMultiset(s: seq<Token>, ids: seq<string>, k: nat)
    requires Distinct(ids) && k <= |FindAll(s, ids)|
    ensures multiset(WithoutAll(s, FindAll(s, ids)[..k])) + multiset(FindAll(s, ids)[..k]) == multiset(s)
  {
    var found := FindAll(s, ids);
    if k > 0 {
      hide FindAll, Without, WithoutAll;
      assert found[..k][..k - 1] == found[..k - 1];
      assert found[..k] == found[..k - 1] + [found[k - 1]];
      WithoutAllLast(s, found[..k]);
      RemovalMultiset(s, ids, k - 1);
      StillThere(s, ids, k - 1);
      WithoutMultiset(WithoutAll(s, found[..k - 1]), found[k - 1]);
    }
  }

  lemma SortMultiset(s: seq<Token>)
    ensures multiset(SortByRank(s)) == multiset(s)
  {
    InsertionSort.SortMultiset(s, RankLeq());
  }

  lemma {:induction false} NativesAndOthers(s: seq<Token>)
    ensures multiset(Filter(s, IsNative())) + multiset(Filter(s, IsOther())) == multiset(s)
  {
    if s != [] {
      NativesAndOthers(s[1..]);
      assert s == [s[0]] + s[1..];
    }
  }

  /** The sorted list has the tokens of the given one, none added, lost or repeated. */
  lemma SortedIsPermutation(s: seq<Token>)
    ensures multiset(Sorted(s)) == multiset(s)
  {
    IdsAreDistinct();
    hide FindAll, WithoutAll, Filter, SortByRank;
    var top := FindAll(s, TOP_NATIVE_IDS);
    var left := WithoutAll(s, top);
    var after := FindAll(left, NFID_IDS);
    var rest := WithoutAll(left, after);
    RemovalMultiset(s, TOP_NATIVE_IDS, |top|);
    RemovalMultiset(left, NFID_IDS, |after|);
    assert top[..|top|] == top && after[..|after|] == after;
    NativesAndOthers(rest);
    SortMultiset(Filter(rest, IsOther()));
  }

  // ---------------------------------------------------------------- the parts of the sorted list

  lemma {:induction false} FoundIfPresent(s: seq<Token>, t: Token)
    requires t in s
    ensures Find(s, t.address).Some?
  {
    if s[0].address != t.address {
      FoundIfPresent(s[1..], t);
    }
  }

  lemma {:induction false} NotFound(s: seq<Token>, id: string)
    requires forall t :: t in s ==> t.address != id
    ensures Find(s, id) == None
  {
    if s != [] {
      NotFound(s[1..], id);
    }
  }

  lemma {:induction false} FoundHasId(s: seq<Token>, ids: seq<string>, t: Token)
    requires t in FindAll(s, ids)
    ensures t.address in ids && t in s
  {
    var front := ids[..|ids| - 1];
    if t in FindAll(s, front) {
      FoundHasId(s, front, t);
    }
  }

  predicate InRankOrder(s: seq<Token>) {
    forall i, j :: 0 <= i < j < |s| ==> Rank(s[i].category) <= Rank(s[j].category)
  }

  lemma SortedInRankOrder(s: seq<Token>)
    ensures InRankOrder(SortByRank(s))
  {
    InsertionSort.SortSorts(s, RankLeq());
    var r := SortByRank(s);
    forall i, j | 0 <= i < j < |r| ensures Rank(r[i].category) <= Rank(r[j].category) {
      assert RankLeq()(r[i], r[j]);
    }
  }

  lemma TakeFirst(a: Token, more: seq<Token>)
    ensures WithoutAll([a] + more, []) == [a] + more
    ensures WithoutAll([a] + more, [a]) == more
  {
    assert [a][..0] == [];
    assert ([a] + more)[1..] == more;
  }

  lemma FindHead(a: Token, more: seq<Token>)
    ensures Find([a] + more, a.address) == Some(a)
  {
  }

  lemma AllIds()
    ensures var all := TOP_NATIVE_IDS + NFID_IDS;
            ICP in all && BTC in all && ETH in all && CKBTC in all && CKETH in all
    ensures NFIDW != ICP && NFIDW != BTC && NFIDW != ETH && NFIDW != CKBTC && NFIDW != CKETH
  {
    IdsAreDistinct();
    var all := TOP_NATIVE_IDS + NFID_IDS;
    assert all[0] == ICP && all[1] == BTC && all[2] == ETH && all[3] == NFIDW && all[4] == CKBTC && all[5] == CKETH;
  }

  /** Tokens of which the first has an NFID address, and the others that one or none of the special ones. */
  lemma SortAfterOne(a: Token, more: seq<Token>)
    requires a.address == NFIDW
    requires forall t :: t in more ==> t.address == NFIDW || t.address !in TOP_NATIVE_IDS + NFID_IDS
    ensures Sorted([a] + more) == Filter(more, IsNative()) + [a] + SortByRank(Filter(more, IsOther()))
  {
    hide SortByRank, Filter, WithoutAll, Without, FindAll, Find, Position;
    TakenAfterOne(a, more);
    TakeFirst(a, more);
  }

  lemma TakenAfterOne(a: Token, more: seq<Token>)
    requires a.address == NFIDW
    requires forall t :: t in more ==> t.address == NFIDW || t.address !in TOP_NATIVE_IDS + NFID_IDS
    ensures FindAll([a] + more, NFID_IDS) == [a] && FindAll([a] + more, TOP_NATIVE_IDS) == []
  {
    hide FindAll, Find;
    AllIds();
    var s := [a] + more;
    assert forall t :: t in s ==> t.address == NFIDW || t.address !in TOP_NATIVE_IDS + NFID_IDS;
    NotFound(s, ICP);
    NotFound(s, BTC);
    NotFound(s, ETH);
    NotFound(s, CKBTC);
    NotFound(s, CKETH);
    FindHead(a, more);
    FindThree(s, ICP, BTC, ETH);
    FindThree(s, NFIDW, CKBTC, CKETH);
  }

  lemma FilterPair(a: Token, b: Token, p: Token -> bool)
    ensures Filter([a, b], p) == (if p(a) then [a] else []) + (if p(b) then [b] else [])
  {
    assert [a, b] == [a] + [b];
    FilterAppend([a], [b], p);
    assert [a][1..] == [] && [b][1..] == [];
  }

  lemma SortOne(a: Token)
    ensures SortByRank([a]) == [a] && SortByRank([]) == []
  {
    var leq := RankLeq();
    assert InsertionSort.Sort([], leq) == [];
    assert [a][1..] == [];
    assert InsertionSort.Sort([a], leq) == InsertionSort.Insert(a, [], leq);
  }

  /** A native token with an NFID address, listed after another token of that address, moves on the second sort. */
  lemma SortingTwiceCanDiffer(other: Token)
    requires other.category == Native && other.address !in TOP_NATIVE_IDS + NFID_IDS
    ensures var s := [Token(0, NFIDW, Sns), Token(1, NFIDW, Native), other];
            Sorted(Sorted(s)) != Sorted(s)
  {
    hide Sorted, Filter, WithoutAll, SortByRank;
    var first, second := Token(0, NFIDW, Sns), Token(1, NFIDW, Native);
    var s := [first, second, other];
    SortAfterOne(first, [second, other]);
    SortAfterOne(second, [other, first]);
    assert s == [first] + [second, other] && [second, other, first] == [second] + [other, first];
    FilterPair(second, other, IsNative());
    FilterPair(second, other, IsOther());
    FilterPair(other, first, IsNative());
    FilterPair(other, first, IsOther());
    SortOne(first);
    assert Filter([second, other], IsOther()) == [] && Filter([other, first], IsOther()) == [first];
    assert NFID_IDS[0] == NFIDW;
    assert Sorted(s) == [second, other, first];
    assert Sorted([second, other, first]) == [other, second, first];
    assert [other, second, first][0] != [second, other, first][0];
  }

  /** Of two tokens that are sorted by rank, the earlier is not of a later category. */
  lemma SortedByCategory(s: seq<Token>, p: nat, q: nat, i: nat, j: nat)
    requires p < q < |SortByRank(s)| && i < |CATEGORIES| && j < |CATEGORIES|
    requires SortByRank(s)[p].category == CATEGORIES[i] && SortByRank(s)[q].category == CATEGORIES[j]
    ensures i <= j
  {
    hide SortByRank;
    SortedInRankOrder(s);
    CategoriesInOrder(j, i, "");
  }

  /** The first token of an address, as a list. */
  function FirstOf(s: seq<Token>, id: string): seq<Token> {
    ToSeq(Find(s, id))
  }

  /** Where the tokens end up: the first ICP, BTC and ETH, natives, the first NFIDW, ckBTC and ckETH, others. */
  lemma Layout(s: seq<Token>) returns (natives: seq<Token>, others: seq<Token>)
    ensures Sorted(s) ==
            FirstOf(s, "ryjl3-tyaaa-aaaaa-aaaba-cai") + FirstOf(s, "btc-native") + FirstOf(s, "eth-native") + natives
            + FirstOf(s, "mih44-vaaaa-aaaaq-aaekq-cai") + FirstOf(s, "mxzaz-hqaaa-aaaar-qaada-cai")
            + FirstOf(s, "ss2fx-dyaaa-aaaar-qacoq-cai") + others
    ensures forall t :: t in natives ==> t in s && t.category.Native?
    ensures forall t :: t in others ==> t in s && !t.category.Native?
    ensures InRankOrder(others)
  {
    hide SortByRank, InRankOrder, FindAll, WithoutAll, Find, Filter;
    var left := WithoutAll(s, FindAll(s, TOP_NATIVE_IDS));
    var rest := WithoutAll(left, FindAll(left, NFID_IDS));
    natives, others := Filter(rest, IsNative()), SortByRank(Filter(rest, IsOther()));
    TakenInOrder(s);
    SortedInRankOrder(Filter(rest, IsOther()));
    forall t ensures t in natives ==> t in s && t.category.Native?
             ensures t in others ==> t in s && !t.category.Native? {
      BothParts(rest, t);
      if t in rest {
        StaysInList(s, t);
      }
    }
  }

  lemma TakenInOrder(s: seq<Token>)
    ensures FindAll(s, TOP_NATIVE_IDS) ==
            FirstOf(s, "ryjl3-tyaaa-aaaaa-aaaba-cai") + FirstOf(s, "btc-native") + FirstOf(s, "eth-native")
    ensures FindAll(WithoutAll(s, FindAll(s, TOP_NATIVE_IDS)), NFID_IDS) ==
            FirstOf(s, "mih44-vaaaa-aaaaq-aaekq-cai") + FirstOf(s, "mxzaz-hqaaa-aaaar-qaada-cai")
            + FirstOf(s, "ss2fx-dyaaa-aaaar-qacoq-cai")
  {
    hide FindAll, WithoutAll, Find, DropFirsts;
    IdsAreDistinct();
    RemovalIsDropFirsts(s, TOP_NATIVE_IDS);
    Positions();
    FindThree(s, ICP, BTC, ETH);
    FindThree(DropFirsts(s, TOP_NATIVE_IDS), NFIDW, CKBTC, CKETH);
    FindAfterDrops(s, NFIDW, TOP_NATIVE_IDS);
    FindAfterDrops(s, CKBTC, TOP_NATIVE_IDS);
    FindAfterDrops(s, CKETH, TOP_NATIVE_IDS);
  }

  lemma BothParts(rest: seq<Token>, t: Token)
    ensures t in Filter(rest, IsNative()) ==> t in rest && t.category.Native?
    ensures t in SortByRank(Filter(rest, IsOther())) ==> t in rest && !t.category.Native?
  {
    hide SortByRank, Filter;
    FilterMember(rest, IsNative(), t);
    FilterMember(rest, IsOther(), t);
    SortMultiset(Filter(rest, IsOther()));
    assert t in SortByRank(Filter(rest, IsOther())) ==> t in multiset(SortByRank(Filter(rest, IsOther())));
  }

  /** What is left after taking tokens out was in the list. */
  lemma StaysInList(s: seq<Token>, t: Token)
    requires var left := WithoutAll(s, FindAll(s, TOP_NATIVE_IDS));
             t in WithoutAll(left, FindAll(left, NFID_IDS))
    ensures t in s
  {
    var left := WithoutAll(s, FindAll(s, TOP_NATIVE_IDS));
    LeftWasThere(left, FindAll(left, NFID_IDS), t);
    LeftWasThere(s, FindAll(s, TOP_NATIVE_IDS), t);
  }

  lemma {:induction false} LeftWasThere(s: seq<Token>, taken: seq<Token>, t: Token)
    requires t in WithoutAll(s, taken)
    ensures t in s
  {
    if taken != [] {
      var n := |taken| - 1;
      OneLeftWasThere(WithoutAll(s, taken[..n]), taken[n], t);
      LeftWasThere(s, taken[..n], t);
    }
  }

  lemma {:induction false} OneLeftWasThere(s: seq<Token>, taken: Token, t: Token)
    requires t in Without(s, taken)
    ensures t in s
  {
    if s[0] != taken && s[0] != t {
      OneLeftWasThere(s[1..], taken, t);
    }
  }
}
