/** When sorting the sorted token list again changes nothing (integration/ft/ft-service.ts, sortTokens). */
module SortTwice {
  import opened Common
  import opened SortTokens

  function Addresses(s: seq<Token>): set<string> {
    set t | t in s :: t.address
  }

  /** The keys of the tokens of a list, after the given addresses. */
  function Keys(s: seq<Token>, seen: set<string>): (r: seq<nat>)
    ensures |r| == |s|
  {
    if s == [] then [] else [Key(s[0], seen)] + Keys(s[1..], seen + {s[0].address})
  }

  predicate InOrder(ks: seq<nat>) {
    forall i, j :: 0 <= i < j < |ks| ==> ks[i] <= ks[j]
  }

  predicate AtLeast(ks: seq<nat>, k: nat) {
    forall i :: 0 <= i < |ks| ==> k <= ks[i]
  }

  lemma {:induction false} KeysAt(s: seq<Token>, seen: set<string>, i: nat)
    requires i < |s|
    ensures Keys(s, seen)[i] == Key(s[i], seen + Addresses(s[..i]))
  {
    if i == 0 {
      assert seen + Addresses(s[..0]) == seen;
    } else {
      KeysAt(s[1..], seen + {s[0].address}, i - 1);
      assert s[..i] == [s[0]] + s[1..][..i - 1];
      assert seen + {s[0].address} + Addresses(s[1..][..i - 1]) == seen + Addresses(s[..i]);
    }
  }

  // ---------------------------------------------------------------- lists that are in key order

  lemma BucketOfHead(s: seq<Token>, key: nat, seen: set<string>)
    requires s != []
    ensures Bucket(s, key, seen) ==
            (if Key(s[0], seen) == key then [s[0]] else []) + Bucket(s[1..], key, seen + {s[0].address})
  {
    hide Key;
  }

  lemma ByKeyFrom(s: seq<Token>, from: nat, seen: set<string>)
    requires from < KEYS
    ensures ByKey(s, from, seen) == Bucket(s, from, seen) + ByKey(s, from + 1, seen)
  {
    hide Key, Bucket;
  }

  lemma {:induction false} EmptyBucket(s: seq<Token>, key: nat, seen: set<string>)
    ensures Bucket(s, key, seen) == [] <==> key !in Keys(s, seen)
  {
    hide Key;
    if s != [] {
      EmptyBucket(s[1..], key, seen + {s[0].address});
    }
  }

  lemma {:induction false} BucketMembers(s: seq<Token>, key: nat, seen: set<string>, t: Token)
    requires t in Bucket(s, key, seen)
    ensures t in s
  {
    hide Key;
    if t in Bucket(s[1..], key, seen + {s[0].address}) {
      BucketMembers(s[1..], key, seen + {s[0].address}, t);
    }
  }

  lemma {:induction false} SkipHead(s: seq<Token>, from: nat, seen: set<string>)
    requires s != [] && Key(s[0], seen) < from
    ensures ByKey(s, from, seen) == ByKey(s[1..], from, seen + {s[0].address})
    decreases KEYS - from
  {
    hide Key, Bucket;
    if from < KEYS {
      SkipHead(s, from + 1, seen);
      BucketOfHead(s, from, seen);
      assert [] + Bucket(s[1..], from, seen + {s[0].address}) == Bucket(s[1..], from, seen + {s[0].address});
    }
  }

  lemma {:induction false} NothingByKey(from: nat, seen: set<string>)
    ensures ByKey([], from, seen) == []
    decreases KEYS - from
  {
    if from < KEYS {
      NothingByKey(from + 1, seen);
    }
  }

  /** When no key is lower than that of the head, the head comes first. */
  lemma {:induction false} HeadFirst(s: seq<Token>, from: nat, seen: set<string>)
    requires s != [] && from <= Key(s[0], seen) && AtLeast(Keys(s[1..], seen + {s[0].address}), Key(s[0], seen))
    ensures ByKey(s, from, seen) == [s[0]] + ByKey(s[1..], from, seen + {s[0].address})
    decreases KEYS - from
  {
    hide Key, Bucket, ByKey, Keys;
    var k, tail, seen' := Key(s[0], seen), s[1..], seen + {s[0].address};
    ByKeyFrom(s, from, seen);
    ByKeyFrom(tail, from, seen');
    BucketOfHead(s, from, seen);
    if from == k {
      SkipHead(s, from + 1, seen);
      assert [s[0]] + Bucket(tail, k, seen') + ByKey(tail, k + 1, seen')
          == [s[0]] + (Bucket(tail, k, seen') + ByKey(tail, k + 1, seen'));
    } else {
      HeadFirst(s, from + 1, seen);
      EmptyBucket(tail, from, seen');
      assert [] + ByKey(tail, from + 1, seen') == ByKey(tail, from + 1, seen');
      assert [] + ([s[0]] + ByKey(tail, from + 1, seen')) == [s[0]] + ByKey(tail, from + 1, seen');
    }
  }

  lemma OrderCons(k: nat, ks: seq<nat>)
    ensures InOrder([k] + ks) <==> AtLeast(ks, k) && InOrder(ks)
  {
    var all := [k] + ks;
    if InOrder(all) {
      forall i | 0 <= i < |ks| ensures k <= ks[i] {
        assert all[0] <= all[i + 1];
      }
      forall i, j | 0 <= i < j < |ks| ensures ks[i] <= ks[j] {
        assert all[i + 1] <= all[j + 1];
      }
    }
  }

  /** Keys in order are the head's and then keys in order, none of them lower. */
  lemma InOrderOfHead(s: seq<Token>, seen: set<string>)
    requires s != []
    ensures var ks := Keys(s[1..], seen + {s[0].address});
            InOrder(Keys(s, seen)) <==> AtLeast(ks, Key(s[0], seen)) && InOrder(ks)
  {
    hide Key, InOrder, AtLeast;
    OrderCons(Key(s[0], seen), Keys(s[1..], seen + {s[0].address}));
  }

  /** Sorting leaves a list alone that is in key order. */
  lemma {:induction false} InOrderIsFixed(s: seq<Token>, seen: set<string>)
    requires InOrder(Keys(s, seen))
    ensures ByKey(s, 0, seen) == s
  {
    hide ByKey, Key, Keys, InOrder, AtLeast;
    if s == [] {
      NothingByKey(0, seen);
    } else {
      InOrderOfHead(s, seen);
      InOrderIsFixed(s[1..], seen + {s[0].address});
      HeadFirst(s, 0, seen);
    }
  }

  /** When some key is lower than that of the head, the first token of the sorted list is not the head. */
  lemma {:induction false} LowerFirst(s: seq<Token>, from: nat, seen: set<string>, k: nat)
    requires s != [] && from <= k < Key(s[0], seen) && k in Keys(s[1..], seen + {s[0].address})
    ensures ByKey(s, from, seen) != [] && ByKey(s, from, seen)[0] in s[1..]
    decreases KEYS - from
  {
    hide Key, Bucket, ByKey, Keys;
    var tail, seen' := s[1..], seen + {s[0].address};
    ByKeyFrom(s, from, seen);
    BucketOfHead(s, from, seen);
    assert [] + Bucket(tail, from, seen') == Bucket(tail, from, seen');
    EmptyBucket(tail, from, seen');
    if from in Keys(tail, seen') {
      BucketMembers(tail, from, seen', Bucket(tail, from, seen')[0]);
    } else {
      LowerFirst(s, from + 1, seen, k);
      assert [] + ByKey(s, from + 1, seen) == ByKey(s, from + 1, seen);
    }
  }

  /** No object is listed twice, as in every list the wallet builds. */
  predicate NoRepeats(s: seq<Token>) {
    forall i, j :: 0 <= i < j < |s| ==> s[i] != s[j]
  }

  lemma HeadIsLowest(s: seq<Token>, seen: set<string>)
    requires s != [] && s[0] !in s[1..] && ByKey(s, 0, seen) == s
    ensures AtLeast(Keys(s[1..], seen + {s[0].address}), Key(s[0], seen))
  {
    hide Key, Bucket, ByKey, Keys;
    var ks := Keys(s[1..], seen + {s[0].address});
    forall i | 0 <= i < |ks| ensures Key(s[0], seen) <= ks[i] {
      if ks[i] < Key(s[0], seen) {
        LowerFirst(s, 0, seen, ks[i]);
      }
    }
  }

  /** A list of different tokens that sorting leaves alone is in key order. */
  lemma {:induction false} FixedIsInOrder(s: seq<Token>, seen: set<string>)
    requires NoRepeats(s) && ByKey(s, 0, seen) == s
    ensures InOrder(Keys(s, seen))
  {
    hide ByKey, Key, Bucket;
    if s != [] {
      assert forall i :: 0 <= i < |s[1..]| ==> s[1..][i] == s[i + 1];
      HeadIsLowest(s, seen);
      HeadFirst(s, 0, seen);
      assert s == [s[0]] + s[1..];
      FixedIsInOrder(s[1..], seen + {s[0].address});
      InOrderOfHead(s, seen);
    }
  }

  // ---------------------------------------------------------------- the parts of the sorted list

  function Left(s: seq<Token>): seq<Token> {
    WithoutAll(s, FindAll(s, TOP_NATIVE_IDS))
  }

  /** The first tokens of the NFID addresses. */
  function Firsts(s: seq<Token>): seq<Token> {
    FindAll(Left(s), NFID_IDS)
  }

  function Remaining(s: seq<Token>): seq<Token> {
    WithoutAll(Left(s), Firsts(s))
  }

  /** The natives left when the special tokens are taken out. */
  function Natives(s: seq<Token>): seq<Token> {
    Filter(Remaining(s), IsNative())
  }

  function Others(s: seq<Token>): seq<Token> {
    SortByRank(Filter(Remaining(s), IsOther()))
  }

  /** No native left has an NFID address. */
  predicate NoShadows(natives: seq<Token>) {
    forall t :: t in natives ==> t.address !in NFID_IDS
  }

  /**
   * The last natives have the addresses of the first NFID tokens, in the same order, no other native has one,
   * and the NFID tokens themselves, none of them native, are in rank order with the rest.
   */
  predicate InTheirShadow(natives: seq<Token>, firsts: seq<Token>, others: seq<Token>) {
    var n := |natives| - |firsts|;
    && 0 <= n
    && NoShadows(natives[..n])
    && (forall i :: 0 <= i < |firsts| ==> natives[n + i].address == firsts[i].address)
    && (forall i :: 0 <= i < |firsts| ==> firsts[i].category != Native)
    && InRankOrder(firsts + others)
  }

  /** Tokens with addresses of the list of ids, in the order of the ids. */
  predicate Ascending(s: seq<Token>, ids: seq<string>) {
    && (forall i :: 0 <= i < |s| ==> s[i].address in ids)
    && (forall i, j :: 0 <= i < j < |s| ==> Position(ids, s[i].address) < Position(ids, s[j].address))
  }

  lemma {:induction false} PositionPast(ids: seq<string>, id: string)
    requires id !in ids
    ensures Position(ids + [id], id) == |ids|
    ensures forall x :: x in ids ==> Position(ids + [id], x) == Position(ids, x)
  {
    if ids != [] {
      assert (ids + [id])[1..] == ids[1..] + [id];
      PositionPast(ids[1..], id);
      assert forall x :: x in ids && x != ids[0] ==> x in ids[1..];
    } else {
      assert [] + [id] == [id];
    }
  }

  lemma AscendOneMore(s: seq<Token>, front: seq<string>, id: string, more: seq<Token>)
    requires id !in front && Ascending(s, front) && |more| <= 1 && forall t :: t in more ==> t.address == id
    ensures Ascending(s + more, front + [id])
  {
    hide Position;
    PositionPast(front, id);
  }

  lemma {:induction false} FoundAscend(s: seq<Token>, ids: seq<string>)
    requires Distinct(ids)
    ensures Ascending(FindAll(s, ids), ids)
  {
    hide Ascending;
    if ids == [] {
      assert Ascending([], []) by { NothingAscends(); }
    } else {
      var front, id := ids[..|ids| - 1], ids[|ids| - 1];
      FoundAscend(s, front);
      assert ids == front + [id];
      AscendOneMore(FindAll(s, front), front, id, ToSeq(Find(s, id)));
    }
  }

  lemma NothingAscends()
    ensures Ascending([], [])
  {
  }

  lemma {:induction false} PresentIsFound(s: seq<Token>, ids: seq<string>, t: Token)
    requires t in s && t.address in ids
    ensures t.address in Addresses(FindAll(s, ids))
  {
    var front, id := ids[..|ids| - 1], ids[|ids| - 1];
    if t.address == id {
      FoundIfPresent(s, t);
      assert Find(s, id).value in FindAll(s, ids);
    } else {
      PresentIsFound(s, front, t);
      var f :| f in FindAll(s, front) && f.address == t.address;
      assert f in FindAll(s, ids);
    }
  }

  /** What is known of the parts: where the special addresses are, and which tokens are native. */
  ghost predicate Parts(top: seq<Token>, natives: seq<Token>, firsts: seq<Token>, others: seq<Token>) {
    && Ascending(top, TOP_NATIVE_IDS) && Ascending(firsts, NFID_IDS)
    && (forall t :: t in natives + others && t.address in TOP_NATIVE_IDS ==> t.address in Addresses(top))
    && (forall t :: t in natives + others && t.address in NFID_IDS ==> t.address in Addresses(firsts))
    && (forall t :: t in natives ==> t.category == Native)
    && (forall t :: t in others ==> t.category != Native)
    && InRankOrder(others)
  }

  lemma SortedHasParts(s: seq<Token>)
    ensures Sorted(s) == FindAll(s, TOP_NATIVE_IDS) + Natives(s) + Firsts(s) + Others(s)
    ensures Parts(FindAll(s, TOP_NATIVE_IDS), Natives(s), Firsts(s), Others(s))
  {
    IdsAreDistinct();
    hide FindAll, WithoutAll, Filter, SortByRank, Position;
    var top, left, rest := FindAll(s, TOP_NATIVE_IDS), Left(s), Remaining(s);
    var natives, firsts, others := Natives(s), Firsts(s), Others(s);
    FoundAscend(s, TOP_NATIVE_IDS);
    FoundAscend(left, NFID_IDS);
    RemovalMultiset(s, TOP_NATIVE_IDS, |top|);
    RemovalMultiset(left, NFID_IDS, |firsts|);
    assert top[..|top|] == top && firsts[..|firsts|] == firsts;
    SortMultiset(Filter(rest, IsOther()));
    SortedInRankOrder(Filter(rest, IsOther()));
    forall t | t in natives ensures t in rest && t.category == Native {
      FilterMember(rest, IsNative(), t);
    }
    forall t | t in others ensures t in rest && t.category != Native {
      assert t in multiset(others);
      FilterMember(rest, IsOther(), t);
    }
    forall t | t in natives + others
      ensures t.address in TOP_NATIVE_IDS ==> t.address in Addresses(top)
      ensures t.address in NFID_IDS ==> t.address in Addresses(firsts)
    {
      assert t in multiset(rest) && t in multiset(left) && t in multiset(s);
      if t.address in TOP_NATIVE_IDS {
        PresentIsFound(s, TOP_NATIVE_IDS, t);
      }
      if t.address in NFID_IDS {
        PresentIsFound(left, NFID_IDS, t);
      }
    }
  }

  // ---------------------------------------------------------------- the keys of the parts

  lemma AddressesOf(a: seq<Token>, b: seq<Token>)
    ensures Addresses(a + b) == Addresses(a) + Addresses(b)
  {
  }

  lemma SamePosition(ids: seq<string>, a: string, b: string)
    requires a in ids && b in ids && Position(ids, a) == Position(ids, b)
    ensures a == b
  {
  }

  lemma OtherPosition(ids: seq<string>, a: string, b: string)
    requires a in ids && b in ids && a != b
    ensures Position(ids, a) != Position(ids, b)
  {
    hide Position;
    if Position(ids, a) == Position(ids, b) {
      SamePosition(ids, a, b);
    }
  }

  /** The key of a token after the top ones. */
  lemma KeyOfTail(t: Token, seen: set<string>)
    requires t.address in TOP_NATIVE_IDS ==> t.address in seen
    ensures Key(t, seen) ==
            if t.address in NFID_IDS && t.address !in seen then 4 + Position(NFID_IDS, t.address)
            else if t.category == Native then 3 else 5 + Rank(t.category)
  {
    hide Position;
  }

  lemma NfidPosition(id: string)
    requires id in NFID_IDS
    ensures Position(NFID_IDS, id) < 3 && id !in TOP_NATIVE_IDS
  {
    Positions();
  }

  function TopKey(top: seq<Token>, i: nat): nat
    requires i < |top|
  {
    Position(TOP_NATIVE_IDS, top[i].address)
  }

  /** Among the natives: the first with an NFID address goes by the address. */
  function NativeKey(natives: seq<Token>, i: nat): nat
    requires i < |natives|
  {
    var id := natives[i].address;
    if id in NFID_IDS && id !in Addresses(natives[..i]) then 4 + Position(NFID_IDS, id) else 3
  }

  /** Among the NFID tokens: those with a native of their address before them go by their category. */
  function FirstKey(natives: seq<Token>, t: Token): nat {
    if t.address !in Addresses(natives) then 4 + Position(NFID_IDS, t.address)
    else if t.category == Native then 3 else 5 + Rank(t.category)
  }

  function OtherKey(t: Token): nat {
    5 + Rank(t.category)
  }

  function TopKeys(top: seq<Token>): (r: seq<nat>)
    ensures |r| == |top| && forall i :: 0 <= i < |r| ==> r[i] == TopKey(top, i)
  {
    seq(|top|, i requires 0 <= i < |top| => TopKey(top, i))
  }

  function NativeKeys(natives: seq<Token>): (r: seq<nat>)
    ensures |r| == |natives| && forall i :: 0 <= i < |r| ==> r[i] == NativeKey(natives, i)
  {
    seq(|natives|, i requires 0 <= i < |natives| => NativeKey(natives, i))
  }

  function FirstKeys(natives: seq<Token>, firsts: seq<Token>): (r: seq<nat>)
    ensures |r| == |firsts| && forall i :: 0 <= i < |r| ==> r[i] == FirstKey(natives, firsts[i])
  {
    seq(|firsts|, i requires 0 <= i < |firsts| => FirstKey(natives, firsts[i]))
  }

  function OtherKeys(others: seq<Token>): (r: seq<nat>)
    ensures |r| == |others| && forall i :: 0 <= i < |r| ==> r[i] == OtherKey(others[i])
  {
    seq(|others|, i requires 0 <= i < |others| => OtherKey(others[i]))
  }

  /** Keys of a list put together from two. */
  lemma {:induction false} KeysOfConcat(a: seq<Token>, b: seq<Token>, seen: set<string>)
    ensures Keys(a + b, seen) == Keys(a, seen) + Keys(b, seen + Addresses(a))
  {
    hide Key;
    if a == [] {
      assert a + b == b && seen + Addresses(a) == seen;
    } else {
      KeysOfConcat(a[1..], b, seen + {a[0].address});
      assert (a + b)[1..] == a[1..] + b && a == [a[0]] + a[1..];
      assert seen + {a[0].address} + Addresses(a[1..]) == seen + Addresses(a);
    }
  }

  lemma KeysOfTop(top: seq<Token>)
    requires Ascending(top, TOP_NATIVE_IDS)
    ensures Keys(top, {}) == TopKeys(top)
  {
    hide Keys, Position;
    forall i | 0 <= i < |top| ensures Keys(top, {})[i] == TopKey(top, i) {
      KeysAt(top, {}, i);
      assert forall j :: 0 <= j < i ==> top[j].address != top[i].address;
    }
  }

  lemma KeysOfNatives(natives: seq<Token>, seen: set<string>)
    requires forall t :: t in natives ==> t.category == Native
    requires forall t :: t in natives && t.address in TOP_NATIVE_IDS ==> t.address in seen
    requires forall id :: id in seen ==> id in TOP_NATIVE_IDS
    ensures Keys(natives, seen) == NativeKeys(natives)
  {
    hide Keys, Position, Key;
    forall i | 0 <= i < |natives| ensures Keys(natives, seen)[i] == NativeKey(natives, i) {
      KeysAt(natives, seen, i);
      KeyOfTail(natives[i], seen + Addresses(natives[..i]));
      if natives[i].address in NFID_IDS {
        NfidPosition(natives[i].address);
      }
    }
  }

  lemma KeysOfFirsts(natives: seq<Token>, firsts: seq<Token>, seen: set<string>)
    requires Ascending(firsts, NFID_IDS)
    requires forall id :: id in NFID_IDS ==> (id in seen <==> id in Addresses(natives))
    ensures Keys(firsts, seen) == FirstKeys(natives, firsts)
  {
    hide Keys, Position, Key;
    forall i | 0 <= i < |firsts| ensures Keys(firsts, seen)[i] == FirstKey(natives, firsts[i]) {
      var t := firsts[i];
      KeysAt(firsts, seen, i);
      NfidPosition(t.address);
      KeyOfTail(t, seen + Addresses(firsts[..i]));
      assert forall j :: 0 <= j < i ==> firsts[j].address != t.address;
    }
  }

  lemma KeysOfOthers(others: seq<Token>, seen: set<string>)
    requires forall t :: t in others ==> t.category != Native
    requires forall t :: t in others && t.address in TOP_NATIVE_IDS + NFID_IDS ==> t.address in seen
    ensures Keys(others, seen) == OtherKeys(others)
  {
    hide Keys, Position, Key;
    forall i | 0 <= i < |others| ensures Keys(others, seen)[i] == OtherKey(others[i]) {
      KeysAt(others, seen, i);
      KeyOfTail(others[i], seen + Addresses(others[..i]));
    }
  }

  lemma KeysOfParts(top: seq<Token>, natives: seq<Token>, firsts: seq<Token>, others: seq<Token>)
    requires Parts(top, natives, firsts, others)
    ensures Keys(top + natives + firsts + others, {}) ==
            TopKeys(top) + NativeKeys(natives) + FirstKeys(natives, firsts) + OtherKeys(others)
  {
    hide Keys, Key, Position;
    var t, n, f := Addresses(top), Addresses(natives), Addresses(firsts);
    AddressesOf(top, natives);
    AddressesOf(top + natives, firsts);
    KeysOfConcat(top + natives + firsts, others, {});
    KeysOfConcat(top + natives, firsts, {});
    KeysOfConcat(top, natives, {});
    assert {} + t == t && {} + (t + n) == t + n && {} + (t + n + f) == t + n + f;
    KeysOfTop(top);
    forall id | id in NFID_IDS ensures id !in t {
      NfidPosition(id);
    }
    KeysOfNatives(natives, t);
    KeysOfFirsts(natives, firsts, t + n);
    KeysOfOthers(others, t + n + f);
  }

  // ---------------------------------------------------------------- when the keys are in order

  predicate Below(a: seq<nat>, b: seq<nat>) {
    forall i, j :: 0 <= i < |a| && 0 <= j < |b| ==> a[i] <= b[j]
  }

  lemma OrderConcat(a: seq<nat>, b: seq<nat>)
    ensures InOrder(a + b) <==> InOrder(a) && InOrder(b) && Below(a, b)
  {
    var all := a + b;
    if InOrder(all) {
      forall i, j | 0 <= i < j < |a| ensures a[i] <= a[j] {
        assert all[i] <= all[j];
      }
      forall i, j | 0 <= i < j < |b| ensures b[i] <= b[j] {
        assert all[|a| + i] <= all[|a| + j];
      }
      forall i, j | 0 <= i < |a| && 0 <= j < |b| ensures a[i] <= b[j] {
        assert all[i] <= all[|a| + j];
      }
    }
  }

  /** The keys of the natives, the NFID tokens and the others, one after the other, are in order. */
  ghost predicate TailInOrder(natives: seq<Token>, firsts: seq<Token>, others: seq<Token>) {
    var n, f, o := NativeKeys(natives), FirstKeys(natives, firsts), OtherKeys(others);
    InOrder(n) && InOrder(f) && InOrder(o) && Below(n, f) && Below(n, o) && Below(f, o)
  }

  lemma TopFirst(top: seq<Token>, rest: seq<nat>)
    requires Ascending(top, TOP_NATIVE_IDS) && AtLeast(rest, 3)
    ensures InOrder(TopKeys(top) + rest) <==> InOrder(rest)
  {
    Positions();
    hide Position;
    OrderConcat(TopKeys(top), rest);
  }

  lemma OrderThree(a: seq<nat>, b: seq<nat>, c: seq<nat>)
    ensures InOrder(a + b + c) <==>
            InOrder(a) && InOrder(b) && InOrder(c) && Below(a, b) && Below(a, c) && Below(b, c)
  {
    hide InOrder, Below;
    OrderConcat(a + b, c);
    OrderConcat(a, b);
    BelowConcat(a, b, c);
  }

  lemma TailKeysAtLeast(natives: seq<Token>, firsts: seq<Token>, others: seq<Token>)
    ensures AtLeast(NativeKeys(natives) + FirstKeys(natives, firsts) + OtherKeys(others), 3)
  {
    hide Position;
  }

  lemma TopAscends(top: seq<Token>, natives: seq<Token>, firsts: seq<Token>, others: seq<Token>)
    requires Parts(top, natives, firsts, others)
    ensures Ascending(top, TOP_NATIVE_IDS)
  {
  }

  lemma InOrderIffTail(top: seq<Token>, natives: seq<Token>, firsts: seq<Token>, others: seq<Token>)
    requires Parts(top, natives, firsts, others)
    ensures InOrder(Keys(top + natives + firsts + others, {})) <==> TailInOrder(natives, firsts, others)
  {
    hide Keys, InOrder, Below, Parts, Ascending, AtLeast, TopKeys, NativeKeys, FirstKeys, OtherKeys;
    KeysOfParts(top, natives, firsts, others);
    TopAscends(top, natives, firsts, others);
    var n, f, o := NativeKeys(natives), FirstKeys(natives, firsts), OtherKeys(others);
    assert TopKeys(top) + n + f + o == TopKeys(top) + (n + f + o);
    TailKeysAtLeast(natives, firsts, others);
    TopFirst(top, n + f + o);
    OrderThree(n, f, o);
  }

  lemma BelowConcat(a: seq<nat>, b: seq<nat>, c: seq<nat>)
    ensures Below(a + b, c) <==> Below(a, c) && Below(b, c)
  {
    if Below(a + b, c) {
      forall i, j | 0 <= i < |a| && 0 <= j < |c| ensures a[i] <= c[j] {
        assert (a + b)[i] <= c[j];
      }
      forall i, j | 0 <= i < |b| && 0 <= j < |c| ensures b[i] <= c[j] {
        assert (a + b)[|a| + i] <= c[j];
      }
    }
  }

  /** Lists of tokens by ascending addresses with the same addresses agree on them, position by position. */
  lemma {:induction false} SameAscent(a: seq<Token>, b: seq<Token>, ids: seq<string>)
    requires Ascending(a, ids) && Ascending(b, ids) && Addresses(a) == Addresses(b)
    ensures |a| == |b| && forall i :: 0 <= i < |a| ==> a[i].address == b[i].address
  {
    hide Position;
    assert a != [] ==> a[0].address in Addresses(a);
    assert b != [] ==> b[0].address in Addresses(b);
    if a != [] && b != [] {
      SameHead(a, b, ids);
      TailAscends(a, ids);
      TailAscends(b, ids);
      SameAscent(a[1..], b[1..], ids);
      forall i | 0 < i < |a| ensures a[i].address == b[i].address {
        assert a[1..][i - 1].address == b[1..][i - 1].address;
      }
    }
  }

  lemma SameHead(a: seq<Token>, b: seq<Token>, ids: seq<string>)
    requires Ascending(a, ids) && Ascending(b, ids) && Addresses(a) == Addresses(b) && a != [] && b != []
    ensures a[0].address == b[0].address
  {
    hide Position;
    assert a[0].address in Addresses(b) && b[0].address in Addresses(a);
    var i :| 0 <= i < |b| && b[i].address == a[0].address;
    var j :| 0 <= j < |a| && a[j].address == b[0].address;
    SamePosition(ids, a[0].address, b[0].address) by {
      assert Position(ids, b[0].address) <= Position(ids, b[i].address);
      assert Position(ids, a[0].address) <= Position(ids, a[j].address);
    }
  }

  lemma TailAscends(a: seq<Token>, ids: seq<string>)
    requires Ascending(a, ids) && a != []
    ensures Ascending(a[1..], ids) && Addresses(a[1..]) == Addresses(a) - {a[0].address}
  {
    hide Position;
    var t := a[1..];
    assert forall i :: 0 <= i < |t| ==> t[i] == a[i + 1];
    assert a == [a[0]] + t;
    assert forall i :: 0 <= i < |t| ==> t[i].address != a[0].address;
  }

  /** The first native with an NFID address. */
  lemma FirstShadow(natives: seq<Token>) returns (k: nat)
    requires !NoShadows(natives)
    ensures k < |natives| && natives[k].address in NFID_IDS && NoShadows(natives[..k])
  {
    k := 0;
    assert natives[..|natives|] == natives;
    while natives[k].address !in NFID_IDS
      invariant k < |natives| && NoShadows(natives[..k])
      decreases |natives| - k
    {
      assert NoShadows(natives[..k + 1]);
      k := k + 1;
    }
  }

  /** With keys in order, natives from the first with an NFID address on all have one, in ascending order. */
  lemma ShadowsAscend(natives: seq<Token>, k: nat)
    requires InOrder(NativeKeys(natives)) && k < |natives|
    requires natives[k].address in NFID_IDS && NoShadows(natives[..k])
    ensures Ascending(natives[k..], NFID_IDS)
    ensures NativeKey(natives, k) == 4 + Position(NFID_IDS, natives[k].address)
  {
    hide Position;
    assert natives[k].address !in Addresses(natives[..k]);
    forall i | k <= i < |natives|
      ensures natives[i].address in NFID_IDS && natives[i].address !in Addresses(natives[..i])
      ensures NativeKey(natives, i) == 4 + Position(NFID_IDS, natives[i].address)
    {
      assert NativeKeys(natives)[k] <= NativeKeys(natives)[i];
    }
    forall i, j | k <= i < j < |natives|
      ensures Position(NFID_IDS, natives[i].address) < Position(NFID_IDS, natives[j].address)
    {
      assert NativeKeys(natives)[i] <= NativeKeys(natives)[j];
      assert natives[i] in natives[..j];
      OtherPosition(NFID_IDS, natives[i].address, natives[j].address);
    }
  }

  /** With keys in order and a native with an NFID address, every NFID token has a native of its address, and is none. */
  lemma AllShadowed(natives: seq<Token>, firsts: seq<Token>, others: seq<Token>, k: nat)
    requires TailInOrder(natives, firsts, others) && Ascending(firsts, NFID_IDS)
    requires k < |natives| && natives[k].address in NFID_IDS && NoShadows(natives[..k])
    requires natives[k].address in Addresses(firsts)
    ensures forall j :: 0 <= j < |firsts| ==> firsts[j].address in Addresses(natives) && firsts[j].category != Native
  {
    hide Position;
    ShadowsAscend(natives, k);
    var i :| 0 <= i < |firsts| && firsts[i].address == natives[k].address;
    var f := FirstKeys(natives, firsts);
    assert NativeKeys(natives)[k] <= f[i];
    assert firsts[i].address in Addresses(natives);
    forall j | 0 <= j < |firsts| ensures firsts[j].address in Addresses(natives) && firsts[j].category != Native {
      NfidPosition(firsts[j].address);
      assert NativeKeys(natives)[k] <= f[j];
      if j < i {
        assert Position(NFID_IDS, firsts[j].address) < Position(NFID_IDS, firsts[i].address);
      } else if i < j {
        assert f[i] <= f[j];
      }
    }
  }

  /** What holds of the natives, the NFID tokens and the others of a list. */
  ghost predicate TailParts(natives: seq<Token>, firsts: seq<Token>, others: seq<Token>) {
    && Ascending(firsts, NFID_IDS)
    && (forall t :: t in natives && t.address in NFID_IDS ==> t.address in Addresses(firsts))
    && (forall t :: t in others ==> t.category != Native)
    && InRankOrder(others)
  }

  lemma RanksInOrder(firsts: seq<Token>, others: seq<Token>)
    ensures InRankOrder(firsts + others) <==>
            InRankOrder(firsts) && InRankOrder(others) &&
            forall t, u :: t in firsts && u in others ==> Rank(t.category) <= Rank(u.category)
  {
    var all := firsts + others;
    if InRankOrder(all) {
      forall i, j | 0 <= i < j < |firsts| ensures Rank(firsts[i].category) <= Rank(firsts[j].category) {
        assert all[i] == firsts[i] && all[j] == firsts[j];
      }
      forall i, j | 0 <= i < j < |others| ensures Rank(others[i].category) <= Rank(others[j].category) {
        assert all[|firsts| + i] == others[i] && all[|firsts| + j] == others[j];
      }
      forall i, j | 0 <= i < |firsts| && 0 <= j < |others| ensures Rank(firsts[i].category) <= Rank(others[j].category) {
        assert all[i] == firsts[i] && all[|firsts| + j] == others[j];
      }
    }
  }

  predicate AllSeen(natives: seq<Token>, firsts: seq<Token>) {
    forall j :: 0 <= j < |firsts| ==> firsts[j].address in Addresses(natives) && firsts[j].category != Native
  }

  lemma ShadowsMatch(natives: seq<Token>, firsts: seq<Token>, k: nat)
    requires k < |natives| && NoShadows(natives[..k]) && Ascending(natives[k..], NFID_IDS) && Ascending(firsts, NFID_IDS)
    requires AllSeen(natives, firsts)
    requires forall t :: t in natives && t.address in NFID_IDS ==> t.address in Addresses(firsts)
    ensures |natives| - k == |firsts| && forall i :: 0 <= i < |firsts| ==> natives[k + i].address == firsts[i].address
  {
    hide Position;
    var shadows := natives[k..];
    assert natives == natives[..k] + shadows;
    forall j | 0 <= j < |firsts| ensures firsts[j].address in Addresses(shadows) {
      assert firsts[j].address in Addresses(natives);
      var t :| t in natives && t.address == firsts[j].address;
      assert t !in natives[..k];
    }
    forall i | 0 <= i < |shadows| ensures shadows[i].address in Addresses(firsts) {
      assert shadows[i] in natives;
    }
    SameAscent(shadows, firsts, NFID_IDS);
    assert forall i :: 0 <= i < |firsts| ==> natives[k + i] == shadows[i];
  }

  lemma RanksFollow(natives: seq<Token>, firsts: seq<Token>, others: seq<Token>)
    requires TailInOrder(natives, firsts, others) && InRankOrder(others) && AllSeen(natives, firsts)
    ensures InRankOrder(firsts + others)
  {
    hide Position, NativeKeys;
    SeenKeys(natives, firsts);
    var f, o := FirstKeys(natives, firsts), OtherKeys(others);
    forall i, j | 0 <= i < j < |firsts| ensures Rank(firsts[i].category) <= Rank(firsts[j].category) {
      assert f[i] <= f[j];
    }
    forall i, j | 0 <= i < |firsts| && 0 <= j < |others| ensures Rank(firsts[i].category) <= Rank(others[j].category) {
      assert f[i] <= o[j];
    }
    RanksInOrder(firsts, others);
  }

  lemma ShadowedMeansShadow(natives: seq<Token>, firsts: seq<Token>, others: seq<Token>)
    requires TailParts(natives, firsts, others) && TailInOrder(natives, firsts, others) && !NoShadows(natives)
    ensures InTheirShadow(natives, firsts, others)
  {
    hide Position, NativeKeys, FirstKeys, OtherKeys, Below, InOrder, InRankOrder, Ascending;
    var k := FirstShadow(natives);
    ShadowsAscend(natives, k);
    AllShadowed(natives, firsts, others, k);
    ShadowsMatch(natives, firsts, k);
    RanksFollow(natives, firsts, others);
  }

  lemma SeenKeys(natives: seq<Token>, firsts: seq<Token>)
    requires AllSeen(natives, firsts)
    ensures forall j :: 0 <= j < |firsts| ==> FirstKeys(natives, firsts)[j] == 5 + Rank(firsts[j].category) >= 7
  {
  }

  lemma KeysOfNoShadows(natives: seq<Token>)
    requires NoShadows(natives)
    ensures forall i :: 0 <= i < |natives| ==> NativeKeys(natives)[i] == 3
  {
  }

  lemma NoShadowsInOrder(natives: seq<Token>, firsts: seq<Token>, others: seq<Token>)
    requires TailParts(natives, firsts, others) && NoShadows(natives)
    ensures TailInOrder(natives, firsts, others)
  {
    hide Position, NativeKeys;
    KeysOfNoShadows(natives);
    var f := FirstKeys(natives, firsts);
    forall i | 0 <= i < |firsts| ensures f[i] == 4 + Position(NFID_IDS, firsts[i].address) < 7 {
      NfidPosition(firsts[i].address);
    }
    RankOfOthers(others);
  }

  lemma RankOfOthers(others: seq<Token>)
    requires forall t :: t in others ==> t.category != Native
    ensures forall i :: 0 <= i < |others| ==> OtherKeys(others)[i] == 5 + Rank(others[i].category) >= 7
  {
  }

  lemma KeyOfShadow(natives: seq<Token>, firsts: seq<Token>, others: seq<Token>, k: nat)
    requires Ascending(firsts, NFID_IDS) && InTheirShadow(natives, firsts, others)
    requires |natives| - |firsts| <= k < |natives|
    ensures var id := firsts[k - (|natives| - |firsts|)].address;
            natives[k].address == id && NativeKey(natives, k) == 4 + Position(NFID_IDS, id) < 7
  {
    hide Position, InRankOrder;
    var n := |natives| - |firsts|;
    var id := firsts[k - n].address;
    assert natives[n + (k - n)].address == id;
    NfidPosition(id);
    forall j | 0 <= j < k ensures natives[j].address != id {
      if j < n {
        assert natives[j] in natives[..n];
      } else {
        assert natives[n + (j - n)].address == firsts[j - n].address;
        assert Position(NFID_IDS, firsts[j - n].address) < Position(NFID_IDS, id);
      }
    }
  }

  /** Keys of natives that end in the shadows of the NFID tokens. */
  lemma KeysOfShadows(natives: seq<Token>, firsts: seq<Token>, others: seq<Token>)
    requires Ascending(firsts, NFID_IDS) && InTheirShadow(natives, firsts, others)
    ensures var n := |natives| - |firsts|;
            (forall i :: 0 <= i < n ==> NativeKeys(natives)[i] == 3) &&
            (forall j :: n <= j < |natives| ==> NativeKeys(natives)[j] == 4 + Position(NFID_IDS, firsts[j - n].address) < 7)
    ensures AllSeen(natives, firsts)
  {
    hide Position, InRankOrder, NativeKey, Ascending;
    var n := |natives| - |firsts|;
    forall i | 0 <= i < n ensures NativeKeys(natives)[i] == 3 {
      assert natives[i] in natives[..n];
      KeyOfPlain(natives, i);
    }
    forall j | n <= j < |natives|
      ensures NativeKeys(natives)[j] == 4 + Position(NFID_IDS, firsts[j - n].address) < 7
    {
      KeyOfShadow(natives, firsts, others, j);
    }
    forall i | 0 <= i < |firsts| ensures firsts[i].address in Addresses(natives) {
      assert natives[n + i].address == firsts[i].address && natives[n + i] in natives;
    }
  }

  lemma KeyOfPlain(natives: seq<Token>, i: nat)
    requires i < |natives| && natives[i].address !in NFID_IDS
    ensures NativeKey(natives, i) == 3
  {
  }

  lemma ShadowKeysInOrder(natives: seq<Token>, firsts: seq<Token>, others: seq<Token>)
    requires Ascending(firsts, NFID_IDS) && InTheirShadow(natives, firsts, others)
    ensures InOrder(NativeKeys(natives)) && forall j :: 0 <= j < |natives| ==> NativeKeys(natives)[j] < 7
  {
    KeysOfShadows(natives, firsts, others);
    hide Position, NativeKeys, InTheirShadow;
  }

  lemma ShadowsInOrder(natives: seq<Token>, firsts: seq<Token>, others: seq<Token>)
    requires TailParts(natives, firsts, others) && InTheirShadow(natives, firsts, others)
    ensures TailInOrder(natives, firsts, others)
  {
    hide Position, NativeKeys;
    KeysOfShadows(natives, firsts, others);
    ShadowKeysInOrder(natives, firsts, others);
    SeenKeys(natives, firsts);
    RankOfOthers(others);
    RanksInOrder(firsts, others);
    hide InTheirShadow, AllSeen;
  }

  // ---------------------------------------------------------------- the theorem

  lemma TailPartsOf(top: seq<Token>, natives: seq<Token>, firsts: seq<Token>, others: seq<Token>)
    requires Parts(top, natives, firsts, others)
    ensures TailParts(natives, firsts, others)
  {
    assert forall t :: t in natives ==> t in natives + others;
  }

  lemma SortedInOrderIff(s: seq<Token>)
    ensures InOrder(Keys(Sorted(s), {})) <==> NoShadows(Natives(s)) || InTheirShadow(Natives(s), Firsts(s), Others(s))
  {
    hide Keys, InOrder, Sorted, Parts, TailParts, TailInOrder, NoShadows, InTheirShadow;
    SortedHasParts(s);
    var top, natives, firsts, others := FindAll(s, TOP_NATIVE_IDS), Natives(s), Firsts(s), Others(s);
    InOrderIffTail(top, natives, firsts, others);
    TailPartsOf(top, natives, firsts, others);
    if NoShadows(natives) {
      NoShadowsInOrder(natives, firsts, others);
    } else if InTheirShadow(natives, firsts, others) {
      ShadowsInOrder(natives, firsts, others);
    } else if TailInOrder(natives, firsts, others) {
      ShadowedMeansShadow(natives, firsts, others);
    }
  }

  lemma TwiceCounted(s: seq<Token>, i: nat, j: nat)
    requires i < j < |s|
    ensures s[i] == s[j] ==> multiset(s)[s[i]] >= 2
  {
    assert s == s[..j] + s[j..];
    assert s[i] in s[..j] && s[j] in s[j..];
    assert multiset(s) == multiset(s[..j]) + multiset(s[j..]);
  }

  lemma SortedHasNoRepeats(s: seq<Token>)
    requires NoRepeats(s)
    ensures NoRepeats(Sorted(s))
  {
    hide Sorted;
    SortedIsPermutation(s);
    OnceEach(s);
    var x := Sorted(s);
    forall i, j | 0 <= i < j < |x| ensures x[i] != x[j] {
      TwiceCounted(x, i, j);
    }
  }

  lemma {:induction false} OnceEach(s: seq<Token>)
    requires NoRepeats(s)
    ensures forall t :: multiset(s)[t] <= 1
  {
    if s != [] {
      assert s == [s[0]] + s[1..];
      OnceEach(s[1..]);
      assert forall i :: 0 <= i < |s[1..]| ==> s[1..][i] == s[i + 1];
      assert s[0] !in s[1..];
    }
  }

  /**
   * Sorting the sorted list again changes nothing when no native left over has an NFID address, or when such
   * natives are exactly the shadows of the NFID tokens; and, for a list of different objects, only then.
   */
  lemma SortingTwiceIsSortingOnceIff(s: seq<Token>)
    ensures NoShadows(Natives(s)) || InTheirShadow(Natives(s), Firsts(s), Others(s)) ==> Sorted(Sorted(s)) == Sorted(s)
    ensures NoRepeats(s) && Sorted(Sorted(s)) == Sorted(s) ==>
              NoShadows(Natives(s)) || InTheirShadow(Natives(s), Firsts(s), Others(s))
  {
    hide Sorted, Keys, InOrder, NoShadows, InTheirShadow, NoRepeats;
    SortedIsByKey(Sorted(s));
    SortedInOrderIff(s);
    if InOrder(Keys(Sorted(s), {})) {
      InOrderIsFixed(Sorted(s), {});
    } else if NoRepeats(s) && Sorted(Sorted(s)) == Sorted(s) {
      SortedHasNoRepeats(s);
      FixedIsInOrder(Sorted(s), {});
    }
  }
}
