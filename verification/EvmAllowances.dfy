/**
 * The scan of approval logs for allowances in force (integration/ethereum/erc20-abstract.service.ts):
 * pairs are collected in a map that keeps insertion order, read in one multicall, and filtered.
 */
module EvmAllowances {
  import opened Common
  import opened BalanceQueueKey

  /** A log; its spender is missing when the log does not parse as an approval. */
  datatype Log = Log(address: string, spender: Option<string>)

  datatype Allowance = Allowance(contract: string, spender: string, allowance: nat)

  /** The multicall's reading of an allowance by lower-case contract and spender; None when it fails. */
  type Oracle = (string, string) -> Option<nat>

  function PairKey(contract: string, spender: string): string {
    Lower(contract) + ":" + Lower(spender)
  }


  /** Addresses hold no separator. */
  predicate WellFormed(logs: seq<Log>) {
    forall i :: 0 <= i < |logs| ==> Free(logs[i].address, ':')
  }

  function KeyOf(l: Log): string
    requires l.spender.Some?
  {
    PairKey(l.address, l.spender.value)
  }

  predicate HasKey(l: Log, key: string) {
    l.spender.Some? && KeyOf(l) == key
  }

  /** The allowance read for a pair, 0 when the read fails. */
  function Amount(allowed: Oracle, contract: string, spender: string): nat {
    match allowed(Lower(contract), Lower(spender))
    case None => 0
    case Some(v) => v
  }

  // ---------------------------------------------------------------- the naive scan

  /** No earlier log is for the same pair. */
  predicate IsFirst(logs: seq<Log>, i: nat)
    requires i < |logs| && logs[i].spender.Some?
  {
    forall j :: 0 <= j < i ==> !HasKey(logs[j], KeyOf(logs[i]))
  }

  /** The position after the last log for a pair among the first n; 0 if there is none. */
  function Last(logs: seq<Log>, key: string, n: nat): (r: nat)
    requires n <= |logs|
    ensures r <= n
    ensures r > 0 ==> HasKey(logs[r - 1], key)
    ensures forall j :: r <= j < n ==> !HasKey(logs[j], key)
  {
    if n == 0 then 0 else if HasKey(logs[n - 1], key) then n else Last(logs, key, n - 1)
  }

  /** What is reported for a pair: the names in its last log, when its allowance is positive. */
  function Report(logs: seq<Log>, allowed: Oracle, key: string): seq<Allowance> {
    var k := Last(logs, key, |logs|);
    if k == 0 then [] else
    var l := logs[k - 1];
    var v := Amount(allowed, l.address, l.spender.value);
    if v > 0 then [Allowance(l.address, l.spender.value, v)] else []
  }

  /** Log by log, each pair is reported where it first occurs. */
  function Naive(logs: seq<Log>, allowed: Oracle, n: nat): seq<Allowance>
    requires n <= |logs|
  {
    if n == 0 then [] else
    Naive(logs, allowed, n - 1) +
    (if logs[n - 1].spender.Some? && IsFirst(logs, n - 1) then Report(logs, allowed, KeyOf(logs[n - 1])) else [])
  }

  function AllowanceKey(a: Allowance): string {
    PairKey(a.contract, a.spender)
  }

  lemma SameKeySamePair(l: Log, m: Log)
    requires l.spender.Some? && m.spender.Some? && Free(l.address, ':') && Free(m.address, ':')
    requires KeyOf(l) == KeyOf(m)
    ensures Lower(l.address) == Lower(m.address) && Lower(l.spender.value) == Lower(m.spender.value)
  {
    LowerKeepsFree(l.address, ':');
    LowerKeepsFree(m.address, ':');
    SplitUnique(Lower(l.address), Lower(m.address), Lower(l.spender.value), Lower(m.spender.value), ':');
  }

  /** A report for a log's pair is there exactly when the log's own allowance is positive, and is its amount. */
  lemma ReportOf(logs: seq<Log>, allowed: Oracle, i: nat)
    requires WellFormed(logs) && i < |logs| && logs[i].spender.Some?
    ensures var r := Report(logs, allowed, KeyOf(logs[i]));
            var v := Amount(allowed, logs[i].address, logs[i].spender.value);
            if v > 0 then |r| == 1 && r[0].allowance == v && AllowanceKey(r[0]) == KeyOf(logs[i]) else r == []
  {
    hide PairKey, Lower;
    var k := Last(logs, KeyOf(logs[i]), |logs|);
    assert HasKey(logs[i], KeyOf(logs[i]));
    SameKeySamePair(logs[i], logs[k - 1]);
  }

  ghost predicate OccursBefore(logs: seq<Log>, n: nat, key: string) {
    exists j :: 0 <= j < n <= |logs| && HasKey(logs[j], key)
  }

  lemma OccursLater(logs: seq<Log>, m: nat, n: nat, key: string)
    requires OccursBefore(logs, m, key) && m <= n <= |logs|
    ensures OccursBefore(logs, n, key)
  {
    var j :| 0 <= j < m && HasKey(logs[j], key);
  }

  /** Only pairs of the first n logs, and none of them twice. */
  ghost predicate ReportedOnce(logs: seq<Log>, n: nat, r: seq<Allowance>) {
    && (forall i :: 0 <= i < |r| ==> OccursBefore(logs, n, AllowanceKey(r[i])))
    && (forall i, j :: 0 <= i < j < |r| ==> AllowanceKey(r[i]) != AllowanceKey(r[j]))
  }

  lemma ReportedOnceMore(logs: seq<Log>, n: nat, r: seq<Allowance>, more: seq<Allowance>)
    requires n < |logs| && ReportedOnce(logs, n, r) && |more| <= 1
    requires more != [] ==> HasKey(logs[n], AllowanceKey(more[0])) && !OccursBefore(logs, n, AllowanceKey(more[0]))
    ensures ReportedOnce(logs, n + 1, r + more)
  {
    hide PairKey, AllowanceKey, HasKey;
    var all := r + more;
    forall i | 0 <= i < |all| ensures OccursBefore(logs, n + 1, AllowanceKey(all[i])) {
      if i < |r| {
        assert all[i] == r[i];
        OccursLater(logs, n, n + 1, AllowanceKey(r[i]));
      } else {
        assert all[i] == more[0];
      }
    }
  }

  /** The naive scan reports only pairs of some log, and no pair twice. */
  lemma {:induction false} NaiveReportsOnce(logs: seq<Log>, allowed: Oracle, n: nat)
    requires WellFormed(logs) && n <= |logs|
    ensures ReportedOnce(logs, n, Naive(logs, allowed, n))
  {
    hide PairKey, Report, ReportedOnce, AllowanceKey;
    if n == 0 {
      NothingReported(logs);
    } else {
      NaiveReportsOnce(logs, allowed, n - 1);
      var p := Naive(logs, allowed, n - 1);
      if logs[n - 1].spender.Some? && IsFirst(logs, n - 1) {
        var key := KeyOf(logs[n - 1]);
        ReportOf(logs, allowed, n - 1);
        assert HasKey(logs[n - 1], key) && !OccursBefore(logs, n - 1, key);
        ReportedOnceMore(logs, n - 1, p, Report(logs, allowed, key));
      } else {
        ReportedOnceMore(logs, n - 1, p, []);
        assert p + [] == p;
      }
    }
  }

  lemma NothingReported(logs: seq<Log>)
    ensures ReportedOnce(logs, 0, [])
  {
  }

  ghost predicate Reported(r: seq<Allowance>, key: string, v: nat) {
    exists i :: 0 <= i < |r| && AllowanceKey(r[i]) == key && r[i].allowance == v
  }

  /** Every pair of a log among the first n whose allowance is read as positive is reported with that allowance. */
  lemma {:induction false} NaiveReportsAll(logs: seq<Log>, allowed: Oracle, n: nat, k: nat)
    requires WellFormed(logs) && k < n <= |logs| && logs[k].spender.Some?
    requires Amount(allowed, logs[k].address, logs[k].spender.value) > 0
    ensures Reported(Naive(logs, allowed, n), KeyOf(logs[k]), Amount(allowed, logs[k].address, logs[k].spender.value))
  {
    hide PairKey, Report, Amount, Lower;
    var v := Amount(allowed, logs[k].address, logs[k].spender.value);
    var p := Naive(logs, allowed, n - 1);
    if k < n - 1 {
      NaiveReportsAll(logs, allowed, n - 1, k);
      var i :| 0 <= i < |p| && AllowanceKey(p[i]) == KeyOf(logs[k]) && p[i].allowance == v;
      assert Naive(logs, allowed, n)[i] == p[i];
    } else if IsFirst(logs, k) {
      ReportOf(logs, allowed, k);
      assert Naive(logs, allowed, n)[|p|].allowance == v;
    } else {
      var j :| 0 <= j < k && HasKey(logs[j], KeyOf(logs[k]));
      SameKeySamePair(logs[j], logs[k]);
      SameAmount(allowed, logs[j], logs[k]);
      NaiveReportsAll(logs, allowed, n - 1, j);
      var i :| 0 <= i < |p| && AllowanceKey(p[i]) == KeyOf(logs[k]) && p[i].allowance == v;
      assert Naive(logs, allowed, n)[i] == p[i];
    }
  }

  lemma SameAmount(allowed: Oracle, l: Log, m: Log)
    requires l.spender.Some? && m.spender.Some?
    requires Lower(l.address) == Lower(m.address) && Lower(l.spender.value) == Lower(m.spender.value)
    ensures Amount(allowed, l.address, l.spender.value) == Amount(allowed, m.address, m.spender.value)
  {
  }

  /** The allowance is positive, and is the one read for its pair, as the pair's last log names it. */
  ghost predicate ReadForLast(logs: seq<Log>, allowed: Oracle, a: Allowance) {
    var k := Last(logs, AllowanceKey(a), |logs|);
    && k > 0 && logs[k - 1] == Log(a.contract, Some(a.spender))
    && allowed(Lower(a.contract), Lower(a.spender)) == Some(a.allowance) && a.allowance > 0
  }

  lemma ReportIsRead(logs: seq<Log>, allowed: Oracle, key: string)
    ensures forall a :: a in Report(logs, allowed, key) ==> ReadForLast(logs, allowed, a)
  {
    hide PairKey, Lower;
    var k := Last(logs, key, |logs|);
    if k > 0 {
      assert HasKey(logs[k - 1], key);
      assert logs[k - 1] == Log(logs[k - 1].address, Some(logs[k - 1].spender.value));
    }
  }

  lemma {:induction false} NaiveReportsOnlyRead(logs: seq<Log>, allowed: Oracle, n: nat)
    requires n <= |logs|
    ensures forall a :: a in Naive(logs, allowed, n) ==> ReadForLast(logs, allowed, a)
  {
    hide PairKey, Report, ReadForLast, IsFirst;
    if n > 0 {
      NaiveReportsOnlyRead(logs, allowed, n - 1);
      if logs[n - 1].spender.Some? {
        ReportIsRead(logs, allowed, KeyOf(logs[n - 1]));
      }
    }
  }

  /** The same contract and the same spender, letter case aside. */
  predicate SamePair(a: Allowance, contract: string, spender: string) {
    Lower(a.contract) == Lower(contract) && Lower(a.spender) == Lower(spender)
  }

  /** Allowances reported by the scan are of different pairs. */
  lemma PairsDiffer(logs: seq<Log>, allowed: Oracle, i: nat, j: nat)
    requires WellFormed(logs) && i < j < |Naive(logs, allowed, |logs|)|
    ensures !SamePair(Naive(logs, allowed, |logs|)[i], Naive(logs, allowed, |logs|)[j].contract,
                      Naive(logs, allowed, |logs|)[j].spender)
  {
    hide Naive, Lower;
    NaiveReportsOnce(logs, allowed, |logs|);
    var r := Naive(logs, allowed, |logs|);
    assert AllowanceKey(r[i]) != AllowanceKey(r[j]);
  }

  /** The pair of a log, letter case aside, is reported with an allowance exactly when that is read, and positive. */
  lemma ReportedIff(logs: seq<Log>, allowed: Oracle, k: nat, v: nat)
    requires WellFormed(logs) && k < |logs| && logs[k].spender.Some?
    ensures var l, r := logs[k], Naive(logs, allowed, |logs|);
            (exists i :: 0 <= i < |r| && SamePair(r[i], l.address, l.spender.value) && r[i].allowance == v) <==>
            allowed(Lower(l.address), Lower(l.spender.value)) == Some(v) && v > 0
  {
    hide Naive, Lower;
    var r, l := Naive(logs, allowed, |logs|), logs[k];
    if i :| 0 <= i < |r| && SamePair(r[i], l.address, l.spender.value) && r[i].allowance == v {
      NaiveReportsOnlyRead(logs, allowed, |logs|);
      assert r[i] in r;
    }
    if Amount(allowed, l.address, l.spender.value) == v && v > 0 {
      NaiveReportsAll(logs, allowed, |logs|, k);
      var i :| 0 <= i < |r| && AllowanceKey(r[i]) == KeyOf(l) && r[i].allowance == v;
      NaiveReportsOnlyRead(logs, allowed, |logs|);
      assert r[i] in r;
      var m := Last(logs, AllowanceKey(r[i]), |logs|);
      SameKeySamePair(l, logs[m - 1]);
      assert SamePair(r[i], l.address, l.spender.value);
    }
  }

  // ---------------------------------------------------------------- the scan of the wallet

  /** The keys of the map of pairs after the first n logs, in the order they were first set. */
  function Keys(logs: seq<Log>, n: nat): seq<string>
    requires n <= |logs|
  {
    if n == 0 then [] else
    var keys := Keys(logs, n - 1);
    if logs[n - 1].spender.Some? && KeyOf(logs[n - 1]) !in keys then keys + [KeyOf(logs[n - 1])] else keys
  }

  lemma {:induction false} KeysOccur(logs: seq<Log>, n: nat, key: string)
    requires n <= |logs|
    ensures key in Keys(logs, n) <==> OccursBefore(logs, n, key)
  {
    hide PairKey;
    if n > 0 {
      KeysOccur(logs, n - 1, key);
      if OccursBefore(logs, n - 1, key) {
        var j :| 0 <= j < n - 1 && HasKey(logs[j], key);
        assert HasKey(logs[j], key);
      }
      if OccursBefore(logs, n, key) && !OccursBefore(logs, n - 1, key) {
        assert HasKey(logs[n - 1], key);
      }
    }
  }

  function ReportAll(logs: seq<Log>, allowed: Oracle, keys: seq<string>): seq<Allowance> {
    if keys == [] then [] else
    ReportAll(logs, allowed, keys[..|keys| - 1]) + Report(logs, allowed, keys[|keys| - 1])
  }

  /** Reporting the keys of the map in order is the naive scan. */
  lemma {:induction false} ReportAllIsNaive(logs: seq<Log>, allowed: Oracle, n: nat)
    requires n <= |logs|
    ensures ReportAll(logs, allowed, Keys(logs, n)) == Naive(logs, allowed, n)
  {
    hide PairKey, Report, HasKey;
    if n > 0 {
      ReportAllIsNaive(logs, allowed, n - 1);
      var keys := Keys(logs, n - 1);
      if logs[n - 1].spender.Some? {
        var key := KeyOf(logs[n - 1]);
        KeysOccur(logs, n - 1, key);
        assert IsFirst(logs, n - 1) <==> key !in keys;
        assert (keys + [key])[..|keys|] == keys;
      }
    }
  }

  /** The map of pairs after n logs: under each key, the pair as the last log with the key names it. */
  ghost predicate Collected(logs: seq<Log>, n: nat, order: seq<string>, pairs: map<string, (string, string)>)
    requires n <= |logs|
  {
    && order == Keys(logs, n)
    && (forall key :: key in order <==> key in pairs)
    && (forall key :: key in pairs ==> CollectedPair(logs, n, key, pairs[key]))
  }

  ghost predicate CollectedPair(logs: seq<Log>, n: nat, key: string, pair: (string, string))
    requires n <= |logs|
  {
    var k := Last(logs, key, n);
    k > 0 && logs[k - 1] == Log(pair.0, Some(pair.1))
  }

  lemma CollectOne(logs: seq<Log>, n: nat, order: seq<string>, pairs: map<string, (string, string)>)
    requires n < |logs| && Collected(logs, n, order, pairs) && logs[n].spender.Some?
    ensures var key := KeyOf(logs[n]);
            Collected(logs, n + 1, if key in pairs then order else order + [key],
                      pairs[key := (logs[n].address, logs[n].spender.value)])
  {
    hide PairKey;
    var key := KeyOf(logs[n]);
    var pairs' := pairs[key := (logs[n].address, logs[n].spender.value)];
    assert HasKey(logs[n], key);
    forall k | k in pairs' ensures CollectedPair(logs, n + 1, k, pairs'[k]) {
      if k != key {
        assert CollectedPair(logs, n, k, pairs[k]) && !HasKey(logs[n], k);
      } else {
        assert Last(logs, key, n + 1) == n + 1;
      }
    }
  }

  lemma SkipOne(logs: seq<Log>, n: nat, order: seq<string>, pairs: map<string, (string, string)>)
    requires n < |logs| && Collected(logs, n, order, pairs) && logs[n].spender.None?
    ensures Collected(logs, n + 1, order, pairs)
  {
    hide PairKey;
    forall k | k in pairs ensures CollectedPair(logs, n + 1, k, pairs[k]) {
      assert CollectedPair(logs, n, k, pairs[k]) && !HasKey(logs[n], k);
    }
  }

  lemma NothingCollected(logs: seq<Log>)
    ensures Collected(logs, 0, [], map[])
  {
  }

  /** The Map of pairs: its keys in the order of first insertion, and its values. */
  method CollectPairs(logs: seq<Log>) returns (order: seq<string>, pairs: map<string, (string, string)>)
    ensures Collected(logs, |logs|, order, pairs)
  {
    hide Collected, KeyOf, Keys, CollectedPair;
    order, pairs := [], map[];
    NothingCollected(logs);
    for n := 0 to |logs|
      invariant Collected(logs, n, order, pairs)
    {
      if logs[n].spender.None? {
        SkipOne(logs, n, order, pairs);
        continue;
      }
      CollectOne(logs, n, order, pairs);
      var key := KeyOf(logs[n]);
      if key !in pairs {
        order := order + [key];
      }
      pairs := pairs[key := (logs[n].address, logs[n].spender.value)];
    }
  }

  lemma ReportOfCollected(logs: seq<Log>, allowed: Oracle, key: string, pair: (string, string))
    requires CollectedPair(logs, |logs|, key, pair)
    ensures Report(logs, allowed, key) ==
            if Amount(allowed, pair.0, pair.1) > 0 then [Allowance(pair.0, pair.1, Amount(allowed, pair.0, pair.1))] else []
  {
  }

  /** The allowances read for the pairs, those that are positive. */
  method ReadAllowances(logs: seq<Log>, allowed: Oracle, order: seq<string>, pairs: map<string, (string, string)>)
    returns (allowances: seq<Allowance>)
    requires forall key :: key in order ==> key in pairs && CollectedPair(logs, |logs|, key, pairs[key])
    ensures allowances == ReportAll(logs, allowed, order)
  {
    hide Report, Amount, Last, CollectedPair;
    allowances := [];
    for i := 0 to |order|
      invariant allowances == ReportAll(logs, allowed, order[..i])
    {
      var pair := pairs[order[i]];
      ReportOfCollected(logs, allowed, order[i], pair);
      var allowance := Amount(allowed, pair.0, pair.1);
      if allowance > 0 {
        allowances := allowances + [Allowance(pair.0, pair.1, allowance)];
      }
      assert order[..i + 1][..i] == order[..i];
    }
    assert order[..|order|] == order;
  }

  /** The wallet's scan reports what the naive scan of the logs reports, in the same order. */
  method FetchEvmAllowances(logs: seq<Log>, allowed: Oracle) returns (allowances: seq<Allowance>)
    ensures allowances == Naive(logs, allowed, |logs|)
  {
    hide Report, Amount, Last, CollectedPair, Naive, Keys;
    var order, pairs := CollectPairs(logs);
    ReportAllIsNaive(logs, allowed, |logs|);
    if order == [] {
      return [];
    }
    allowances := ReadAllowances(logs, allowed, order, pairs);
  }
}
