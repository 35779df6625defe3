/**
 * Revoking all approvals (integration/ft/ft-service.ts): those on the Internet Computer (chain 0) all at once,
 * those on each other chain one after the other, the chains side by side. A run interleaves the completions freely.
 */
module RevokeAll {
  import opened Common

  const ICP: int := 0

  datatype Allowance = Allowance(chainId: int, token: string, spender: string)

  predicate IsOn(a: Allowance, chain: int) {
    a.chainId == chain
  }

  function On(chain: int): Allowance -> bool {
    (a: Allowance) => IsOn(a, chain)
  }

  /** The approvals of one chain, in list order. */
  function Lane(list: seq<Allowance>, chain: int): seq<Allowance> {
    Filter(list, On(chain))
  }

  // ---------------------------------------------------------------- grouping by chain

  /** The chains of the listed approvals other than the Internet Computer, in the order they first occur. */
  function Chains(list: seq<Allowance>): seq<int> {
    if list == [] then [] else
    var n := |list| - 1;
    var chains := Chains(list[..n]);
    if list[n].chainId == ICP || list[n].chainId in chains then chains else chains + [list[n].chainId]
  }

  predicate Distinct<T(==)>(s: seq<T>) {
    forall i, j :: 0 <= i < j < |s| ==> s[i] != s[j]
  }

  lemma {:induction false} LaneOfNext(list: seq<Allowance>, chain: int)
    requires list != []
    ensures var n := |list| - 1;
            Lane(list, chain) == Lane(list[..n], chain) + if IsOn(list[n], chain) then [list[n]] else []
  {
    var n := |list| - 1;
    assert list == list[..n] + [list[n]];
    FilterAppend(list[..n], [list[n]], On(chain));
  }

  lemma {:induction false} ChainsAreTheLanes(list: seq<Allowance>, chain: int)
    ensures Distinct(Chains(list))
    ensures chain in Chains(list) <==> chain != ICP && Lane(list, chain) != []
  {
    if list != [] {
      ChainsAreTheLanes(list[..|list| - 1], chain);
      LaneOfNext(list, chain);
    }
  }

  /** The Map of approvals by chain: its keys in the order of first insertion, and its values. */
  method GroupByChain(allowances: seq<Allowance>) returns (order: seq<int>, groups: map<int, seq<Allowance>>)
    ensures order == Chains(allowances)
    ensures forall c :: c in order <==> c in groups
    ensures forall c :: c in order ==> groups[c] == Lane(allowances, c)
  {
    order, groups := [], map[];
    for i := 0 to |allowances|
      invariant order == Chains(allowances[..i])
      invariant forall c :: c in order <==> c in groups
      invariant forall c :: c in order ==> groups[c] == Lane(allowances[..i], c)
    {
      var allowance := allowances[i];
      assert allowances[..i + 1][..i] == allowances[..i];
      forall c ensures Lane(allowances[..i + 1], c) ==
                       Lane(allowances[..i], c) + if IsOn(allowance, c) then [allowance] else [] {
        LaneOfNext(allowances[..i + 1], c);
      }
      var chainId := allowance.chainId;
      ChainsAreTheLanes(allowances[..i], chainId);
      if chainId == ICP {
        continue;
      }
      if chainId !in groups {
        order := order + [chainId];
        groups := groups[chainId := []];
      }
      groups := groups[chainId := groups[chainId] + [allowance]];
    }
    assert allowances[..|allowances|] == allowances;
  }

  // ---------------------------------------------------------------- the interleaving

  datatype Entry = Started(item: Allowance) | Revoked(item: Allowance) | Failed(item: Allowance)

  /** How far one EVM chain has got: the number of approvals revoked, and whether the next one failed. */
  datatype Progress = Progress(done: nat, failed: bool)

  /** Approvals on the Internet Computer still in flight, and those revoked and failed, in that order. */
  datatype State = State(pending: seq<Allowance>, revoked: seq<Allowance>, failed: seq<Allowance>,
                         lanes: map<int, Progress>, log: seq<Entry>)

  datatype Event = IcpSettles(i: nat, ok: bool) | EvmSettles(chain: int, ok: bool)

  function StartAll(items: seq<Allowance>): (r: seq<Entry>)
    ensures |r| == |items| && forall i :: 0 <= i < |r| ==> r[i] == Started(items[i])
  {
    seq(|items|, i requires 0 <= i < |items| => Started(items[i]))
  }

  /** The first approval of every chain is started at once. */
  function StartLanes(list: seq<Allowance>, chains: seq<int>): seq<Entry> {
    if chains == [] then [] else
    var n := |chains| - 1;
    StartLanes(list, chains[..n]) + StartOf(list, chains[n])
  }

  function StartOf(list: seq<Allowance>, chain: int): seq<Entry> {
    if Lane(list, chain) == [] then [] else [Started(Lane(list, chain)[0])]
  }

  function Init(list: seq<Allowance>): State {
    State(Lane(list, ICP), [], [], map[], StartAll(Lane(list, ICP)) + StartLanes(list, Chains(list)))
  }

  function At(s: State, chain: int): Progress {
    if chain in s.lanes then s.lanes[chain] else Progress(0, false)
  }

  predicate InFlight(list: seq<Allowance>, s: State, chain: int) {
    chain != ICP && !At(s, chain).failed && At(s, chain).done < |Lane(list, chain)|
  }

  /** What a completed revocation adds to the log: its end, and the start of the next of its chain. */
  function News(list: seq<Allowance>, s: State, e: Event): seq<Entry> {
    match e
    case IcpSettles(i, ok) =>
      if i >= |s.pending| then [] else if ok then [Revoked(s.pending[i])] else [Failed(s.pending[i])]
    case EvmSettles(chain, ok) =>
      if !InFlight(list, s, chain) then [] else
      var lane, n := Lane(list, chain), At(s, chain).done;
      if !ok then [Failed(lane[n])]
      else if n + 1 < |lane| then [Revoked(lane[n]), Started(lane[n + 1])] else [Revoked(lane[n])]
  }

  function Advance(p: Progress, ok: bool): Progress {
    if ok then Progress(p.done + 1, false) else Progress(p.done, true)
  }

  function Step(list: seq<Allowance>, s: State, e: Event): State {
    var log := s.log + News(list, s, e);
    match e
    case IcpSettles(i, ok) =>
      if i >= |s.pending| then s else
      var a := s.pending[i];
      var rest := s.pending[..i] + s.pending[i + 1..];
      if ok then s.(pending := rest, revoked := s.revoked + [a], log := log)
      else s.(pending := rest, failed := s.failed + [a], log := log)
    case EvmSettles(chain, ok) =>
      if !InFlight(list, s, chain) then s
      else s.(lanes := s.lanes[chain := Advance(At(s, chain), ok)], log := log)
  }

  function After(list: seq<Allowance>, run: seq<Event>): State {
    if run == [] then Init(list) else Step(list, After(list, run[..|run| - 1]), run[|run| - 1])
  }

  // ---------------------------------------------------------------- the log of one chain

  predicate EntryIsOn(e: Entry, chain: int) {
    IsOn(e.item, chain)
  }

  function LogOn(log: seq<Entry>, chain: int): seq<Entry> {
    Filter(log, (e: Entry) => EntryIsOn(e, chain))
  }

  function OneByOne(lane: seq<Allowance>, n: nat): (r: seq<Entry>)
    requires n <= |lane|
    ensures |r| == 2 * n
    ensures forall k :: 0 <= k < n ==> r[2 * k] == Started(lane[k]) && r[2 * k + 1] == Revoked(lane[k])
  {
    if n == 0 then [] else OneByOne(lane, n - 1) + [Started(lane[n - 1]), Revoked(lane[n - 1])]
  }

  /** Strictly one after the other, in list order, up to the first failure. */
  function LaneLog(lane: seq<Allowance>, p: Progress): seq<Entry>
    requires p.done <= |lane| && (p.failed ==> p.done < |lane|)
  {
    OneByOne(lane, p.done) + (if p.done < |lane| then [Started(lane[p.done])] else [])
                           + (if p.failed then [Failed(lane[p.done])] else [])
  }

  /** A chain's part of the log is that of a sequential revocation as far as the chain has got. */
  ghost predicate Sequential(list: seq<Allowance>, s: State, chain: int) {
    var lane, p := Lane(list, chain), At(s, chain);
    p.done <= |lane| && (p.failed ==> p.done < |lane|) && LogOn(s.log, chain) == LaneLog(lane, p)
  }

  lemma LogOnAppend(log: seq<Entry>, more: seq<Entry>, chain: int)
    ensures LogOn(log + more, chain) == LogOn(log, chain) + LogOn(more, chain)
  {
    FilterAppend(log, more, (e: Entry) => EntryIsOn(e, chain));
  }

  lemma LogOnAll(log: seq<Entry>, chain: int)
    requires forall i :: 0 <= i < |log| ==> EntryIsOn(log[i], chain)
    ensures LogOn(log, chain) == log
  {
    if log != [] {
      assert log == [log[0]] + log[1..];
      LogOnAll(log[1..], chain);
    }
  }

  lemma LogOnNone(log: seq<Entry>, chain: int)
    requires forall i :: 0 <= i < |log| ==> !EntryIsOn(log[i], chain)
    ensures LogOn(log, chain) == []
  {
    if log != [] {
      LogOnNone(log[1..], chain);
    }
  }

  lemma LaneIsOn(list: seq<Allowance>, chain: int)
    ensures forall i :: 0 <= i < |Lane(list, chain)| ==> IsOn(Lane(list, chain)[i], chain)
  {
    forall i | 0 <= i < |Lane(list, chain)| ensures IsOn(Lane(list, chain)[i], chain) {
      FilterMember(list, On(chain), Lane(list, chain)[i]);
    }
  }

  lemma {:induction false} StartLanesOn(list: seq<Allowance>, chains: seq<int>, chain: int)
    requires Distinct(chains)
    ensures LogOn(StartLanes(list, chains), chain) == if chain in chains then StartOf(list, chain) else []
  {
    hide LogOn, StartOf;
    if chains == [] {
      LogOnNone([], chain);
    } else {
      var n := |chains| - 1;
      StartLanesOn(list, chains[..n], chain);
      LogOnAppend(StartLanes(list, chains[..n]), StartOf(list, chains[n]), chain);
      StartOfOn(list, chains[n], chain);
      assert chains == chains[..n] + [chains[n]];
    }
  }

  lemma StartOfOn(list: seq<Allowance>, c: int, chain: int)
    ensures LogOn(StartOf(list, c), chain) == if c == chain then StartOf(list, c) else []
  {
    hide LogOn, Lane;
    LaneIsOn(list, c);
    if c == chain {
      LogOnAll(StartOf(list, c), chain);
    } else {
      LogOnNone(StartOf(list, c), chain);
    }
  }

  lemma InitIsSequential(list: seq<Allowance>, chain: int)
    requires chain != ICP
    ensures Sequential(list, Init(list), chain)
  {
    hide LogOn, Lane, Chains, StartLanes;
    var icp := StartAll(Lane(list, ICP));
    LaneIsOn(list, ICP);
    LogOnNone(icp, chain);
    ChainsAreTheLanes(list, chain);
    StartLanesOn(list, Chains(list), chain);
    LogOnAppend(icp, StartLanes(list, Chains(list)), chain);
  }

  lemma NewsOn(list: seq<Allowance>, s: State, e: Event, chain: int)
    requires forall i :: 0 <= i < |s.pending| ==> IsOn(s.pending[i], ICP)
    ensures LogOn(News(list, s, e), chain) ==
            if (e.EvmSettles? && e.chain == chain) || (e.IcpSettles? && chain == ICP) then News(list, s, e) else []
  {
    hide LogOn, Lane;
    if e.EvmSettles? {
      LaneIsOn(list, e.chain);
    }
    if (e.EvmSettles? && e.chain == chain) || (e.IcpSettles? && chain == ICP) {
      LogOnAll(News(list, s, e), chain);
    } else {
      LogOnNone(News(list, s, e), chain);
    }
  }

  lemma AdvanceLaneLog(list: seq<Allowance>, s: State, chain: int, ok: bool)
    requires InFlight(list, s, chain)
    ensures LaneLog(Lane(list, chain), Advance(At(s, chain), ok)) ==
            LaneLog(Lane(list, chain), At(s, chain)) + News(list, s, EvmSettles(chain, ok))
  {
    hide Lane, OneByOne;
    if ok {
      OneMore(Lane(list, chain), At(s, chain).done);
    }
  }

  lemma OneMore(lane: seq<Allowance>, n: nat)
    requires n < |lane|
    ensures OneByOne(lane, n + 1) == OneByOne(lane, n) + [Started(lane[n])] + [Revoked(lane[n])]
  {
  }

  lemma StepIsSequential(list: seq<Allowance>, s: State, e: Event, chain: int)
    requires Sequential(list, s, chain) && chain != ICP
    requires forall i :: 0 <= i < |s.pending| ==> IsOn(s.pending[i], ICP)
    ensures Sequential(list, Step(list, s, e), chain)
  {
    hide LogOn, Lane, LaneLog, News;
    NewsOn(list, s, e, chain);
    LogOnAppend(s.log, News(list, s, e), chain);
    if e == EvmSettles(chain, true) || e == EvmSettles(chain, false) {
      if InFlight(list, s, chain) {
        AdvanceLaneLog(list, s, chain, e.ok);
      }
    }
  }

  // ---------------------------------------------------------------- what is revoked

  /** The approvals revoked according to a log. */
  function Revocations(log: seq<Entry>): seq<Allowance> {
    if log == [] then [] else
    var n := |log| - 1;
    Revocations(log[..n]) + if log[n].Revoked? then [log[n].item] else []
  }

  lemma {:induction false} RevocationsAppend(log: seq<Entry>, more: seq<Entry>)
    ensures Revocations(log + more) == Revocations(log) + Revocations(more)
  {
    if more == [] {
      assert log + more == log;
    } else {
      var n := |more| - 1;
      RevocationsAppend(log, more[..n]);
      assert (log + more)[..|log| + n] == log + more[..n];
    }
  }

  lemma RevocationsOfOne(a: Entry)
    ensures Revocations([a]) == if a.Revoked? then [a.item] else []
  {
    assert [a][..0] == [];
  }

  lemma FilterOne<T>(x: T, p: T -> bool)
    ensures Filter([x], p) == if p(x) then [x] else []
    ensures Filter([], p) == []
  {
    assert [x][1..] == [];
  }

  lemma RevocationsOfOneOn(a: Entry, chain: int)
    ensures Revocations(LogOn([a], chain)) == Lane(Revocations([a]), chain)
  {
    RevocationsOfOne(a);
    FilterOne(a.item, On(chain));
    if EntryIsOn(a, chain) {
      LogOnAll([a], chain);
    } else {
      LogOnNone([a], chain);
    }
  }

  /** The revoked approvals of a chain are those in the chain's part of the log. */
  lemma {:induction false} RevocationsOn(log: seq<Entry>, chain: int)
    ensures Revocations(LogOn(log, chain)) == Lane(Revocations(log), chain)
  {
    if log != [] {
      var n := |log| - 1;
      RevocationsOn(log[..n], chain);
      assert log == log[..n] + [log[n]];
      LogOnAppend(log[..n], [log[n]], chain);
      RevocationsAppend(log[..n], [log[n]]);
      FilterAppend(Revocations(log[..n]), Revocations([log[n]]), On(chain));
      RevocationsAppend(LogOn(log[..n], chain), LogOn([log[n]], chain));
      RevocationsOfOneOn(log[n], chain);
    }
  }

  lemma {:induction false} RevocationsOneByOne(lane: seq<Allowance>, n: nat)
    requires n <= |lane|
    ensures Revocations(OneByOne(lane, n)) == lane[..n]
  {
    if n > 0 {
      RevocationsOneByOne(lane, n - 1);
      RevocationsAppend(OneByOne(lane, n - 1), [Started(lane[n - 1]), Revoked(lane[n - 1])]);
      RevocationsOfTwo(Started(lane[n - 1]), Revoked(lane[n - 1]));
      assert lane[..n] == lane[..n - 1] + [lane[n - 1]];
    }
  }

  lemma RevocationsOfTwo(a: Entry, b: Entry)
    ensures Revocations([a, b]) == (if a.Revoked? then [a.item] else []) + (if b.Revoked? then [b.item] else [])
  {
    RevocationsAppend([a], [b]);
    RevocationsOfOne(a);
    RevocationsOfOne(b);
    assert [a, b] == [a] + [b];
  }

  /** Whatever a chain's progress, what it has revoked is the beginning of its list. */
  lemma RevocationsOfLane(list: seq<Allowance>, s: State, chain: int)
    requires Sequential(list, s, chain)
    ensures Lane(Revocations(s.log), chain) == Lane(list, chain)[..At(s, chain).done]
  {
    hide LogOn, Lane, OneByOne;
    var lane, p := Lane(list, chain), At(s, chain);
    RevocationsOn(s.log, chain);
    RevocationsOneByOne(lane, p.done);
    var started := if p.done < |lane| then [Started(lane[p.done])] else [];
    var failed := if p.failed then [Failed(lane[p.done])] else [];
    assert LaneLog(lane, p) == OneByOne(lane, p.done) + started + failed;
    RevocationsAppend(OneByOne(lane, p.done) + started, failed);
    RevocationsAppend(OneByOne(lane, p.done), started);
    if p.done < |lane| {
      RevocationsOfOne(Started(lane[p.done]));
      RevocationsOfOne(Failed(lane[p.done]));
    }
  }

  function Shares(s: State): multiset<Allowance> {
    multiset(s.pending) + multiset(s.revoked) + multiset(s.failed)
  }

  /** The approvals on the Internet Computer are each in flight, revoked or failed; the revoked are in the log. */
  ghost predicate IcpKept(list: seq<Allowance>, s: State) {
    && Shares(s) == multiset(Lane(list, ICP))
    && (forall i :: 0 <= i < |s.pending| ==> IsOn(s.pending[i], ICP))
    && Lane(Revocations(s.log), ICP) == s.revoked
  }

  lemma RevocationsOfStarts(items: seq<Allowance>)
    ensures Revocations(StartAll(items)) == []
  {
    if items != [] {
      var n := |items| - 1;
      RevocationsOfStarts(items[..n]);
      assert StartAll(items)[..n] == StartAll(items[..n]);
    }
  }

  lemma InitKeepsIcp(list: seq<Allowance>)
    ensures IcpKept(list, Init(list))
  {
    hide Lane, LogOn, Chains, StartLanes;
    var icp := StartAll(Lane(list, ICP));
    LaneIsOn(list, ICP);
    ChainsAreTheLanes(list, ICP);
    StartLanesOn(list, Chains(list), ICP);
    LogOnAppend(icp, StartLanes(list, Chains(list)), ICP);
    LogOnAll(icp, ICP);
    assert icp + [] == icp;
    RevocationsOn(icp + StartLanes(list, Chains(list)), ICP);
    RevocationsOfStarts(Lane(list, ICP));
  }

  lemma NewRevocationsOnIcp(list: seq<Allowance>, s: State, e: Event)
    requires forall i :: 0 <= i < |s.pending| ==> IsOn(s.pending[i], ICP)
    ensures Lane(Revocations(s.log + News(list, s, e)), ICP) ==
            Lane(Revocations(s.log), ICP) + if e.IcpSettles? && e.i < |s.pending| && e.ok then [s.pending[e.i]] else []
  {
    hide LogOn, News, Revocations;
    var news := News(list, s, e);
    NewsOn(list, s, e, ICP);
    RevocationsAppend(s.log, news);
    FilterAppend(Revocations(s.log), Revocations(news), On(ICP));
    RevocationsOn(news, ICP);
    if e.IcpSettles? && e.i < |s.pending| {
      NewsOfIcp(list, s, e.i, e.ok);
      RevocationsOfOne(news[0]);
      assert news == [news[0]];
    } else {
      NoOtherNews(list, s, e);
      assert Revocations([]) == [] by { RevocationsOfNone(); }
    }
  }

  lemma RevocationsOfNone()
    ensures Revocations([]) == []
  {
  }

  lemma NoOtherNews(list: seq<Allowance>, s: State, e: Event)
    requires e.IcpSettles? ==> e.i >= |s.pending|
    ensures e.IcpSettles? || e.chain == ICP ==> News(list, s, e) == []
  {
  }

  lemma RemovedOne(s: seq<Allowance>, i: nat)
    requires i < |s|
    ensures multiset(s[..i] + s[i + 1..]) + multiset{s[i]} == multiset(s)
    ensures forall x :: x in s[..i] + s[i + 1..] ==> x in s
  {
    assert s == s[..i] + [s[i]] + s[i + 1..];
  }

  lemma SameShares(list: seq<Allowance>, s: State, i: nat, ok: bool)
    requires i < |s.pending|
    ensures Shares(Step(list, s, IcpSettles(i, ok))) == Shares(s)
  {
    hide Step, Lane, News;
    StepOfIcp(list, s, i, ok);
    RemovedOne(s.pending, i);
  }

  lemma StepKeepsIcp(list: seq<Allowance>, s: State, e: Event)
    requires IcpKept(list, s)
    ensures IcpKept(list, Step(list, s, e))
  {
    hide Lane, LogOn, News, Revocations, IsOn, Step, Shares;
    NewRevocationsOnIcp(list, s, e);
    if e.IcpSettles? && e.i < |s.pending| {
      StepOfIcp(list, s, e.i, e.ok);
      SameShares(list, s, e.i, e.ok);
      RemovedOne(s.pending, e.i);
      var s' := Step(list, s, e);
      forall i | 0 <= i < |s'.pending| ensures IsOn(s'.pending[i], ICP) {
        assert s'.pending[i] in s.pending;
      }
    } else {
      StepOfOther(list, s, e);
      assert Shares(Step(list, s, e)) == Shares(s) by { SameSharesOther(s, Step(list, s, e)); }
    }
  }

  lemma SameSharesOther(s: State, s': State)
    requires s'.pending == s.pending && s'.revoked == s.revoked && s'.failed == s.failed
    ensures Shares(s') == Shares(s)
  {
  }

  lemma StepOfOther(list: seq<Allowance>, s: State, e: Event)
    requires e.IcpSettles? ==> e.i >= |s.pending|
    ensures var s' := Step(list, s, e);
            s'.pending == s.pending && s'.revoked == s.revoked && s'.failed == s.failed && s'.log == s.log + News(list, s, e)
  {
  }

  lemma StepOfIcp(list: seq<Allowance>, s: State, i: nat, ok: bool)
    requires i < |s.pending|
    ensures var s' := Step(list, s, IcpSettles(i, ok));
            s'.pending == s.pending[..i] + s.pending[i + 1..]
            && s'.revoked == s.revoked + (if ok then [s.pending[i]] else [])
            && s'.failed == s.failed + (if ok then [] else [s.pending[i]])
            && s'.log == s.log + News(list, s, IcpSettles(i, ok))
  {
  }

  lemma NewsOfIcp(list: seq<Allowance>, s: State, i: nat, ok: bool)
    requires i < |s.pending|
    ensures News(list, s, IcpSettles(i, ok)) == [if ok then Revoked(s.pending[i]) else Failed(s.pending[i])]
  {
  }

  /**
   * On every run, on every EVM chain, revocations do not overlap and follow the order of the list, up to
   * the first that fails, after which no other is started; so those revoked are the beginning of the chain's list.
   */
  lemma {:induction false} ChainsAreSequential(list: seq<Allowance>, run: seq<Event>, chain: int)
    requires chain != 0
    ensures Sequential(list, After(list, run), chain) && IcpKept(list, After(list, run))
    ensures Lane(Revocations(After(list, run).log), chain) <= Lane(list, chain)
  {
    hide Sequential, IcpKept, Step, Init, Lane;
    if run == [] {
      InitIsSequential(list, chain);
      InitKeepsIcp(list);
    } else {
      var s := After(list, run[..|run| - 1]);
      ChainsAreSequential(list, run[..|run| - 1], chain);
      PendingOnIcp(list, s);
      StepIsSequential(list, s, run[|run| - 1], chain);
      StepKeepsIcp(list, s, run[|run| - 1]);
    }
    RevocationsOfLane(list, After(list, run), chain);
    DoneInLane(list, After(list, run), chain);
  }

  lemma PendingOnIcp(list: seq<Allowance>, s: State)
    requires IcpKept(list, s)
    ensures forall i :: 0 <= i < |s.pending| ==> IsOn(s.pending[i], ICP)
  {
  }

  lemma DoneInLane(list: seq<Allowance>, s: State, chain: int)
    requires Sequential(list, s, chain)
    ensures At(s, chain).done <= |Lane(list, chain)|
  {
  }

  // ---------------------------------------------------------------- how the call ends

  datatype Outcome = Running | Resolved | Rejected

  predicate LaneDone(list: seq<Allowance>, s: State, chain: int) {
    At(s, chain).done >= |Lane(list, chain)|
  }

  /** Promise.all: rejected once any revocation has failed, resolved once all have succeeded. */
  function OutcomeOf(list: seq<Allowance>, s: State): Outcome {
    if s.failed != [] || exists c :: c in Chains(list) && At(s, c).failed then Rejected
    else if s.pending == [] && forall c :: c in Chains(list) ==> LaneDone(list, s, c) then Resolved
    else Running
  }

  lemma LaneCount(list: seq<Allowance>, a: Allowance, chain: int)
    ensures multiset(Lane(list, chain))[a] == if IsOn(a, chain) then multiset(list)[a] else 0
  {
    if list != [] {
      LaneCount(list[1..], a, chain);
      assert list == [list[0]] + list[1..];
    }
  }

  /** No approval is revoked more often than it is listed, whatever fails. */
  lemma NeverRevokedTwice(list: seq<Allowance>, run: seq<Event>, a: Allowance)
    ensures multiset(Revocations(After(list, run).log))[a] <= multiset(list)[a]
  {
    hide Lane, After, Revocations;
    var s := After(list, run);
    LaneCount(list, a, a.chainId);
    LaneCount(Revocations(s.log), a, a.chainId);
    if a.chainId == ICP {
      ChainsAreSequential(list, run, 1);
    } else {
      ChainsAreSequential(list, run, a.chainId);
      var lane, done := Lane(list, a.chainId), Lane(Revocations(s.log), a.chainId);
      assert lane == done + lane[|done|..];
    }
  }

  lemma IcpRevoked(list: seq<Allowance>, s: State)
    requires IcpKept(list, s) && s.pending == [] && s.failed == []
    ensures multiset(Lane(Revocations(s.log), ICP)) == multiset(Lane(list, ICP))
  {
  }

  lemma LaneRevoked(list: seq<Allowance>, s: State, chain: int)
    requires Sequential(list, s, chain) && LaneDone(list, s, chain)
    ensures Lane(Revocations(s.log), chain) == Lane(list, chain)
  {
    RevocationsOfLane(list, s, chain);
  }

  /** When the call resolves, every listed approval has been revoked, each exactly as often as it is listed. */
  lemma ResolvedMeansAllRevoked(list: seq<Allowance>, run: seq<Event>)
    requires OutcomeOf(list, After(list, run)) == Resolved
    ensures multiset(Revocations(After(list, run).log)) == multiset(list)
  {
    hide After, Revocations, Lane, Chains, Sequential, IcpKept;
    var s := After(list, run);
    forall a ensures multiset(Revocations(s.log))[a] == multiset(list)[a] {
      LaneCount(list, a, a.chainId);
      LaneCount(Revocations(s.log), a, a.chainId);
      if a.chainId == ICP {
        ChainsAreSequential(list, run, 1);
        IcpRevoked(list, s);
      } else {
        ChainsAreSequential(list, run, a.chainId);
        ChainsAreTheLanes(list, a.chainId);
        if Lane(list, a.chainId) != [] {
          LaneRevoked(list, s, a.chainId);
        }
      }
    }
  }

  ghost predicate AnyFailed(log: seq<Entry>) {
    exists i :: 0 <= i < |log| && log[i].Failed?
  }

  predicate FailedSomewhere(list: seq<Allowance>, s: State) {
    s.failed != [] || exists c :: c in Chains(list) && At(s, c).failed
  }

  lemma StartLanesDoNotFail(list: seq<Allowance>, chains: seq<int>)
    ensures !AnyFailed(StartLanes(list, chains))
  {
    if chains != [] {
      StartLanesDoNotFail(list, chains[..|chains| - 1]);
    }
  }

  lemma AnyFailedAppend(log: seq<Entry>, more: seq<Entry>)
    ensures AnyFailed(log + more) <==> AnyFailed(log) || AnyFailed(more)
  {
    if AnyFailed(log) {
      var i :| 0 <= i < |log| && log[i].Failed?;
      assert (log + more)[i].Failed?;
    }
    if AnyFailed(more) {
      var i :| 0 <= i < |more| && more[i].Failed?;
      assert (log + more)[|log| + i].Failed?;
    }
  }

  lemma NewsFails(list: seq<Allowance>, s: State, e: Event)
    ensures AnyFailed(News(list, s, e)) <==>
            !e.ok && (if e.IcpSettles? then e.i < |s.pending| else InFlight(list, s, e.chain))
  {
    var news := News(list, s, e);
    if !e.ok && (if e.IcpSettles? then e.i < |s.pending| else InFlight(list, s, e.chain)) {
      assert news[0].Failed?;
    }
  }

  lemma StepFails(list: seq<Allowance>, s: State, e: Event)
    ensures FailedSomewhere(list, Step(list, s, e)) <==> FailedSomewhere(list, s) || AnyFailed(News(list, s, e))
  {
    hide Lane, Chains, News;
    NewsFails(list, s, e);
    if e.EvmSettles? && InFlight(list, s, e.chain) {
      ChainsAreTheLanes(list, e.chain);
      var s' := Step(list, s, e);
      assert At(s', e.chain) == Advance(At(s, e.chain), e.ok) && !At(s, e.chain).failed;
      assert forall c :: c != e.chain ==> At(s', c) == At(s, c);
    }
  }

  lemma {:induction false} FailuresAreLogged(list: seq<Allowance>, run: seq<Event>)
    ensures FailedSomewhere(list, After(list, run)) <==> AnyFailed(After(list, run).log)
  {
    hide FailedSomewhere, News, Lane, Chains, StartLanes;
    if run == [] {
      StartLanesDoNotFail(list, Chains(list));
      AnyFailedAppend(StartAll(Lane(list, ICP)), StartLanes(list, Chains(list)));
      NothingFailedYet(list);
    } else {
      var s, e := After(list, run[..|run| - 1]), run[|run| - 1];
      FailuresAreLogged(list, run[..|run| - 1]);
      StepFails(list, s, e);
      AnyFailedAppend(s.log, News(list, s, e));
      NewsFails(list, s, e);
      StepLog(list, s, e);
    }
  }

  lemma NothingFailedYet(list: seq<Allowance>)
    ensures !FailedSomewhere(list, Init(list))
  {
  }

  lemma StepLog(list: seq<Allowance>, s: State, e: Event)
    ensures Step(list, s, e).log == s.log + News(list, s, e)
  {
    hide Lane;
  }

  /**
   * The call is rejected exactly when some revocation has failed, and once nothing is in flight any more
   * it has ended one way or the other.
   */
  lemma HowTheCallEnds(list: seq<Allowance>, run: seq<Event>)
    ensures var s := After(list, run);
            (OutcomeOf(list, s) == Rejected <==> AnyFailed(s.log)) &&
            (s.pending == [] && (forall c :: c in Chains(list) ==> !InFlight(list, s, c)) ==> OutcomeOf(list, s) != Running)
  {
    hide After, Lane, Chains;
    FailuresAreLogged(list, run);
    forall c | c in Chains(list) ensures c != ICP {
      ChainsAreTheLanes(list, c);
    }
  }

  /** The approvals on the Internet Computer are all in flight from the start, whatever the other chains do. */
  lemma IcpStartsAllAtOnce(list: seq<Allowance>)
    ensures LogOn(Init(list).log, 0) == StartAll(Lane(list, 0)) && Init(list).pending == Lane(list, 0)
  {
    hide Lane, LogOn, Chains, StartLanes;
    var icp := StartAll(Lane(list, ICP));
    LaneIsOn(list, ICP);
    ChainsAreTheLanes(list, ICP);
    StartLanesOn(list, Chains(list), ICP);
    LogOnAppend(icp, StartLanes(list, Chains(list)), ICP);
    LogOnAll(icp, ICP);
    assert icp + [] == icp;
  }

  // ---------------------------------------------------------------- revoking goes on

  ghost predicate FailedOn(log: seq<Entry>, chain: int) {
    exists e :: e in log && e.Failed? && EntryIsOn(e, chain)
  }

  lemma FailedOnIffInLog(log: seq<Entry>, chain: int)
    ensures FailedOn(log, chain) <==> exists e :: e in LogOn(log, chain) && e.Failed?
  {
    forall e ensures e in LogOn(log, chain) <==> e in log && EntryIsOn(e, chain) {
      FilterMember(log, (x: Entry) => EntryIsOn(x, chain), e);
    }
  }

  lemma {:induction false} NoneFails(lane: seq<Allowance>, n: nat)
    requires n <= |lane|
    ensures forall e :: e in OneByOne(lane, n) ==> !e.Failed?
  {
    if n > 0 {
      NoneFails(lane, n - 1);
    }
  }

  lemma FailedInLane(list: seq<Allowance>, s: State, chain: int)
    requires Sequential(list, s, chain)
    ensures FailedOn(s.log, chain) <==> At(s, chain).failed
  {
    hide LogOn, Lane, OneByOne;
    var lane, p := Lane(list, chain), At(s, chain);
    FailedOnIffInLog(s.log, chain);
    var log := LaneLog(lane, p);
    NoneFails(lane, p.done);
    if p.failed {
      assert log[|log| - 1] == Failed(lane[p.done]);
    }
  }

  /** What the end of a chain's revocation adds to the log, by what the log and the list say. */
  function Continued(lane: seq<Allowance>, revoked: nat, failed: bool, ok: bool): seq<Entry> {
    if failed || revoked >= |lane| then []
    else if !ok then [Failed(lane[revoked])]
    else if revoked + 1 == |lane| then [Revoked(lane[revoked])]
    else [Revoked(lane[revoked]), Started(lane[revoked + 1])]
  }

  /**
   * However far the other chains have got and whether or not one of them has failed, the next approval of a chain
   * on which nothing failed is in flight, and when it is revoked the one after it is started.
   */
  lemma ChainGoesOn(list: seq<Allowance>, run: seq<Event>, chain: int, ok: bool)
    requires chain != 0
    ensures var log := After(list, run).log;
            After(list, run + [EvmSettles(chain, ok)]).log ==
            log + Continued(Lane(list, chain), |Lane(Revocations(log), chain)|, FailedOn(log, chain), ok)
  {
    hide Lane, Sequential, Revocations, FailedOn, IcpKept, Step;
    var s, e := After(list, run), EvmSettles(chain, ok);
    assert (run + [e])[..|run|] == run;
    ChainsAreSequential(list, run, chain);
    RevocationsOfLane(list, s, chain);
    FailedInLane(list, s, chain);
    DoneInLane(list, s, chain);
    StepLog(list, s, e);
  }

  /** The ends of Internet Computer revocations, as the log counts them. */
  ghost predicate IcpLogged(s: State, a: Allowance) {
    && multiset(s.log)[Revoked(a)] == multiset(s.revoked)[a]
    && multiset(s.log)[Failed(a)] == multiset(s.failed)[a]
  }

  lemma StartsDoNotEnd(list: seq<Allowance>, chains: seq<int>)
    ensures forall e :: e in StartLanes(list, chains) ==> e.Started?
  {
    if chains != [] {
      StartsDoNotEnd(list, chains[..|chains| - 1]);
    }
  }

  lemma NewsOfChain(list: seq<Allowance>, s: State, chain: int, ok: bool)
    ensures forall e :: e in News(list, s, EvmSettles(chain, ok)) ==> e.item.chainId == chain
  {
    hide Lane;
    LaneIsOn(list, chain);
  }

  lemma CountOneMore<T>(s: seq<T>, x: T, y: T)
    ensures multiset(s + [x])[y] == multiset(s)[y] + if x == y then 1 else 0
  {
    assert multiset(s + [x]) == multiset(s) + multiset{x};
  }

  lemma CountOthers<T>(s: seq<T>, t: seq<T>, y: T)
    requires y !in t
    ensures multiset(s + t)[y] == multiset(s)[y]
  {
    assert multiset(s + t) == multiset(s) + multiset(t);
  }

  lemma IcpStepIsLogged(list: seq<Allowance>, s: State, i: nat, ok: bool, a: Allowance)
    requires i < |s.pending| && IcpLogged(s, a)
    ensures IcpLogged(Step(list, s, IcpSettles(i, ok)), a)
  {
    hide News, Step, Lane;
    var x := s.pending[i];
    var entry := if ok then Revoked(x) else Failed(x);
    StepOfIcp(list, s, i, ok);
    NewsOfIcp(list, s, i, ok);
    CountOneMore(s.log, entry, Revoked(a));
    CountOneMore(s.log, entry, Failed(a));
    if ok {
      CountOneMore(s.revoked, x, a);
      assert s.failed + [] == s.failed;
    } else {
      CountOneMore(s.failed, x, a);
      assert s.revoked + [] == s.revoked;
    }
  }

  lemma OtherStepIsLogged(list: seq<Allowance>, s: State, e: Event, a: Allowance)
    requires a.chainId == 0 && IcpLogged(s, a) && (e.IcpSettles? ==> e.i >= |s.pending|)
    ensures IcpLogged(Step(list, s, e), a)
  {
    hide News, Step, Lane;
    StepOfOther(list, s, e);
    NoOtherNews(list, s, e);
    if e.EvmSettles? {
      NewsOfChain(list, s, e.chain, e.ok);
    }
    CountOthers(s.log, News(list, s, e), Revoked(a));
    CountOthers(s.log, News(list, s, e), Failed(a));
  }

  lemma InitIsLogged(list: seq<Allowance>, a: Allowance)
    ensures IcpLogged(Init(list), a)
  {
    hide Lane, Chains, StartLanes;
    StartsDoNotEnd(list, Chains(list));
    var log := Init(list).log;
    assert forall e :: e in log ==> e.Started?;
    assert Revoked(a) !in log && Failed(a) !in log;
  }

  lemma {:induction false} EndsAreLogged(list: seq<Allowance>, run: seq<Event>, a: Allowance)
    requires a.chainId == 0
    ensures IcpLogged(After(list, run), a)
  {
    hide Step, Init, IcpLogged, Lane, Chains;
    if run == [] {
      InitIsLogged(list, a);
    } else {
      var s, e := After(list, run[..|run| - 1]), run[|run| - 1];
      EndsAreLogged(list, run[..|run| - 1], a);
      if e.IcpSettles? && e.i < |s.pending| {
        IcpStepIsLogged(list, s, e.i, e.ok, a);
      } else {
        OtherStepIsLogged(list, s, e, a);
      }
    }
  }

  /**
   * Whatever has failed, an approval on the Internet Computer that has ended less often than it is listed can end,
   * either way, next.
   */
  lemma IcpGoesOn(list: seq<Allowance>, run: seq<Event>, a: Allowance, ok: bool) returns (i: nat)
    requires a.chainId == 0
    requires var log := multiset(After(list, run).log);
             log[Revoked(a)] + log[Failed(a)] < multiset(list)[a]
    ensures After(list, run + [IcpSettles(i, ok)]).log ==
            After(list, run).log + [if ok then Revoked(a) else Failed(a)]
  {
    hide Lane, Revocations, Sequential;
    var s := After(list, run);
    ChainsAreSequential(list, run, 1);
    EndsAreLogged(list, run, a);
    LaneCount(list, a, 0);
    assert Shares(s)[a] == multiset(list)[a];
    assert a in multiset(s.pending);
    i :| 0 <= i < |s.pending| && s.pending[i] == a;
    var next := run + [IcpSettles(i, ok)];
    assert next[..|next| - 1] == run;
    StepLog(list, s, IcpSettles(i, ok));
    NewsOfIcp(list, s, i, ok);
  }

  lemma RevocationsBounded(list: seq<Allowance>, run: seq<Event>)
    ensures |Revocations(After(list, run).log)| <= |list|
  {
    hide After, Revocations;
    var revoked := multiset(Revocations(After(list, run).log));
    forall a ensures revoked[a] <= multiset(list)[a] {
      NeverRevokedTwice(list, run, a);
    }
    assert revoked <= multiset(list);
    assert multiset(list) == revoked + (multiset(list) - revoked);
  }

  lemma OneMoreRevoked(list: seq<Allowance>, run: seq<Event>, e: Event)
    requires e.ok && if e.IcpSettles? then e.i < |After(list, run).pending| else InFlight(list, After(list, run), e.chain)
    requires !AnyFailed(After(list, run).log)
    ensures !AnyFailed(After(list, run + [e]).log)
    ensures |Revocations(After(list, run + [e]).log)| == |Revocations(After(list, run).log)| + 1
  {
    hide Lane, Revocations, AnyFailed;
    var s, next := After(list, run), run + [e];
    assert next[..|next| - 1] == run;
    StepLog(list, s, e);
    AnyFailedAppend(s.log, News(list, s, e));
    NewsFails(list, s, e);
    RevocationsAppend(s.log, News(list, s, e));
    var news := News(list, s, e);
    if |news| == 1 {
      RevocationsOfOne(news[0]);
    } else {
      RevocationsOfTwo(news[0], news[1]);
    }
  }

  /** From every state in which nothing has failed, successful revocations lead to the end with all revoked. */
  lemma {:induction false} CallCanResolve(list: seq<Allowance>, run: seq<Event>) returns (more: seq<Event>)
    requires !AnyFailed(After(list, run).log)
    ensures forall e :: e in more ==> e.ok
    ensures OutcomeOf(list, After(list, run + more)) == Resolved
    ensures multiset(Revocations(After(list, run + more).log)) == multiset(list)
    decreases |list| - |Revocations(After(list, run).log)|
  {
    hide After, Lane, Chains, Revocations, AnyFailed;
    var s := After(list, run);
    HowTheCallEnds(list, run);
    RevocationsBounded(list, run);
    if OutcomeOf(list, s) == Resolved {
      more := [];
      assert run + more == run;
      ResolvedMeansAllRevoked(list, run);
    } else {
      var e: Event;
      if s.pending != [] {
        e := IcpSettles(0, true);
      } else {
        var c :| c in Chains(list) && InFlight(list, s, c);
        e := EvmSettles(c, true);
      }
      OneMoreRevoked(list, run, e);
      RevocationsBounded(list, run + [e]);
      var rest := CallCanResolve(list, run + [e]);
      more := [e] + rest;
      assert run + more == run + [e] + rest;
    }
  }
}
