/**
 * The ERC-20 balance cache of one chain (integration/ethereum/erc20-abstract.service.ts), as a state
 * machine whose steps are the points where the code awaits: a storage read, a decision taken on what was
 * read, a removal, the multicall and its retry, the write, and the clean-up of the in-flight map.
 * Steps of any number of requests and background refreshes interleave freely, and time passes between them.
 */
module BalanceCache {
  import opened Common
  import opened BalanceQueueKey

  /** The balance of a contract for a wallet, by time, as the node that is asked sees the chain. */
  type Chain = (nat, string, string) -> nat

  datatype Cell = Cell(balance: nat, error: bool)

  type Cells = map<string, Cell>

  /** One item returned by the multicall for one contract. */
  datatype Item = Empty | Undecodable | Uint(value: nat)

  /**
   * A stored entry. When it was written, the moment its balances are from, when they were asked for, the contracts
   * asked for and what was returned for them are recorded for the proofs only.
   */
  datatype Entry = Entry(cells: Cells, expiry: nat, writtenAt: nat, readAt: nat, issuedAt: nat,
                         asked: seq<string>, returned: seq<Item>)

  datatype Row = Row(contract: string, cell: Cell)

  /** How a request ended; an answer records the entry it was taken from, the time, and the refresh it started. */
  datatype Outcome = Failed | Answered(rows: seq<Row>, entry: Entry, at: nat, refresh: Option<nat>)

  datatype Pc =
    | Reading
    | Deciding(found: Option<Entry>)
    | Checking
    | Rechecking(found: Option<Entry>)
    | Removing
    | Calling(attempts: nat, issuedAt: nat)
    | Writing(cells: Cells, readAt: nat, issuedAt: nat, returned: seq<Item>)
    | Settled(outcome: Outcome)

  /** A running request (with its in-flight key) or background refresh (without). */
  datatype Task = Task(wallet: string, contracts: seq<string>, key: Option<string>, released: bool, pc: Pc)

  /** A call of getMultipleTokenBalances, and the fetch whose promise it was given. */
  datatype Call = Call(wallet: string, contracts: seq<string>, via: Option<nat>)

  datatype State = State(now: nat, storage: map<string, Entry>, tasks: seq<Task>,
                         inflight: map<string, nat>, calls: seq<Call>)

  datatype Event =
    | Request(wallet: string, contracts: seq<string>)
    | Tick(elapsed: nat)
    | Read(id: nat)
    | Resume(id: nat)
    | Removed(id: nat)
    | Reply(id: nat, returned: seq<Item>, readAt: nat)
    | Reject(id: nat)
    | Written(id: nat, ttl: nat)
    | Throw(id: nat)
    | Release(id: nat)

  // ---------------------------------------------------------------- decoding the multicall

  function CellOf(returned: seq<Item>, i: nat): Cell {
    if i < |returned| && returned[i].Uint? then Cell(returned[i].value, false) else Cell(0, true)
  }

  function Decoded(contracts: seq<string>, returned: seq<Item>): Cells {
    if contracts == [] then map[] else
    var n := |contracts| - 1;
    Decoded(contracts[..n], returned)[Lower(contracts[n]) := CellOf(returned, n)]
  }

  /** The map of fetched balances, filled contract by contract. */
  method DecodeBalances(contracts: seq<string>, returned: seq<Item>) returns (fetched: Cells)
    ensures fetched == Decoded(contracts, returned)
  {
    fetched := map[];
    for i := 0 to |contracts|
      invariant fetched == Decoded(contracts[..i], returned)
    {
      assert contracts[..i + 1][..i] == contracts[..i];
      if i >= |returned| || returned[i].Empty? {
        fetched := fetched[Lower(contracts[i]) := Cell(0, true)];
      } else if returned[i].Uint? {
        fetched := fetched[Lower(contracts[i]) := Cell(returned[i].value, false)];
      } else {
        fetched := fetched[Lower(contracts[i]) := Cell(0, true)];
      }
    }
    assert contracts[..|contracts|] == contracts;
  }

  /** The last position of a contract among those asked for. */
  predicate LastAt(contracts: seq<string>, c: string, i: int) {
    0 <= i < |contracts| && Lower(contracts[i]) == c && forall j :: i < j < |contracts| ==> Lower(contracts[j]) != c
  }

  /** A balance without an error is the number returned at position i; with none there, it is "0" with an error. */
  ghost predicate Tells(returned: seq<Item>, i: int, cell: Cell) {
    && (forall v: nat :: cell == Cell(v, false) <==> 0 <= i < |returned| && returned[i] == Uint(v))
    && (cell.error ==> cell.balance == 0)
  }

  /** There is a balance for exactly the contracts asked for, as told by what was returned at their last positions. */
  ghost predicate DecodedFrom(contracts: seq<string>, returned: seq<Item>, cells: Cells) {
    && (forall c :: c in cells <==> exists i :: LastAt(contracts, c, i))
    && (forall c, i :: c in cells && LastAt(contracts, c, i) ==> Tells(returned, i, cells[c]))
  }

  lemma {:induction false} DecodedAt(contracts: seq<string>, returned: seq<Item>, c: string, i: nat)
    requires LastAt(contracts, c, i)
    ensures c in Decoded(contracts, returned) && Tells(returned, i, Decoded(contracts, returned)[c])
  {
    hide Lower;
    var n := |contracts| - 1;
    if i < n {
      assert Lower(contracts[n]) != c;
      assert forall j :: 0 <= j < n ==> contracts[..n][j] == contracts[j];
      DecodedAt(contracts[..n], returned, c, i);
    }
  }

  lemma {:induction false} DecodedWhere(contracts: seq<string>, returned: seq<Item>, c: string) returns (i: nat)
    requires c in Decoded(contracts, returned)
    ensures LastAt(contracts, c, i)
  {
    hide Lower;
    var n := |contracts| - 1;
    i := n;
    if Lower(contracts[n]) != c {
      i := DecodedWhere(contracts[..n], returned, c);
      assert forall j :: 0 <= j < n ==> contracts[..n][j] == contracts[j];
    }
  }

  lemma {:induction false} LastOf(contracts: seq<string>, c: string, k: nat) returns (i: nat)
    requires k < |contracts| && Lower(contracts[k]) == c
    ensures LastAt(contracts, c, i)
    decreases |contracts| - k
  {
    hide Lower;
    i := k;
    if j :| k < j < |contracts| && Lower(contracts[j]) == c {
      i := LastOf(contracts, c, j);
    }
  }

  /**
   * A decoded map has a balance for exactly the requested contracts, taken from the item at the contract's last
   * position in the request: without an error exactly when there is a number there, zero included.
   */
  lemma {:induction false} DecodedIsByContract(contracts: seq<string>, returned: seq<Item>)
    ensures DecodedFrom(contracts, returned, Decoded(contracts, returned))
    ensures forall i :: 0 <= i < |contracts| ==> Lower(contracts[i]) in Decoded(contracts, returned)
  {
    hide Decoded, Lower, LastAt, Tells;
    var cells := Decoded(contracts, returned);
    forall c ensures c in cells <==> exists i :: LastAt(contracts, c, i) {
      if c in cells {
        var i := DecodedWhere(contracts, returned, c);
      }
      if i :| LastAt(contracts, c, i) {
        assert 0 <= i by { Positive(contracts, c, i); }
        DecodedAt(contracts, returned, c, i);
      }
    }
    forall c, i | c in cells && LastAt(contracts, c, i) ensures Tells(returned, i, cells[c]) {
      assert 0 <= i by { Positive(contracts, c, i); }
      DecodedAt(contracts, returned, c, i);
    }
    forall i | 0 <= i < |contracts| ensures Lower(contracts[i]) in cells {
      var k := LastOf(contracts, Lower(contracts[i]), i);
      DecodedAt(contracts, returned, Lower(contracts[i]), k);
    }
  }

  lemma Positive(contracts: seq<string>, c: string, i: int)
    requires LastAt(contracts, c, i)
    ensures 0 <= i < |contracts|
  {
  }

  // ---------------------------------------------------------------- the steps

  /** The answer built from a map of balances: "0" without an error where the map has none. */
  function Rows(contracts: seq<string>, cells: Cells): (r: seq<Row>)
    ensures |r| == |contracts|
    ensures forall i :: 0 <= i < |r| ==> r[i] == RowFor(contracts[i], cells)
  {
    seq(|contracts|, i requires 0 <= i < |contracts| => RowFor(contracts[i], cells))
  }

  function RowFor(c: string, cells: Cells): Row {
    Row(c, if c in cells then cells[c] else Cell(0, false))
  }

  predicate Covers(e: Entry, contracts: seq<string>) {
    forall c :: c in contracts ==> c in e.cells
  }

  function Answer(s: State, t: Task, e: Entry, refresh: Option<nat>): Pc {
    Settled(Answered(Rows(t.contracts, e.cells), e, s.now, refresh))
  }

  function Stored(s: State, wallet: string): Option<Entry> {
    if wallet in s.storage then Some(s.storage[wallet]) else None
  }

  function OnRequest(s: State, wallet: string, contracts: seq<string>): State {
    if contracts == [] then s.(calls := s.calls + [Call(wallet, contracts, None)]) else
    var key := Key(wallet, contracts);
    if key in s.inflight then s.(calls := s.calls + [Call(wallet, contracts, Some(s.inflight[key]))]) else
    var id := |s.tasks|;
    s.(tasks := s.tasks + [Task(Lower(wallet), LowerAll(contracts), Some(key), false, Reading)],
       inflight := s.inflight[key := id],
       calls := s.calls + [Call(wallet, contracts, Some(id))])
  }

  /** What a task does next: where it waits then, whether it starts a background refresh, what it stores. */
  datatype Action = Action(pc: Pc, refresh: bool, storage: map<string, Entry>)

  function Goto(s: State, pc: Pc): Action {
    Action(pc, false, s.storage)
  }

  /** The decision of a request on the entry it read: a covering entry is the answer, expired or not. */
  function OnDeciding(s: State, t: Task, found: Option<Entry>): Action {
    if found.None? || !Covers(found.value, t.contracts) then Goto(s, Checking)
    else if s.now <= found.value.expiry then Goto(s, Answer(s, t, found.value, None))
    else Action(Answer(s, t, found.value, Some(|s.tasks|)), true, s.storage)
  }

  /** The decision of a fetch on the entry it read: an unexpired one is the answer, whatever it covers. */
  function OnRechecking(s: State, t: Task, found: Option<Entry>): Action {
    if found.None? then Goto(s, Calling(0, s.now))
    else if s.now > found.value.expiry then Goto(s, Removing)
    else Goto(s, Answer(s, t, found.value, None))
  }

  /** The multicall is answered from one moment since it was issued; a decodable item is the balance then. */
  predicate Honest(chain: Chain, s: State, t: Task, returned: seq<Item>, readAt: nat) {
    && (t.pc.Calling? ==> t.pc.issuedAt <= readAt)
    && readAt <= s.now
    && forall i :: 0 <= i < |returned| && i < |t.contracts| && returned[i].Uint? ==>
         returned[i].value == chain(readAt, t.wallet, t.contracts[i])
  }

  function OnWritten(s: State, t: Task, cells: Cells, readAt: nat, issuedAt: nat, returned: seq<Item>, ttl: nat): Action {
    var entry := Entry(cells, s.now + ttl, s.now, readAt, issuedAt, t.contracts, returned);
    Action(Answer(s, t, entry, None), false, s.storage[t.wallet := entry])
  }

  function Act(chain: Chain, s: State, t: Task, e: Event): (a: Action)
    ensures t.pc.Settled? ==> a.pc == t.pc && !a.refresh
  {
    match (t.pc, e)
    case (Reading, Read(_)) => Goto(s, Deciding(Stored(s, t.wallet)))
    case (Deciding(found), Resume(_)) => OnDeciding(s, t, found)
    case (Checking, Read(_)) => Goto(s, Rechecking(Stored(s, t.wallet)))
    case (Rechecking(found), Resume(_)) => OnRechecking(s, t, found)
    case (Removing, Removed(_)) => Action(Calling(0, s.now), false, s.storage - {t.wallet})
    case (Calling(_, issuedAt), Reply(_, returned, readAt)) =>
      Goto(s, if Honest(chain, s, t, returned, readAt)
              then Writing(Decoded(t.contracts, returned), readAt, issuedAt, returned) else t.pc)
    case (Calling(attempts, _), Reject(_)) => Goto(s, if attempts == 0 then Calling(1, s.now) else Settled(Failed))
    case (Writing(cells, readAt, issuedAt, returned), Written(_, ttl)) =>
      if 20000 <= ttl < 30000 then OnWritten(s, t, cells, readAt, issuedAt, returned, ttl) else Goto(s, t.pc)
    case (_, Throw(_)) => Goto(s, if t.pc.Settled? then t.pc else Settled(Failed))
    case _ => Goto(s, t.pc)
  }

  /** The background refresh of what a request asked for. */
  function RefreshOf(t: Task): Task {
    Task(t.wallet, t.contracts, None, false, Checking)
  }

  function Perform(s: State, id: nat, a: Action): State
    requires id < |s.tasks|
  {
    var t := s.tasks[id];
    s.(tasks := s.tasks[id := t.(pc := a.pc)] + (if a.refresh then [RefreshOf(t)] else []), storage := a.storage)
  }

  function OnRelease(s: State, id: nat): State
    requires id < |s.tasks|
  {
    var t := s.tasks[id];
    if t.pc.Settled? && t.key.Some? && !t.released
    then s.(tasks := s.tasks[id := t.(released := true)], inflight := s.inflight - {t.key.value})
    else s
  }

  function Step(chain: Chain, s: State, e: Event): State {
    match e
    case Request(wallet, contracts) => OnRequest(s, wallet, contracts)
    case Tick(elapsed) => s.(now := s.now + elapsed)
    case Release(id) => if id < |s.tasks| then OnRelease(s, id) else s
    case _ => if e.id < |s.tasks| then Perform(s, e.id, Act(chain, s, s.tasks[e.id], e)) else s
  }

  function Start(storage: map<string, Entry>, now: nat): State {
    State(now, storage, [], map[], [])
  }

  function After(chain: Chain, s: State, run: seq<Event>): State {
    if run == [] then s else Step(chain, After(chain, s, run[..|run| - 1]), run[|run| - 1])
  }

  /** The service object: its map of in-flight fetches, the fetches it runs, and the storage it uses. */
  class Service {
    var now: nat
    var storage: map<string, Entry>
    var tasks: seq<Task>
    var inflight: map<string, nat>
    var calls: seq<Call>

    ghost function View(): State
      reads this
    {
      State(now, storage, tasks, inflight, calls)
    }

    constructor (storage: map<string, Entry>, now: nat)
      ensures View() == Start(storage, now) && InflightExact(View())
    {
      this.now := now;
      this.storage := storage;
      tasks := [];
      inflight := map[];
      calls := [];
    }

    /**
     * getMultipleTokenBalances, up to its first await; the promise is the number of the fetch awaited. Every caller
     * but one who asks for nothing is given a fetch that is running under the key of what was asked for, and a
     * new fetch is started exactly when none was; those running go on undisturbed.
     */
    method GetMultipleTokenBalances(address: string, contractAddresses: seq<string>) returns (promise: Option<nat>)
      requires InflightExact(View())
      modifies this
      ensures InflightExact(View())
      ensures promise.Some? <==> contractAddresses != []
      ensures promise.Some? ==>
                promise.value < |tasks| && FetchesUnder(tasks[promise.value], Key(address, contractAddresses))
      ensures old(tasks) <= tasks && now == old(now) && storage == old(storage)
      ensures |tasks| - |old(tasks)| ==
                if contractAddresses != [] && Key(address, contractAddresses) !in old(inflight) then 1 else 0
      ensures |tasks| > |old(tasks)| ==>
                promise == Some(|old(tasks)|) && tasks[promise.value].pc == Reading
                && tasks[promise.value].wallet == Lower(address)
                && tasks[promise.value].contracts == LowerAll(contractAddresses)
      ensures View() == OnRequest(old(View()), address, contractAddresses)
      ensures calls == old(calls) + [Call(address, contractAddresses, promise)]
    {
      hide Key, Lower, LowerAll;
      InflightRequest(View(), address, contractAddresses);
      if contractAddresses == [] {
        calls := calls + [Call(address, contractAddresses, None)];
        return None;
      }
      var queueKey := Key(address, contractAddresses);
      if queueKey in inflight {
        promise := Some(inflight[queueKey]);
        calls := calls + [Call(address, contractAddresses, promise)];
        return;
      }
      promise := Some(|tasks|);
      tasks := tasks + [Task(Lower(address), LowerAll(contractAddresses), Some(queueKey), false, Reading)];
      inflight := inflight[queueKey := promise.value];
      calls := calls + [Call(address, contractAddresses, promise)];
    }

    /**
     * The clean-up that runs when a fetch has settled, in success or failure: its key, and no other, is free for a
     * new fetch.
     */
    method Finally(id: nat)
      requires id < |tasks| && tasks[id].pc.Settled? && tasks[id].key.Some? && !tasks[id].released
      requires InflightExact(View())
      modifies this
      ensures InflightExact(View())
      ensures inflight.Keys == old(inflight.Keys) - {old(tasks[id].key.value)}
      ensures View() == OnRelease(old(View()), id)
      ensures tasks[id].released
    {
      InflightRelease(View(), id);
      inflight := inflight - {tasks[id].key.value};
      tasks := tasks[id := tasks[id].(released := true)];
    }
  }

  // ---------------------------------------------------------------- one fetch per key

  /** A request whose key has not been given back yet. */
  predicate Fetching(t: Task) {
    t.key.Some? && !t.released
  }

  predicate FetchesUnder(t: Task, key: string) {
    Fetching(t) && t.key.value == key
  }

  predicate PointsAt(inflight: map<string, nat>, key: string, id: nat) {
    key in inflight && inflight[key] == id
  }

  /** The in-flight map holds exactly the keys being fetched, each by the one request it points at. */
  ghost predicate InflightExact(s: State) {
    && (forall k :: k in s.inflight ==> s.inflight[k] < |s.tasks| && FetchesUnder(s.tasks[s.inflight[k]], k))
    && (forall i :: 0 <= i < |s.tasks| && Fetching(s.tasks[i]) ==> PointsAt(s.inflight, s.tasks[i].key.value, i))
  }

  lemma InflightRequest(s: State, wallet: string, contracts: seq<string>)
    requires InflightExact(s)
    ensures InflightExact(OnRequest(s, wallet, contracts))
  {
    hide Key, Lower, LowerAll;
  }

  lemma InflightPerform(s: State, id: nat, a: Action)
    requires InflightExact(s) && id < |s.tasks|
    ensures InflightExact(Perform(s, id, a))
  {
    var s' := Perform(s, id, a);
    assert forall i :: 0 <= i < |s.tasks| ==>
             s'.tasks[i].key == s.tasks[i].key && s'.tasks[i].released == s.tasks[i].released;
    assert forall i :: |s.tasks| <= i < |s'.tasks| ==> !Fetching(s'.tasks[i]);
  }

  lemma InflightRelease(s: State, id: nat)
    requires InflightExact(s) && id < |s.tasks|
    ensures InflightExact(OnRelease(s, id))
  {
  }

  lemma InflightStep(chain: Chain, s: State, e: Event)
    requires InflightExact(s)
    ensures InflightExact(Step(chain, s, e))
  {
    hide InflightExact, Act, Perform, OnRequest, OnRelease;
    match e
    case Request(wallet, contracts) => InflightRequest(s, wallet, contracts);
    case Tick(elapsed) => InflightTick(s, elapsed);
    case Release(id) => if id < |s.tasks| { InflightRelease(s, id); }
    case _ => if e.id < |s.tasks| { InflightPerform(s, e.id, Act(chain, s, s.tasks[e.id], e)); }
  }

  lemma InflightTick(s: State, elapsed: nat)
    requires InflightExact(s)
    ensures InflightExact(s.(now := s.now + elapsed))
  {
  }

  /** On every run, at most one fetch per key, and the in-flight map holds exactly the keys being fetched. */
  lemma {:induction false} OneFetchPerKey(chain: Chain, s: State, run: seq<Event>)
    requires InflightExact(s)
    ensures InflightExact(After(chain, s, run))
  {
    if run != [] {
      hide InflightExact, Step;
      OneFetchPerKey(chain, s, run[..|run| - 1]);
      InflightStep(chain, After(chain, s, run[..|run| - 1]), run[|run| - 1]);
    }
  }

  // ---------------------------------------------------------------- sharers get what they asked for

  /** Addresses contain neither of the separators used in keys. */
  predicate WellFormed(wallet: string, contracts: seq<string>) {
    contracts != [] && Free(wallet, ':') && forall c :: c in contracts ==> Free(c, ',')
  }

  predicate IsLower(s: string) {
    Lower(s) == s
  }

  lemma LowerIsLower(s: string)
    ensures IsLower(Lower(s))
  {
    assert Lower(Lower(s)) == Lower(s);
  }

  lemma KeyOfLower(wallet: string, contracts: seq<string>)
    ensures Key(Lower(wallet), LowerAll(contracts)) == Key(wallet, contracts)
    ensures WellFormed(wallet, contracts) ==> WellFormed(Lower(wallet), LowerAll(contracts))
    ensures IsLower(Lower(wallet)) && forall c :: c in LowerAll(contracts) ==> IsLower(c)
  {
    LowerIsLower(wallet);
    var l := LowerAll(contracts);
    forall i | 0 <= i < |l| ensures Lower(l[i]) == l[i] && (Free(contracts[i], ',') ==> Free(l[i], ',')) {
      LowerIsLower(contracts[i]);
    }
    assert LowerAll(l) == l;
    assert forall i :: 0 <= i < |contracts| ==> contracts[i] in contracts;
  }

  /** A task holds lower-case names, and its key, if any, is the key of what it fetches. */
  ghost predicate Named(t: Task) {
    && WellFormed(t.wallet, t.contracts) && IsLower(t.wallet) && (forall c :: c in t.contracts ==> IsLower(c))
    && (t.key.Some? ==> t.key.value == Key(t.wallet, t.contracts))
  }

  /** A call was given a task that runs under the key of the call; only the empty call was given none. */
  ghost predicate Placed(s: State, c: Call) {
    && (c.via.None? <==> c.contracts == [])
    && (c.via.Some? ==> WellFormed(c.wallet, c.contracts) && c.via.value < |s.tasks|
                        && s.tasks[c.via.value].key == Some(Key(c.wallet, c.contracts)))
  }

  ghost predicate Names(s: State) {
    && (forall i :: 0 <= i < |s.tasks| ==> Named(s.tasks[i]))
    && (forall i :: 0 <= i < |s.calls| ==> Placed(s, s.calls[i]))
  }

  predicate WellFormedEvent(e: Event) {
    e.Request? && e.contracts != [] ==> WellFormed(e.wallet, e.contracts)
  }

  predicate WellFormedRun(run: seq<Event>) {
    forall i :: 0 <= i < |run| ==> WellFormedEvent(run[i])
  }

  lemma NamesRequest(s: State, wallet: string, contracts: seq<string>)
    requires Names(s) && InflightExact(s) && WellFormedEvent(Request(wallet, contracts))
    ensures Names(OnRequest(s, wallet, contracts))
  {
    KeyOfLower(wallet, contracts);
    hide Key, WellFormed, IsLower, Lower, LowerAll;
    var s' := OnRequest(s, wallet, contracts);
    assert forall i :: 0 <= i < |s.calls| ==> Placed(s, s.calls[i]) && s'.calls[i] == s.calls[i];
    assert forall i :: 0 <= i < |s.tasks| ==> s'.tasks[i] == s.tasks[i];
  }

  lemma NamesKept(s: State, s': State)
    requires Names(s) && s'.calls == s.calls && |s.tasks| <= |s'.tasks|
    requires forall i :: 0 <= i < |s.tasks| ==>
               s'.tasks[i].(pc := s.tasks[i].pc, released := s.tasks[i].released) == s.tasks[i]
    requires forall i :: |s.tasks| <= i < |s'.tasks| ==> Named(s'.tasks[i])
    ensures Names(s')
  {
    hide Key, WellFormed, IsLower;
    forall i | 0 <= i < |s.tasks| ensures Named(s'.tasks[i]) && s'.tasks[i].key == s.tasks[i].key {
      assert Named(s.tasks[i]);
      assert s.tasks[i] == s'.tasks[i].(pc := s.tasks[i].pc, released := s.tasks[i].released);
    }
    forall i | 0 <= i < |s.calls| ensures Placed(s', s'.calls[i]) {
      assert Placed(s, s.calls[i]);
    }
  }

  lemma NamesPerform(s: State, id: nat, a: Action)
    requires Names(s) && id < |s.tasks|
    ensures Names(Perform(s, id, a))
  {
    hide Key, WellFormed, IsLower;
    assert Named(s.tasks[id]);
    NamesKept(s, Perform(s, id, a));
  }

  lemma NamesRelease(s: State, id: nat)
    requires Names(s) && id < |s.tasks|
    ensures Names(OnRelease(s, id))
  {
    hide Named;
    NamesKept(s, OnRelease(s, id));
  }

  lemma NamesTick(s: State, elapsed: nat)
    requires Names(s)
    ensures Names(s.(now := s.now + elapsed))
  {
    hide Named;
    NamesKept(s, s.(now := s.now + elapsed));
  }

  lemma NamesStep(chain: Chain, s: State, e: Event)
    requires Names(s) && InflightExact(s) && WellFormedEvent(e)
    ensures Names(Step(chain, s, e))
  {
    hide Names, Act, Perform, OnRequest, OnRelease, InflightExact, WellFormedEvent;
    match e
    case Request(wallet, contracts) => NamesRequest(s, wallet, contracts);
    case Tick(elapsed) => NamesTick(s, elapsed);
    case Release(id) => if id < |s.tasks| { NamesRelease(s, id); }
    case _ => if e.id < |s.tasks| { NamesPerform(s, e.id, Act(chain, s, s.tasks[e.id], e)); }
  }

  lemma {:induction false} NamesAlways(chain: Chain, s: State, run: seq<Event>)
    requires Names(s) && InflightExact(s) && WellFormedRun(run)
    ensures Names(After(chain, s, run))
  {
    if run != [] {
      hide Names, InflightExact, Step, WellFormedEvent;
      var before := run[..|run| - 1];
      NamesAlways(chain, s, before);
      OneFetchPerKey(chain, s, before);
      NamesStep(chain, After(chain, s, before), run[|run| - 1]);
    }
  }

  /** A call is given a task for its own wallet and contracts; only the empty call needs none. */
  ghost predicate AnsweredByItsOwn(s: State, c: Call) {
    && (c.via.None? <==> c.contracts == [])
    && (c.via.Some? ==> (
      && c.via.value < |s.tasks|
      && s.tasks[c.via.value].wallet == Lower(c.wallet)
      && multiset(s.tasks[c.via.value].contracts) == multiset(LowerAll(c.contracts))))
  }

  /**
   * Whatever task answers a call, alone or shared with other calls, it works for the wallet the caller
   * named and for a permutation of the contracts the caller listed, letter case aside.
   */
  lemma SharersAgree(chain: Chain, s: State, run: seq<Event>, k: nat)
    requires Names(s) && InflightExact(s) && WellFormedRun(run)
    requires k < |After(chain, s, run).calls|
    ensures AnsweredByItsOwn(After(chain, s, run), After(chain, s, run).calls[k])
  {
    hide After, Key, Lower, LowerAll, InflightExact, WellFormedRun;
    NamesAlways(chain, s, run);
    var s' := After(chain, s, run);
    var c := s'.calls[k];
    assert Placed(s', c);
    if c.via.Some? {
      var t := s'.tasks[c.via.value];
      assert Named(t);
      SameKeyIff(t.wallet, t.contracts, c.wallet, c.contracts);
      LowerAllOfLower(t.contracts);
    }
  }

  lemma LowerAllOfLower(s: seq<string>)
    requires forall c :: c in s ==> IsLower(c)
    ensures LowerAll(s) == s
  {
    assert forall i :: 0 <= i < |s| ==> IsLower(s[i]);
  }

  // ---------------------------------------------------------------- answers agree with the chain

  /** Contracts that every request for a wallet lists. */
  type Shared = string -> set<string>

  /** Balances, but for those marked as errors, are those of the chain at one moment. */
  ghost predicate GoodCells(chain: Chain, shared: Shared, wallet: string, cells: Cells, readAt: nat) {
    && shared(wallet) <= cells.Keys
    && forall c :: c in cells && !cells[c].error ==> cells[c].balance == chain(readAt, wallet, c)
  }

  /** An entry holds good balances read before it was written, and expires within half a minute. */
  ghost predicate GoodEntry(chain: Chain, shared: Shared, now: nat, wallet: string, e: Entry) {
    && e.issuedAt <= e.readAt <= e.writtenAt <= now
    && e.expiry < e.writtenAt + 30000
    && GoodCells(chain, shared, wallet, e.cells, e.readAt)
    && DecodedFrom(e.asked, e.returned, e.cells)
  }

  ghost predicate GoodFound(chain: Chain, shared: Shared, now: nat, wallet: string, found: Option<Entry>) {
    found.Some? ==> GoodEntry(chain, shared, now, wallet, found.value)
  }

  /** Number id is a background refresh of what t asked for. */
  predicate Refreshes(s: State, id: nat, t: Task) {
    id < |s.tasks| && s.tasks[id].key.None? && s.tasks[id].wallet == t.wallet && s.tasks[id].contracts == t.contracts
  }

  /**
   * An answer is taken row by row from one good entry, which is either unexpired when the answer is given
   * or being refreshed by a task started with the answer.
   */
  ghost predicate GoodOutcome(chain: Chain, shared: Shared, s: State, t: Task, o: Outcome) {
    o.Answered? ==> (
      && GoodEntry(chain, shared, o.at, t.wallet, o.entry)
      && o.at <= s.now
      && o.rows == Rows(t.contracts, o.entry.cells)
      && (o.refresh.None? ==> o.at <= o.entry.expiry)
      && (o.refresh.Some? ==> Covers(o.entry, t.contracts) && Refreshes(s, o.refresh.value, t)))
  }

  ghost predicate GoodPc(chain: Chain, shared: Shared, s: State, t: Task, pc: Pc) {
    match pc
    case Deciding(found) => GoodFound(chain, shared, s.now, t.wallet, found)
    case Rechecking(found) => GoodFound(chain, shared, s.now, t.wallet, found)
    case Writing(cells, readAt, issuedAt, returned) =>
      issuedAt <= readAt <= s.now && GoodCells(chain, shared, t.wallet, cells, readAt)
      && DecodedFrom(t.contracts, returned, cells)
    case Settled(o) => GoodOutcome(chain, shared, s, t, o)
    case _ => true
  }

  ghost predicate GoodTask(chain: Chain, shared: Shared, s: State, t: Task) {
    && GoodPc(chain, shared, s, t, t.pc)
    && (forall c :: c in t.contracts ==> IsLower(c))
    && (forall c :: c in shared(t.wallet) ==> c in t.contracts)
  }

  ghost predicate GoodStorage(chain: Chain, shared: Shared, now: nat, storage: map<string, Entry>) {
    forall w :: w in storage ==> GoodEntry(chain, shared, now, w, storage[w])
  }

  ghost predicate Good(chain: Chain, shared: Shared, s: State) {
    && GoodStorage(chain, shared, s.now, s.storage)
    && forall i :: 0 <= i < |s.tasks| ==> GoodTask(chain, shared, s, s.tasks[i])
  }

  lemma DecodedIsGood(chain: Chain, shared: Shared, s: State, t: Task, returned: seq<Item>, readAt: nat)
    requires Honest(chain, s, t, returned, readAt)
    requires forall c :: c in t.contracts ==> IsLower(c)
    requires forall c :: c in shared(t.wallet) ==> c in t.contracts
    ensures GoodCells(chain, shared, t.wallet, Decoded(t.contracts, returned), readAt)
    ensures DecodedFrom(t.contracts, returned, Decoded(t.contracts, returned))
  {
    var cells := Decoded(t.contracts, returned);
    assert forall i :: 0 <= i < |t.contracts| ==> IsLower(t.contracts[i]);
    DecodedIsByContract(t.contracts, returned);
    hide Decoded;
    forall c | c in shared(t.wallet) ensures c in cells {
      var i :| 0 <= i < |t.contracts| && t.contracts[i] == c;
      assert Lower(t.contracts[i]) == c;
    }
    forall c | c in cells && !cells[c].error ensures cells[c].balance == chain(readAt, t.wallet, c) {
      var i :| LastAt(t.contracts, c, i);
      assert Tells(returned, i, cells[c]);
      assert cells[c] == Cell(cells[c].balance, false);
    }
  }

  /** What tasks are does not change: only where they stand, and whether they gave their key back. */
  ghost predicate SameTasks(s: State, s': State) {
    && s.now <= s'.now && |s.tasks| <= |s'.tasks|
    && forall i :: 0 <= i < |s.tasks| ==> SameTask(s.tasks[i], s'.tasks[i])
  }

  predicate SameTask(t: Task, t': Task) {
    t'.wallet == t.wallet && t'.contracts == t.contracts && t'.key == t.key
  }

  lemma GoodPcKept(chain: Chain, shared: Shared, s: State, s': State, t: Task, t': Task, pc: Pc)
    requires GoodPc(chain, shared, s, t, pc) && SameTasks(s, s') && SameTask(t, t')
    ensures GoodPc(chain, shared, s', t', pc)
  {
    hide Rows;
    if pc.Settled? && pc.outcome.Answered? && pc.outcome.refresh.Some? && pc.outcome.refresh.value < |s.tasks| {
      assert SameTask(s.tasks[pc.outcome.refresh.value], s'.tasks[pc.outcome.refresh.value]);
    }
  }

  lemma GoodStorageKept(chain: Chain, shared: Shared, now: nat, later: nat, storage: map<string, Entry>)
    requires GoodStorage(chain, shared, now, storage) && now <= later
    ensures GoodStorage(chain, shared, later, storage)
  {
  }

  lemma DecidingIsGood(chain: Chain, shared: Shared, s: State, id: nat)
    requires id < |s.tasks| && s.tasks[id].pc.Deciding? && GoodTask(chain, shared, s, s.tasks[id])
    ensures var a := OnDeciding(s, s.tasks[id], s.tasks[id].pc.found);
            a.storage == s.storage && GoodPc(chain, shared, Perform(s, id, a), s.tasks[id], a.pc)
  {
    hide Rows, Covers;
  }

  lemma WrittenIsGood(chain: Chain, shared: Shared, s: State, t: Task, ttl: nat)
    requires t.pc.Writing? && GoodTask(chain, shared, s, t) && GoodStorage(chain, shared, s.now, s.storage)
    requires 20000 <= ttl < 30000
    ensures var a := OnWritten(s, t, t.pc.cells, t.pc.readAt, t.pc.issuedAt, t.pc.returned, ttl);
            GoodPc(chain, shared, s, t, a.pc) && GoodStorage(chain, shared, s.now, a.storage)
  {
    hide Rows;
  }

  /** Where a task goes next is good again, and so is what it leaves in storage. */
  lemma ActIsGood(chain: Chain, shared: Shared, s: State, id: nat, e: Event)
    requires Good(chain, shared, s) && id < |s.tasks|
    ensures var a := Act(chain, s, s.tasks[id], e);
            GoodStorage(chain, shared, s.now, a.storage) &&
            GoodPc(chain, shared, Perform(s, id, a), s.tasks[id], a.pc)
  {
    hide Decoded, Rows, IsLower, Covers, GoodEntry, OnDeciding, OnWritten;
    var t := s.tasks[id];
    var a := Act(chain, s, t, e);
    assert GoodTask(chain, shared, s, t);
    if t.pc.Deciding? && e.Resume? {
      DecidingIsGood(chain, shared, s, id);
    } else {
      if t.pc.Calling? && e.Reply? && Honest(chain, s, t, e.returned, e.readAt) {
        DecodedIsGood(chain, shared, s, t, e.returned, e.readAt);
      } else if t.pc.Writing? && e.Written? && 20000 <= e.ttl < 30000 {
        WrittenIsGood(chain, shared, s, t, e.ttl);
      }
      GoodPcKept(chain, shared, s, Perform(s, id, a), t, t, a.pc);
    }
  }

  ghost predicate Asks(shared: Shared, wallet: string, contracts: seq<string>) {
    forall c :: c in shared(Lower(wallet)) ==> c in LowerAll(contracts)
  }

  /** Every request for a wallet lists the wallet's shared contracts. */
  ghost predicate AsksEvent(shared: Shared, e: Event) {
    e.Request? && e.contracts != [] ==> Asks(shared, e.wallet, e.contracts)
  }

  ghost predicate AsksRun(shared: Shared, run: seq<Event>) {
    forall i :: 0 <= i < |run| ==> AsksEvent(shared, run[i])
  }

  lemma GoodTasksKept(chain: Chain, shared: Shared, s: State, s': State, id: nat)
    requires Good(chain, shared, s) && SameTasks(s, s')
    requires forall i :: 0 <= i < |s.tasks| && i != id ==> s'.tasks[i].pc == s.tasks[i].pc
    ensures forall i :: 0 <= i < |s.tasks| && i != id ==> GoodTask(chain, shared, s', s'.tasks[i])
  {
    hide GoodPc, IsLower;
    forall i | 0 <= i < |s.tasks| && i != id ensures GoodTask(chain, shared, s', s'.tasks[i]) {
      assert GoodTask(chain, shared, s, s.tasks[i]) && SameTask(s.tasks[i], s'.tasks[i]);
      GoodPcKept(chain, shared, s, s', s.tasks[i], s'.tasks[i], s.tasks[i].pc);
    }
  }

  lemma GoodPerform(chain: Chain, shared: Shared, s: State, id: nat, e: Event)
    requires Good(chain, shared, s) && id < |s.tasks|
    ensures Good(chain, shared, Perform(s, id, Act(chain, s, s.tasks[id], e)))
  {
    hide Act, GoodStorage, IsLower;
    ActIsGood(chain, shared, s, id, e);
    var t := s.tasks[id];
    var a := Act(chain, s, t, e);
    var s' := Perform(s, id, a);
    assert GoodTask(chain, shared, s, t);
    GoodPcKept(chain, shared, s', s', t, s'.tasks[id], a.pc);
    GoodTasksKept(chain, shared, s, s', id);
  }

  lemma GoodRequest(chain: Chain, shared: Shared, s: State, wallet: string, contracts: seq<string>)
    requires Good(chain, shared, s) && AsksEvent(shared, Request(wallet, contracts))
    ensures Good(chain, shared, OnRequest(s, wallet, contracts))
  {
    KeyOfLower(wallet, contracts);
    hide Key, GoodStorage, IsLower, Lower, LowerAll, GoodTask;
    var s' := OnRequest(s, wallet, contracts);
    GoodTasksKept(chain, shared, s, s', |s.tasks|);
    if |s'.tasks| > |s.tasks| {
      NewTaskIsGood(chain, shared, s', s'.tasks[|s.tasks|]);
    }
  }

  lemma NewTaskIsGood(chain: Chain, shared: Shared, s: State, t: Task)
    requires t.pc.Reading? && (forall c :: c in t.contracts ==> IsLower(c))
    requires forall c :: c in shared(t.wallet) ==> c in t.contracts
    ensures GoodTask(chain, shared, s, t)
  {
  }

  lemma GoodRelease(chain: Chain, shared: Shared, s: State, id: nat)
    requires Good(chain, shared, s) && id < |s.tasks|
    ensures Good(chain, shared, OnRelease(s, id))
  {
    hide GoodStorage, GoodTask;
    GoodTasksKept(chain, shared, s, OnRelease(s, id), |s.tasks|);
  }

  lemma GoodTick(chain: Chain, shared: Shared, s: State, elapsed: nat)
    requires Good(chain, shared, s)
    ensures Good(chain, shared, s.(now := s.now + elapsed))
  {
    hide GoodStorage, GoodTask;
    GoodStorageKept(chain, shared, s.now, s.now + elapsed, s.storage);
    GoodTasksKept(chain, shared, s, s.(now := s.now + elapsed), |s.tasks|);
  }

  lemma GoodStep(chain: Chain, shared: Shared, s: State, e: Event)
    requires Good(chain, shared, s) && AsksEvent(shared, e)
    ensures Good(chain, shared, Step(chain, s, e))
  {
    hide Good, Act, Perform, OnRequest, OnRelease, AsksEvent;
    match e
    case Request(wallet, contracts) => GoodRequest(chain, shared, s, wallet, contracts);
    case Tick(elapsed) => GoodTick(chain, shared, s, elapsed);
    case Release(id) => if id < |s.tasks| { GoodRelease(chain, shared, s, id); }
    case _ => if e.id < |s.tasks| { GoodPerform(chain, shared, s, e.id, e); }
  }

  lemma {:induction false} GoodAlways(chain: Chain, shared: Shared, s: State, run: seq<Event>)
    requires Good(chain, shared, s) && AsksRun(shared, run)
    ensures Good(chain, shared, After(chain, s, run))
  {
    if run != [] {
      hide Good, Step, AsksEvent;
      GoodAlways(chain, shared, s, run[..|run| - 1]);
      GoodStep(chain, shared, After(chain, s, run[..|run| - 1]), run[|run| - 1]);
    }
  }

  /**
   * An answer is right: it lists the contracts in the order requested, and every balance without an error is
   * the chain's, all at one earlier moment; except that a contract its entry does not have is answered "0".
   * An answer that started no refresh is from an entry written less than half a minute ago, so its balances are
   * older than that by no more than their multicall took; one that did has every contract from its entry, and the
   * refresh asks for the same contracts.
   */
  ghost predicate RightAnswer(chain: Chain, s: State, t: Task, o: Outcome) {
    o.Answered? ==> (
      && o.entry.issuedAt <= o.entry.readAt <= o.entry.writtenAt <= o.at <= s.now
      && |o.rows| == |t.contracts|
      && (forall i :: 0 <= i < |o.rows| ==> RightRow(chain, t, o.entry, t.contracts[i], o.rows[i]))
      && (o.refresh.None? ==>
            && o.at <= o.entry.expiry && o.at < o.entry.writtenAt + 30000
            && o.at - o.entry.readAt < 30000 + (o.entry.writtenAt - o.entry.issuedAt))
      && (o.refresh.Some? ==> Covers(o.entry, t.contracts) && Refreshes(s, o.refresh.value, t)))
  }

  ghost predicate RightRow(chain: Chain, t: Task, e: Entry, contract: string, row: Row) {
    && row.contract == contract
    && (contract in e.cells ==> (row.cell.error || row.cell.balance == chain(e.readAt, t.wallet, contract)))
    && (contract in e.cells ==> exists i :: LastAt(e.asked, contract, i) && Tells(e.returned, i, row.cell))
    && (contract !in e.cells ==> row.cell == Cell(0, false))
  }

  /**
   * Over every interleaving, every settled answer is right; and a contract which every request for its wallet
   * lists is never answered "0" for want of an entry: without an error its balance is the chain's.
   */
  lemma AnswersAgreeWithChain(chain: Chain, shared: Shared, storage: map<string, Entry>, now: nat, run: seq<Event>,
                              id: nat)
    requires GoodStorage(chain, shared, now, storage) && AsksRun(shared, run)
    requires var s := After(chain, Start(storage, now), run); id < |s.tasks| && s.tasks[id].pc.Settled?
    ensures var s := After(chain, Start(storage, now), run);
            RightAnswer(chain, s, s.tasks[id], s.tasks[id].pc.outcome)
    ensures var t := After(chain, Start(storage, now), run).tasks[id];
            t.pc.outcome.Answered? ==> forall i :: 0 <= i < |t.pc.outcome.rows| && t.contracts[i] in shared(t.wallet) ==>
              t.contracts[i] in t.pc.outcome.entry.cells
  {
    hide After, GoodStorage, AsksRun, IsLower;
    assert Good(chain, shared, Start(storage, now));
    GoodAlways(chain, shared, Start(storage, now), run);
    var s := After(chain, Start(storage, now), run);
    assert GoodTask(chain, shared, s, s.tasks[id]);
  }

  // ---------------------------------------------------------------- what leads where

  /** The stored entry of a wallet, if there is one. */
  predicate StoredIs(s: State, wallet: string, found: Option<Entry>) {
    if wallet in s.storage then found == Some(s.storage[wallet]) else found == None
  }

  predicate Misses(t: Task, e: Entry) {
    exists c :: c in t.contracts && c !in e.cells
  }

  /** The events that lead a fetch to a place from another, place by place. */
  ghost predicate LeadsTo(chain: Chain, s: State, t: Task, e: Event, pc: Pc) {
    match pc
    case Reading => false
    case Deciding(found) => t.pc.Reading? && e.Read? && StoredIs(s, t.wallet, found)
    case Checking => t.pc.Deciding? && e.Resume? && (t.pc.found.None? || Misses(t, t.pc.found.value))
    case Rechecking(found) => t.pc.Checking? && e.Read? && StoredIs(s, t.wallet, found)
    case Removing => t.pc.Rechecking? && e.Resume? && t.pc.found.Some? && t.pc.found.value.expiry < s.now
    case Calling(attempts, issuedAt) =>
      && issuedAt == s.now
      && (|| (attempts == 0 && t.pc.Rechecking? && e.Resume? && t.pc.found.None?)
          || (attempts == 0 && t.pc.Removing? && e.Removed?)
          || (attempts == 1 && t.pc.Calling? && t.pc.attempts == 0 && e.Reject?))
    case Writing(cells, readAt, issuedAt, returned) =>
      && t.pc.Calling? && e.Reply? && Honest(chain, s, t, e.returned, e.readAt)
      && cells == Decoded(t.contracts, e.returned)
      && returned == e.returned && readAt == e.readAt && issuedAt == t.pc.issuedAt
    case Settled(Failed) => !t.pc.Settled? && (e.Throw? || (t.pc.Calling? && t.pc.attempts > 0 && e.Reject?))
    case Settled(Answered(rows, entry, at, refresh)) =>
      && at == s.now && rows == Rows(t.contracts, entry.cells)
      && (|| (t.pc.Deciding? && e.Resume? && t.pc.found == Some(entry) && !Misses(t, entry)
              && refresh == if entry.expiry < s.now then Some(|s.tasks|) else None)
          || (t.pc.Rechecking? && e.Resume? && t.pc.found == Some(entry) && s.now <= entry.expiry && refresh == None)
          || (t.pc.Writing? && e.Written? && 20000 <= e.ttl < 30000 && refresh == None
              && entry == Entry(t.pc.cells, s.now + e.ttl, s.now, t.pc.readAt, t.pc.issuedAt, t.contracts, t.pc.returned)))
  }

  /**
   * A fetch moves exactly by what leads there; only removing an expired entry and writing a new one change what is
   * stored, for the wallet of the fetch; and only an answer from an expired entry starts a refresh.
   */
  lemma MovesExactly(chain: Chain, s: State, t: Task, e: Event, pc: Pc)
    ensures var a := Act(chain, s, t, e);
            && (a.pc == pc && pc != t.pc <==> LeadsTo(chain, s, t, e, pc))
            && a.storage == (if t.pc.Removing? && e.Removed? then s.storage - {t.wallet}
                             else if t.pc.Writing? && a.pc.Settled? && a.pc.outcome.Answered?
                             then s.storage[t.wallet := a.pc.outcome.entry] else s.storage)
            && (a.refresh <==> t.pc.Deciding? && a.pc.Settled? && a.pc.outcome.Answered? && a.pc.outcome.refresh.Some?)
  {
    hide Decoded, Rows, Honest;
  }

  // ---------------------------------------------------------------- progress

  lemma {:induction false} AfterFirst(chain: Chain, s: State, e: Event, rest: seq<Event>)
    ensures After(chain, s, [e] + rest) == After(chain, Step(chain, s, e), rest)
  {
    hide Step;
    var run := [e] + rest;
    if rest == [] {
      assert run[..0] == [];
    } else {
      AfterFirst(chain, s, e, rest[..|rest| - 1]);
      assert run[..|run| - 1] == [e] + rest[..|rest| - 1];
    }
  }

  function Distance(pc: Pc): nat {
    match pc
    case Reading => 7
    case Deciding(_) => 6
    case Checking => 5
    case Rechecking(_) => 4
    case Removing => 3
    case Calling(_, _) => 2
    case Writing(_, _, _, _) => 1
    case Settled(_) => 0
  }

  /** The step of a fetch that takes it nearer to its answer. */
  function Toward(s: State, id: nat): Event
    requires id < |s.tasks|
  {
    match s.tasks[id].pc
    case Reading => Read(id)
    case Deciding(_) => Resume(id)
    case Checking => Read(id)
    case Rechecking(_) => Resume(id)
    case Removing => Removed(id)
    case Calling(_, _) => Reply(id, [], s.now)
    case Writing(_, _, _, _) => Written(id, 20000)
    case Settled(_) => Tick(0)
  }

  predicate IssuedBefore(s: State, t: Task) {
    t.pc.Calling? ==> t.pc.issuedAt <= s.now
  }

  lemma ActToward(chain: Chain, s: State, id: nat)
    requires id < |s.tasks| && !s.tasks[id].pc.Settled? && IssuedBefore(s, s.tasks[id])
    ensures var t := s.tasks[id];
            var pc := Act(chain, s, t, Toward(s, id)).pc;
            && Distance(pc) < Distance(t.pc)
            && IssuedBefore(s, t.(pc := pc))
            && (pc.Settled? ==> pc.outcome.Answered?)
  {
    hide Decoded, Rows, Covers;
  }

  lemma TowardIsOfTask(s: State, id: nat)
    requires id < |s.tasks| && !s.tasks[id].pc.Settled?
    ensures var e := Toward(s, id);
            !e.Request? && !e.Tick? && !e.Release? && e.id == id
  {
  }

  lemma OneStepToward(chain: Chain, s: State, id: nat)
    requires id < |s.tasks| && !s.tasks[id].pc.Settled? && IssuedBefore(s, s.tasks[id])
    ensures var s' := Step(chain, s, Toward(s, id));
            && |s'.tasks| >= |s.tasks| && Distance(s'.tasks[id].pc) < Distance(s.tasks[id].pc)
            && IssuedBefore(s', s'.tasks[id])
            && (s'.tasks[id].pc.Settled? ==> s'.tasks[id].pc.outcome.Answered?)
  {
    ActToward(chain, s, id);
    TowardIsOfTask(s, id);
    hide Act, Distance, Toward;
  }

  lemma {:induction false} ToAnswer(chain: Chain, s: State, id: nat) returns (rest: seq<Event>)
    requires id < |s.tasks| && !s.tasks[id].pc.Settled? && IssuedBefore(s, s.tasks[id])
    ensures var t := After(chain, s, rest);
            id < |t.tasks| && t.tasks[id].pc.Settled? && t.tasks[id].pc.outcome.Answered?
    decreases Distance(s.tasks[id].pc)
  {
    hide Step, After, Toward, Distance, IssuedBefore;
    var e := Toward(s, id);
    var s' := Step(chain, s, e);
    OneStepToward(chain, s, id);
    rest := [];
    AfterNothing(chain, s');
    if !s'.tasks[id].pc.Settled? {
      rest := ToAnswer(chain, s', id);
    }
    AfterFirst(chain, s, e, rest);
    rest := [e] + rest;
  }

  lemma AfterNothing(chain: Chain, s: State)
    ensures After(chain, s, []) == s
  {
  }

  ghost predicate AllIssuedBefore(s: State) {
    forall i :: 0 <= i < |s.tasks| ==> IssuedBefore(s, s.tasks[i])
  }

  lemma ActIssuedBefore(chain: Chain, s: State, t: Task, e: Event)
    requires IssuedBefore(s, t)
    ensures IssuedBefore(s, t.(pc := Act(chain, s, t, e).pc))
  {
    hide Decoded, Rows, Covers, Honest;
  }

  lemma StepIssuedBefore(chain: Chain, s: State, e: Event)
    requires AllIssuedBefore(s)
    ensures AllIssuedBefore(Step(chain, s, e))
  {
    hide Act, Key, Lower, LowerAll;
    if !e.Request? && !e.Tick? && e.id < |s.tasks| {
      ActIssuedBefore(chain, s, s.tasks[e.id], e);
    }
  }

  lemma {:induction false} AlwaysIssuedBefore(chain: Chain, storage: map<string, Entry>, now: nat, run: seq<Event>)
    ensures AllIssuedBefore(After(chain, Start(storage, now), run))
  {
    if run != [] {
      hide Step, AllIssuedBefore;
      AlwaysIssuedBefore(chain, storage, now, run[..|run| - 1]);
      StepIssuedBefore(chain, After(chain, Start(storage, now), run[..|run| - 1]), run[|run| - 1]);
    }
  }

  lemma {:induction false} AfterBoth(chain: Chain, s: State, run: seq<Event>, rest: seq<Event>)
    ensures After(chain, s, run + rest) == After(chain, After(chain, s, run), rest)
  {
    hide Step;
    if rest == [] {
      assert run + rest == run;
    } else {
      AfterBoth(chain, s, run, rest[..|rest| - 1]);
      assert (run + rest)[..|run + rest| - 1] == run + rest[..|rest| - 1];
    }
  }

  /** After any run, every fetch still going on can be answered by the events that concern it alone. */
  lemma FetchCanBeAnswered(chain: Chain, storage: map<string, Entry>, now: nat, run: seq<Event>, id: nat)
    returns (rest: seq<Event>)
    requires id < |After(chain, Start(storage, now), run).tasks|
    requires !After(chain, Start(storage, now), run).tasks[id].pc.Settled?
    ensures var t := After(chain, Start(storage, now), run + rest);
            id < |t.tasks| && t.tasks[id].pc.Settled? && t.tasks[id].pc.outcome.Answered?
  {
    hide After, Distance, IssuedBefore;
    var s := After(chain, Start(storage, now), run);
    AlwaysIssuedBefore(chain, storage, now, run);
    rest := ToAnswer(chain, s, id);
    AfterBoth(chain, Start(storage, now), run, rest);
  }

  // ---------------------------------------------------------------- where answers come from

  /** Some multicall of the run returned these items, from this moment. */
  predicate Replied(run: seq<Event>, returned: seq<Item>, readAt: nat) {
    exists k :: 0 <= k < |run| && run[k].Reply? && run[k].returned == returned && run[k].readAt == readAt
  }

  /** An entry was stored from the start, or holds what some multicall of the run returned. */
  ghost predicate Known(before: map<string, Entry>, run: seq<Event>, e: Entry) {
    (exists w :: w in before && before[w] == e) || Replied(run, e.returned, e.readAt)
  }

  ghost predicate KnownPc(before: map<string, Entry>, run: seq<Event>, pc: Pc) {
    match pc
    case Deciding(found) => found.Some? ==> Known(before, run, found.value)
    case Rechecking(found) => found.Some? ==> Known(before, run, found.value)
    case Writing(_, readAt, _, returned) => Replied(run, returned, readAt)
    case Settled(o) => o.Answered? ==> Known(before, run, o.entry)
    case _ => true
  }

  ghost predicate AllKnown(before: map<string, Entry>, run: seq<Event>, s: State) {
    && (forall w :: w in s.storage ==> Known(before, run, s.storage[w]))
    && (forall i :: 0 <= i < |s.tasks| ==> KnownPc(before, run, s.tasks[i].pc))
  }

  lemma KnownLater(before: map<string, Entry>, run: seq<Event>, e: Event)
    ensures forall r, t :: Replied(run, r, t) ==> Replied(run + [e], r, t)
    ensures e.Reply? ==> Replied(run + [e], e.returned, e.readAt)
    ensures forall x :: Known(before, run, x) ==> Known(before, run + [e], x)
    ensures forall pc :: KnownPc(before, run, pc) ==> KnownPc(before, run + [e], pc)
  {
    var longer := run + [e];
    forall r, t | Replied(run, r, t) ensures Replied(longer, r, t) {
      var k :| 0 <= k < |run| && run[k].Reply? && run[k].returned == r && run[k].readAt == t;
      assert longer[k] == run[k];
    }
    assert longer[|run|] == e;
    hide Replied;
  }

  lemma ActKnown(chain: Chain, before: map<string, Entry>, run: seq<Event>, s: State, t: Task, e: Event)
    requires AllKnown(before, run, s) && KnownPc(before, run, t.pc)
    requires e.Reply? ==> Replied(run, e.returned, e.readAt)
    ensures var a := Act(chain, s, t, e);
            KnownPc(before, run, a.pc) && forall w :: w in a.storage ==> Known(before, run, a.storage[w])
  {
    hide Replied, Decoded, Rows, Covers, Honest;
  }

  lemma PerformKnown(before: map<string, Entry>, run: seq<Event>, s: State, id: nat, a: Action)
    requires AllKnown(before, run, s) && id < |s.tasks| && KnownPc(before, run, a.pc)
    requires forall w :: w in a.storage ==> Known(before, run, a.storage[w])
    ensures AllKnown(before, run, Perform(s, id, a))
  {
    hide Known, Replied;
    assert KnownPc(before, run, Checking);
  }

  lemma RequestKnown(before: map<string, Entry>, run: seq<Event>, s: State, wallet: string, contracts: seq<string>)
    requires AllKnown(before, run, s)
    ensures AllKnown(before, run, OnRequest(s, wallet, contracts))
  {
    hide Known, Replied, Key, Lower, LowerAll;
    assert KnownPc(before, run, Reading);
  }

  lemma StepKnown(chain: Chain, before: map<string, Entry>, run: seq<Event>, s: State, e: Event)
    requires AllKnown(before, run, s)
    ensures AllKnown(before, run + [e], Step(chain, s, e))
  {
    hide Act, Known, KnownPc, Replied, OnRequest, Perform;
    KnownLater(before, run, e);
    assert AllKnown(before, run + [e], s);
    if e.Request? {
      RequestKnown(before, run + [e], s, e.wallet, e.contracts);
      hide AllKnown;
    } else if !e.Tick? && !e.Release? && e.id < |s.tasks| {
      ActKnown(chain, before, run + [e], s, s.tasks[e.id], e);
      PerformKnown(before, run + [e], s, e.id, Act(chain, s, s.tasks[e.id], e));
      hide AllKnown;
    }
  }

  /** Over every interleaving, what is answered, stored or being decided on holds what some multicall returned. */
  lemma {:induction false} AnswersComeFromReplies(chain: Chain, before: map<string, Entry>, now: nat, run: seq<Event>)
    ensures AllKnown(before, run, After(chain, Start(before, now), run))
  {
    hide AllKnown, Step;
    if run == [] {
      StartKnown(before, now);
    } else {
      var r, e := run[..|run| - 1], run[|run| - 1];
      AnswersComeFromReplies(chain, before, now, r);
      StepKnown(chain, before, r, After(chain, Start(before, now), r), e);
      assert run == r + [e];
    }
  }

  lemma StartKnown(before: map<string, Entry>, now: nat)
    ensures AllKnown(before, [], Start(before, now))
  {
  }

  // ---------------------------------------------------------------- when a fetch fails

  /** The number of times the multicall of a task was rejected. */
  function Rejections(run: seq<Event>, id: nat): nat {
    if run == [] then 0 else
    Rejections(run[..|run| - 1], id) + if run[|run| - 1] == Reject(id) then 1 else 0
  }

  predicate Threw(run: seq<Event>, id: nat) {
    Throw(id) in run
  }

  /** The second rejection is the one that counts. */
  ghost predicate FailedAfter(pc: Pc, rejections: nat, threw: bool) {
    && (pc.Calling? ==> pc.attempts <= 1 && pc.attempts <= rejections)
    && (pc.Settled? && pc.outcome.Failed? ==> threw || rejections >= 2)
  }

  lemma ActFails(chain: Chain, s: State, t: Task, e: Event, rejections: nat, threw: bool)
    requires FailedAfter(t.pc, rejections, threw)
    ensures FailedAfter(Act(chain, s, t, e).pc, rejections + if e.Reject? then 1 else 0, threw || e.Throw?)
  {
    hide Decoded, Rows, Covers, Honest;
  }

  lemma StepFails(chain: Chain, s: State, e: Event, id: nat, rejections: nat, threw: bool)
    requires id < |s.tasks| ==> FailedAfter(s.tasks[id].pc, rejections, threw)
    requires id < |Step(chain, s, e).tasks|
    ensures FailedAfter(Step(chain, s, e).tasks[id].pc,
                        rejections + (if e == Reject(id) then 1 else 0), threw || e == Throw(id))
  {
    hide Act, FailedAfter, Key, Lower, LowerAll;
    if id < |s.tasks| {
      ActFails(chain, s, s.tasks[id], e, rejections, threw);
    }
    NothingFailed(Reading, rejections, threw);
    NothingFailed(Checking, rejections, threw);
    MoreFailed(s, id, e, rejections, threw);
  }

  lemma NothingFailed(pc: Pc, rejections: nat, threw: bool)
    requires pc.Reading? || pc.Checking?
    ensures forall r, b :: FailedAfter(pc, r, b)
  {
  }

  lemma MoreFailed(s: State, id: nat, e: Event, rejections: nat, threw: bool)
    ensures id < |s.tasks| && FailedAfter(s.tasks[id].pc, rejections, threw) ==>
              FailedAfter(s.tasks[id].pc, rejections + (if e == Reject(id) then 1 else 0), threw || e == Throw(id))
  {
  }

  /** A fetch fails only when something it awaited threw, or when its multicall was rejected twice. */
  lemma {:induction false} FailsOnlyAfterRetry(chain: Chain, storage: map<string, Entry>, now: nat, run: seq<Event>, id: nat)
    requires id < |After(chain, Start(storage, now), run).tasks|
    ensures FailedAfter(After(chain, Start(storage, now), run).tasks[id].pc, Rejections(run, id), Threw(run, id))
  {
    hide FailedAfter, Step;
    if run != [] {
      var before, e := run[..|run| - 1], run[|run| - 1];
      if id < |After(chain, Start(storage, now), before).tasks| {
        FailsOnlyAfterRetry(chain, storage, now, before, id);
      }
      assert run == before + [e];
      StepFails(chain, After(chain, Start(storage, now), before), e, id, Rejections(before, id), Threw(before, id));
    }
  }

  /**
   * A fetch that finds an unexpired entry answers from it alone: the row of a contract shows the chain's
   * balance, or an error, exactly when the entry has the contract or the balance is 0.
   */
  lemma RecheckIsRightIff(chain: Chain, shared: Shared, s: State, id: nat, i: nat)
    requires Good(chain, shared, s) && id < |s.tasks| && i < |s.tasks[id].contracts|
    requires s.tasks[id].pc.Rechecking? && s.tasks[id].pc.found.Some? && s.now <= s.tasks[id].pc.found.value.expiry
    ensures var t, e := s.tasks[id], s.tasks[id].pc.found.value;
            var o := Step(chain, s, Resume(id)).tasks[id].pc;
            o.Settled? && o.outcome.Answered? && |o.outcome.rows| == |t.contracts| &&
            (o.outcome.rows[i].cell.error || o.outcome.rows[i].cell.balance == chain(e.readAt, t.wallet, t.contracts[i])
             <==> t.contracts[i] in e.cells || chain(e.readAt, t.wallet, t.contracts[i]) == 0)
  {
    hide IsLower;
    assert GoodTask(chain, shared, s, s.tasks[id]);
  }

  function Then(run: seq<Event>, e: Event): seq<Event> {
    run + [e]
  }

  lemma Snoc(chain: Chain, s: State, run: seq<Event>, e: Event)
    ensures After(chain, s, Then(run, e)) == Step(chain, After(chain, s, run), e)
  {
    assert Then(run, e)[..|run|] == run;
  }

  /** The entry that the request for contract "a" leaves behind, when every balance is 5. */
  function EntryOfA(): Entry {
    Entry(map["a" := Cell(5, false)], 20000, 0, 0, 0, ["a"], [Uint(5)])
  }

  lemma OneContract(c: string)
    requires c == "a" || c == "b" || c == "w"
    ensures Lower(c) == c && LowerAll([c]) == [c]
  {
    assert Lower(c) == c;
  }

  /** The first request stores an entry for contract "a" only. */
  lemma FirstRequest(chain: Chain) returns (run: seq<Event>)
    requires forall t, w, c :: chain(t, w, c) == 5
    ensures var s := After(chain, Start(map[], 0), run);
            s.now == 0 && s.storage == map["w" := EntryOfA()] && s.inflight == map[] && |s.tasks| == 1
  {
    hide After, Lower, LowerAll, Key;
    OneContract("w");
    OneContract("a");
    var s0 := Start(map[], 0);
    var items := [Uint(5)];
    run := [];
    assert After(chain, s0, run) == s0 by { AfterNothing(chain, s0); }
    var key := Key("w", ["a"]);
    var t := Task("w", ["a"], Some(key), false, Reading);
    var s := State(0, map[], [t], map[key := 0], [Call("w", ["a"], Some(0))]);
    Snoc(chain, s0, run, Request("w", ["a"]));
    run := Then(run, Request("w", ["a"]));
    assert After(chain, s0, run) == s;
    Snoc(chain, s0, run, Read(0));
    run := Then(run, Read(0));
    assert After(chain, s0, run) == s.(tasks := [t.(pc := Deciding(None))]);
    Snoc(chain, s0, run, Resume(0));
    run := Then(run, Resume(0));
    assert After(chain, s0, run) == s.(tasks := [t.(pc := Checking)]);
    Snoc(chain, s0, run, Read(0));
    run := Then(run, Read(0));
    assert After(chain, s0, run) == s.(tasks := [t.(pc := Rechecking(None))]);
    Snoc(chain, s0, run, Resume(0));
    run := Then(run, Resume(0));
    assert After(chain, s0, run) == s.(tasks := [t.(pc := Calling(0, 0))]);
    Snoc(chain, s0, run, Reply(0, items, 0));
    run := Then(run, Reply(0, items, 0));
    DecodedOfA(items);
    assert After(chain, s0, run) == s.(tasks := [t.(pc := Writing(EntryOfA().cells, 0, 0, items))]);
    Snoc(chain, s0, run, Written(0, 20000));
    run := Then(run, Written(0, 20000));
    var answer := Answer(s, t, EntryOfA(), None);
    assert After(chain, s0, run) == s.(storage := map["w" := EntryOfA()], tasks := [t.(pc := answer)]);
    Snoc(chain, s0, run, Release(0));
    run := Then(run, Release(0));
    assert After(chain, s0, run).storage == map["w" := EntryOfA()];
    assert After(chain, s0, run).inflight == map[];
  }

  lemma DecodedOfA(items: seq<Item>)
    requires items == [Uint(5)]
    ensures Decoded(["a"], items) == map["a" := Cell(5, false)]
  {
    OneContract("a");
    assert ["a"][..0] == [];
    assert Decoded([], items) == map[];
  }

  /**
   * It does happen: with a balance of 5 everywhere, a wallet asked for contract "a" and then for contract "b"
   * is told that it has "0" of "b", without an error.
   */
  lemma ContractCanBeOmitted(chain: Chain) returns (run: seq<Event>)
    requires forall t, w, c :: chain(t, w, c) == 5
    ensures var s := After(chain, Start(map[], 0), run);
            |s.tasks| == 2 && s.tasks[1].pc.Settled? && s.tasks[1].pc.outcome.Answered?
            && s.tasks[1].pc.outcome.rows == [Row("b", Cell(0, false))]
  {
    hide After, Lower, LowerAll, Key;
    OneContract("w");
    OneContract("b");
    run := FirstRequest(chain);
    var s0 := Start(map[], 0);
    var s := After(chain, s0, run);
    var key := Key("w", ["b"]);
    var t := Task("w", ["b"], Some(key), false, Reading);
    Snoc(chain, s0, run, Request("w", ["b"]));
    run := Then(run, Request("w", ["b"]));
    s := s.(tasks := s.tasks + [t], inflight := map[key := 1], calls := s.calls + [Call("w", ["b"], Some(1))]);
    assert After(chain, s0, run) == s;
    Snoc(chain, s0, run, Read(1));
    run := Then(run, Read(1));
    assert After(chain, s0, run) == s.(tasks := s.tasks[1 := t.(pc := Deciding(Some(EntryOfA())))]);
    Snoc(chain, s0, run, Resume(1));
    run := Then(run, Resume(1));
    assert "b" in t.contracts && "b" !in EntryOfA().cells;
    assert After(chain, s0, run) == s.(tasks := s.tasks[1 := t.(pc := Checking)]);
    Snoc(chain, s0, run, Read(1));
    run := Then(run, Read(1));
    assert After(chain, s0, run) == s.(tasks := s.tasks[1 := t.(pc := Rechecking(Some(EntryOfA())))]);
    Snoc(chain, s0, run, Resume(1));
    run := Then(run, Resume(1));
    assert Rows(["b"], EntryOfA().cells) == [Row("b", Cell(0, false))];
  }
}
