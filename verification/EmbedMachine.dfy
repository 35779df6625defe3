/**
 * The embed machine: RPC_RECEIVER queues messages, AUTH keeps the session, and HANDLE_PROCEDURE
 * approves and executes one message at a time (features/embed/machine.ts).
 *
 * An empty string stands for a missing id. halted: an action that throws, or a service error nobody
 * handles, stops the actor in its last state.
 */
module EmbedMachine {
  import opened Common
  import opened RequestFifo

  /**
   * An origin as a target of postMessage: not given, a text the browser rejects by throwing (the empty text,
   * the "null" of a sandboxed frame, anything else that is no URL), or a target it posts to.
   */
  datatype Origin = Absent | Rejected(text: string) | Target(text: string)

  datatype Message = Message(id: string, procedure: string, params: seq<string>, origin: Origin)

  datatype Auth = CheckAppMeta | CheckAuthentication | Authenticate | Authenticated

  datatype Handler = READY | AWAIT_PROCEDURE_APPROVAL | EXECUTE_PROCEDURE | ERROR

  datatype Context = Context(
    authSession: Option<string>,
    rpcMessage: Option<Message>,
    messageQueue: seq<Message>,
    authParams: Option<string>,  // the authRequest fields copied from a message's first parameter
    error: Option<string>)

  datatype Event =
    | RpcMessage(message: Message, sender: Origin)
    | AppMetaDone(validDomain: bool)
    | AppMetaFailed
    | AuthStateDone(session: Option<string>)
    | AuthStateFailed
    | LoginDone(session: Option<string>)
    | LoginFailed
    | SessionExpired
    | Approve
    | ApproveDelegation
    | ApproveTransfer
    | Cancel
    | CancelError
    | Retry
    | Reset
    | ProcedureDone
    | ProcedureFailed(reason: string)

  /** Input of the procedure service, captured when EXECUTE_PROCEDURE is entered. */
  datatype Invocation = Invocation(input: Option<Message>, session: Option<string>, trigger: Event)

  datatype State = State(halted: bool, auth: Auth, handler: Handler, ctx: Context, invoked: Option<Invocation>)

  /** What is posted to the embedding page for a message. */
  datatype Reply = Response(about: Option<Message>) | Cancellation(about: Option<Message>)

  const RENEW := "ic_renewDelegation"

  const INIT := State(false, CheckAppMeta, READY, Context(None, None, [], None, None), None)

  // ---------------------------------------------------------------- guards and actions

  predicate HasProcedure(ctx: Context) {
    ctx.rpcMessage.Some? && ctx.authSession.Some?
  }

  predicate IsAutoApprovable(ctx: Context) {
    ctx.rpcMessage.Some? && ctx.rpcMessage.value.procedure == RENEW
  }

  predicate IsApproval(e: Event) {
    e.Approve? || e.ApproveDelegation? || e.ApproveTransfer?
  }

  /** The message becomes active with the sender's origin, and the authentication request takes its parameters. */
  function AssignProcedure(ctx: Context, m: Message, sender: Origin): Context
    requires m.params != []
  {
    ctx.(rpcMessage := Some(m.(origin := sender)), authParams := Some(m.params[0]))
  }

  /** The message waits as it was sent: the sender's origin is not stored with it. */
  function QueueRequest(ctx: Context, m: Message): Context {
    ctx.(messageQueue := ctx.messageQueue + [m])
  }

  function UpdateProcedure(ctx: Context): Context {
    ctx.(rpcMessage := if ctx.messageQueue == [] then None else Some(ctx.messageQueue[0]),
         messageQueue := if ctx.messageQueue == [] then [] else ctx.messageQueue[1..])
  }

  /** Cancelling posts to the message's origin with its id, and throws when either is missing, or the post does. */
  predicate CancelThrows(ctx: Context) {
    ctx.rpcMessage.None? || !ctx.rpcMessage.value.origin.Target? || ctx.rpcMessage.value.id == ""
  }

  /** Announcing the end of a session posts to the message's origin, and throws when there is none, or the post does. */
  predicate UnauthenticatedThrows(ctx: Context) {
    ctx.rpcMessage.None? || !ctx.rpcMessage.value.origin.Target?
  }

  /** A response is posted to the message's origin unchecked: without one it goes to the wallet's own, not the sender's. */
  predicate ResponseThrows(ctx: Context) {
    ctx.rpcMessage.Some? && ctx.rpcMessage.value.origin.Rejected?
  }

  // ---------------------------------------------------------------- the chart

  function Halt(s: State): State {
    s.(halted := true)
  }

  function Handle(s: State, handler: Handler, e: Event): State {
    s.(handler := handler,
       invoked := if handler == EXECUTE_PROCEDURE
                  then Some(Invocation(s.ctx.rpcMessage, s.ctx.authSession, e)) else None)
  }

  function ReceiverStep(s: State, m: Message, sender: Origin): State {
    if s.ctx.rpcMessage.None? then
      if m.params == [] then Halt(s) else s.(ctx := AssignProcedure(s.ctx, m, sender))
    else
      s.(ctx := QueueRequest(s.ctx, m))
  }

  function AuthStep(s: State, e: Event): State {
    match (s.auth, e)
    case (_, Reset) => s.(auth := CheckAppMeta)
    case (CheckAppMeta, AppMetaDone(valid)) => if valid then s.(auth := CheckAuthentication) else Halt(s)
    case (CheckAppMeta, AppMetaFailed) => Halt(s)
    case (CheckAuthentication, AuthStateDone(session)) =>
      s.(auth := Authenticated, ctx := s.ctx.(authSession := session))
    case (CheckAuthentication, AuthStateFailed) => s.(auth := Authenticate)
    case (Authenticate, LoginDone(session)) =>
      s.(auth := Authenticated, ctx := s.ctx.(authSession := session))
    case (Authenticate, LoginFailed) => Halt(s)
    case (Authenticated, SessionExpired) =>
      if UnauthenticatedThrows(s.ctx) then Halt(s) else s.(auth := Authenticate)
    case _ => s
  }

  function CancelStep(s: State, e: Event): State {
    if CancelThrows(s.ctx) then Halt(s)
    else Handle(s.(ctx := UpdateProcedure(s.ctx)), READY, e)
  }

  function ResponseStep(s: State, e: Event): State {
    if ResponseThrows(s.ctx) then Halt(s)
    else Handle(s.(ctx := UpdateProcedure(s.ctx)), READY, e)
  }

  function HandlerStep(s: State, e: Event): State {
    match s.handler
    case READY => if e.Reset? then Handle(s, READY, e) else s
    case AWAIT_PROCEDURE_APPROVAL =>
      if IsApproval(e) then Handle(s, EXECUTE_PROCEDURE, e)
      else if e.Cancel? then CancelStep(s, e)
      else if e.Reset? then Handle(s, READY, e) else s
    case EXECUTE_PROCEDURE =>
      if e.ProcedureDone? then ResponseStep(s, e)
      else if e.ProcedureFailed? then Handle(s.(ctx := s.ctx.(error := Some(e.reason))), ERROR, e)
      else if e.Reset? then Handle(s, READY, e) else s
    case ERROR =>
      if e.Retry? then Handle(s, AWAIT_PROCEDURE_APPROVAL, e)
      else if e.CancelError? then CancelStep(s, e)
      else if e.Reset? then Handle(s, READY, e) else s
  }

  /** The eventless transitions of READY, in the order of the chart. */
  function Settle(s: State, e: Event): State {
    if s.handler != READY then s
    else if IsAutoApprovable(s.ctx) then Handle(s, EXECUTE_PROCEDURE, e)
    else if HasProcedure(s.ctx) then Handle(s, AWAIT_PROCEDURE_APPROVAL, e)
    else s
  }

  /** Only RESET is handled by two regions; its transitions have no actions, so their order is immaterial. */
  function RegionSteps(s: State, e: Event): State {
    if e.RpcMessage? then ReceiverStep(s, e.message, e.sender)
    else HandlerStep(AuthStep(s, e), e)
  }

  function Step(s: State, e: Event): State {
    if s.halted then s else
    var t := RegionSteps(s, e);
    if t.halted then Halt(s) else Settle(t, e)
  }

  // ---------------------------------------------------------------- runs

  function After(run: seq<Event>): State {
    if run == [] then INIT else Step(After(run[..|run| - 1]), run[|run| - 1])
  }

  /** The reply a macrostep posts: the service's response to the message it was started with, or a cancellation. */
  function Posted(s: State, e: Event): seq<Reply> {
    if s.halted || Step(s, e).halted then []
    else if s.handler == EXECUTE_PROCEDURE && e.ProcedureDone? && s.invoked.Some? then [Response(s.invoked.value.input)]
    else if s.handler == AWAIT_PROCEDURE_APPROVAL && e.Cancel? then [Cancellation(s.ctx.rpcMessage)]
    else if s.handler == ERROR && e.CancelError? then [Cancellation(s.ctx.rpcMessage)]
    else []
  }

  function Replies(run: seq<Event>): seq<Reply> {
    if run == [] then []
    else Replies(run[..|run| - 1]) + Posted(After(run[..|run| - 1]), run[|run| - 1])
  }

  /** The message a step of the running machine takes in, without its origin. */
  function Taken(s: State, e: Event): seq<Message> {
    if e.RpcMessage? && !s.halted && !Step(s, e).halted then [NoOrigin(e.message)] else []
  }

  /** Messages are compared without their origin, which queueing does not keep. */
  function NoOrigin(m: Message): Message {
    m.(origin := Absent)
  }

  function NoOrigins(s: seq<Message>): (r: seq<Message>)
    ensures |r| == |s| && forall i :: 0 <= i < |s| ==> r[i] == NoOrigin(s[i])
  {
    seq(|s|, i requires 0 <= i < |s| => NoOrigin(s[i]))
  }

  function Received(run: seq<Event>): seq<Message> {
    if run == [] then []
    else Received(run[..|run| - 1]) + Taken(After(run[..|run| - 1]), run[|run| - 1])
  }

  /** The messages replied to, read off the replies. */
  function Served(run: seq<Event>): seq<Message> {
    Answered(Replies(run))
  }

  function Answered(replies: seq<Reply>): seq<Message> {
    if replies == [] then []
    else Answered(replies[..|replies| - 1]) + NoOrigins(ToSeq(replies[|replies| - 1].about))
  }

  function Active(s: State): Option<Message> {
    if s.ctx.rpcMessage.None? then None else Some(NoOrigin(s.ctx.rpcMessage.value))
  }

  function Abstract(run: seq<Event>): Fifo<Message> {
    RequestFifo.Fifo.Fifo(Received(run), Served(run), Active(After(run)), NoOrigins(After(run).ctx.messageQueue))
  }

  /** What holds throughout a macrostep, whatever the authentication services return. */
  ghost predicate Core(s: State) {
    && (s.ctx.rpcMessage.None? ==> s.ctx.messageQueue == [] && s.handler == READY)
    && (s.invoked.Some? <==> s.handler == EXECUTE_PROCEDURE)
    && (s.invoked.Some? ==> s.invoked.value.input == s.ctx.rpcMessage)
  }

  /** What every reachable state satisfies: in addition, no eventless transition is enabled. */
  ghost predicate Good(s: State) {
    Core(s) && (s.handler == READY ==> !IsAutoApprovable(s.ctx) && !HasProcedure(s.ctx))
  }

  lemma AuthStepFrame(s: State, e: Event)
    ensures AuthStep(s, e).handler == s.handler && AuthStep(s, e).invoked == s.invoked
    ensures AuthStep(s, e).ctx == s.ctx.(authSession := AuthStep(s, e).ctx.authSession)
    ensures Core(s) ==> Core(AuthStep(s, e))
    ensures s.ctx.authSession != AuthStep(s, e).ctx.authSession ==> e.AuthStateDone? || e.LoginDone?
  {
  }

  /** The events by which the handler replies to the active message. */
  predicate Finishes(handler: Handler, e: Event) {
    || (handler == EXECUTE_PROCEDURE && e.ProcedureDone?)
    || (handler == AWAIT_PROCEDURE_APPROVAL && e.Cancel?)
    || (handler == ERROR && e.CancelError?)
  }

  lemma HandlerStepFrame(s: State, e: Event)
    requires Core(s)
    ensures Core(HandlerStep(s, e))
    ensures !HandlerStep(s, e).halted && Finishes(s.handler, e) ==>
              HandlerStep(s, e).ctx == UpdateProcedure(s.ctx) && HandlerStep(s, e).handler == READY
    ensures !Finishes(s.handler, e) ==>
              && HandlerStep(s, e).ctx.rpcMessage == s.ctx.rpcMessage
              && HandlerStep(s, e).ctx.messageQueue == s.ctx.messageQueue
              && HandlerStep(s, e).ctx.authParams == s.ctx.authParams
              && HandlerStep(s, e).halted == s.halted
    ensures HandlerStep(s, e).ctx.authSession == s.ctx.authSession
    ensures HandlerStep(s, e).ctx.authParams == s.ctx.authParams
    ensures Finishes(s.handler, e) ==> s.ctx.rpcMessage.Some?
  {
  }

  lemma SettleFrame(s: State, e: Event)
    requires Core(s)
    ensures Good(Settle(s, e))
    ensures Settle(s, e).ctx == s.ctx && Settle(s, e).halted == s.halted
    ensures s.handler != READY ==> Settle(s, e) == s
    ensures s.handler == READY ==> Settle(s, e).handler in {READY, EXECUTE_PROCEDURE, AWAIT_PROCEDURE_APPROVAL}
  {
  }

  lemma ReceiverStepFrame(s: State, m: Message, sender: Origin)
    requires Good(s)
    ensures !ReceiverStep(s, m, sender).halted ==> Core(ReceiverStep(s, m, sender))
  {
  }

  lemma StepKeepsGood(s: State, e: Event)
    requires Good(s)
    ensures Good(Step(s, e))
  {
    hide AuthStep, HandlerStep, Settle, ReceiverStep;
    if e.RpcMessage? {
      ReceiverStepFrame(s, e.message, e.sender);
    } else {
      AuthStepFrame(s, e);
      HandlerStepFrame(AuthStep(s, e), e);
    }
    if !s.halted && !RegionSteps(s, e).halted {
      SettleFrame(RegionSteps(s, e), e);
    }
  }

  lemma Empty()
    ensures After([]) == INIT
  {
  }

  lemma Prefixes(run: seq<Event>)
    requires run != []
    ensures forall k :: 0 <= k < |run| ==> run[..|run| - 1][..k] == run[..k]
    ensures run[..|run|] == run
    ensures run == run[..|run| - 1] + [run[|run| - 1]]
  {
  }

  lemma Snoc(run: seq<Event>, e: Event)
    ensures (run + [e])[..|run|] == run
    ensures After(run + [e]) == Step(After(run), e)
    ensures Received(run + [e]) == Received(run) + Taken(After(run), e)
    ensures Replies(run + [e]) == Replies(run) + Posted(After(run), e)
  {
    assert (run + [e])[..|run|] == run;
  }

  lemma ServedSnoc(run: seq<Event>, e: Event)
    ensures Posted(After(run), e) == [] ==> Served(run + [e]) == Served(run)
    ensures forall reply :: Posted(After(run), e) == [reply] ==>
              Served(run + [e]) == Served(run) + NoOrigins(ToSeq(reply.about))
  {
    hide Step, Posted, After, Taken;
    Snoc(run, e);
    assert Posted(After(run), e) == [] ==> Replies(run + [e]) == Replies(run);
    if reply :| Posted(After(run), e) == [reply] {
      var replies := Replies(run + [e]);
      assert replies[..|replies| - 1] == Replies(run);
    }
  }

  lemma {:induction false} RunsStayGood(run: seq<Event>)
    ensures Good(After(run))
  {
    hide Step, Good;
    if run != [] {
      RunsStayGood(run[..|run| - 1]);
      StepKeepsGood(After(run[..|run| - 1]), run[|run| - 1]);
    } else {
      InitIsGood();
    }
  }

  lemma InitIsGood()
    ensures Good(INIT)
  {
  }

  // ---------------------------------------------------------------- one server, first in first out

  /** A macrostep of the running machine that does not take in a message. */
  lemma StepIsRegionSteps(s: State, e: Event)
    requires Good(s) && !e.RpcMessage? && !s.halted && !Step(s, e).halted
    ensures Finishes(s.handler, e) ==>
              Step(s, e).ctx == UpdateProcedure(s.ctx).(authSession := Step(s, e).ctx.authSession)
    ensures !Finishes(s.handler, e) ==>
              && Step(s, e).ctx.rpcMessage == s.ctx.rpcMessage
              && Step(s, e).ctx.messageQueue == s.ctx.messageQueue
              && Step(s, e).ctx.authParams == s.ctx.authParams
    ensures s.ctx.authSession != Step(s, e).ctx.authSession ==> e.AuthStateDone? || e.LoginDone?
    ensures Finishes(s.handler, e) ==> s.ctx.rpcMessage.Some?
  {
    hide AuthStep, HandlerStep, Settle;
    AuthStepFrame(s, e);
    HandlerStepFrame(AuthStep(s, e), e);
    SettleFrame(RegionSteps(s, e), e);
  }

  lemma StepOnQueue(s: State, e: Event)
    requires Good(s)
    ensures Taken(s, e) != [] ==>
              && Posted(s, e) == [] && e.RpcMessage? && Taken(s, e) == [NoOrigin(e.message)]
              && (Active(s).None? ==>
                    Active(Step(s, e)) == Some(NoOrigin(e.message)) && Step(s, e).ctx.messageQueue == [])
              && (Active(s).Some? ==>
                    Active(Step(s, e)) == Active(s) &&
                    Step(s, e).ctx.messageQueue == s.ctx.messageQueue + [e.message])
    ensures Posted(s, e) != [] ==>
              && Taken(s, e) == [] && s.ctx.rpcMessage.Some?
              && |Posted(s, e)| == 1 && Posted(s, e)[0].about == s.ctx.rpcMessage
              && (s.ctx.messageQueue == [] ==> Active(Step(s, e)) == None && Step(s, e).ctx.messageQueue == [])
              && (s.ctx.messageQueue != [] ==>
                    Active(Step(s, e)) == Some(NoOrigin(s.ctx.messageQueue[0])) &&
                    Step(s, e).ctx.messageQueue == s.ctx.messageQueue[1..])
    ensures Taken(s, e) == [] && Posted(s, e) == [] ==>
              Active(Step(s, e)) == Active(s) && Step(s, e).ctx.messageQueue == s.ctx.messageQueue
  {
    if e.RpcMessage? {
      hide AuthStep, HandlerStep;
    } else if !s.halted && !Step(s, e).halted {
      StepIsRegionSteps(s, e);
      hide Step;
    } else {
      hide RegionSteps, Settle;
    }
  }

  /** One macrostep of the machine is one step of the single-server FIFO, or none. */
  lemma StepRefinesFifo(run: seq<Event>, e: Event)
    ensures Next(Abstract(run), Abstract(run + [e]))
  {
    hide Step, Posted, After, Good, Taken, Active, Received, Served, Replies, Answered, NoOrigin;
    Snoc(run, e);
    ServedSnoc(run, e);
    RunsStayGood(run);
    StepOnQueue(After(run), e);
    var f, g := Abstract(run), Abstract(run + [e]);
    if Taken(After(run), e) != [] {
      assert Posted(After(run), e) == [];
      assert Active(After(run)).None? ==> f.queue == [] by { QueueEmptyWhenIdle(After(run)); }
      assert Arrives(f, NoOrigin(e.message), g);
    } else if Posted(After(run), e) != [] {
      assert Posted(After(run), e) == [Posted(After(run), e)[0]];
      QueueEmptyWhenIdle(After(run));
      assert g == Finish(f);
    } else {
      assert g == f;
    }
  }

  lemma QueueEmptyWhenIdle(s: State)
    requires Good(s)
    ensures Active(s).None? ==> NoOrigins(s.ctx.messageQueue) == []
    ensures s.ctx.rpcMessage.Some? ==> Active(s) == Some(NoOrigin(s.ctx.rpcMessage.value))
  {
  }

  lemma {:induction false} RunsRefineFifo(run: seq<Event>)
    ensures RequestFifo.Inv(Abstract(run))
  {
    hide Step, After, Abstract;
    if run != [] {
      var before, e := run[..|run| - 1], run[|run| - 1];
      assert run == before + [e];
      RunsRefineFifo(before);
      StepRefinesFifo(before, e);
      NextPreservesInv(Abstract(before), Abstract(run));
    } else {
      EmptyFifo();
    }
  }

  lemma EmptyFifo()
    ensures RequestFifo.Inv(Abstract([]))
  {
  }

  /**
   * Messages are replied to once each, in arrival order; the active one is the oldest without a reply;
   * and while no reply is posted the active message does not change.
   */
  lemma RepliedOnceInArrivalOrder(run: seq<Event>, e: Event)
    ensures Served(run) <= Received(run)
    ensures Active(After(run)) ==
            if |Served(run)| < |Received(run)| then Some(Received(run)[|Served(run)|]) else None
    ensures Served(run) <= Served(run + [e])
    ensures Served(run + [e]) == Served(run) && Active(After(run)).Some? ==>
              Active(After(run + [e])) == Active(After(run))
  {
    hide Step, After, Received, Served;
    RunsRefineFifo(run);
    InvMeansInOrder(Abstract(run));
    StepRefinesFifo(run, e);
    NextPreservesInv(Abstract(run), Abstract(run + [e]));
  }

  // ---------------------------------------------------------------- approvals and sessions

  /** A macrostep that starts the procedure service; in EXECUTE_PROCEDURE only leaving it can start it anew. */
  ghost predicate Starts(s: State, e: Event) {
    && !s.halted && !Step(s, e).halted && Step(s, e).handler == EXECUTE_PROCEDURE
    && (s.handler == EXECUTE_PROCEDURE ==> e.Reset? || e.ProcedureDone?)
  }

  lemma StepOnExecution(s: State, e: Event)
    requires Good(s)
    ensures Starts(s, e) ==>
              && Step(s, e).invoked == Some(Invocation(Step(s, e).ctx.rpcMessage, Step(s, e).ctx.authSession, e))
              && (IsAutoApprovable(Step(s, e).ctx) ||
                  (s.handler == AWAIT_PROCEDURE_APPROVAL && IsApproval(e) && Posted(s, e) == [] &&
                   Step(s, e).ctx.rpcMessage == s.ctx.rpcMessage))
    ensures Step(s, e).handler == EXECUTE_PROCEDURE && !Starts(s, e) ==>
              && s.handler == EXECUTE_PROCEDURE && Posted(s, e) == []
              && Step(s, e).invoked == s.invoked && Step(s, e).ctx.rpcMessage == s.ctx.rpcMessage
  {
    if e.RpcMessage? {
      hide HandlerStep, AuthStep;
    } else if !s.halted && !Step(s, e).halted {
      hide AuthStep;
      AuthStepFrame(s, e);
    } else {
      hide HandlerStep, AuthStep, ReceiverStep;
    }
  }

  /** Event j of the run approved the active message, which has been executing ever since. */
  ghost predicate ApprovedAt(run: seq<Event>, j: int) {
    && 0 <= j < |run| && IsApproval(run[j])
    && After(run[..j]).handler == AWAIT_PROCEDURE_APPROVAL
    && After(run[..j]).ctx.rpcMessage == After(run).ctx.rpcMessage
    && Served(run[..j]) == Served(run)
    && forall k :: j < k <= |run| ==> After(run[..k]).handler == EXECUTE_PROCEDURE
  }

  /**
   * Whenever a message other than a delegation renewal is executing, the user approved it while it was
   * waiting for approval, and the service runs on that approval: no earlier approval is ever reused,
   * through errors, retries, resets and session expiries.
   */
  lemma {:induction false} ExecutionWasApproved(run: seq<Event>) returns (j: nat)
    requires After(run).handler == EXECUTE_PROCEDURE && !IsAutoApprovable(After(run).ctx)
    ensures ApprovedAt(run, j)
    ensures After(run).invoked.Some? && After(run).invoked.value.trigger == run[j]
    ensures After(run).invoked.value.input == After(run).ctx.rpcMessage
  {
    hide Step, Posted, After, Served, Replies, Received, Starts;
    Empty();
    Prefixes(run);
    var before, e := run[..|run| - 1], run[|run| - 1];
    Snoc(before, e);
    ServedSnoc(before, e);
    RunsStayGood(before);
    RunsStayGood(run);
    StepOnExecution(After(before), e);
    if Starts(After(before), e) {
      j := |run| - 1;
    } else {
      j := ExecutionWasApproved(before);
    }
  }

  /** The session delivered by the latest authentication service that completed. */
  function LastSession(run: seq<Event>): Option<string> {
    if run == [] then None else
    var before, e := run[..|run| - 1], run[|run| - 1];
    if !After(before).halted && After(before).auth == CheckAuthentication && e.AuthStateDone? then e.session
    else if !After(before).halted && After(before).auth == Authenticate && e.LoginDone? then e.session
    else LastSession(before)
  }

  lemma StepOnSession(s: State, e: Event)
    requires Good(s)
    ensures !s.halted && s.auth == CheckAuthentication && e.AuthStateDone? ==> Step(s, e).ctx.authSession == e.session
    ensures !s.halted && s.auth == Authenticate && e.LoginDone? ==> Step(s, e).ctx.authSession == e.session
    ensures s.halted || (!(s.auth == CheckAuthentication && e.AuthStateDone?)
                         && !(s.auth == Authenticate && e.LoginDone?)) ==>
              Step(s, e).ctx.authSession == s.ctx.authSession
  {
    if !e.RpcMessage? {
      hide HandlerStep;
      AuthStepFrame(s, e);
      HandlerStepFrame(AuthStep(s, e), e);
    }
  }

  lemma {:induction false} SessionIsLastSession(run: seq<Event>)
    ensures After(run).ctx.authSession == LastSession(run)
  {
    hide Step;
    if run != [] {
      var before := run[..|run| - 1];
      SessionIsLastSession(before);
      RunsStayGood(before);
      StepOnSession(After(before), run[|run| - 1]);
    }
  }

  /** Every completed authentication of the run delivered a session. */
  ghost predicate SessionsDelivered(run: seq<Event>) {
    forall i :: 0 <= i < |run| && (run[i].AuthStateDone? || run[i].LoginDone?) ==> run[i].session.Some?
  }

  lemma StepIntoHandling(s: State, e: Event)
    requires Good(s)
    requires Step(s, e).handler != READY && !IsAutoApprovable(Step(s, e).ctx)
    ensures Step(s, e).ctx.authSession.Some? ||
            (s.handler != READY && s.ctx.rpcMessage == Step(s, e).ctx.rpcMessage)
  {
    if e.RpcMessage? {
      hide HandlerStep, AuthStep;
    } else if !s.halted && !Step(s, e).halted {
      hide AuthStep;
      AuthStepFrame(s, e);
    } else {
      hide HandlerStep, AuthStep, ReceiverStep;
    }
  }

  /**
   * Outside READY, a message other than a delegation renewal lacks a session exactly when the latest
   * completed authentication delivered none; so never, when every authentication delivers one.
   */
  lemma {:induction false} HandledWithSession(run: seq<Event>)
    requires After(run).handler != READY && !IsAutoApprovable(After(run).ctx)
    ensures After(run).ctx.authSession.None? <==> LastSession(run) == None
    ensures SessionsDelivered(run) ==> After(run).ctx.authSession.Some?
  {
    hide Step, After, LastSession;
    Empty();
    SessionIsLastSession(run);
    Prefixes(run);
    var before, e := run[..|run| - 1], run[|run| - 1];
    Snoc(before, e);
    RunsStayGood(before);
    StepIntoHandling(After(before), e);
    StepOnSession(After(before), e);
    if SessionsDelivered(run) && After(run).ctx.authSession.None? {
      assert SessionsDelivered(before);
      HandledWithSession(before);
    }
  }

  /** A login that delivers no session leaves a waiting message without one. */
  lemma SessionCanBeLost(m: Message, sender: Origin, session: string) returns (run: seq<Event>)
    requires m.params != [] && m.procedure != RENEW && sender.Target?
    ensures After(run).handler == AWAIT_PROCEDURE_APPROVAL && After(run).ctx.authSession == None
  {
    hide After;
    Empty();
    run := Then([], AppMetaDone(true));
    run := Then(run, AuthStateDone(Some(session)));
    assert After(run) == State(false, Authenticated, READY, Context(Some(session), None, [], None, None), None);
    run := Then(run, RpcMessage(m, sender));
    var waiting := Context(Some(session), Some(m.(origin := sender)), [], Some(m.params[0]), None);
    assert After(run) == State(false, Authenticated, AWAIT_PROCEDURE_APPROVAL, waiting, None);
    run := Then(run, SessionExpired);
    assert After(run) == State(false, Authenticate, AWAIT_PROCEDURE_APPROVAL, waiting, None);
    run := Then(run, LoginDone(None));
  }

  lemma Then(run: seq<Event>, e: Event) returns (longer: seq<Event>)
    ensures longer == run + [e] && After(longer) == Step(After(run), e)
  {
    longer := run + [e];
    Snoc(run, e);
  }

  // ---------------------------------------------------------------- ways into each state

  /** What stops the running machine: an action that throws, or a service error nobody handles. */
  predicate Stops(s: State, e: Event) {
    || (e.RpcMessage? && s.ctx.rpcMessage.None? && e.message.params == [])
    || (s.auth == CheckAppMeta && (e == AppMetaFailed || e == AppMetaDone(false)))
    || (s.auth == Authenticate && e == LoginFailed)
    || (s.auth == Authenticated && e == SessionExpired && !(s.ctx.rpcMessage.Some? && s.ctx.rpcMessage.value.origin.Target?))
    || (((s.handler == AWAIT_PROCEDURE_APPROVAL && e == Cancel) || (s.handler == ERROR && e == CancelError))
        && !(s.ctx.rpcMessage.Some? && s.ctx.rpcMessage.value.origin.Target? && s.ctx.rpcMessage.value.id != ""))
    || (s.handler == EXECUTE_PROCEDURE && e == ProcedureDone && s.ctx.rpcMessage.Some?
        && s.ctx.rpcMessage.value.origin.Rejected?)
  }

  /** The events that lead into a state of the AUTH region from another one. */
  predicate LeadsToAuth(s: State, e: Event, target: Auth) {
    match target
    case CheckAppMeta => e == Reset
    case CheckAuthentication => s.auth == CheckAppMeta && e == AppMetaDone(true)
    case Authenticate =>
      (s.auth == CheckAuthentication && e == AuthStateFailed) || (s.auth == Authenticated && e == SessionExpired)
    case Authenticated =>
      (s.auth == CheckAuthentication && e.AuthStateDone?) || (s.auth == Authenticate && e.LoginDone?)
  }

  /** The events after which the handler is at READY, free to go on with whatever message is active then. */
  predicate FreesHandler(s: State, e: Event) {
    || s.handler == READY
    || e == Reset
    || (s.handler == AWAIT_PROCEDURE_APPROVAL && e == Cancel)
    || (s.handler == EXECUTE_PROCEDURE && e == ProcedureDone)
    || (s.handler == ERROR && e == CancelError)
  }

  /** Where the handler goes: with the message and the session there are then when it is free, and as told else. */
  predicate HandlerGoesTo(s: State, e: Event, active: Option<Message>, session: Option<string>, target: Handler) {
    var renews := active.Some? && active.value.procedure == "ic_renewDelegation";
    match target
    case READY => FreesHandler(s, e) && !renews && (active.None? || session.None?)
    case AWAIT_PROCEDURE_APPROVAL =>
      || (FreesHandler(s, e) && !renews && active.Some? && session.Some?)
      || (s.handler == ERROR && e == Retry)
      || (s.handler == AWAIT_PROCEDURE_APPROVAL && !FreesHandler(s, e)
          && e !in {Approve, ApproveDelegation, ApproveTransfer})
    case EXECUTE_PROCEDURE =>
      || (FreesHandler(s, e) && renews)
      || (s.handler == AWAIT_PROCEDURE_APPROVAL && e in {Approve, ApproveDelegation, ApproveTransfer})
      || (s.handler == EXECUTE_PROCEDURE && !FreesHandler(s, e) && !e.ProcedureFailed?)
    case ERROR =>
      || (s.handler == EXECUTE_PROCEDURE && e.ProcedureFailed?)
      || (s.handler == ERROR && !FreesHandler(s, e) && e != Retry)
  }

  lemma StepStops(s: State, e: Event)
    requires Good(s) && !s.halted
    ensures Step(s, e).halted <==> Stops(s, e)
  {
    if e.RpcMessage? {
      hide AuthStep, HandlerStep;
    } else {
      hide ReceiverStep;
    }
  }

  lemma StepLeadsToAuth(s: State, e: Event, target: Auth)
    requires Good(s) && !s.halted && !Step(s, e).halted
    ensures Step(s, e).auth == target && s.auth != target ==> LeadsToAuth(s, e, target)
    ensures LeadsToAuth(s, e, target) ==> Step(s, e).auth == target
  {
    if e.RpcMessage? {
      hide AuthStep, HandlerStep;
    } else {
      hide ReceiverStep;
    }
  }

  lemma SettleTo(t: State, e: Event)
    ensures Settle(t, e).handler ==
            if t.handler != READY then t.handler
            else if t.ctx.rpcMessage.Some? && t.ctx.rpcMessage.value.procedure == "ic_renewDelegation" then EXECUTE_PROCEDURE
            else if t.ctx.rpcMessage.Some? && t.ctx.authSession.Some? then AWAIT_PROCEDURE_APPROVAL
            else READY
    ensures Settle(t, e).ctx == t.ctx
  {
  }

  /** Where the handler is before eventless transitions. */
  function BeforeSettling(s: State, e: Event): Handler {
    if FreesHandler(s, e) then READY
    else if s.handler == AWAIT_PROCEDURE_APPROVAL && e in {Approve, ApproveDelegation, ApproveTransfer} then EXECUTE_PROCEDURE
    else if s.handler == EXECUTE_PROCEDURE && e.ProcedureFailed? then ERROR
    else if s.handler == ERROR && e == Retry then AWAIT_PROCEDURE_APPROVAL
    else s.handler
  }

  lemma HandlerStepTo(s: State, e: Event)
    requires !e.RpcMessage?
    ensures !HandlerStep(s, e).halted ==> HandlerStep(s, e).handler == BeforeSettling(s, e)
    ensures s.handler == EXECUTE_PROCEDURE && e.ProcedureFailed? ==> HandlerStep(s, e).ctx.error == Some(e.reason)
  {
    hide UpdateProcedure;
  }

  lemma StepHandlerGoesTo(s: State, e: Event, target: Handler)
    requires Good(s) && !s.halted && !Step(s, e).halted
    ensures Step(s, e).handler == target <==>
            HandlerGoesTo(s, e, Step(s, e).ctx.rpcMessage, Step(s, e).ctx.authSession, target)
    ensures s.handler == EXECUTE_PROCEDURE && e.ProcedureFailed? ==> Step(s, e).ctx.error == Some(e.reason)
  {
    hide Settle, HandlerStep, AuthStep, Good;
    SettleTo(RegionSteps(s, e), e);
    if !e.RpcMessage? {
      AuthStepFrame(s, e);
      HandlerStepTo(AuthStep(s, e), e);
    }
  }

  /** Exactly which events stop the machine, and where its two regions go by those that do not. */
  lemma EnteredExactly(run: seq<Event>, e: Event, auth: Auth, handler: Handler)
    requires !After(run).halted
    ensures After(run + [e]).halted <==> Stops(After(run), e)
    ensures !Stops(After(run), e) ==>
              var s, t := After(run), After(run + [e]);
              && (t.auth == auth && s.auth != auth ==> LeadsToAuth(s, e, auth))
              && (LeadsToAuth(s, e, auth) ==> t.auth == auth)
              && (t.handler == handler <==> HandlerGoesTo(s, e, t.ctx.rpcMessage, t.ctx.authSession, handler))
              && (s.handler == EXECUTE_PROCEDURE && e.ProcedureFailed? ==> t.ctx.error == Some(e.reason))
  {
    hide After, Step, Good, Stops, LeadsToAuth, HandlerGoesTo;
    Snoc(run, e);
    RunsStayGood(run);
    StepStops(After(run), e);
    if !Stops(After(run), e) {
      StepLeadsToAuth(After(run), e, auth);
      StepHandlerGoesTo(After(run), e, handler);
    }
  }

  /**
   * Each of the three approvals executes the message that waits for one, with the session held; and no other event
   * starts a message other than a delegation renewal.
   */
  lemma ApprovalExecutes(run: seq<Event>, e: Event)
    requires !After(run).halted
    ensures After(run).handler == AWAIT_PROCEDURE_APPROVAL && e in {Approve, ApproveDelegation, ApproveTransfer} ==>
              && After(run + [e]).handler == EXECUTE_PROCEDURE && !After(run + [e]).halted
              && After(run + [e]).invoked == Some(Invocation(After(run).ctx.rpcMessage, After(run).ctx.authSession, e))
              && After(run + [e]).ctx == After(run).ctx
    ensures Starts(After(run), e) && !IsAutoApprovable(After(run + [e]).ctx) ==>
              After(run).handler == AWAIT_PROCEDURE_APPROVAL && e in {Approve, ApproveDelegation, ApproveTransfer}
  {
    hide After;
    Snoc(run, e);
    RunsStayGood(run);
    StepOnExecution(After(run), e);
    ApprovalStep(After(run), e);
    hide Step, Starts, Good;
  }

  lemma ApprovalStep(s: State, e: Event)
    requires Good(s) && !s.halted
    ensures s.handler == AWAIT_PROCEDURE_APPROVAL && e in {Approve, ApproveDelegation, ApproveTransfer} ==>
              Step(s, e) == State(false, s.auth, EXECUTE_PROCEDURE, s.ctx,
                                  Some(Invocation(s.ctx.rpcMessage, s.ctx.authSession, e)))
  {
  }

  // ---------------------------------------------------------------- what queueing loses

  /** How a message came in: whether the machine was idle, and the authentication parameters at that time. */
  datatype Arrival = Arrival(message: Message, sender: Origin, idle: bool, paramsBefore: Option<string>)

  function Arrivals(run: seq<Event>): seq<Arrival> {
    if run == [] then []
    else Arrivals(run[..|run| - 1]) + NewArrival(After(run[..|run| - 1]), run[|run| - 1])
  }

  function NewArrival(s: State, e: Event): seq<Arrival> {
    if Taken(s, e) == [] || !e.RpcMessage? then []
    else [Arrival(e.message, e.sender, s.ctx.rpcMessage.None?, s.ctx.authParams)]
  }

  /** What the machine holds of the arrivals it has not replied to. */
  ghost predicate Tracks(s: State, arrivals: seq<Arrival>, served: nat) {
    && |arrivals| == served + |s.ctx.messageQueue| + (if s.ctx.rpcMessage.Some? then 1 else 0)
    && (s.ctx.rpcMessage.Some? ==> Holds(s, arrivals[served]))
    && (s.ctx.rpcMessage.Some? ==>
          forall i :: served < i < |arrivals| ==> Waits(s, s.ctx.messageQueue[i - served - 1], arrivals[i]))
  }

  /** A queued message came in as arrival a, and the authentication parameters have not changed since. */
  ghost predicate Waits(s: State, m: Message, a: Arrival) {
    !a.idle && m == a.message && a.paramsBefore == s.ctx.authParams
  }

  /** The active message came in as arrival a. */
  ghost predicate Holds(s: State, a: Arrival)
    requires s.ctx.rpcMessage.Some?
  {
    && (a.idle ==>
          && a.message.params != []
          && s.ctx.rpcMessage.value == a.message.(origin := a.sender)
          && s.ctx.authParams == Some(a.message.params[0]))
    && (!a.idle ==> s.ctx.rpcMessage.value == a.message && s.ctx.authParams == a.paramsBefore)
  }

  lemma ArrivalTracks(s: State, e: Event, arrivals: seq<Arrival>, served: nat)
    requires Good(s) && Tracks(s, arrivals, served) && e.RpcMessage?
    ensures Posted(s, e) == []
    ensures Tracks(Step(s, e), arrivals + NewArrival(s, e), served)
  {
    hide HandlerStep, AuthStep;
    if s.halted || ReceiverStep(s, e.message, e.sender).halted {
      assert NewArrival(s, e) == [] && arrivals + NewArrival(s, e) == arrivals;
    } else {
      SettleFrameAny(ReceiverStep(s, e.message, e.sender), e);
      hide Settle;
      var a := Arrival(e.message, e.sender, s.ctx.rpcMessage.None?, s.ctx.authParams);
      assert NewArrival(s, e) == [a];
      assert (arrivals + [a])[|arrivals|] == a;
      if s.ctx.rpcMessage.Some? {
        assert Waits(Step(s, e), e.message, a);
        forall i | served < i < |arrivals| + 1
          ensures Waits(Step(s, e), Step(s, e).ctx.messageQueue[i - served - 1], (arrivals + [a])[i])
        {
          assert i < |arrivals| ==> Waits(s, s.ctx.messageQueue[i - served - 1], arrivals[i]);
        }
      }
    }
  }

  lemma SettleFrameAny(s: State, e: Event)
    ensures Settle(s, e).ctx == s.ctx && Settle(s, e).halted == s.halted
  {
  }

  lemma StepTracks(s: State, e: Event, arrivals: seq<Arrival>, served: nat)
    requires Good(s) && Tracks(s, arrivals, served)
    ensures Tracks(Step(s, e), arrivals + NewArrival(s, e), served + |Posted(s, e)|)
  {
    if e.RpcMessage? {
      ArrivalTracks(s, e, arrivals, served);
      hide Step, Posted, NewArrival, Tracks;
    } else if !s.halted && !Step(s, e).halted {
      PostedMeansFinishes(s, e);
      NothingTaken(s, e);
      HandlingTracks(s, e, arrivals, served);
      hide Step, Posted, NewArrival, Tracks;
      assert arrivals + NewArrival(s, e) == arrivals;
    } else {
      hide RegionSteps, Settle;
      assert arrivals + NewArrival(s, e) == arrivals;
    }
  }

  lemma HandlingTracks(s: State, e: Event, arrivals: seq<Arrival>, served: nat)
    requires Good(s) && Tracks(s, arrivals, served)
    requires !e.RpcMessage? && !s.halted && !Step(s, e).halted
    ensures Tracks(Step(s, e), arrivals, served + if Finishes(s.handler, e) then 1 else 0)
  {
    StepIsRegionSteps(s, e);
    hide Step, Good, Finishes;
    if Finishes(s.handler, e) && s.ctx.messageQueue != [] {
      assert Waits(s, s.ctx.messageQueue[0], arrivals[served + 1]);
    }
  }

  lemma NothingTaken(s: State, e: Event)
    requires !e.RpcMessage?
    ensures NewArrival(s, e) == []
  {
  }

  lemma PostedMeansFinishes(s: State, e: Event)
    requires Good(s) && !s.halted && !Step(s, e).halted
    ensures |Posted(s, e)| == if Finishes(s.handler, e) then 1 else 0
    ensures Posted(s, e) != [] ==> Posted(s, e)[0].about == s.ctx.rpcMessage
  {
    hide RegionSteps, Settle;
  }

  lemma {:induction false} RunTracks(run: seq<Event>)
    ensures Tracks(After(run), Arrivals(run), |Served(run)|)
  {
    hide Step, Tracks, Posted, Taken;
    if run != [] {
      Prefixes(run);
      var before, e := run[..|run| - 1], run[|run| - 1];
      RunTracks(before);
      RunsStayGood(before);
      Snoc(before, e);
      ServedSnoc(before, e);
      StepTracks(After(before), e, Arrivals(before), |Served(before)|);
      OneReply(After(before), e);
    } else {
      EmptyTracks();
    }
  }

  lemma EmptyTracks()
    ensures Tracks(After([]), Arrivals([]), |Served([])|)
  {
  }

  lemma OneReply(s: State, e: Event)
    requires Good(s)
    ensures Posted(s, e) == [] || exists reply: Reply :: Posted(s, e) == [reply] && |NoOrigins(ToSeq(reply.about))| == 1
  {
    StepOnQueue(s, e);
    hide Step;
    if Posted(s, e) != [] {
      assert Posted(s, e) == [Posted(s, e)[0]];
      assert |NoOrigins(ToSeq(Posted(s, e)[0].about))| == 1;
    }
  }

  /**
   * The active message is the oldest unanswered arrival. Taken by an idle machine it carries its
   * sender's origin and the authentication request has its parameters. Taken from the queue it carries
   * only the origin it was sent with, and the authentication request still has the parameters of the
   * last message that found the machine idle.
   */
  lemma ActiveMessageProvenance(run: seq<Event>)
    requires After(run).ctx.rpcMessage.Some?
    ensures |Served(run)| < |Arrivals(run)|
    ensures Holds(After(run), Arrivals(run)[|Served(run)|])
  {
    hide After, Served, Arrivals, Holds;
    RunTracks(run);
  }

  /** The origin a reply to this arrival is addressed to. */
  function ReplyOrigin(a: Arrival): Origin {
    if a.idle then a.sender else a.message.origin
  }

  lemma HeldAsArrived(s: State, a: Arrival)
    requires s.ctx.rpcMessage.Some? && Holds(s, a)
    ensures s.ctx.rpcMessage.value == a.message.(origin := ReplyOrigin(a))
  {
  }

  lemma CancelOutcome(s: State, e: Event)
    requires Good(s) && !s.halted
    requires (s.handler == AWAIT_PROCEDURE_APPROVAL && e == Cancel) || (s.handler == ERROR && e == CancelError)
    ensures s.ctx.rpcMessage.Some?
    ensures Step(s, e).halted <==> !s.ctx.rpcMessage.value.origin.Target? || s.ctx.rpcMessage.value.id == ""
    ensures !Step(s, e).halted ==> Posted(s, e) == [Cancellation(s.ctx.rpcMessage)]
    ensures Step(s, e).halted ==> Posted(s, e) == []
  {
    hide Settle;
    if !RegionSteps(s, e).halted {
      SettleFrame(RegionSteps(s, e), e);
    }
  }

  /**
   * Cancelling the active message replies to it, unless its id is missing or the origin to reply to is no target:
   * then the machine stops, and neither this message nor any later one gets a reply.
   */
  lemma CancelStopsTheMachineIff(run: seq<Event>, e: Event, rest: seq<Event>)
    requires !After(run).halted
    requires (After(run).handler == AWAIT_PROCEDURE_APPROVAL && e == Cancel) ||
             (After(run).handler == ERROR && e == CancelError)
    ensures |Served(run)| < |Arrivals(run)|
    ensures var a := Arrivals(run)[|Served(run)|];
            After(run + [e]).halted <==> !ReplyOrigin(a).Target? || a.message.id == ""
    ensures After(run + [e]).halted ==> Served(run + [e] + rest) == Served(run)
    ensures !After(run + [e]).halted ==> Served(run + [e]) == Served(run) + NoOrigins(ToSeq(After(run).ctx.rpcMessage))
  {
    hide *;
    RunsStayGood(run);
    Snoc(run, e);
    ServedSnoc(run, e);
    CancelOutcome(After(run), e);
    ActiveMessageProvenance(run);
    HeldAsArrived(After(run), Arrivals(run)[|Served(run)|]);
    if After(run + [e]).halted {
      StoppedForGood(run + [e], rest);
    }
  }

  lemma {:induction false} StoppedForGood(run: seq<Event>, rest: seq<Event>)
    requires After(run).halted
    ensures After(run + rest) == After(run) && Served(run + rest) == Served(run)
    decreases |rest|
  {
    hide Served, Received, Replies, After;
    if rest == [] {
      assert run + rest == run;
    } else {
      var e := rest[0];
      Snoc(run, e);
      ServedSnoc(run, e);
      assert run + rest == run + [e] + rest[1..];
      StoppedForGood(run + [e], rest[1..]);
    }
  }

  /** A message arrives while the machine waits for approval of another one. */
  lemma OneWaitsBehindAnother(m1: Message, m2: Message, sender: Origin, session: string) returns (run: seq<Event>)
    requires m1.params != [] && m1.procedure != RENEW
    ensures After(run) == State(false, Authenticated, AWAIT_PROCEDURE_APPROVAL,
                                Context(Some(session), Some(m1.(origin := sender)), [m2], Some(m1.params[0]), None), None)
  {
    hide After;
    Empty();
    run := Then([], AppMetaDone(true));
    run := Then(run, AuthStateDone(Some(session)));
    assert After(run) == State(false, Authenticated, READY, Context(Some(session), None, [], None, None), None);
    run := Then(run, RpcMessage(m1, sender));
    run := Then(run, RpcMessage(m2, sender));
  }

  /**
   * Two messages of one page, the second sent while the first is handled: when the second becomes
   * active the authentication request still describes the first, and cancelling it stops the machine,
   * unless the second carried an origin of its own that can be posted to.
   */
  lemma QueuedMessageCannotBeCancelled(m1: Message, m2: Message, sender: Origin, session: string)
    returns (run: seq<Event>)
    requires m1.params != [] && m1.procedure != RENEW && m2.procedure != RENEW
    requires !sender.Rejected? && !m2.origin.Target?
    ensures After(run).ctx.rpcMessage == Some(m2) && After(run).ctx.authParams == Some(m1.params[0])
    ensures After(run).handler == AWAIT_PROCEDURE_APPROVAL && !After(run).halted
    ensures After(run + [Cancel]).halted
  {
    hide After, Step;
    run := OneWaitsBehindAnother(m1, m2, sender, session);
    ApproveAndFinish(m1.(origin := sender), m2, session, m1.params[0]);
    run := Then(run, Approve);
    run := Then(run, ProcedureDone);
    CancelWithoutTarget(After(run));
    Snoc(run, Cancel);
  }

  lemma ApproveAndFinish(m1: Message, m2: Message, session: string, params: string)
    requires !m1.origin.Rejected? && m2.procedure != RENEW
    ensures var waiting := State(false, Authenticated, AWAIT_PROCEDURE_APPROVAL,
                                 Context(Some(session), Some(m1), [m2], Some(params), None), None);
            Step(Step(waiting, Approve), ProcedureDone) ==
            State(false, Authenticated, AWAIT_PROCEDURE_APPROVAL,
                  Context(Some(session), Some(m2), [], Some(params), None), None)
  {
  }

  lemma CancelWithoutTarget(s: State)
    requires !s.halted && s.handler == AWAIT_PROCEDURE_APPROVAL
    requires s.ctx.rpcMessage.Some? && !s.ctx.rpcMessage.value.origin.Target?
    ensures Step(s, Cancel).halted
  {
  }

  /** The end of the session stops the machine exactly when no active message arrived with an origin to post to. */
  lemma SessionExpiryStopsTheMachineIff(run: seq<Event>)
    requires !After(run).halted && After(run).auth == Authenticated
    ensures |Served(run)| <= |Arrivals(run)|
    ensures After(run + [SessionExpired]).halted <==>
              |Served(run)| == |Arrivals(run)| || !ReplyOrigin(Arrivals(run)[|Served(run)|]).Target?
    ensures !After(run + [SessionExpired]).halted ==>
              After(run + [SessionExpired]) == After(run).(auth := Authenticate)
  {
    hide After, Served, Arrivals;
    Snoc(run, SessionExpired);
    RunsStayGood(run);
    RunTracks(run);
  }

  /**
   * A message posted to the embedding page with this target origin is delivered to it: the target is the page's own
   * origin, both in normal form, or "*", which stands for every origin.
   */
  predicate Delivers(target: Origin, page: Origin) {
    target.Target? && (target.text == "*" || target == page)
  }

  /** A reply that the embedding page, if it is the sender of the message, receives. */
  predicate Reaches(r: Reply, a: Arrival) {
    r.about.Some? && Delivers(r.about.value.origin, a.sender)
  }

  /** The replies of a run are to its arrivals, one each in order, and addressed as the arrivals tell. */
  ghost predicate Addressed(replies: seq<Reply>, arrivals: seq<Arrival>) {
    && |replies| <= |arrivals|
    && forall k :: 0 <= k < |replies| ==> AddressedAs(replies[k], arrivals[k])
  }

  predicate AddressedAs(r: Reply, a: Arrival) {
    && r.about == Some(a.message.(origin := ReplyOrigin(a)))
    && !ReplyOrigin(a).Rejected?
    && (r.Cancellation? ==> ReplyOrigin(a).Target?)
  }

  lemma StepIsAddressed(s: State, e: Event)
    requires Good(s)
    ensures Posted(s, e) != [] ==>
              && s.ctx.rpcMessage.Some? && |Posted(s, e)| == 1 && Posted(s, e)[0].about == s.ctx.rpcMessage
              && !s.ctx.rpcMessage.value.origin.Rejected?
              && (Posted(s, e)[0].Cancellation? ==> s.ctx.rpcMessage.value.origin.Target?)
  {
    hide Settle;
    if !s.halted && !e.RpcMessage? {
      AuthStepFrame(s, e);
    }
  }

  lemma {:induction false} OneServedPerReply(run: seq<Event>)
    ensures |Served(run)| == |Replies(run)|
  {
    hide Step, Posted, Taken, After;
    if run != [] {
      Prefixes(run);
      var before, e := run[..|run| - 1], run[|run| - 1];
      OneServedPerReply(before);
      RunsStayGood(before);
      Snoc(before, e);
      ServedSnoc(before, e);
      OneReply(After(before), e);
    }
  }

  lemma {:induction false} RepliesAreAddressed(run: seq<Event>)
    ensures Addressed(Replies(run), Arrivals(run))
  {
    hide Step, Posted, Taken, After, Good, Tracks, NewArrival;
    if run != [] {
      Prefixes(run);
      var before, e := run[..|run| - 1], run[|run| - 1];
      RepliesAreAddressed(before);
      RunsStayGood(before);
      OneServedPerReply(before);
      StepIsAddressed(After(before), e);
      if Posted(After(before), e) != [] {
        ActiveMessageProvenance(before);
      }
    }
  }

  /**
   * Replies are posted to the embedding page. When that page sent the message, the reply reaches it exactly when
   * the message found the machine idle and the browser posts to the page's origin, or, having waited, the message
   * carried that origin, or "*", in its own data.
   */
  lemma ReplyReachesSenderIff(run: seq<Event>, k: nat)
    requires k < |Replies(run)|
    ensures k < |Arrivals(run)|
    ensures var a := Arrivals(run)[k];
            Reaches(Replies(run)[k], a) <==>
            if a.idle then a.sender.Target?
            else a.message.origin.Target? && (a.message.origin.text == "*" || a.message.origin == a.sender)
  {
    hide Replies, Arrivals;
    RepliesAreAddressed(run);
    assert AddressedAs(Replies(run)[k], Arrivals(run)[k]);
  }

  // ---------------------------------------------------------------- progress

  /** The procedure service runs with a session: without one it only ever fails. */
  predicate CanSucceed(s: State) {
    s.handler == EXECUTE_PROCEDURE && s.invoked.Some? && s.invoked.value.session.Some?
  }

  function AuthRank(auth: Auth): nat {
    match auth
    case Authenticate => 1
    case CheckAuthentication => 1
    case CheckAppMeta => 2
    case Authenticated => 3
  }

  /** How far the reply is: first a session is needed, then an execution that uses it. */
  function Rank(s: State): nat {
    if CanSucceed(s) then 1
    else if s.ctx.authSession.None? then 4 + AuthRank(s.auth)
    else match s.handler
      case AWAIT_PROCEDURE_APPROVAL => 2
      case ERROR => 3
      case _ => 4
  }

  function TowardSession(auth: Auth): Event {
    match auth
    case Authenticate => LoginDone(Some(""))
    case CheckAuthentication => AuthStateDone(Some(""))
    case CheckAppMeta => AppMetaDone(true)
    case Authenticated => Reset
  }

  function Toward(s: State): Event {
    if CanSucceed(s) then ProcedureDone
    else if s.ctx.authSession.None? then TowardSession(s.auth)
    else match s.handler
      case AWAIT_PROCEDURE_APPROVAL => Approve
      case ERROR => Retry
      case _ => ProcedureFailed("")
  }

  predicate Answerable(s: State) {
    !s.halted && s.ctx.rpcMessage.Some? && !s.ctx.rpcMessage.value.origin.Rejected?
  }

  lemma ToSession(s: State)
    requires Good(s) && Answerable(s) && !CanSucceed(s) && s.ctx.authSession.None?
    ensures var e := TowardSession(s.auth);
            !Step(s, e).halted && Posted(s, e) == [] && Step(s, e).ctx.rpcMessage == s.ctx.rpcMessage
            && Rank(Step(s, e)) < Rank(s)
  {
  }

  lemma ToExecution(s: State)
    requires Good(s) && Answerable(s) && !CanSucceed(s) && s.ctx.authSession.Some?
    ensures var e := Toward(s);
            !Step(s, e).halted && Posted(s, e) == [] && Step(s, e).ctx.rpcMessage == s.ctx.rpcMessage
            && Rank(Step(s, e)) < Rank(s)
  {
  }

  lemma StepToward(s: State)
    requires Good(s) && Answerable(s)
    ensures Taken(s, Toward(s)) == []
    ensures CanSucceed(s) ==> Posted(s, Toward(s)) == [Response(s.ctx.rpcMessage)]
    ensures !CanSucceed(s) ==>
              && !Step(s, Toward(s)).halted
              && Posted(s, Toward(s)) == []
              && Step(s, Toward(s)).ctx.rpcMessage == s.ctx.rpcMessage
              && Rank(Step(s, Toward(s))) < Rank(s)
  {
    if !CanSucceed(s) {
      hide Step, Posted, Rank;
      if s.ctx.authSession.None? {
        ToSession(s);
      } else {
        ToExecution(s);
      }
    }
  }

  lemma TowardWithSession(s: State)
    ensures Toward(s).ProcedureDone? <==> CanSucceed(s)
  {
  }

  /** One event towards the reply: either it is the reply, or the machine is closer to giving it. */
  lemma OneEventToward(run: seq<Event>, s: State, next: seq<Event>)
    requires s == After(run) && Answerable(s)
    requires next == run + [Toward(s)]
    ensures Received(next) == Received(run)
    ensures CanSucceed(s) ==>
              Served(next) == Served(run) + [NoOrigin(s.ctx.rpcMessage.value)]
    ensures !CanSucceed(s) ==>
              && Served(next) == Served(run)
              && !After(next).halted
              && After(next).ctx.rpcMessage == s.ctx.rpcMessage
              && Rank(After(next)) < Rank(s)
  {
    hide Step, Posted, After, Good, Replies, Served, Received, Rank, Taken, Toward, CanSucceed, NoOrigin;
    RunsStayGood(run);
    StepToward(s);
    Snoc(run, Toward(s));
    ServedSnoc(run, Toward(s));
    assert NoOrigins(ToSeq(s.ctx.rpcMessage)) == [NoOrigin(s.ctx.rpcMessage.value)];
  }

  /**
   * From every reachable running state some events get the active message its reply, unless its origin is rejected;
   * the procedure service succeeds among them only when it runs with a session.
   */
  lemma {:induction false} ActiveMessageCanBeAnswered(run: seq<Event>, s: State) returns (rest: seq<Event>)
    requires s == After(run) && !s.halted && s.ctx.rpcMessage.Some? && !s.ctx.rpcMessage.value.origin.Rejected?
    ensures Received(run + rest) == Received(run)
    ensures Served(run + rest) == Served(run) + [NoOrigin(s.ctx.rpcMessage.value)]
    ensures SucceedsWithSession(run, rest)
    decreases Rank(s)
  {
    hide After, Received, Served, NoOrigin, Rank, Toward, CanSucceed, SucceedsWithSession;
    var next := run + [Toward(s)];
    OneEventToward(run, s, next);
    TowardWithSession(s);
    if CanSucceed(s) {
      rest := [Toward(s)];
      LastSucceeds(run, rest);
    } else {
      var more := ActiveMessageCanBeAnswered(next, After(next));
      rest := [Toward(s)] + more;
      assert run + rest == next + more;
      OneMoreSucceeds(run, Toward(s), more);
    }
  }

  /** Among the events that follow a run, the procedure service succeeds only when it was started with a session. */
  ghost predicate SucceedsWithSession(run: seq<Event>, rest: seq<Event>) {
    forall i :: 0 <= i < |rest| && rest[i].ProcedureDone? ==> CanSucceed(After(run + rest[..i]))
  }

  lemma LastSucceeds(run: seq<Event>, rest: seq<Event>)
    requires |rest| == 1 && CanSucceed(After(run))
    ensures SucceedsWithSession(run, rest)
  {
    hide After;
    assert run + rest[..0] == run;
  }

  lemma OneMoreSucceeds(run: seq<Event>, e: Event, more: seq<Event>)
    requires SucceedsWithSession(run + [e], more) && (e.ProcedureDone? ==> CanSucceed(After(run)))
    ensures SucceedsWithSession(run, [e] + more)
  {
    hide After, CanSucceed;
    var rest := [e] + more;
    forall i | 0 <= i < |rest| && rest[i].ProcedureDone? ensures CanSucceed(After(run + rest[..i])) {
      if i == 0 {
        assert run + rest[..0] == run;
      } else {
        assert rest[..i] == [e] + more[..i - 1];
        assert run + rest[..i] == run + [e] + more[..i - 1];
        assert more[i - 1].ProcedureDone?;
      }
    }
  }

  lemma StepOnRejected(s: State, e: Event)
    requires Good(s) && s.ctx.rpcMessage.Some? && s.ctx.rpcMessage.value.origin.Rejected?
    ensures Posted(s, e) == [] && Step(s, e).ctx.rpcMessage == s.ctx.rpcMessage
  {
    if e.RpcMessage? {
      hide HandlerStep, AuthStep;
    } else {
      hide Settle;
      AuthStepFrame(s, e);
      HandlerStepFrame(AuthStep(s, e), e);
      if !RegionSteps(s, e).halted {
        SettleFrame(RegionSteps(s, e), e);
      }
    }
  }

  /** A message whose origin is rejected blocks the machine: whatever happens, neither it nor any later one gets a reply. */
  lemma {:induction false} RejectedOriginBlocks(run: seq<Event>, rest: seq<Event>)
    requires After(run).ctx.rpcMessage.Some? && After(run).ctx.rpcMessage.value.origin.Rejected?
    ensures Served(run + rest) == Served(run) && After(run + rest).ctx.rpcMessage == After(run).ctx.rpcMessage
    decreases |rest|
  {
    hide Served, Received, Replies, After, Step, Posted;
    if rest == [] {
      assert run + rest == run;
    } else {
      var e := rest[0];
      RunsStayGood(run);
      StepOnRejected(After(run), e);
      Snoc(run, e);
      ServedSnoc(run, e);
      assert run + rest == run + [e] + rest[1..];
      RejectedOriginBlocks(run + [e], rest[1..]);
    }
  }
}
