/**
 * The identity-kit RPC machine: a receiver region that queues requests beside a Main
 * region that validates, authenticates, prompts, executes and answers one at a time
 * (features/identitykit/machine.ts).
 *
 * One event is one macrostep: the transition enabled in each region with its actions in
 * order, then eventless transitions until none is enabled. An invoked service is
 * represented by the input it was started with; its outcome arrives as Done or Failed.
 */
module IdentityKitMachine {
  import opened Common
  import opened RequestFifo

  datatype Request = Request(origin: string, id: string, rpcMethod: string)

  datatype Metadata = Metadata(isSilent: bool, requiresAuthentication: bool)

  /**
   * What a service resolved with: only validation yields an object with the metadata keys, and the NoActionError
   * asks that nothing be sent.
   */
  datatype Output = Validation(metadata: Metadata) | Plain(payload: string) | NoAction

  /** The data shown at the prompt, and the request it was computed for. */
  datatype ComponentData = ComponentData(request: Option<Request>, output: Output)

  datatype Context = Context(
    requestsQueue: seq<Request>,
    activeRequest: Option<Request>,
    activeRequestMetadata: Option<Output>,
    componentData: Option<ComponentData>,
    error: Option<string>)

  datatype Main =
    | Ready
    | ValidateRequest
    | CheckAuthentication
    | Authenticate
    | PrepareComponentData
    | PromptInteractiveRequest
    | CancelInteractiveRequest
    | ExecuteInteractiveRequest
    | InteractiveError
    | ExecuteSilentRequest
    | SendResponse

  datatype Event =
    | OnRequest(data: Request)
    | OnCancel
    | OnApprove
    | OnBack
    | TryAgain
    | Done(output: Output)
    | Failed(message: string)

  /** Input captured when a service is invoked: the active request and, for a response, its payload. */
  datatype Invocation = Invocation(request: Option<Request>, payload: Option<Output>)

  /** halted: an error nobody handles stops the actor in its last state. */
  datatype State = State(halted: bool, main: Main, ctx: Context, invoked: Option<Invocation>)

  // ---------------------------------------------------------------- guards and actions

  predicate IsSilentRequest(ctx: Context, output: Output) {
    if output.Validation? then output.metadata.isSilent
    else MetadataSaysSilent(ctx)
  }

  predicate MetadataSaysSilent(ctx: Context) {
    && ctx.activeRequestMetadata.Some?
    && ctx.activeRequestMetadata.value.Validation?
    && ctx.activeRequestMetadata.value.metadata.isSilent
  }

  predicate ShouldAuthenticate(output: Output) {
    output.Validation? && output.metadata.requiresAuthentication
  }

  function AssignRequest(ctx: Context, data: Request): Context {
    ctx.(requestsQueue := ctx.requestsQueue + [data])
  }

  function MoveQueue(ctx: Context): Context {
    ctx.(requestsQueue := if |ctx.requestsQueue| > 1 then ctx.requestsQueue[1..] else [],
         activeRequest := if |ctx.requestsQueue| > 0 then Some(ctx.requestsQueue[0]) else None,
         activeRequestMetadata := None)
  }

  function ResetActiveRequest(ctx: Context): Context {
    ctx.(activeRequest := None, activeRequestMetadata := None)
  }

  // ---------------------------------------------------------------- the chart

  predicate Invokes(main: Main) {
    main != Ready && main != PromptInteractiveRequest && main != InteractiveError
  }

  /** Entering a state starts its service with the context at that moment; SendResponse also reads the event. */
  function Enter(main: Main, ctx: Context, e: Event): State {
    State(false, main, ctx,
          if !Invokes(main) then None
          else Some(Invocation(ctx.activeRequest,
                               if main == SendResponse && e.Done? then Some(e.output) else None)))
  }

  function ReceiverStep(s: State, data: Request): State {
    if s.ctx.activeRequest.Some?
    then s.(ctx := AssignRequest(s.ctx, data))
    else s.(ctx := MoveQueue(AssignRequest(s.ctx, data)))
  }

  function MainStep(s: State, e: Event): State {
    var ctx := s.ctx;
    match (s.main, e)
    case (ValidateRequest, Done(out)) =>
      var next := ctx.(activeRequestMetadata := Some(out));
      if ShouldAuthenticate(out) then Enter(CheckAuthentication, next, e)
      else if IsSilentRequest(ctx, out) then Enter(ExecuteSilentRequest, next, e)
      else Enter(PrepareComponentData, next, e)
    case (ValidateRequest, Failed(_)) => Enter(SendResponse, ctx, e)
    case (CheckAuthentication, Done(out)) =>
      if IsSilentRequest(ctx, out) then Enter(ExecuteSilentRequest, ctx, e)
      else Enter(PrepareComponentData, ctx, e)
    case (CheckAuthentication, Failed(_)) => Enter(Authenticate, ctx, e)
    case (Authenticate, Done(_)) => Enter(CheckAuthentication, ctx, e)
    case (Authenticate, Failed(_)) => s.(halted := true)
    case (PrepareComponentData, Done(out)) =>
      var shown := if s.invoked.Some? then s.invoked.value.request else None;
      Enter(PromptInteractiveRequest, ctx.(componentData := Some(ComponentData(shown, out))), e)
    case (PrepareComponentData, Failed(msg)) => Enter(InteractiveError, ctx.(error := Some(msg)), e)
    case (PromptInteractiveRequest, OnCancel) => Enter(CancelInteractiveRequest, ctx, e)
    case (PromptInteractiveRequest, OnApprove) => Enter(ExecuteInteractiveRequest, ctx, e)
    case (PromptInteractiveRequest, OnBack) => Enter(CheckAuthentication, ctx, e)
    case (CancelInteractiveRequest, Done(_)) => Enter(SendResponse, ctx, e)
    case (CancelInteractiveRequest, Failed(msg)) => Enter(InteractiveError, ctx.(error := Some(msg)), e)
    case (ExecuteInteractiveRequest, Done(_)) => Enter(SendResponse, ctx, e)
    case (ExecuteInteractiveRequest, Failed(msg)) => Enter(InteractiveError, ctx.(error := Some(msg)), e)
    case (InteractiveError, TryAgain) => Enter(CheckAuthentication, ctx, e)
    case (InteractiveError, OnCancel) => Enter(CancelInteractiveRequest, ctx, e)
    case (ExecuteSilentRequest, Done(_)) => Enter(SendResponse, ctx, e)
    case (ExecuteSilentRequest, Failed(_)) => Enter(SendResponse, ctx, e)
    case (SendResponse, Done(_)) => Enter(Ready, MoveQueue(ResetActiveRequest(ctx)), e)
    case (SendResponse, Failed(_)) => Enter(Ready, MoveQueue(ResetActiveRequest(ctx)), e)
    case _ => s
  }

  /** The only eventless transition: Ready leaves as soon as there is an active request. */
  function Settle(s: State, e: Event): State {
    if s.main == Ready && s.ctx.activeRequest.Some? then Enter(ValidateRequest, s.ctx, e) else s
  }

  function Step(s: State, e: Event): State {
    if s.halted then s
    else if e.OnRequest? then Settle(ReceiverStep(s, e.data), e)
    else
      var t := MainStep(s, e);
      if t.halted then t else Settle(t, e)
  }

  const INIT := State(false, Ready, Context([], None, None, None, None), None)

  // ---------------------------------------------------------------- runs

  /** The state after the machine has handled the events of a run. */
  function After(run: seq<Event>): State {
    if run == [] then INIT else Step(After(run[..|run| - 1]), run[|run| - 1])
  }

  /** Requests delivered to the running machine, in order. */
  function Received(run: seq<Event>): seq<Request> {
    if run == [] then [] else
    var before := run[..|run| - 1];
    var e := run[|run| - 1];
    if e.OnRequest? && !After(before).halted then Received(before) + [e.data] else Received(before)
  }

  /**
   * The response that is settled when the send service is: the request it was started for, and the payload. A send
   * that fails, or has nothing to send, settles it too: the machine goes on to the next request and never sends it
   * again.
   */
  function Posted(s: State, e: Event): seq<Invocation> {
    if !s.halted && s.main == SendResponse && (e.Done? || e.Failed?) then ToSeq(s.invoked) else []
  }

  /** Every response of a run, in order. */
  function Responses(run: seq<Event>): seq<Invocation> {
    if run == [] then []
    else Responses(run[..|run| - 1]) + Posted(After(run[..|run| - 1]), run[|run| - 1])
  }

  /** The requests finished in a run, read off the responses. */
  function Served(run: seq<Event>): seq<Request> {
    Answered(Responses(run))
  }

  function Answered(posts: seq<Invocation>): seq<Request> {
    if posts == [] then []
    else Answered(posts[..|posts| - 1]) + ToSeq(posts[|posts| - 1].request)
  }

  function Abstract(run: seq<Event>): Fifo<Request> {
    RequestFifo.Fifo.Fifo(Received(run), Served(run), After(run).ctx.activeRequest, After(run).ctx.requestsQueue)
  }

  /** What every reachable state satisfies. */
  ghost predicate Good(s: State) {
    && (s.main == Ready <==> s.ctx.activeRequest.None?)
    && (s.ctx.activeRequest.None? ==> s.ctx.requestsQueue == [])
    && (s.main == Ready || s.main == ValidateRequest ==> s.ctx.activeRequestMetadata.None?)
    && (s.invoked.Some? <==> Invokes(s.main))
    && (s.invoked.Some? ==> s.invoked.value.request == s.ctx.activeRequest)
    && (s.main == PromptInteractiveRequest || s.main == ExecuteInteractiveRequest ==>
          s.ctx.componentData.Some? && s.ctx.componentData.value.request == s.ctx.activeRequest)
  }

  lemma StepKeepsGood(s: State, e: Event)
    requires Good(s)
    ensures Good(Step(s, e))
  {
    if e.OnRequest? {
      hide MainStep;
    } else {
      hide ReceiverStep;
    }
  }

  lemma {:induction false} RunsStayGood(run: seq<Event>)
    ensures Good(After(run))
  {
    if run != [] {
      RunsStayGood(run[..|run| - 1]);
      StepKeepsGood(After(run[..|run| - 1]), run[|run| - 1]);
    }
  }

  lemma Snoc(run: seq<Event>, e: Event)
    ensures (run + [e])[..|run|] == run
    ensures After(run + [e]) == Step(After(run), e)
    ensures Received(run + [e]) ==
            if e.OnRequest? && !After(run).halted then Received(run) + [e.data] else Received(run)
    ensures Responses(run + [e]) == Responses(run) + Posted(After(run), e)
  {
    assert (run + [e])[..|run|] == run;
  }

  /** After every macrostep Main rests in Ready exactly when no request is active. */
  lemma ReadyIffIdle(run: seq<Event>)
    ensures After(run).main == Ready <==> After(run).ctx.activeRequest == None
  {
    RunsStayGood(run);
  }

  /** The effect of a macrostep on the queue: a request is taken in, one is answered, or neither. */
  lemma StepOnQueue(s: State, e: Event)
    requires Good(s)
    ensures !s.halted && e.OnRequest? ==>
              && Posted(s, e) == []
              && (s.ctx.activeRequest.None? ==>
                    Step(s, e).ctx.activeRequest == Some(e.data) && Step(s, e).ctx.requestsQueue == [])
              && (s.ctx.activeRequest.Some? ==>
                    Step(s, e).ctx.activeRequest == s.ctx.activeRequest &&
                    Step(s, e).ctx.requestsQueue == s.ctx.requestsQueue + [e.data])
    ensures Posted(s, e) != [] ==>
              && !s.halted && !e.OnRequest? && s.ctx.activeRequest.Some? && s.invoked.Some?
              && Posted(s, e) == [s.invoked.value] && s.invoked.value.request == s.ctx.activeRequest
              && (s.ctx.requestsQueue == [] ==>
                    Step(s, e).ctx.activeRequest == None && Step(s, e).ctx.requestsQueue == [])
              && (s.ctx.requestsQueue != [] ==>
                    Step(s, e).ctx.activeRequest == Some(s.ctx.requestsQueue[0]) &&
                    Step(s, e).ctx.requestsQueue == s.ctx.requestsQueue[1..])
    ensures (s.halted || !e.OnRequest?) && Posted(s, e) == [] ==>
              && Step(s, e).ctx.activeRequest == s.ctx.activeRequest
              && Step(s, e).ctx.requestsQueue == s.ctx.requestsQueue
  {
  }

  lemma ServedSnoc(run: seq<Event>, e: Event)
    ensures Posted(After(run), e) == [] ==> Served(run + [e]) == Served(run)
    ensures forall post :: Posted(After(run), e) == [post] ==>
              Served(run + [e]) == Served(run) + ToSeq(post.request)
  {
    Snoc(run, e);
    hide Step, Posted, After;
    assert Posted(After(run), e) == [] ==> Responses(run + [e]) == Responses(run);
    if post :| Posted(After(run), e) == [post] {
      var posts := Responses(run + [e]);
      assert posts[..|posts| - 1] == Responses(run);
    }
  }

  /** One macrostep of the machine is one step of the single-server FIFO, or none. */
  lemma StepRefinesFifo(run: seq<Event>, e: Event)
    ensures Next(Abstract(run), Abstract(run + [e]))
  {
    hide Step, Posted, After, Good;
    Snoc(run, e);
    ServedSnoc(run, e);
    RunsStayGood(run);
    StepOnQueue(After(run), e);
    var f, g := Abstract(run), Abstract(run + [e]);
    if !After(run).halted && e.OnRequest? {
      assert Arrives(f, e.data, g);
    } else if Posted(After(run), e) != [] {
      assert g == Finish(f);
    } else {
      assert g == f;
    }
  }

  lemma {:induction false} RunsRefineFifo(run: seq<Event>)
    ensures RequestFifo.Inv(Abstract(run))
  {
    if run != [] {
      var before, e := run[..|run| - 1], run[|run| - 1];
      assert run == before + [e];
      RunsRefineFifo(before);
      StepRefinesFifo(before, e);
      NextPreservesInv(Abstract(before), Abstract(run));
    }
  }

  /**
   * Requests are answered once each, in arrival order; the active one is the oldest unanswered
   * one; and while nothing is answered the active request does not change.
   */
  lemma AnsweredOnceInArrivalOrder(run: seq<Event>, e: Event)
    ensures Served(run) <= Received(run)
    ensures After(run).ctx.activeRequest ==
            if |Served(run)| < |Received(run)| then Some(Received(run)[|Served(run)|]) else None
    ensures Served(run) <= Served(run + [e])
    ensures Served(run + [e]) == Served(run) && After(run).ctx.activeRequest.Some? ==>
              After(run + [e]).ctx.activeRequest == After(run).ctx.activeRequest
  {
    RunsRefineFifo(run);
    InvMeansInOrder(Abstract(run));
    StepRefinesFifo(run, e);
    NextPreservesInv(Abstract(run), Abstract(run + [e]));
  }

  // ---------------------------------------------------------------- approvals

  /** Event j of the run resolved the preparation of component data. */
  ghost predicate PreparedAt(run: seq<Event>, j: int) {
    0 <= j < |run| && run[j].Done? && After(run[..j]).main == PrepareComponentData && !After(run[..j]).halted
  }

  lemma Prefixes(run: seq<Event>)
    requires run != []
    ensures forall k :: 0 <= k < |run| ==> run[..|run| - 1][..k] == run[..k]
    ensures run[..|run|] == run
    ensures run == run[..|run| - 1] + [run[|run| - 1]]
  {
  }

  /** The macrosteps that leave Main showing a prompt. */
  lemma StepOnPrompt(s: State, e: Event)
    requires Good(s) && Step(s, e).main == PromptInteractiveRequest
    ensures Posted(s, e) == []
    ensures Step(s, e).ctx.activeRequest == s.ctx.activeRequest
    ensures s.main == PromptInteractiveRequest ==> Step(s, e).ctx.componentData == s.ctx.componentData
    ensures s.main != PromptInteractiveRequest ==>
              && s.main == PrepareComponentData && !s.halted && e.Done?
              && Step(s, e).ctx.componentData == Some(ComponentData(s.ctx.activeRequest, e.output))
  {
  }

  /** A prompt shows data prepared for the active request since it became active, and nothing came in between. */
  lemma {:induction false} PromptWasPrepared(run: seq<Event>) returns (j: nat)
    requires After(run).main == PromptInteractiveRequest
    ensures PreparedAt(run, j)
    ensures After(run).ctx.componentData == Some(ComponentData(After(run).ctx.activeRequest, run[j].output))
    ensures Served(run[..j]) == Served(run)
    ensures forall k :: j < k <= |run| ==> After(run[..k]).main == PromptInteractiveRequest
  {
    hide Step, Posted, After, Good, Received, Responses, Served;
    Empty();
    Prefixes(run);
    var before := run[..|run| - 1];
    Snoc(before, run[|run| - 1]);
    RunsStayGood(before);
    StepOnPrompt(After(before), run[|run| - 1]);
    ServedSnoc(before, run[|run| - 1]);
    if After(before).main == PromptInteractiveRequest {
      j := PromptWasPrepared(before);
    } else {
      j := |run| - 1;
    }
  }

  lemma StepToExecution(s: State, e: Event)
    requires Good(s)
    requires s.main != ExecuteInteractiveRequest && Step(s, e).main == ExecuteInteractiveRequest
    ensures e == OnApprove && s.main == PromptInteractiveRequest && s.ctx.activeRequest.Some?
    ensures Step(s, e).ctx.activeRequest == s.ctx.activeRequest
    ensures Step(s, e).invoked == Some(Invocation(s.ctx.activeRequest, None))
  {
  }

  /**
   * Executing an interactive request directly follows the user's approval at a prompt whose data was
   * prepared for that same request, in the same stretch of service and with nothing between the
   * preparation and the approval but other requests being queued. An approval given before a retry
   * or a step back is never used again.
   */
  lemma ApprovalIsForThisPrompt(run: seq<Event>, e: Event) returns (j: nat)
    requires After(run).main != ExecuteInteractiveRequest
    requires After(run + [e]).main == ExecuteInteractiveRequest
    ensures e == OnApprove
    ensures After(run).main == PromptInteractiveRequest
    ensures After(run).ctx.activeRequest.Some?
    ensures After(run + [e]).ctx.activeRequest == After(run).ctx.activeRequest
    ensures After(run + [e]).invoked == Some(Invocation(After(run).ctx.activeRequest, None))
    ensures PreparedAt(run, j) && Served(run[..j]) == Served(run)
    ensures After(run).ctx.componentData == Some(ComponentData(After(run).ctx.activeRequest, run[j].output))
    ensures forall k :: j < k <= |run| ==> After(run[..k]).main == PromptInteractiveRequest
  {
    hide Step, Posted, After, Good, Received, Responses, Served, PreparedAt;
    Snoc(run, e);
    RunsStayGood(run);
    StepToExecution(After(run), e);
    j := PromptWasPrepared(run);
  }

  // ---------------------------------------------------------------- authentication

  /** Silent or interactive handling of a request. */
  predicate Handling(main: Main) {
    main in {PrepareComponentData, PromptInteractiveRequest, CancelInteractiveRequest,
             ExecuteInteractiveRequest, InteractiveError, ExecuteSilentRequest}
  }

  predicate NeedsAuthentication(ctx: Context) {
    ctx.activeRequestMetadata.Some? && ShouldAuthenticate(ctx.activeRequestMetadata.value)
  }

  /** Event j of the run was a successful authentication check. */
  ghost predicate CheckedAt(run: seq<Event>, j: int) {
    0 <= j < |run| && run[j].Done? && After(run[..j]).main == CheckAuthentication && !After(run[..j]).halted
  }

  lemma StepOnHandling(s: State, e: Event)
    requires Good(s)
    requires Handling(Step(s, e).main) && NeedsAuthentication(Step(s, e).ctx)
    ensures Posted(s, e) == []
    ensures Step(s, e).ctx.activeRequest == s.ctx.activeRequest
    ensures NeedsAuthentication(s.ctx)
    ensures !Handling(s.main) ==> s.main == CheckAuthentication && !s.halted && e.Done?
  {
  }

  /**
   * A request validated as requiring authentication is handled, silently or interactively, only after an
   * authentication check succeeded since it became active, with no step back or retry since the check.
   */
  lemma {:induction false} HandledOnlyAfterAuthentication(run: seq<Event>) returns (j: nat)
    requires Handling(After(run).main) && NeedsAuthentication(After(run).ctx)
    ensures CheckedAt(run, j)
    ensures forall k :: j < k <= |run| ==> Handling(After(run[..k]).main)
    ensures Served(run[..j]) == Served(run)
    ensures After(run[..j]).ctx.activeRequest == After(run).ctx.activeRequest
  {
    hide Step, Posted, After, Good, Received, Responses, Served, NeedsAuthentication;
    Empty();
    Prefixes(run);
    var before := run[..|run| - 1];
    Snoc(before, run[|run| - 1]);
    RunsStayGood(before);
    StepOnHandling(After(before), run[|run| - 1]);
    ServedSnoc(before, run[|run| - 1]);
    if Handling(After(before).main) {
      j := HandledOnlyAfterAuthentication(before);
    } else {
      j := |run| - 1;
    }
  }

  // ---------------------------------------------------------------- silent or interactive

  /** No authentication check of the run resolved with an object that has the keys of request metadata. */
  ghost predicate PlainChecks(run: seq<Event>) {
    forall j :: 0 <= j < |run| && CheckedAt(run, j) ==> !run[j].output.Validation?
  }

  lemma StepOnSilence(s: State, e: Event)
    requires Good(s) && Handling(Step(s, e).main)
    requires Handling(s.main) ==> (s.main == ExecuteSilentRequest <==> MetadataSaysSilent(s.ctx))
    requires s.main == CheckAuthentication && !s.halted && e.Done? ==> !e.output.Validation?
    ensures Step(s, e).main == ExecuteSilentRequest <==> MetadataSaysSilent(Step(s, e).ctx)
  {
  }

  /** A request is executed without a prompt exactly when its validation said that it is silent. */
  lemma {:induction false} SilentIffValidatedSo(run: seq<Event>)
    requires Handling(After(run).main) && PlainChecks(run)
    ensures After(run).main == ExecuteSilentRequest <==> MetadataSaysSilent(After(run).ctx)
  {
    hide Step, After, Good, MetadataSaysSilent, Handling;
    Empty();
    InitNotHandling();
    Prefixes(run);
    var before := run[..|run| - 1];
    Snoc(before, run[|run| - 1]);
    RunsStayGood(before);
    assert PlainChecks(before) by {
      forall j | 0 <= j < |before| && CheckedAt(before, j) ensures !before[j].output.Validation? {
        assert CheckedAt(run, j);
      }
    }
    if Handling(After(before).main) {
      SilentIffValidatedSo(before);
    }
    assert After(before).main == CheckAuthentication && !After(before).halted && run[|run| - 1].Done? ==>
             CheckedAt(run, |run| - 1);
    StepOnSilence(After(before), run[|run| - 1]);
  }

  lemma InitNotHandling()
    ensures !Handling(INIT.main)
  {
  }

  /** Event j of the run was the outcome of validating the active request. */
  ghost predicate ValidatedAt(run: seq<Event>, j: int) {
    0 <= j < |run| && run[j].Done? && After(run[..j]).main == ValidateRequest && !After(run[..j]).halted
  }

  lemma StepOnMetadata(s: State, e: Event)
    requires Good(s) && Step(s, e).ctx.activeRequestMetadata.Some?
    ensures Posted(s, e) == [] && Step(s, e).ctx.activeRequest == s.ctx.activeRequest
    ensures Step(s, e).ctx.activeRequestMetadata == s.ctx.activeRequestMetadata ||
            (s.main == ValidateRequest && !s.halted && e.Done? && Step(s, e).ctx.activeRequestMetadata == Some(e.output))
  {
  }

  /** The metadata held are what validation said of the active request, since it became active. */
  lemma {:induction false} MetadataWasValidated(run: seq<Event>) returns (j: nat)
    requires After(run).ctx.activeRequestMetadata.Some?
    ensures ValidatedAt(run, j)
    ensures After(run).ctx.activeRequestMetadata == Some(run[j].output)
    ensures Served(run[..j]) == Served(run)
    ensures After(run[..j]).ctx.activeRequest == After(run).ctx.activeRequest
  {
    hide Step, Posted, After, Good, Received, Responses, Served;
    Empty();
    Prefixes(run);
    var before := run[..|run| - 1];
    Snoc(before, run[|run| - 1]);
    RunsStayGood(before);
    StepOnMetadata(After(before), run[|run| - 1]);
    ServedSnoc(before, run[|run| - 1]);
    if After(run).ctx.activeRequestMetadata == After(before).ctx.activeRequestMetadata {
      j := MetadataWasValidated(before);
    } else {
      j := |run| - 1;
    }
  }

  // ---------------------------------------------------------------- ways into each state

  predicate SaysSilent(output: Output) {
    output.Validation? && output.metadata.isSilent
  }

  /** The events that lead into a state from another one, state by state. */
  predicate LeadsTo(s: State, e: Event, target: Main) {
    match target
    case Ready => s.main == SendResponse && (e.Done? || e.Failed?) && s.ctx.requestsQueue == []
    case ValidateRequest =>
      || (s.main == Ready && e.OnRequest?)
      || (s.main == SendResponse && (e.Done? || e.Failed?) && s.ctx.requestsQueue != [])
    case CheckAuthentication =>
      || (s.main == ValidateRequest && e.Done? && e.output.Validation? && e.output.metadata.requiresAuthentication)
      || (s.main == Authenticate && e.Done?)
      || (s.main == PromptInteractiveRequest && e == OnBack)
      || (s.main == InteractiveError && e == TryAgain)
    case Authenticate => s.main == CheckAuthentication && e.Failed?
    case ExecuteSilentRequest =>
      || (s.main == ValidateRequest && e.Done? && SaysSilent(e.output) && !e.output.metadata.requiresAuthentication)
      || (s.main == CheckAuthentication && e.Done? && Silences(s, e.output))
    case PrepareComponentData =>
      || (s.main == ValidateRequest && e.Done? && !SaysSilent(e.output)
          && !(e.output.Validation? && e.output.metadata.requiresAuthentication))
      || (s.main == CheckAuthentication && e.Done? && !Silences(s, e.output))
    case PromptInteractiveRequest => s.main == PrepareComponentData && e.Done?
    case CancelInteractiveRequest => s.main in {PromptInteractiveRequest, InteractiveError} && e == OnCancel
    case ExecuteInteractiveRequest => s.main == PromptInteractiveRequest && e == OnApprove
    case InteractiveError =>
      s.main in {PrepareComponentData, CancelInteractiveRequest, ExecuteInteractiveRequest} && e.Failed?
    case SendResponse =>
      || (s.main == ValidateRequest && e.Failed?)
      || (s.main in {CancelInteractiveRequest, ExecuteInteractiveRequest, ExecuteSilentRequest} && e.Done?)
      || (s.main == ExecuteSilentRequest && e.Failed?)
  }

  /** An authentication check decides by metadata of its own, if it returned any, else by those validated. */
  predicate Silences(s: State, output: Output) {
    if output.Validation? then SaysSilent(output)
    else s.ctx.activeRequestMetadata.Some? && SaysSilent(s.ctx.activeRequestMetadata.value)
  }

  lemma StepLeadsTo(s: State, e: Event, target: Main)
    requires Good(s) && !s.halted
    ensures Step(s, e).main == target && s.main != target <==> LeadsTo(s, e, target)
  {
    if e.OnRequest? {
      hide MainStep;
    } else {
      hide ReceiverStep;
    }
  }

  lemma StepStops(s: State, e: Event)
    requires Good(s) && !s.halted
    ensures Step(s, e).halted <==> s.main == Authenticate && e.Failed?
    ensures LeadsTo(s, e, InteractiveError) ==> Step(s, e).ctx.error == Some(e.message)
  {
    if e.OnRequest? {
      hide MainStep;
    } else {
      hide ReceiverStep;
    }
  }

  /**
   * A state of the running machine is entered from another exactly by the events that lead into it, the error page
   * with the message of the failure; and only a login that fails stops the machine.
   */
  lemma EnteredExactly(run: seq<Event>, e: Event, target: Main)
    requires !After(run).halted
    ensures After(run + [e]).main == target && After(run).main != target <==> LeadsTo(After(run), e, target)
    ensures After(run + [e]).halted <==> After(run).main == Authenticate && e.Failed?
    ensures LeadsTo(After(run), e, InteractiveError) ==> After(run + [e]).ctx.error == Some(e.message)
  {
    hide After, Step, Good, LeadsTo;
    Snoc(run, e);
    RunsStayGood(run);
    StepLeadsTo(After(run), e, target);
    StepStops(After(run), e);
  }

  lemma PromptAnswered(s: State, decision: Event, out: Output, sent: Event)
    requires Good(s) && !s.halted && s.main == PromptInteractiveRequest
    requires decision == OnApprove || decision == OnCancel
    requires sent.Done? || sent.Failed?
    ensures var s1 := Step(s, decision);
            var s2 := Step(s1, Done(out));
            && s1.main == (if decision == OnApprove then ExecuteInteractiveRequest else CancelInteractiveRequest)
            && Posted(s, decision) == [] && Posted(s1, Done(out)) == []
            && Posted(s2, sent) == [Invocation(s.ctx.activeRequest, Some(out))]
  {
  }

  /**
   * What the user decides at a prompt is what is answered: approving executes the request and cancelling prepares
   * a rejection of it, and what that resolves with is the one response, to that request.
   */
  lemma DecisionIsAnswered(run: seq<Event>, decision: Event, out: Output, sent: Event)
    requires !After(run).halted && After(run).main == PromptInteractiveRequest
    requires decision == OnApprove || decision == OnCancel
    requires sent.Done? || sent.Failed?
    ensures After(run + [decision]).main ==
            if decision == OnApprove then ExecuteInteractiveRequest else CancelInteractiveRequest
    ensures Responses(run + [decision, Done(out), sent]) ==
            Responses(run) + [Invocation(After(run).ctx.activeRequest, Some(out))]
  {
    hide After, Step, Good, Posted, Responses, Received, Served;
    RunsStayGood(run);
    PromptAnswered(After(run), decision, out, sent);
    Snoc(run, decision);
    Snoc(run + [decision], Done(out));
    Snoc(run + [decision] + [Done(out)], sent);
    assert run + [decision, Done(out), sent] == run + [decision] + [Done(out)] + [sent];
  }

  // ---------------------------------------------------------------- progress

  function Rank(main: Main): nat {
    match main
    case Ready => 0
    case SendResponse => 1
    case ValidateRequest => 2
    case CancelInteractiveRequest => 2
    case ExecuteInteractiveRequest => 2
    case ExecuteSilentRequest => 2
    case PromptInteractiveRequest => 3
    case InteractiveError => 3
    case PrepareComponentData => 4
    case CheckAuthentication => 5
    case Authenticate => 6
  }

  function Toward(main: Main): Event {
    match main
    case ValidateRequest => Failed("")
    case PrepareComponentData => Failed("")
    case PromptInteractiveRequest => OnCancel
    case InteractiveError => OnCancel
    case _ => Done(Plain(""))
  }

  lemma StepToward(s: State)
    requires Good(s) && !s.halted && s.ctx.activeRequest.Some?
    ensures s.main == SendResponse ==> Posted(s, Toward(s.main)) == ToSeq(s.invoked)
    ensures s.main != SendResponse ==>
              && Posted(s, Toward(s.main)) == []
              && !Step(s, Toward(s.main)).halted
              && Step(s, Toward(s.main)).ctx.activeRequest == s.ctx.activeRequest
              && Rank(Step(s, Toward(s.main)).main) < Rank(s.main)
    ensures s.invoked.Some? ==> s.invoked.value.request == s.ctx.activeRequest
    ensures s.main == SendResponse ==> s.invoked.Some?
    ensures !Toward(s.main).OnRequest?
  {
  }

  /** One event towards the answer: either it is the answer, or the machine is closer to giving it. */
  lemma OneEventToward(run: seq<Event>, s: State, next: seq<Event>)
    requires s == After(run) && !s.halted && s.ctx.activeRequest.Some?
    requires next == run + [Toward(s.main)]
    ensures Received(next) == Received(run)
    ensures s.main == SendResponse ==> Served(next) == Served(run) + [s.ctx.activeRequest.value]
    ensures s.main != SendResponse ==>
              && Served(next) == Served(run)
              && !After(next).halted
              && After(next).ctx.activeRequest == s.ctx.activeRequest
              && Rank(After(next).main) < Rank(s.main)
  {
    hide Step, Posted, After, Good, Responses, Served, Received, Rank;
    var e := Toward(s.main);
    RunsStayGood(run);
    StepToward(s);
    Snoc(run, e);
    ServedSnoc(run, e);
  }

  /** No request gets stuck: from every reachable running state some events answer the active one. */
  lemma {:induction false} ActiveRequestCanBeAnswered(run: seq<Event>, s: State) returns (rest: seq<Event>)
    requires s == After(run) && !s.halted && s.ctx.activeRequest.Some?
    ensures Received(run + rest) == Received(run)
    ensures Served(run + rest) == Served(run) + [s.ctx.activeRequest.value]
    decreases Rank(s.main)
  {
    hide *;
    var e := Toward(s.main);
    var next := run + [e];
    OneEventToward(run, s, next);
    if s.main == SendResponse {
      rest := [e];
    } else {
      var more := ActiveRequestCanBeAnswered(next, After(next));
      rest := [e] + more;
      assert run + rest == next + more;
    }
  }

  // ---------------------------------------------------------------- two limits of the chart

  /** The send service posts a response, unless the outcome it was started with asks that nothing be sent. */
  predicate Sends(i: Invocation) {
    i.payload != Some(NoAction)
  }

  /**
   * A response is posted without payload exactly when it was reached by a failed service, and not at all exactly
   * when a service resolved with the request that nothing be sent.
   */
  lemma FailuresArePostedWithoutPayload(run: seq<Event>, e: Event)
    requires After(run).main != SendResponse && After(run + [e]).main == SendResponse
    ensures After(run + [e]).invoked.Some?
    ensures After(run + [e]).invoked.value.payload == None <==> e.Failed?
    ensures e.Failed? ==> After(run).main in {ValidateRequest, ExecuteSilentRequest}
    ensures e.Done? ==> After(run + [e]).invoked.value.payload == Some(e.output)
    ensures Sends(After(run + [e]).invoked.value) <==> !(e.Done? && e.output.NoAction?)
  {
    hide After, Responses, Received, Served, Posted;
    Snoc(run, e);
    RunsStayGood(run);
  }

  /** Some event since the active request became active resolved a preparation of its component data. */
  ghost predicate PreparedForActive(run: seq<Event>) {
    exists j :: PreparedAt(run, j) && Served(run[..j]) == Served(run)
  }

  lemma StepOnData(s: State, e: Event)
    requires Good(s)
    ensures s.main == PrepareComponentData && e.Done? && !s.halted ==>
              Step(s, e).ctx.componentData == Some(ComponentData(s.ctx.activeRequest, e.output))
    ensures !(s.main == PrepareComponentData && e.Done? && !s.halted) ==>
              Step(s, e).ctx.componentData == s.ctx.componentData
    ensures Posted(s, e) == [] && s.ctx.activeRequest.Some? ==>
              Step(s, e).ctx.activeRequest == s.ctx.activeRequest
    ensures s.main == PrepareComponentData ==> s.ctx.activeRequest.Some?
    ensures Posted(s, e) == [] || (|Posted(s, e)| == 1 && Posted(s, e)[0].request.Some?)
  {
  }

  /** Within one stretch of service the active request does not change. */
  lemma {:induction false} OneStretchOneRequest(run: seq<Event>, j: nat)
    requires j <= |run|
    ensures Served(run[..j]) <= Served(run)
    ensures Served(run[..j]) == Served(run) && After(run[..j]).ctx.activeRequest.Some? ==>
              After(run).ctx.activeRequest == After(run[..j]).ctx.activeRequest
  {
    if j == |run| {
      assert run[..j] == run;
    } else {
      Prefixes(run);
      var before, e := run[..|run| - 1], run[|run| - 1];
      OneStretchOneRequest(before, j);
      Snoc(before, e);
      ServedSnoc(before, e);
      RunsStayGood(before);
      StepOnData(After(before), e);
      hide Step, Posted, After, Good, Responses, Served, Received;
      assert Posted(After(before), e) != [] ==> Posted(After(before), e) == [Posted(After(before), e)[0]];
    }
  }

  /** A posted response starts a new stretch of service: no earlier prefix has served as much. */
  lemma PostedEndsStretch(run: seq<Event>, k: nat)
    requires run != [] && k < |run| && Posted(After(run[..|run| - 1]), run[|run| - 1]) != []
    ensures Served(run[..k]) != Served(run)
  {
    hide Step, Posted, After, Responses, Served, Received;
    Prefixes(run);
    var before, e := run[..|run| - 1], run[|run| - 1];
    Snoc(before, e);
    ServedSnoc(before, e);
    RunsStayGood(before);
    OneStretchOneRequest(before, k);
    OneResponse(After(before), e);
    assert Posted(After(before), e) == [Posted(After(before), e)[0]];
  }

  lemma OneResponse(s: State, e: Event)
    requires Good(s)
    ensures Posted(s, e) == [] || (|Posted(s, e)| == 1 && Posted(s, e)[0].request.Some?)
  {
  }

  lemma PreparedBefore(run: seq<Event>)
    requires run != [] && Served(run) == Served(run[..|run| - 1])
    ensures PreparedForActive(run) <==>
            PreparedForActive(run[..|run| - 1]) || PreparedAt(run, |run| - 1)
  {
    hide After, Served;
    Prefixes(run);
    var before := run[..|run| - 1];
    assert forall j :: 0 <= j < |before| ==> before[j] == run[j];
    assert forall j :: 0 <= j < |before| ==> (PreparedAt(before, j) <==> PreparedAt(run, j));
    if PreparedForActive(before) {
      var j :| PreparedAt(before, j) && Served(before[..j]) == Served(before);
      assert PreparedAt(run, j);
    }
    if PreparedForActive(run) {
      var j :| PreparedAt(run, j) && Served(run[..j]) == Served(run);
      assert j < |before| ==> PreparedAt(before, j);
    }
  }

  /**
   * The error page reads the component data of the context, which is never cleared: the data is the
   * active request's once a preparation for it has succeeded, and until then whatever was there
   * before the request became active.
   */
  lemma {:induction false} ErrorPageData(run: seq<Event>)
    ensures PreparedForActive(run) ==>
              After(run).ctx.activeRequest.Some? && After(run).ctx.componentData.Some? &&
              After(run).ctx.componentData.value.request == After(run).ctx.activeRequest
    ensures !PreparedForActive(run) ==>
              forall k :: 0 <= k <= |run| && Served(run[..k]) == Served(run) ==>
                After(run[..k]).ctx.componentData == After(run).ctx.componentData
  {
    hide Step, Posted, After, Good, Responses, Served, Received, PreparedForActive;
    if run == [] {
      NothingPrepared();
    } else {
      Prefixes(run);
      var before, e := run[..|run| - 1], run[|run| - 1];
      Snoc(before, e);
      if Posted(After(before), e) != [] {
        forall k | 0 <= k < |run| ensures Served(run[..k]) != Served(run) {
          PostedEndsStretch(run, k);
        }
        assert !PreparedForActive(run) by { NotPreparedYet(run); }
      } else {
        ErrorPageData(before);
        ServedSnoc(before, e);
        RunsStayGood(before);
        StepOnData(After(before), e);
        PreparedBefore(run);
      }
    }
  }

  lemma NothingPrepared()
    ensures !PreparedForActive([])
  {
  }

  lemma NotPreparedYet(run: seq<Event>)
    requires forall k :: 0 <= k < |run| ==> Served(run[..k]) != Served(run)
    ensures !PreparedForActive(run)
  {
    hide Served, After;
  }

  /** Two requests: the second one's error page shows the data of the first. */
  lemma ErrorPageCanShowAnotherRequest(a: Request, b: Request, out: Output) returns (run: seq<Event>)
    ensures After(run).main == InteractiveError
    ensures After(run).ctx.activeRequest == Some(b)
    ensures After(run).ctx.componentData == Some(ComponentData(Some(a), out))
  {
    hide After;
    var valid := Done(Validation(Metadata(false, false)));
    var metadata := Some(Validation(Metadata(false, false)));
    var shownA := Some(ComponentData(Some(a), out));
    Empty();
    run := Then([], OnRequest(a));
    assert After(run) == Enter(ValidateRequest, Context([], Some(a), None, None, None), OnRequest(a));
    run := Then(run, valid);
    assert After(run) == Enter(PrepareComponentData, Context([], Some(a), metadata, None, None), valid);
    run := Then(run, Done(out));
    assert After(run) == Enter(PromptInteractiveRequest, Context([], Some(a), metadata, shownA, None), Done(out));
    run := Then(run, OnApprove);
    run := Then(run, Done(out));
    assert After(run) == Enter(SendResponse, Context([], Some(a), metadata, shownA, None), Done(out));
    run := Then(run, Done(out));
    assert After(run) == Enter(Ready, Context([], None, None, shownA, None), Done(out));
    run := Then(run, OnRequest(b));
    assert After(run) == Enter(ValidateRequest, Context([], Some(b), None, shownA, None), OnRequest(b));
    run := Then(run, valid);
    assert After(run) == Enter(PrepareComponentData, Context([], Some(b), metadata, shownA, None), valid);
    run := Then(run, Failed(""));
  }

  lemma Empty()
    ensures After([]) == INIT
  {
  }

  lemma Then(run: seq<Event>, e: Event) returns (longer: seq<Event>)
    ensures longer == run + [e] && After(longer) == Step(After(run), e)
  {
    longer := run + [e];
    Snoc(run, e);
  }
}
