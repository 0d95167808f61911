/** The COSMIC compositor worker: the protocol callbacks that turn library
    state into messages for the application, the handling of requests sent
    to the worker, and its dispatch loop with the exit flag. */
module CosmicComp {
  import opened Wrappers
  import opened Handles

  // ---------------------------------------------------------------------
  // Workspaces

  datatype WorkspaceFlag = Active | Urgent | Hidden

  /** A workspace state value as received: a known entry or an unknown code. */
  datatype WEnum = Value(flag: WorkspaceFlag) | Unknown(code: nat)

  datatype WorkspaceInfo = WorkspaceInfo(handle: WorkspaceHandle, state: seq<WEnum>)

  datatype WorkspaceGroup = WorkspaceGroup(workspaces: seq<WorkspaceInfo>)

  predicate IsActive(w: WorkspaceInfo)
  {
    Value(Active) in w.state
  }

  // ---------------------------------------------------------------------
  // Worker state, messages and protocol calls

  /** What the worker's callbacks and request handler read: the bound seats
      in order, whether the activation global was bound, the information the
      output and toplevel-info libraries hold, the workspace groups, and the
      exit flag. */
  datatype WorkerState = WorkerState(
    seats: seq<WlSeat>,
    activationBound: bool,
    outputInfo: map<WlOutput, OutputInfo>,
    toplevelInfo: map<ZcosmicHandle, ToplevelInfo>,
    workspaceGroups: seq<WorkspaceGroup>,
    exit: bool)

  datatype ToplevelUpdate =
    | Add(toplevel: ZcosmicHandle, info: ToplevelInfo)
    | Update(toplevel: ZcosmicHandle, info: ToplevelInfo)
    | Remove(toplevel: ZcosmicHandle)

  datatype OutputUpdate =
    | Add(output: WlOutput, info: OutputInfo)
    | Update(output: WlOutput, info: OutputInfo)
    | Remove(output: WlOutput)

  /** Messages from the worker to the application. */
  datatype WaylandMessage =
    | Init(sender: RequestSender)
    | Finished
    | Toplevel(toplevelUpdate: ToplevelUpdate)
    | Workspace(workspaces: seq<WorkspaceHandle>)
    | Output(outputUpdate: OutputUpdate)
    | ActivationToken(token: Option<string>, appId: Option<string>, exec: string, gpuIdx: Option<nat>)

  datatype RequestData = RequestData(appId: Option<string>, seatAndSerial: Option<(WlSeat, nat)>, surface: Option<WlSurface>)

  /** Activation request data carrying what to launch once a token arrives. */
  datatype ExecRequestData = ExecRequestData(data: RequestData, exec: string, gpuIdx: Option<nat>)

  /** Requests the worker issues on protocol objects. */
  datatype ProtocolCall =
    | ManagerActivate(toplevel: ZcosmicHandle, seat: WlSeat)
    | ManagerSetMinimized(toplevel: ZcosmicHandle)
    | ManagerClose(toplevel: ZcosmicHandle)
    | RequestTokenWithData(request: ExecRequestData)

  datatype ToplevelRequest = Activate(toplevel: ZcosmicHandle) | Minimize(toplevel: ZcosmicHandle) | Quit(toplevel: ZcosmicHandle)

  /** Requests from the application to the worker. */
  datatype WaylandRequest =
    | Toplevel(request: ToplevelRequest)
    | TokenRequest(appId: string, exec: string, gpuIdx: Option<nat>)

  /** What the request channel delivers: a request, or the news that every
      sender is gone. */
  datatype ChannelEvent = Msg(request: WaylandRequest) | Closed

  /** Messages sent and protocol calls issued by a step, each in order. */
  datatype Effects = Effects(sent: seq<WaylandMessage>, calls: seq<ProtocolCall>)

  const NoEffects := Effects([], [])

  function Then(a: Effects, b: Effects): Effects
  {
    Effects(a.sent + b.sent, a.calls + b.calls)
  }

  // ---------------------------------------------------------------------
  // Protocol callbacks

  /** `OutputHandler::new_output`: announces the output with its information
      when the output library has any, and sends nothing otherwise. */
  function NewOutput(s: WorkerState, output: WlOutput): (sent: seq<WaylandMessage>)
    ensures sent != [] <==> output in s.outputInfo
    ensures sent != [] ==> sent == [Output(OutputUpdate.Add(output, s.outputInfo[output]))]
  {
    if output in s.outputInfo then [Output(OutputUpdate.Add(output, s.outputInfo[output]))] else []
  }

  /** `OutputHandler::update_output`: like `NewOutput`, with an `Update`. */
  function UpdateOutput(s: WorkerState, output: WlOutput): (sent: seq<WaylandMessage>)
    ensures sent != [] <==> output in s.outputInfo
    ensures sent != [] ==> sent == [Output(OutputUpdate.Update(output, s.outputInfo[output]))]
  {
    if output in s.outputInfo then [Output(OutputUpdate.Update(output, s.outputInfo[output]))] else []
  }

  /** `OutputHandler::output_destroyed`: always reports the removal, whatever
      the output library still holds. */
  function OutputDestroyed(s: WorkerState, output: WlOutput): (sent: seq<WaylandMessage>)
    ensures |sent| == 1 && sent[0].Output?
    ensures sent[0].outputUpdate.Remove? && OutputOf(sent[0].outputUpdate) == output
  {
    [Output(OutputUpdate.Remove(output))]
  }

  /** `ToplevelInfoHandler::new_toplevel`: announces the toplevel with its
      information when the info library has any, and sends nothing otherwise. */
  function NewToplevel(s: WorkerState, toplevel: ZcosmicHandle): (sent: seq<WaylandMessage>)
    ensures sent != [] <==> toplevel in s.toplevelInfo
    ensures sent != [] ==> sent == [WaylandMessage.Toplevel(ToplevelUpdate.Add(toplevel, s.toplevelInfo[toplevel]))]
  {
    if toplevel in s.toplevelInfo then [WaylandMessage.Toplevel(ToplevelUpdate.Add(toplevel, s.toplevelInfo[toplevel]))] else []
  }

  /** `ToplevelInfoHandler::update_toplevel`: like `NewToplevel`, with an `Update`. */
  function UpdateToplevel(s: WorkerState, toplevel: ZcosmicHandle): (sent: seq<WaylandMessage>)
    ensures sent != [] <==> toplevel in s.toplevelInfo
    ensures sent != [] ==> sent == [WaylandMessage.Toplevel(ToplevelUpdate.Update(toplevel, s.toplevelInfo[toplevel]))]
  {
    if toplevel in s.toplevelInfo then [WaylandMessage.Toplevel(ToplevelUpdate.Update(toplevel, s.toplevelInfo[toplevel]))] else []
  }

  /** `ToplevelInfoHandler::toplevel_closed`: always reports the removal,
      whatever the info library still holds. */
  function ToplevelClosed(s: WorkerState, toplevel: ZcosmicHandle): (sent: seq<WaylandMessage>)
    ensures |sent| == 1 && sent[0].Toplevel?
    ensures sent[0].toplevelUpdate.Remove? && ToplevelOf(sent[0].toplevelUpdate) == toplevel
  {
    [WaylandMessage.Toplevel(ToplevelUpdate.Remove(toplevel))]
  }

  /** The position of the first active workspace of a group, if any. */
  function FirstActive(ws: seq<WorkspaceInfo>): (r: Option<nat>)
    ensures r.Some? ==> r.value < |ws| && IsActive(ws[r.value])
    ensures r.Some? ==> forall j :: 0 <= j < r.value ==> !IsActive(ws[j])
    ensures r.None? ==> forall j :: 0 <= j < |ws| ==> !IsActive(ws[j])
  {
    if |ws| == 0 then None
    else if IsActive(ws[0]) then Some(0)
    else match FirstActive(ws[1..])
      case None => None
      case Some(j) => Some(j + 1)
  }

  /** Some workspace of the group is active. */
  predicate HasActive(g: WorkspaceGroup)
  {
    exists j :: 0 <= j < |g.workspaces| && IsActive(g.workspaces[j])
  }

  /** The handle of the first active workspace of each group, in group order;
      a group without an active workspace contributes nothing. */
  function ActiveWorkspaces(groups: seq<WorkspaceGroup>): (hs: seq<WorkspaceHandle>)
    ensures |hs| <= |groups|
    ensures hs == [] <==> forall k :: 0 <= k < |groups| ==> !HasActive(groups[k])
    ensures |hs| == |groups| <==> forall k :: 0 <= k < |groups| ==> HasActive(groups[k])
  {
    if |groups| == 0 then []
    else GroupActive(groups[0]) + ActiveWorkspaces(groups[1..])
  }

  /** What one group contributes: the `find` over its workspaces. */
  function GroupActive(g: WorkspaceGroup): (hs: seq<WorkspaceHandle>)
    ensures |hs| <= 1
    ensures hs != [] <==> HasActive(g)
    ensures hs != [] ==> exists j ::
      && 0 <= j < |g.workspaces| && IsActive(g.workspaces[j]) && hs == [g.workspaces[j].handle]
      && forall i :: 0 <= i < j ==> !IsActive(g.workspaces[i])
  {
    match FirstActive(g.workspaces)
    case None => []
    case Some(j) => [g.workspaces[j].handle]
  }

  /** Selection is group by group: the active workspaces of a concatenation
      of groups are those of the first part followed by those of the second. */
  lemma {:induction false} ActiveWorkspacesAppend(a: seq<WorkspaceGroup>, b: seq<WorkspaceGroup>)
    ensures ActiveWorkspaces(a + b) == ActiveWorkspaces(a) + ActiveWorkspaces(b)
  {
    if |a| > 0 {
      assert (a + b)[0] == a[0];
      assert (a + b)[1..] == a[1..] + b;
      ActiveWorkspacesAppend(a[1..], b);
    } else {
      assert a + b == b;
    }
  }

  /** One group yields its first active workspace, or nothing when no
      workspace of it is active. */
  lemma ActiveWorkspacesOfGroup(g: WorkspaceGroup)
    ensures (forall j :: 0 <= j < |g.workspaces| ==> !IsActive(g.workspaces[j])) ==> ActiveWorkspaces([g]) == []
    ensures forall j ::
      (0 <= j < |g.workspaces| && IsActive(g.workspaces[j]) && (forall i :: 0 <= i < j ==> !IsActive(g.workspaces[i])))
      ==> ActiveWorkspaces([g]) == [g.workspaces[j].handle]
  {
    assert [g][1..] == [];
  }

  /** Every reported workspace is active and belongs to one of the groups. */
  lemma {:induction false} ActiveWorkspacesAreActive(groups: seq<WorkspaceGroup>, k: nat)
    requires k < |ActiveWorkspaces(groups)|
    ensures exists g, j ::
      (0 <= g < |groups| && 0 <= j < |groups[g].workspaces|
      && IsActive(groups[g].workspaces[j]) && groups[g].workspaces[j].handle == ActiveWorkspaces(groups)[k])
  {
    var first := GroupActive(groups[0]);
    if k < |first| {
      var j := FirstActive(groups[0].workspaces).value;
      assert IsActive(groups[0].workspaces[j]);
    } else {
      ActiveWorkspacesAreActive(groups[1..], k - |first|);
      var g, j :| 0 <= g < |groups[1..]| && 0 <= j < |groups[1..][g].workspaces|
        && IsActive(groups[1..][g].workspaces[j]) && groups[1..][g].workspaces[j].handle == ActiveWorkspaces(groups[1..])[k - |first|];
      assert groups[g + 1] == groups[1..][g];
    }
  }

  /** `WorkspaceHandler::done`: reports the active workspaces. */
  function WorkspacesDone(s: WorkerState): (sent: seq<WaylandMessage>)
    ensures sent == [Workspace(ActiveWorkspaces(s.workspaceGroups))]
    ensures |sent[0].workspaces| <= |s.workspaceGroups|
  {
    [Workspace(ActiveWorkspaces(s.workspaceGroups))]
  }

  /** `ActivationHandler::new_token`: passes the token on together with the
      application id, command line and GPU index the request carried. */
  function NewToken(s: WorkerState, token: string, data: ExecRequestData): (sent: seq<WaylandMessage>)
    ensures |sent| == 1 && sent[0].ActivationToken? && sent[0].token == Some(token)
    ensures sent[0].appId == data.data.appId && sent[0].exec == data.exec && sent[0].gpuIdx == data.gpuIdx
  {
    [ActivationToken(Some(token), data.data.appId, data.exec, data.gpuIdx)]
  }

  /** The protocol callbacks the worker receives while dispatching. */
  datatype Callback =
    | NewOutputEvent(output: WlOutput)
    | UpdateOutputEvent(output: WlOutput)
    | OutputDestroyedEvent(output: WlOutput)
    | WorkspacesDoneEvent
    | NewTokenEvent(token: string, data: ExecRequestData)
    | NewToplevelEvent(toplevel: ZcosmicHandle)
    | UpdateToplevelEvent(toplevel: ZcosmicHandle)
    | ToplevelClosedEvent(toplevel: ZcosmicHandle)

  /** Output callbacks. */
  predicate IsOutputCallback(cb: Callback)
  {
    cb.NewOutputEvent? || cb.UpdateOutputEvent? || cb.OutputDestroyedEvent?
  }

  /** Toplevel callbacks. */
  predicate IsToplevelCallback(cb: Callback)
  {
    cb.NewToplevelEvent? || cb.UpdateToplevelEvent? || cb.ToplevelClosedEvent?
  }

  /** Each callback sends at most one message, of its own kind, and never
      `Init` or `Finished` (those come from the subscription). Only an
      announcement or update of something the libraries know nothing about
      sends nothing. */
  function OnCallback(s: WorkerState, cb: Callback): (sent: seq<WaylandMessage>)
    ensures |sent| <= 1
    ensures forall m :: m in sent ==>
      && !m.Init? && !m.Finished?
      && (m.Output? <==> IsOutputCallback(cb))
      && (m.Toplevel? <==> IsToplevelCallback(cb))
      && (m.Workspace? <==> cb.WorkspacesDoneEvent?)
      && (m.ActivationToken? <==> cb.NewTokenEvent?)
    ensures sent == [] ==>
      cb.NewOutputEvent? || cb.UpdateOutputEvent? || cb.NewToplevelEvent? || cb.UpdateToplevelEvent?
  {
    match cb
    case NewOutputEvent(o) => NewOutput(s, o)
    case UpdateOutputEvent(o) => UpdateOutput(s, o)
    case OutputDestroyedEvent(o) => OutputDestroyed(s, o)
    case WorkspacesDoneEvent => WorkspacesDone(s)
    case NewTokenEvent(token, data) => NewToken(s, token, data)
    case NewToplevelEvent(t) => NewToplevel(s, t)
    case UpdateToplevelEvent(t) => UpdateToplevel(s, t)
    case ToplevelClosedEvent(t) => ToplevelClosed(s, t)
  }

  /** The toplevel a toplevel message is about. */
  function ToplevelOf(u: ToplevelUpdate): ZcosmicHandle
  {
    match u
    case Add(t, _) => t
    case Update(t, _) => t
    case Remove(t) => t
  }

  /** Toplevel messages concern exactly the toplevel of the callback that
      produced them and carry the info library's current information; a new
      toplevel is added, a changed one updated and only a closure removes.
      No callback sends more than one message, and a closure always sends
      one. */
  lemma ToplevelCallbacksConcernTheirToplevel(s: WorkerState, cb: Callback)
    ensures |OnCallback(s, cb)| <= 1
    ensures forall m :: m in OnCallback(s, cb) && m.Toplevel? ==>
      && (cb.NewToplevelEvent? || cb.UpdateToplevelEvent? || cb.ToplevelClosedEvent?)
      && ToplevelOf(m.toplevelUpdate) == cb.toplevel
      && (m.toplevelUpdate.Add? <==> cb.NewToplevelEvent?)
      && (m.toplevelUpdate.Remove? <==> cb.ToplevelClosedEvent?)
      && (!m.toplevelUpdate.Remove? ==> m.toplevelUpdate.info == s.toplevelInfo[cb.toplevel])
    ensures (cb.NewToplevelEvent? || cb.UpdateToplevelEvent?) ==>
      (OnCallback(s, cb) == [] <==> cb.toplevel !in s.toplevelInfo)
    ensures cb.ToplevelClosedEvent? ==> |OnCallback(s, cb)| == 1 && OnCallback(s, cb)[0].Toplevel?
  {
  }

  /** The output an output message is about. */
  function OutputOf(u: OutputUpdate): WlOutput
  {
    match u
    case Add(o, _) => o
    case Update(o, _) => o
    case Remove(o) => o
  }

  /** The same for outputs: output messages concern the output of the
      callback, carry the output library's current information, and only a
      destruction removes, which always sends its message. */
  lemma OutputCallbacksConcernTheirOutput(s: WorkerState, cb: Callback)
    ensures forall m :: m in OnCallback(s, cb) && m.Output? ==>
      && (cb.NewOutputEvent? || cb.UpdateOutputEvent? || cb.OutputDestroyedEvent?)
      && OutputOf(m.outputUpdate) == cb.output
      && (m.outputUpdate.Add? <==> cb.NewOutputEvent?)
      && (m.outputUpdate.Remove? <==> cb.OutputDestroyedEvent?)
      && (!m.outputUpdate.Remove? ==> m.outputUpdate.info == s.outputInfo[cb.output])
    ensures (cb.NewOutputEvent? || cb.UpdateOutputEvent?) ==>
      (OnCallback(s, cb) == [] <==> cb.output !in s.outputInfo)
    ensures cb.OutputDestroyedEvent? ==> |OnCallback(s, cb)| == 1 && OnCallback(s, cb)[0].Output?
  {
  }

  // ---------------------------------------------------------------------
  // Requests

  /** The result of one step of the worker. */
  datatype Step = Step(state: WorkerState, effects: Effects)

  /** The request-channel closure handler of `wayland_handler`. Activation
      needs a seat and uses the first one; minimising and closing are issued
      unconditionally; a token request goes to the activation global when it
      is bound and is answered at once with no token when it is not; a
      closed channel sets the exit flag. */
  function OnChannel(s: WorkerState, ev: ChannelEvent): (r: Step)
    ensures r.state == s.(exit := s.exit || ev.Closed?)
    ensures ev.Closed? ==> r.effects == NoEffects
    ensures ev.Msg? && ev.request.Toplevel? ==> r.effects.sent == []
    ensures ev.Msg? && ev.request.Toplevel? && ev.request.request.Activate? ==>
      r.effects.calls == if |s.seats| > 0 then [ManagerActivate(ev.request.request.toplevel, s.seats[0])] else []
    ensures ev.Msg? && ev.request.Toplevel? && ev.request.request.Minimize? ==>
      r.effects.calls == [ManagerSetMinimized(ev.request.request.toplevel)]
    ensures ev.Msg? && ev.request.Toplevel? && ev.request.request.Quit? ==>
      r.effects.calls == [ManagerClose(ev.request.request.toplevel)]
    ensures ev.Msg? && ev.request.TokenRequest? && !s.activationBound ==>
      r.effects == Effects([ActivationToken(None, Some(ev.request.appId), ev.request.exec, ev.request.gpuIdx)], [])
    ensures ev.Msg? && ev.request.TokenRequest? && s.activationBound ==>
      && r.effects.sent == []
      && |r.effects.calls| == 1 && r.effects.calls[0].RequestTokenWithData?
      && r.effects.calls[0].request.data.appId == Some(ev.request.appId)
      && r.effects.calls[0].request.data.surface.None?
      && r.effects.calls[0].request.data.seatAndSerial == (if |s.seats| > 0 then Some((s.seats[0], 0)) else None)
  {
    match ev
    case Closed => Step(s.(exit := true), NoEffects)
    case Msg(req) =>
      match req
      case Toplevel(treq) =>
        var calls := match treq
          case Activate(t) => if |s.seats| > 0 then [ManagerActivate(t, s.seats[0])] else []
          case Minimize(t) => [ManagerSetMinimized(t)]
          case Quit(t) => [ManagerClose(t)];
        Step(s, Effects([], calls))
      case TokenRequest(appId, exec, gpuIdx) =>
        if s.activationBound then
          var seat := if |s.seats| > 0 then Some((s.seats[0], 0)) else None;
          var data := RequestData(Some(appId), seat, None);
          Step(s, Effects([], [RequestTokenWithData(ExecRequestData(data, exec, gpuIdx))]))
        else
          Step(s, Effects([ActivationToken(None, Some(appId), exec, gpuIdx)], []))
  }

  /** Whatever the activation global's state, a token request ends in exactly
      one `ActivationToken` message carrying the request's application id,
      command line and GPU index: at once and without a token when the global
      is unbound, or with the granted token once it arrives. */
  lemma TokenRequestIsAnswered(s: WorkerState, appId: string, exec: string, gpuIdx: Option<nat>, token: string)
    ensures var r := OnChannel(s, Msg(TokenRequest(appId, exec, gpuIdx)));
      var answer := if s.activationBound then NewToken(r.state, token, r.effects.calls[0].request) else r.effects.sent;
      && |answer| == 1 && answer[0].ActivationToken?
      && answer[0].appId == Some(appId) && answer[0].exec == exec && answer[0].gpuIdx == gpuIdx
      && (answer[0].token.Some? <==> s.activationBound)
  {
  }

  // ---------------------------------------------------------------------
  // The dispatch loop

  /** Something delivered during one dispatch of the event loop. */
  datatype LoopEvent = Wayland(callback: Callback) | Channel(event: ChannelEvent)

  function OnLoopEvent(s: WorkerState, ev: LoopEvent): Step
  {
    match ev
    case Wayland(cb) => Step(s, Effects(OnCallback(s, cb), []))
    case Channel(ce) => OnChannel(s, ce)
  }

  /** The batch closes the request channel. */
  predicate Closes(batch: seq<LoopEvent>)
  {
    Channel(Closed) in batch
  }

  /** One `event_loop.dispatch`: handles a batch of events in order. Only the
      exit flag changes, and it ends set exactly when it was set before or
      the batch closes the request channel. The worker never sends `Init` or
      `Finished` itself. */
  function DispatchBatch(s: WorkerState, batch: seq<LoopEvent>): (r: Step)
    ensures r.state == s.(exit := r.state.exit)
    ensures r.state.exit <==> s.exit || Closes(batch)
    ensures forall m :: m in r.effects.sent ==> !m.Init? && !m.Finished?
    decreases |batch|
  {
    if |batch| == 0 then Step(s, NoEffects)
    else
      var first := OnLoopEvent(s, batch[0]);
      var rest := DispatchBatch(first.state, batch[1..]);
      assert batch == [batch[0]] + batch[1..];
      Step(rest.state, Then(first.effects, rest.effects))
  }

  /** What one call of `event_loop.dispatch` does: it delivers `events` and
      returns `Ok`, or it delivers `events` and then returns an error, which
      the `unwrap` turns into a panic of the worker thread. */
  datatype Dispatch = Delivered(events: seq<LoopEvent>) | Fails(events: seq<LoopEvent>)

  /** Where the loop stopped: the last state, everything sent and called, how
      many dispatches were performed, and whether the last one panicked. */
  datatype Run = Run(state: WorkerState, effects: Effects, dispatched: nat, panicked: bool)

  /** The worker's loop: before every dispatch it tests the exit flag and
      stops once it is set; a failing dispatch panics and ends the worker.
      `ds` lists what successive dispatches would do. Dispatching goes on
      exactly up to and including the first dispatch that closes the
      request channel or fails; the worker never sends `Init` or
      `Finished` itself. */
  function RunLoop(s: WorkerState, ds: seq<Dispatch>): (r: Run)
    ensures r.dispatched <= |ds|
    ensures s.exit ==> r.dispatched == 0 && r.effects == NoEffects && !r.panicked
    ensures r.panicked <==> r.dispatched > 0 && ds[r.dispatched - 1].Fails?
    ensures r.dispatched < |ds| && !r.panicked ==> r.state.exit
    ensures !s.exit ==> forall i :: 0 <= i < r.dispatched - 1 ==> ds[i].Delivered? && !Closes(ds[i].events)
    ensures !s.exit && r.dispatched < |ds| ==>
      r.dispatched > 0 && (r.panicked || Closes(ds[r.dispatched - 1].events))
    ensures forall m :: m in r.effects.sent ==> !m.Init? && !m.Finished?
    decreases |ds|
  {
    if s.exit || |ds| == 0 then Run(s, NoEffects, 0, false)
    else
      var d := DispatchBatch(s, ds[0].events);
      if ds[0].Fails? then Run(d.state, d.effects, 1, true)
      else
        var rest := RunLoop(d.state, ds[1..]);
        assert forall i :: 1 <= i < |ds| ==> ds[i] == ds[1..][i - 1];
        Run(rest.state, Then(d.effects, rest.effects), rest.dispatched + 1, rest.panicked)
  }

  /** Reference for what a run sends and calls: the effects of each
      dispatch's events handled from the same starting state, one dispatch
      after another. */
  function AllEffects(s: WorkerState, ds: seq<Dispatch>): Effects
  {
    if |ds| == 0 then NoEffects
    else Then(DispatchBatch(s, ds[0].events).effects, AllEffects(s, ds[1..]))
  }

  /** A run's effects are exactly those of the dispatches it performed, in
      order, each handled as if from the starting state: dispatches only
      change the exit flag, and no handler reads it. */
  lemma {:induction false} RunLoopEffects(s: WorkerState, ds: seq<Dispatch>)
    requires !s.exit
    ensures RunLoop(s, ds).effects == AllEffects(s, ds[..RunLoop(s, ds).dispatched])
    decreases |ds|
  {
    var r := RunLoop(s, ds);
    if |ds| > 0 {
      var d := DispatchBatch(s, ds[0].events);
      assert ds[..1][1..] == [];
      if ds[0].Fails? || d.state.exit {
        assert AllEffects(s, ds[..1]) == Then(d.effects, NoEffects);
        assert Then(d.effects, NoEffects) == d.effects;
      } else {
        assert d.state == s;
        var rest := RunLoop(s, ds[1..]);
        RunLoopEffects(s, ds[1..]);
        var k := rest.dispatched;
        assert ds[..k + 1][0] == ds[0];
        assert ds[..k + 1][1..] == ds[1..][..k];
      }
    }
  }
}
