/** Normalisation of the COSMIC toplevel-info protocol's events into the
    shell's toplevel event vocabulary. */
module Cosmic {
  import opened Wrappers
  import opened Handles
  import opened StateArray
  import TE = ToplevelEvents

  /** Entries of the generated `zcosmic_toplevel_handle_v1::State` enum: the
      four states the shell maps, and `Unmapped(value)` for any further entry
      the enum defines. Which further values exist depends on the protocol
      revision the bindings were generated from, so they are a parameter
      `extra` of the decoding functions below rather than a fixed list. */
  datatype WireState = Maximized | Minimized | Activated | Fullscreen | Unmapped(value: nat)

  /** The protocol value of each entry. */
  function StateValue(s: WireState): nat
  {
    match s
    case Maximized => 0
    case Minimized => 1
    case Activated => 2
    case Fullscreen => 3
    case Unmapped(value) => value
  }

  /** Value `v` is an entry of the generated enum beyond the four mapped ones. */
  predicate IsUnmappedValue(v: nat, extra: set<nat>)
  {
    v >= 4 && v in extra
  }

  /** An entry the generated enum really has, given its further values `extra`. */
  predicate IsEntry(s: WireState, extra: set<nat>)
  {
    s.Unmapped? ==> IsUnmappedValue(s.value, extra)
  }

  /** `State::try_from(u32)`: accepts exactly the values the generated enum
      defines. */
  function StateTryFrom(v: nat, extra: set<nat>): (r: Option<WireState>)
    ensures forall s :: r == Some(s) <==> IsEntry(s, extra) && StateValue(s) == v
  {
    if v == 0 then Some(Maximized)
    else if v == 1 then Some(Minimized)
    else if v == 2 then Some(Activated)
    else if v == 3 then Some(Fullscreen)
    else if v in extra then Some(Unmapped(v))
    else None
  }

  /** `State::try_from` as the function value the shared decoding loop takes. */
  function TryFromIn(extra: set<nat>): nat -> Option<WireState>
  {
    (v: nat) => StateTryFrom(v, extra)
  }

  /** The `From<State> for ToplevelState` impl: the four shared states map
      one-to-one; any other entry reaches `todo!()`. */
  function StateFrom(s: WireState): (r: Result<TE.ToplevelState>)
    ensures r.Failure? <==> s.Unmapped?
    ensures r.Failure? ==> r.panic == Todo
  {
    match s
    case Maximized => Success(TE.Maximized)
    case Minimized => Success(TE.Minimized)
    case Activated => Success(TE.Activated)
    case Fullscreen => Success(TE.Fullscreen)
    case Unmapped(_) => Failure(Todo)
  }

  /** The wire entry an internal state comes from. */
  function StateTo(t: TE.ToplevelState): (s: WireState)
  {
    match t
    case Maximized => Maximized
    case Minimized => Minimized
    case Activated => Activated
    case Fullscreen => Fullscreen
  }

  /** The four shared entries map one-to-one onto the shell's four states. */
  lemma StateFromIsBijective(s: WireState, t: TE.ToplevelState)
    ensures !StateTo(t).Unmapped?
    ensures StateFrom(StateTo(t)) == Success(t)
    ensures !s.Unmapped? ==> StateFrom(s).Success? && StateTo(StateFrom(s).value) == s
    ensures StateFrom(s) == Success(t) <==> s == StateTo(t)
  {
  }

  /** The protocol value that carries an internal state. */
  function InternalValue(t: TE.ToplevelState): nat
  {
    StateValue(StateTo(t))
  }

  /** Decodes the `state` array argument. Decoding panics exactly when some
      whole word carries an entry beyond the four mapped ones; otherwise a
      state is in the result exactly when some whole word carries its
      protocol value, values the enum lacks are skipped, and a trailing
      partial word is ignored. */
  function DecodeState(payload: seq<byte>, order: ByteOrder, extra: set<nat>): (r: Result<set<TE.ToplevelState>>)
    ensures r.Failure? <==> exists w :: w in Words(payload, order) && IsUnmappedValue(w, extra)
    ensures r.Failure? ==> r.panic == Todo
    ensures r.Success? ==> forall t :: t in r.value <==> InternalValue(t) in Words(payload, order)
  {
    DecodeStateWords(Words(payload, order), extra);
    DecodeWords(Words(payload, order), TryFromIn(extra), StateFrom)
  }

  /** What the shared decoding loop yields with this protocol's enum. */
  lemma DecodeStateWords(ws: seq<nat>, extra: set<nat>)
    ensures DecodeWords(ws, TryFromIn(extra), StateFrom).Failure? <==>
      exists w :: w in ws && IsUnmappedValue(w, extra)
    ensures DecodeWords(ws, TryFromIn(extra), StateFrom).Failure? ==>
      DecodeWords(ws, TryFromIn(extra), StateFrom).panic == Todo
    ensures DecodeWords(ws, TryFromIn(extra), StateFrom).Success? ==>
      forall t :: t in DecodeWords(ws, TryFromIn(extra), StateFrom).value <==> InternalValue(t) in ws
  {
    var tryFrom := TryFromIn(extra);
    var d := DecodeWords(ws, tryFrom, StateFrom);
    if exists w :: w in ws && IsUnmappedValue(w, extra) {
      var w :| w in ws && IsUnmappedValue(w, extra);
      var i :| 0 <= i < |ws| && ws[i] == w;
      assert tryFrom(w) == Some(Unmapped(w));
      assert Panics(ws[i], tryFrom, StateFrom);
    }
    if d.Failure? {
      var i :| 0 <= i < |ws| && Panics(ws[i], tryFrom, StateFrom);
      assert IsUnmappedValue(ws[i], extra);
    }
    if d.Success? {
      forall t
        ensures t in d.value <==> InternalValue(t) in ws
      {
        StateFromIsBijective(StateTo(t), t);
        if InternalValue(t) in ws {
          var i :| 0 <= i < |ws| && ws[i] == InternalValue(t);
          assert Yields(ws[i], tryFrom, StateFrom, t);
        }
        if t in d.value {
          var i :| 0 <= i < |ws| && Yields(ws[i], tryFrom, StateFrom, t);
          StateFromIsBijective(tryFrom(ws[i]).value, t);
        }
      }
    }
  }

  /** The payload a compositor sends for a set of the shell's states: one
      word per state, in enum order. */
  function EncodeState(ts: set<TE.ToplevelState>, order: ByteOrder): (payload: seq<byte>)
  {
    EncodeWords(StateValues(ts), order)
  }

  function StateValues(ts: set<TE.ToplevelState>): (ws: seq<nat>)
    ensures forall i :: 0 <= i < |ws| ==> ws[i] < 4
    ensures forall t :: t in ts <==> InternalValue(t) in ws
  {
    (if TE.Maximized in ts then [0] else [])
    + (if TE.Minimized in ts then [1] else [])
    + (if TE.Activated in ts then [2] else [])
    + (if TE.Fullscreen in ts then [3] else [])
  }

  /** Decoding what a compositor encodes gives back the same set of states,
      whatever further entries the enum has. */
  lemma DecodeEncodeState(ts: set<TE.ToplevelState>, order: ByteOrder, extra: set<nat>)
    ensures DecodeState(EncodeState(ts, order), order, extra) == Success(ts)
  {
    WordsOfEncodeWords(StateValues(ts), order);
    var r := DecodeState(EncodeState(ts, order), order, extra);
    assert r.value == ts;
  }

  /** A word the enum does not define is dropped among valid ones and the
      valid ones are still decoded: the words activated, any value the enum
      lacks, maximized give exactly {Activated, Maximized}. */
  lemma UnknownWordSkipped(ws: seq<nat>, order: ByteOrder, extra: set<nat>)
    requires |ws| == 3 && ws[0] == 2 && ws[2] == 0
    requires 4 <= ws[1] < WORD_LIMIT && ws[1] !in extra
    ensures DecodeState(EncodeWords(ws, order), order, extra) == Success({TE.Activated, TE.Maximized})
  {
    assert ws == [ws[0], ws[1], ws[2]];
    assert forall w :: w in ws ==> !IsUnmappedValue(w, extra);
    DecodeEncodedWords(ws, order, extra);
    var r := DecodeState(EncodeWords(ws, order), order, extra);
    StatesOfActivatedUnknownMaximized(ws, r.value);
  }

  /** Decoding an encoded word sequence panics exactly when an entry beyond
      the mapped four occurs and otherwise keeps exactly the states whose
      value occurs. */
  lemma DecodeEncodedWords(ws: seq<nat>, order: ByteOrder, extra: set<nat>)
    requires forall i :: 0 <= i < |ws| ==> ws[i] < WORD_LIMIT
    ensures DecodeState(EncodeWords(ws, order), order, extra).Failure? <==>
      exists w :: w in ws && IsUnmappedValue(w, extra)
    ensures DecodeState(EncodeWords(ws, order), order, extra).Success? ==>
      forall t :: t in DecodeState(EncodeWords(ws, order), order, extra).value <==> InternalValue(t) in ws
  {
    WordsOfEncodeWords(ws, order);
  }

  lemma StatesOfActivatedUnknownMaximized(ws: seq<nat>, r: set<TE.ToplevelState>)
    requires |ws| == 3 && ws[0] == 2 && ws[2] == 0 && 4 <= ws[1]
    requires forall t :: t in r <==> InternalValue(t) in ws
    ensures r == {TE.Activated, TE.Maximized}
  {
    forall t
      ensures t in r <==> t in {TE.Activated, TE.Maximized}
    {
      assert InternalValue(t) in ws <==> InternalValue(t) == ws[0] || InternalValue(t) == ws[1] || InternalValue(t) == ws[2];
    }
  }

  /** Bytes after the last whole word do not change the decoded state. */
  lemma DecodeIgnoresPartialWord(payload: seq<byte>, tail: seq<byte>, order: ByteOrder, extra: set<nat>)
    requires |payload| % 4 == 0
    requires |tail| < 4
    ensures DecodeState(payload + tail, order, extra) == DecodeState(payload, order, extra)
  {
    PartialWordIgnored(payload, tail, order);
  }

  /** Word order and repeated words do not change the decoded state. */
  lemma DecodeIgnoresOrderAndDuplicates(p: seq<byte>, q: seq<byte>, order: ByteOrder, extra: set<nat>)
    requires forall x :: x in Words(p, order) <==> x in Words(q, order)
    ensures DecodeState(p, order, extra) == DecodeState(q, order, extra)
  {
    var a := DecodeState(p, order, extra);
    var b := DecodeState(q, order, extra);
    if a.Success? {
      assert forall t :: t in a.value <==> t in b.value;
      assert a.value == b.value;
    }
  }

  /** Events of `zcosmic_toplevel_handle_v1`. The generated enum is
      non-exhaustive; `Unlisted` stands for any variant beyond these. */
  datatype HandleEvent =
    | Closed
    | Done
    | Title(title: string)
    | AppId(appId: string)
    | OutputEnter(output: WlOutput)
    | OutputLeave(output: WlOutput)
    | WorkspaceEnter(workspace: WorkspaceHandle)
    | WorkspaceLeave(workspace: WorkspaceHandle)
    | State(state: seq<byte>)
    | Unlisted

  /** The `From<Event> for ToplevelHandleEvent` impl. Workspace membership
      events are not ignored: they reach `todo!()`. */
  function NormaliseHandleEvent(e: HandleEvent, order: ByteOrder, extra: set<nat>): (r: Result<TE.ToplevelHandleEvent>)
    ensures r.Failure? <==>
      e.WorkspaceEnter? || e.WorkspaceLeave? || e.Unlisted?
      || (e.State? && exists w :: w in Words(e.state, order) && IsUnmappedValue(w, extra))
    ensures r.Success? && r.value.State? <==> e.State? && forall w :: w in Words(e.state, order) ==> !IsUnmappedValue(w, extra)
    ensures r.Success? ==> !r.value.None?
    ensures e.State? ==> r == (var d := DecodeState(e.state, order, extra); if d.Success? then Success(TE.State(d.value)) else Failure(d.panic))
  {
    match e
    case Closed => Success(TE.Closed)
    case Done => Success(TE.Done)
    case Title(title) => Success(TE.Title(title))
    case AppId(appId) => Success(TE.AppId(appId))
    case OutputEnter(output) => Success(TE.OutputEnter(output))
    case OutputLeave(output) => Success(TE.OutputLeave(output))
    case WorkspaceEnter(_) => Failure(Todo)
    case WorkspaceLeave(_) => Failure(Todo)
    case State(state) =>
      var ts :- DecodeState(state, order, extra);
      Success(TE.State(ts))
    case Unlisted => Failure(Todo)
  }

  /** The wire event a compositor sends to report an internal event; the
      no-op `None` event has no wire form. */
  function WireHandleEvent(ev: TE.ToplevelHandleEvent, order: ByteOrder): (e: Option<HandleEvent>)
  {
    match ev
    case Title(title) => Some(Title(title))
    case AppId(appId) => Some(AppId(appId))
    case OutputEnter(output) => Some(OutputEnter(output))
    case OutputLeave(output) => Some(OutputLeave(output))
    case State(state) => Some(State(EncodeState(state, order)))
    case Done => Some(Done)
    case Closed => Some(Closed)
    case None => None
  }

  /** Normalisation loses nothing: every internal event except the no-op one
      is recovered, payload and all, from its wire form. */
  lemma NormaliseRoundTrip(ev: TE.ToplevelHandleEvent, order: ByteOrder, extra: set<nat>)
    ensures WireHandleEvent(ev, order).Some? <==> !ev.None?
    ensures !ev.None? ==> NormaliseHandleEvent(WireHandleEvent(ev, order).value, order, extra) == Success(ev)
  {
    if ev.State? {
      DecodeEncodeState(ev.state, order, extra);
    }
  }

  /** Wire events that carry no state array and are not workspace or
      unlisted events come back unchanged from their normal form. */
  lemma WireRoundTrip(e: HandleEvent, order: ByteOrder, extra: set<nat>)
    requires !e.State? && !e.WorkspaceEnter? && !e.WorkspaceLeave? && !e.Unlisted?
    ensures WireHandleEvent(NormaliseHandleEvent(e, order, extra).value, order) == Some(e)
  {
  }

  /** Events of `zcosmic_toplevel_info_v1`, with `Unlisted` standing for the
      non-exhaustive remainder. */
  datatype InfoEvent = Toplevel(toplevel: ZcosmicHandle) | Finished | Unlisted

  /** The `From<Event> for ToplevelManagerEvent` impl. */
  function NormaliseInfoEvent(e: InfoEvent): (r: Result<TE.ToplevelManagerEvent>)
    ensures r.Failure? <==> e.Unlisted?
    ensures r.Success? && r.value.Toplevel? <==> e.Toplevel?
    ensures e.Toplevel? ==> r.value.handle == TE.Zcosmic(e.toplevel)
    ensures e.Finished? ==> r == Success(TE.Finished)
  {
    match e
    case Toplevel(toplevel) => Success(TE.Toplevel(TE.Zcosmic(toplevel)))
    case Finished => Success(TE.Finished)
    case Unlisted => Failure(Todo)
  }

  /** The info event a compositor sends to report an internal manager
      event; a wlr handle has no COSMIC wire form. */
  function WireInfoEvent(ev: TE.ToplevelManagerEvent): (e: Option<InfoEvent>)
  {
    match ev
    case Toplevel(handle) => if handle.Zcosmic? then Some(Toplevel(handle.zcosmic)) else None
    case Finished => Some(Finished)
  }

  /** Info events and the manager events with a COSMIC handle correspond one
      to one: each direction undoes the other. */
  lemma InfoRoundTrip(e: InfoEvent, ev: TE.ToplevelManagerEvent)
    ensures !e.Unlisted? ==> WireInfoEvent(NormaliseInfoEvent(e).value) == Some(e)
    ensures WireInfoEvent(ev).Some? <==> !(ev.Toplevel? && ev.handle.Zwlr?)
    ensures WireInfoEvent(ev).Some? ==> NormaliseInfoEvent(WireInfoEvent(ev).value) == Success(ev)
  {
  }

  /** `Dispatch::event` for a toplevel handle: the normalised event goes to
      the registry together with the handle that produced it. */
  function DispatchHandle(toplevel: ZcosmicHandle, e: HandleEvent, order: ByteOrder, extra: set<nat>): (r: Result<TE.RegistryCall>)
    ensures r.Failure? <==> NormaliseHandleEvent(e, order, extra).Failure?
    ensures r.Success? ==>
      && r.value.HandleEvent?
      && r.value.handle == TE.Zcosmic(toplevel)
      && NormaliseHandleEvent(e, order, extra) == Success(r.value.event)
  {
    var ev :- NormaliseHandleEvent(e, order, extra);
    Success(TE.HandleEvent(TE.Zcosmic(toplevel), ev))
  }

  /** The forwarder loses nothing: equal registry calls come from the same
      handle and events with the same normal form, and from the very same
      event unless it is a state array (whose bytes the set forgets). */
  lemma DispatchHandleInjective(t1: ZcosmicHandle, e1: HandleEvent, t2: ZcosmicHandle, e2: HandleEvent, order: ByteOrder, extra: set<nat>)
    requires DispatchHandle(t1, e1, order, extra).Success?
    requires DispatchHandle(t1, e1, order, extra) == DispatchHandle(t2, e2, order, extra)
    ensures t1 == t2
    ensures NormaliseHandleEvent(e1, order, extra) == NormaliseHandleEvent(e2, order, extra)
    ensures !e1.State? ==> e1 == e2
  {
    if !e1.State? {
      WireRoundTrip(e1, order, extra);
      WireRoundTrip(e2, order, extra);
    }
  }

  /** `Dispatch::event` for the info global: the normalised event goes to the
      registry's manager entry point. */
  function DispatchInfo(e: InfoEvent): (r: Result<TE.RegistryCall>)
    ensures r.Failure? <==> e.Unlisted?
    ensures r.Success? ==>
      && r.value.ManagerEvent?
      && NormaliseInfoEvent(e) == Success(r.value.managerEvent)
  {
    var ev :- NormaliseInfoEvent(e);
    Success(TE.ManagerEvent(ev))
  }

  /** Distinct info events give distinct registry calls. */
  lemma DispatchInfoInjective(e1: InfoEvent, e2: InfoEvent)
    requires DispatchInfo(e1).Success?
    requires DispatchInfo(e1) == DispatchInfo(e2)
    ensures e1 == e2
  {
    InfoRoundTrip(e1, DispatchInfo(e1).value.managerEvent);
    InfoRoundTrip(e2, DispatchInfo(e2).value.managerEvent);
  }
}
