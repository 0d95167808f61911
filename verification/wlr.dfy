/** Normalisation of the wlr-foreign-toplevel-management-unstable-v1
    protocol's events into the shell's toplevel event vocabulary. */
module Wlr {
  import opened Wrappers
  import opened Handles
  import opened StateArray
  import TE = ToplevelEvents

  /** Entries of the protocol's `zwlr_foreign_toplevel_handle_v1.state` enum. */
  datatype WireState = Maximized | Minimized | Activated | Fullscreen

  /** The protocol value of each entry. */
  function StateValue(s: WireState): nat
  {
    match s
    case Maximized => 0
    case Minimized => 1
    case Activated => 2
    case Fullscreen => 3
  }

  /** `State::try_from(u32)`: accepts exactly the values the protocol defines. */
  function StateTryFrom(v: nat): (r: Option<WireState>)
    ensures forall s :: r == Some(s) <==> StateValue(s) == v
  {
    if v == 0 then Some(Maximized)
    else if v == 1 then Some(Minimized)
    else if v == 2 then Some(Activated)
    else if v == 3 then Some(Fullscreen)
    else None
  }

  /** The `From<State> for ToplevelState` impl. Every entry of this enum has
      an arm, so its `todo!()` arm is never reached. */
  function StateFrom(s: WireState): (t: TE.ToplevelState)
  {
    match s
    case Maximized => TE.Maximized
    case Minimized => TE.Minimized
    case Activated => TE.Activated
    case Fullscreen => TE.Fullscreen
  }

  /** The wire entry an internal state comes from. */
  function StateTo(t: TE.ToplevelState): (s: WireState)
  {
    match t
    case Maximized => Maximized
    case Minimized => Minimized
    case Activated => Activated
    case Fullscreen => Fullscreen
  }

  /** The four entries map one-to-one onto the shell's four states. */
  lemma StateFromIsBijective(s: WireState, t: TE.ToplevelState)
    ensures StateTo(StateFrom(s)) == s
    ensures StateFrom(StateTo(t)) == t
    ensures StateFrom(s) == t <==> s == StateTo(t)
  {
  }

  /** The protocol value that carries an internal state. */
  function InternalValue(t: TE.ToplevelState): nat
  {
    StateValue(StateTo(t))
  }

  function Convert(s: WireState): Result<TE.ToplevelState>
  {
    Success(StateFrom(s))
  }

  /** Decodes the `state` array argument. A state is in the result exactly
      when some whole word of the payload carries its protocol value; other
      words are skipped and a trailing partial word is ignored. */
  function DecodeState(payload: seq<byte>, order: ByteOrder): (r: set<TE.ToplevelState>)
    ensures forall t :: t in r <==> InternalValue(t) in Words(payload, order)
  {
    var ws := Words(payload, order);
    var d := DecodeWords(ws, StateTryFrom, Convert);
    if d.Success? then
      assert forall t :: t in d.value <==> InternalValue(t) in ws by {
        forall t ensures t in d.value <==> InternalValue(t) in ws {
          StateFromIsBijective(StateTo(t), t);
          if InternalValue(t) in ws {
            var i :| 0 <= i < |ws| && ws[i] == InternalValue(t);
            assert Yields(ws[i], StateTryFrom, Convert, t);
          }
        }
      }
      d.value
    else
      {}
  }

  /** The payload a compositor sends for a set of states: one word per state,
      in enum order. */
  function EncodeState(ts: set<TE.ToplevelState>, order: ByteOrder): (payload: seq<byte>)
  {
    EncodeWords(StateValues(ts), order)
  }

  function StateValues(ts: set<TE.ToplevelState>): (ws: seq<nat>)
    ensures forall i :: 0 <= i < |ws| ==> ws[i] < 4
    ensures forall t :: t in ts <==> InternalValue(t) in ws
  {
    (if TE.Maximized in ts then [0] else [])
    + (if TE.Minimized in ts then [1] else [])
    + (if TE.Activated in ts then [2] else [])
    + (if TE.Fullscreen in ts then [3] else [])
  }

  /** Decoding what a compositor encodes gives back the same set of states. */
  lemma DecodeEncodeState(ts: set<TE.ToplevelState>, order: ByteOrder)
    ensures DecodeState(EncodeState(ts, order), order) == ts
  {
    WordsOfEncodeWords(StateValues(ts), order);
  }

  /** A word with no protocol meaning among valid ones is dropped and the
      valid ones are still decoded: the words activated, any unknown value,
      maximized give exactly {Activated, Maximized}. */
  lemma UnknownWordSkipped(ws: seq<nat>, order: ByteOrder)
    requires |ws| == 3 && ws[0] == 2 && ws[2] == 0
    requires 4 <= ws[1] < WORD_LIMIT
    ensures DecodeState(EncodeWords(ws, order), order) == {TE.Activated, TE.Maximized}
  {
    DecodeEncodedWords(ws, order);
    StatesOfActivatedUnknownMaximized(ws, DecodeState(EncodeWords(ws, order), order));
  }

  lemma StatesOfActivatedUnknownMaximized(ws: seq<nat>, r: set<TE.ToplevelState>)
    requires |ws| == 3 && ws[0] == 2 && ws[2] == 0 && 4 <= ws[1]
    requires forall t :: t in r <==> InternalValue(t) in ws
    ensures r == {TE.Activated, TE.Maximized}
  {
    forall t
      ensures t in r <==> t in {TE.Activated, TE.Maximized}
    {
      assert InternalValue(t) in ws <==> InternalValue(t) == ws[0] || InternalValue(t) == ws[1] || InternalValue(t) == ws[2];
    }
  }

  /** Decoding an encoded word sequence keeps exactly the states whose
      protocol value occurs among the words. */
  lemma DecodeEncodedWords(ws: seq<nat>, order: ByteOrder)
    requires forall i :: 0 <= i < |ws| ==> ws[i] < WORD_LIMIT
    ensures forall t :: t in DecodeState(EncodeWords(ws, order), order) <==> InternalValue(t) in ws
  {
    WordsOfEncodeWords(ws, order);
  }

  /** Bytes after the last whole word do not change the decoded state. */
  lemma DecodeIgnoresPartialWord(payload: seq<byte>, tail: seq<byte>, order: ByteOrder)
    requires |payload| % 4 == 0
    requires |tail| < 4
    ensures DecodeState(payload + tail, order) == DecodeState(payload, order)
  {
    PartialWordIgnored(payload, tail, order);
  }

  /** Word order and repeated words do not change the decoded state. */
  lemma DecodeIgnoresOrderAndDuplicates(p: seq<byte>, q: seq<byte>, order: ByteOrder)
    requires forall x :: x in Words(p, order) <==> x in Words(q, order)
    ensures DecodeState(p, order) == DecodeState(q, order)
  {
    var a := DecodeState(p, order);
    var b := DecodeState(q, order);
    assert forall t :: t in a <==> t in b;
  }

  /** Events of `zwlr_foreign_toplevel_handle_v1`. The generated enum is
      non-exhaustive; `Unlisted` stands for any variant beyond the protocol's
      listed events. */
  datatype HandleEvent =
    | Title(title: string)
    | AppId(appId: string)
    | OutputEnter(output: WlOutput)
    | OutputLeave(output: WlOutput)
    | State(state: seq<byte>)
    | Done
    | Closed
    | Parent(parent: Option<ZwlrHandle>)
    | Unlisted

  /** The `From<Event> for ToplevelHandleEvent` impl. */
  function NormaliseHandleEvent(e: HandleEvent, order: ByteOrder): (r: Result<TE.ToplevelHandleEvent>)
    ensures r.Failure? <==> e.Unlisted?
    ensures r.Success? && r.value.State? <==> e.State?
    ensures e.State? ==> r == Success(TE.State(DecodeState(e.state, order)))
    ensures r == Success(TE.None) <==> e.Parent?
  {
    match e
    case Title(title) => Success(TE.Title(title))
    case AppId(appId) => Success(TE.AppId(appId))
    case OutputEnter(output) => Success(TE.OutputEnter(output))
    case OutputLeave(output) => Success(TE.OutputLeave(output))
    case State(state) => Success(TE.State(DecodeState(state, order)))
    case Done => Success(TE.Done)
    case Closed => Success(TE.Closed)
    case Parent(_) => Success(TE.None)
    case Unlisted => Failure(Todo)
  }

  /** The wire event a compositor sends to report an internal event; the
      no-op `None` event has no wire form of its own. */
  function WireHandleEvent(ev: TE.ToplevelHandleEvent, order: ByteOrder): (e: Option<HandleEvent>)
  {
    match ev
    case Title(title) => Some(Title(title))
    case AppId(appId) => Some(AppId(appId))
    case OutputEnter(output) => Some(OutputEnter(output))
    case OutputLeave(output) => Some(OutputLeave(output))
    case State(state) => Some(State(EncodeState(state, order)))
    case Done => Some(Done)
    case Closed => Some(Closed)
    case None => None
  }

  /** Normalisation loses nothing: every internal event except the no-op one
      is recovered, payload and all, from its wire form. */
  lemma NormaliseRoundTrip(ev: TE.ToplevelHandleEvent, order: ByteOrder)
    ensures WireHandleEvent(ev, order).Some? <==> !ev.None?
    ensures !ev.None? ==> NormaliseHandleEvent(WireHandleEvent(ev, order).value, order) == Success(ev)
  {
    if ev.State? {
      DecodeEncodeState(ev.state, order);
    }
  }

  /** Wire events other than `state`, `parent` and unlisted ones come back
      unchanged from their normal form. */
  lemma WireRoundTrip(e: HandleEvent, order: ByteOrder)
    requires !e.State? && !e.Parent? && !e.Unlisted?
    ensures WireHandleEvent(NormaliseHandleEvent(e, order).value, order) == Some(e)
  {
  }

  /** Events of `zwlr_foreign_toplevel_manager_v1`, with `Unlisted` standing
      for the non-exhaustive remainder. */
  datatype ManagerEvent = Toplevel(toplevel: ZwlrHandle) | Finished | Unlisted

  /** The `From<Event> for ToplevelManagerEvent` impl. */
  function NormaliseManagerEvent(e: ManagerEvent): (r: Result<TE.ToplevelManagerEvent>)
    ensures r.Failure? <==> e.Unlisted?
    ensures r.Success? && r.value.Toplevel? <==> e.Toplevel?
    ensures e.Toplevel? ==> r.value.handle == TE.Zwlr(e.toplevel)
    ensures e.Finished? ==> r == Success(TE.Finished)
  {
    match e
    case Toplevel(toplevel) => Success(TE.Toplevel(TE.Zwlr(toplevel)))
    case Finished => Success(TE.Finished)
    case Unlisted => Failure(Todo)
  }

  /** The manager event a compositor sends to report an internal manager
      event; a COSMIC handle has no wlr wire form. */
  function WireManagerEvent(ev: TE.ToplevelManagerEvent): (e: Option<ManagerEvent>)
  {
    match ev
    case Toplevel(handle) => if handle.Zwlr? then Some(Toplevel(handle.zwlr)) else None
    case Finished => Some(Finished)
  }

  /** Manager events and the internal manager events with a wlr handle
      correspond one to one: each direction undoes the other. */
  lemma ManagerRoundTrip(e: ManagerEvent, ev: TE.ToplevelManagerEvent)
    ensures !e.Unlisted? ==> WireManagerEvent(NormaliseManagerEvent(e).value) == Some(e)
    ensures WireManagerEvent(ev).Some? <==> !(ev.Toplevel? && ev.handle.Zcosmic?)
    ensures WireManagerEvent(ev).Some? ==> NormaliseManagerEvent(WireManagerEvent(ev).value) == Success(ev)
  {
  }

  /** `Dispatch::event` for a toplevel handle: the normalised event goes to
      the registry together with the handle that produced it. */
  function DispatchHandle(toplevel: ZwlrHandle, e: HandleEvent, order: ByteOrder): (r: Result<TE.RegistryCall>)
    ensures r.Failure? <==> e.Unlisted?
    ensures r.Success? ==>
      && r.value.HandleEvent?
      && r.value.handle == TE.Zwlr(toplevel)
      && NormaliseHandleEvent(e, order) == Success(r.value.event)
  {
    var ev :- NormaliseHandleEvent(e, order);
    Success(TE.HandleEvent(TE.Zwlr(toplevel), ev))
  }

  /** The forwarder loses nothing: equal registry calls come from the same
      handle and events with the same normal form, and from the very same
      event unless it is a state array (whose bytes the set forgets) or a
      parent event (which normalises to the no-op). */
  lemma DispatchHandleInjective(t1: ZwlrHandle, e1: HandleEvent, t2: ZwlrHandle, e2: HandleEvent, order: ByteOrder)
    requires DispatchHandle(t1, e1, order).Success?
    requires DispatchHandle(t1, e1, order) == DispatchHandle(t2, e2, order)
    ensures t1 == t2
    ensures NormaliseHandleEvent(e1, order) == NormaliseHandleEvent(e2, order)
    ensures !e1.State? && !e1.Parent? ==> e1 == e2
  {
    if !e1.State? && !e1.Parent? {
      WireRoundTrip(e1, order);
      WireRoundTrip(e2, order);
    }
  }

  /** `Dispatch::event` for the manager: the normalised event goes to the
      registry's manager entry point. */
  function DispatchManager(e: ManagerEvent): (r: Result<TE.RegistryCall>)
    ensures r.Failure? <==> e.Unlisted?
    ensures r.Success? ==>
      && r.value.ManagerEvent?
      && NormaliseManagerEvent(e) == Success(r.value.managerEvent)
  {
    var ev :- NormaliseManagerEvent(e);
    Success(TE.ManagerEvent(ev))
  }

  /** Distinct manager events give distinct registry calls. */
  lemma DispatchManagerInjective(e1: ManagerEvent, e2: ManagerEvent)
    requires DispatchManager(e1).Success?
    requires DispatchManager(e1) == DispatchManager(e2)
    ensures e1 == e2
  {
    ManagerRoundTrip(e1, DispatchManager(e1).value.managerEvent);
    ManagerRoundTrip(e2, DispatchManager(e2).value.managerEvent);
  }
}
