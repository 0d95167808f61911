/** The application side of the worker bridge: the subscription that starts
    the worker on first use, forwards what the worker sends, and reports the
    end of the worker's stream once. */
module CosmicSubscription {
  import opened Handles
  import CC = CosmicComp

  /** The state threaded through `start_listening`. */
  datatype State = Waiting | Finished

  /** What awaiting the worker's stream resolves to. */
  datatype Received = Item(message: CC.WaylandMessage) | EndOfStream

  /** After listening: the state reached, whether the shared receiver slot
      is filled, and the messages passed to the application, in order. */
  datatype Listening = Listening(state: State, slotFilled: bool, output: seq<CC.WaylandMessage>)

  /** The `Init` announcement made when the shared receiver slot is found
      empty (and the worker is started with `sender` as its request channel). */
  function InitIfEmpty(slotFilled: bool, sender: RequestSender): seq<CC.WaylandMessage>
  {
    if slotFilled then [] else [CC.Init(sender)]
  }

  /** The position of the first end-of-stream among `items`, or `|items|`. */
  function FirstEnd(items: seq<Received>): (k: nat)
    ensures k <= |items|
    ensures forall i :: 0 <= i < k ==> items[i].Item?
    ensures k < |items| ==> items[k].EndOfStream?
  {
    if |items| == 0 || items[0].EndOfStream? then 0 else 1 + FirstEnd(items[1..])
  }

  /** The messages carried by a run of received items. */
  function Messages(items: seq<Received>): (ms: seq<CC.WaylandMessage>)
    requires forall i :: 0 <= i < |items| ==> items[i].Item?
    ensures |ms| == |items|
    ensures forall i :: 0 <= i < |items| ==> ms[i] == items[i].message
  {
    seq(|items|, i requires 0 <= i < |items| => items[i].message)
  }

  /** `start_listening`, repeated by the subscription's loop, while the
      worker's stream yields `items`. While waiting, each turn first starts
      the worker and sends `Init` if the shared slot is empty, then awaits
      the stream: an item is forwarded, the end of the stream sends
      `Finished` and moves to `Finished`, and a stream with nothing more
      leaves the turn waiting. In `Finished` the loop awaits a future that
      never resolves, so nothing more is sent.

      The output is the `Init` (only if the slot was empty), then exactly the
      items before the first end of stream, in order, then `Finished` if the
      stream ended. */
  function Listen(state: State, slotFilled: bool, items: seq<Received>, sender: RequestSender): (r: Listening)
    ensures state.Finished? ==> r == Listening(Finished, slotFilled, [])
    ensures state.Waiting? ==> r.slotFilled
    ensures state.Waiting? ==> (r.state.Finished? <==> FirstEnd(items) < |items|)
    ensures state.Waiting? ==>
      r.output == InitIfEmpty(slotFilled, sender) + Messages(items[..FirstEnd(items)])
        + (if FirstEnd(items) < |items| then [CC.Finished] else [])
    decreases |items|
  {
    match state
    case Finished => Listening(Finished, slotFilled, [])
    case Waiting =>
      var init := InitIfEmpty(slotFilled, sender);
      if |items| == 0 then Listening(Waiting, true, init)
      else match items[0]
        case EndOfStream => Listening(Finished, true, init + [CC.Finished])
        case Item(m) =>
          var rest := Listen(Waiting, true, items[1..], sender);
          ForwardedAfterItem(items);
          Listening(rest.state, true, init + [m] + rest.output)
  }

  /** The forwarded prefix of a stream starting with an item is that item
      followed by the forwarded prefix of the rest. */
  lemma ForwardedAfterItem(items: seq<Received>)
    requires |items| > 0 && items[0].Item?
    ensures FirstEnd(items) == 1 + FirstEnd(items[1..])
    ensures Messages(items[..FirstEnd(items)]) == [items[0].message] + Messages(items[1..][..FirstEnd(items[1..])])
  {
    var k := FirstEnd(items[1..]);
    assert FirstEnd(items) == 1 + k;
    var a := Messages(items[..1 + k]);
    var b := [items[0].message] + Messages(items[1..][..k]);
    assert |a| == |b|;
    forall i | 0 <= i < |a|
      ensures a[i] == b[i]
    {
      if i > 0 {
        assert items[1..][..k][i - 1] == items[i];
      }
    }
  }

  /** Messages the worker itself sends: never `Init` or `Finished`. */
  predicate FromWorker(items: seq<Received>)
  {
    forall i :: 0 <= i < |items| && items[i].Item? ==> !items[i].message.Init? && !items[i].message.Finished?
  }

  /** `Init` is sent at most once, first, and only when the shared slot was
      empty: a second subscription never starts a second worker. */
  lemma InitAtMostOnce(slotFilled: bool, items: seq<Received>, sender: RequestSender)
    requires FromWorker(items)
    ensures var out := Listen(Waiting, slotFilled, items, sender).output;
      && (forall i :: 0 <= i < |out| && out[i].Init? ==> i == 0 && !slotFilled)
      && (!slotFilled ==> |out| > 0 && out[0] == CC.Init(sender))
  {
    var k := FirstEnd(items);
    var out := Listen(Waiting, slotFilled, items, sender).output;
    var init := InitIfEmpty(slotFilled, sender);
    forall i | 0 <= i < |out| && out[i].Init?
      ensures i == 0 && !slotFilled
    {
    }
  }

  /** `Finished` is sent at most once, as the last message, and exactly when
      the worker's stream ended. */
  lemma FinishedIsLast(slotFilled: bool, items: seq<Received>, sender: RequestSender)
    requires FromWorker(items)
    ensures var r := Listen(Waiting, slotFilled, items, sender);
      && (forall i :: 0 <= i < |r.output| && r.output[i].Finished? ==> i == |r.output| - 1)
      && (r.state.Finished? <==> EndOfStream in items)
      && (r.state.Finished? ==> r.output[|r.output| - 1] == CC.Finished)
  {
    var k := FirstEnd(items);
    var r := Listen(Waiting, slotFilled, items, sender);
    var init := InitIfEmpty(slotFilled, sender);
    forall i | 0 <= i < |r.output| && r.output[i].Finished?
      ensures i == |r.output| - 1
    {
    }
    if EndOfStream in items {
      var j :| 0 <= j < |items| && items[j] == EndOfStream;
      assert k <= j;
    }
  }
}
