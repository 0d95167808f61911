/** Backend selection and message routing of the app tray's compositor
    layer (the configuration-driven variant, with a `None` backend). */
module AppTrayCompositor {
  import opened Wrappers
  import opened Handles

  /** A COSMIC backend value, as `CosmicCompBackend::new()` creates it. */
  type CosmicCompBackend(==)

  /** A message of the COSMIC backend's subscription. */
  type CosmicIncoming(==)

  datatype CompositorBackend = Cosmic(backend: CosmicCompBackend) | None | NotSupported

  datatype WaylandIncoming = Cosmic(incoming: CosmicIncoming) | NotSupported

  /** A window of whichever backend. Equality and hashing are derived, so two
      handles are equal exactly when they wrap the same proxy. */
  datatype WindowHandle = Cosmic(toplevel: ZcosmicHandle) | NotSupported

  datatype WaylandOutgoing = Exec(appId: string, exec: string) | Toggle(window: WindowHandle) | Activate(window: WindowHandle)

  /** The subscription a backend provides. */
  datatype Subscription = CosmicEvents(backend: CosmicCompBackend) | NoSubscription

  /** What a handler returns: work delegated to the COSMIC backend, or no
      command at all. */
  datatype Outcome =
    | NoCommand
    | HandleIncoming(backend: CosmicCompBackend, incoming: CosmicIncoming)
    | HandleOutgoing(backend: CosmicCompBackend, outgoing: WaylandOutgoing)

  /** `CompositorBackend::new`: "COSMIC" selects the COSMIC backend, "none"
      the inert backend, and any other name panics. */
  function NewBackend(compositor: string, created: CosmicCompBackend): (r: Result<CompositorBackend>)
    ensures r.Success? <==> compositor == "COSMIC" || compositor == "none"
    ensures r.Success? ==> (r.value.Cosmic? <==> compositor == "COSMIC")
    ensures r.Success? && r.value.Cosmic? ==> r.value.backend == created
    ensures r.Success? ==> !r.value.NotSupported?
    ensures r.Failure? ==> r.panic == UnsupportedDesktop(Some(compositor))
  {
    if compositor == "COSMIC" then Success(CompositorBackend.Cosmic(created))
    else if compositor == "none" then Success(CompositorBackend.None)
    else Failure(UnsupportedDesktop(Some(compositor)))
  }

  /** The configuration name of a selectable backend. */
  function BackendName(b: CompositorBackend): Wrappers.Option<string>
  {
    match b
    case Cosmic(_) => Some("COSMIC")
    case None => Some("none")
    case NotSupported => Wrappers.None
  }

  /** Naming a selectable backend selects it again. */
  lemma NewBackendOfName(b: CompositorBackend, created: CosmicCompBackend)
    requires !b.NotSupported?
    requires b.Cosmic? ==> b.backend == created
    ensures NewBackend(BackendName(b).value, created) == Success(b)
  {
  }

  /** `wayland_subscription`. */
  function WaylandSubscription(b: CompositorBackend): (r: Result<Subscription>)
    ensures r.Failure? <==> b.NotSupported?
    ensures r.Failure? ==> r.panic == Wrappers.NotSupported
    ensures r.Success? ==> (r.value.NoSubscription? <==> b.None?)
    ensures r.Success? && b.Cosmic? ==> r.value == CosmicEvents(b.backend)
  {
    match b
    case Cosmic(backend) => Success(CosmicEvents(backend))
    case None => Success(NoSubscription)
    case NotSupported => Failure(Wrappers.NotSupported)
  }

  /** `handle_message`. The `None` arm comes before the `NotSupported` arm, so
      the inert backend answers even a `NotSupported` event with no command. */
  function HandleMessage(b: CompositorBackend, incoming: WaylandIncoming): (r: Result<Outcome>)
    ensures r.Failure? <==> b.NotSupported? || (b.Cosmic? && incoming.NotSupported?)
    ensures r.Failure? ==> r.panic == Wrappers.NotSupported
    ensures b.None? ==> r == Success(NoCommand)
    ensures b.Cosmic? && incoming.Cosmic? ==> r == Success(HandleIncoming(b.backend, incoming.incoming))
  {
    match (b, incoming)
    case (Cosmic(backend), Cosmic(evt)) => Success(HandleIncoming(backend, evt))
    case (None, _) => Success(NoCommand)
    case (NotSupported, _) => Failure(Wrappers.NotSupported)
    case (_, NotSupported) => Failure(Wrappers.NotSupported)
  }

  /** `handle_outgoing_message`. */
  function HandleOutgoingMessage(b: CompositorBackend, outgoing: WaylandOutgoing): (r: Result<Outcome>)
    ensures r.Failure? <==> b.NotSupported?
    ensures r.Failure? ==> r.panic == Wrappers.NotSupported
    ensures b.None? ==> r == Success(NoCommand)
    ensures b.Cosmic? ==> r == Success(HandleOutgoing(b.backend, outgoing))
  {
    match b
    case Cosmic(backend) => Success(HandleOutgoing(backend, outgoing))
    case None => Success(NoCommand)
    case NotSupported => Failure(Wrappers.NotSupported)
  }

  /** `active_window`; the COSMIC backend's own answer is a parameter. */
  function ActiveWindow(b: CompositorBackend, cosmicActive: CosmicCompBackend -> Wrappers.Option<WindowHandle>): (r: Result<Wrappers.Option<WindowHandle>>)
    ensures r.Failure? <==> b.NotSupported?
    ensures b.None? ==> r == Success(Wrappers.None)
    ensures b.Cosmic? ==> r == Success(cosmicActive(b.backend))
  {
    match b
    case Cosmic(backend) => Success(cosmicActive(backend))
    case None => Success(Wrappers.None)
    case NotSupported => Failure(Wrappers.NotSupported)
  }

  /** The `None` backend is inert: no subscription, and no command for any
      incoming event, any outgoing request, or the active-window query. */
  lemma NoneBackendIsInert(incoming: WaylandIncoming, outgoing: WaylandOutgoing, cosmicActive: CosmicCompBackend -> Wrappers.Option<WindowHandle>)
    ensures WaylandSubscription(CompositorBackend.None) == Success(NoSubscription)
    ensures HandleMessage(CompositorBackend.None, incoming) == Success(NoCommand)
    ensures HandleOutgoingMessage(CompositorBackend.None, outgoing) == Success(NoCommand)
    ensures ActiveWindow(CompositorBackend.None, cosmicActive) == Success(Wrappers.None)
  {
  }

  /** A `NotSupported` backend fails in every operation. */
  lemma NotSupportedAlwaysFails(incoming: WaylandIncoming, outgoing: WaylandOutgoing, cosmicActive: CosmicCompBackend -> Wrappers.Option<WindowHandle>)
    ensures WaylandSubscription(CompositorBackend.NotSupported).Failure?
    ensures HandleMessage(CompositorBackend.NotSupported, incoming).Failure?
    ensures HandleOutgoingMessage(CompositorBackend.NotSupported, outgoing).Failure?
    ensures ActiveWindow(CompositorBackend.NotSupported, cosmicActive).Failure?
  {
  }

  /** A backend that could be configured never fails: it answers the
      subscription, every COSMIC event, every outgoing request and the
      active-window query, and a COSMIC backend hands all of them to the
      backend that was created. */
  lemma SelectedBackendNeverFails(compositor: string, created: CosmicCompBackend, incoming: CosmicIncoming, outgoing: WaylandOutgoing, cosmicActive: CosmicCompBackend -> Wrappers.Option<WindowHandle>)
    requires NewBackend(compositor, created).Success?
    ensures WaylandSubscription(NewBackend(compositor, created).value).Success?
    ensures HandleMessage(NewBackend(compositor, created).value, WaylandIncoming.Cosmic(incoming)).Success?
    ensures HandleOutgoingMessage(NewBackend(compositor, created).value, outgoing).Success?
    ensures ActiveWindow(NewBackend(compositor, created).value, cosmicActive).Success?
    ensures compositor == "COSMIC" ==>
      && WaylandSubscription(NewBackend(compositor, created).value) == Success(CosmicEvents(created))
      && HandleMessage(NewBackend(compositor, created).value, WaylandIncoming.Cosmic(incoming)) == Success(HandleIncoming(created, incoming))
      && HandleOutgoingMessage(NewBackend(compositor, created).value, outgoing) == Success(HandleOutgoing(created, outgoing))
      && ActiveWindow(NewBackend(compositor, created).value, cosmicActive) == Success(cosmicActive(created))
  {
  }

  /** Subscription and handler agree: the events of a COSMIC subscription go
      to the very backend that subscription came from. */
  lemma SubscriptionFeedsHandler(b: CompositorBackend, incoming: CosmicIncoming)
    requires WaylandSubscription(b).Success? && WaylandSubscription(b).value.CosmicEvents?
    ensures HandleMessage(b, WaylandIncoming.Cosmic(incoming)) == Success(HandleIncoming(WaylandSubscription(b).value.backend, incoming))
  {
  }

  /** Window handles are equal exactly when they wrap the same proxy. */
  lemma WindowHandleEquality(a: ZcosmicHandle, b: ZcosmicHandle)
    ensures WindowHandle.Cosmic(a) == WindowHandle.Cosmic(b) <==> a == b
    ensures WindowHandle.Cosmic(a) != WindowHandle.NotSupported
  {
  }
}
