/** Backend selection and message routing of the panel's compositor layer
    (the environment-driven variant). */
module Compositor {
  import opened Wrappers

  /** A COSMIC backend value, as `CosmicCompBackend::new()` creates it. */
  type CosmicCompBackend(==)

  /** A message of the COSMIC backend's subscription. */
  type CosmicWaylandMessage(==)

  datatype CompositorBackend = Cosmic(backend: CosmicCompBackend) | NotSupported

  datatype WaylandEvent = Cosmic(message: CosmicWaylandMessage) | NotSupported

  /** The subscription a backend provides: the COSMIC backend's own, with its
      messages wrapped as `WaylandEvent::Cosmic`. */
  datatype Subscription = CosmicEvents(backend: CosmicCompBackend)

  /** Work handed to the COSMIC backend's own message handler. */
  datatype Delegation = HandleCosmicMessage(backend: CosmicCompBackend, message: CosmicWaylandMessage)

  /** The desktop name the shell goes by: `RYANABX_SHELL_DESKTOP` when it is
      set, and only otherwise `XDG_CURRENT_DESKTOP`. An unset (or non-Unicode)
      variable is `None`. */
  function CurrentDesktop(shellDesktop: Option<string>, xdgDesktop: Option<string>): (d: Option<string>)
    ensures shellDesktop.Some? ==> d == shellDesktop
    ensures shellDesktop.None? ==> d == xdgDesktop
  {
    if shellDesktop.Some? then shellDesktop else xdgDesktop
  }

  /** `CompositorBackend::new`: exactly the desktop name "COSMIC" selects the
      COSMIC backend; any other name, and no name at all, panics. */
  function NewBackend(shellDesktop: Option<string>, xdgDesktop: Option<string>, created: CosmicCompBackend): (r: Result<CompositorBackend>)
    ensures r.Success? <==> CurrentDesktop(shellDesktop, xdgDesktop) == Some("COSMIC")
    ensures r.Success? ==> r.value == CompositorBackend.Cosmic(created)
    ensures r.Failure? ==> r.panic == UnsupportedDesktop(CurrentDesktop(shellDesktop, xdgDesktop))
  {
    match CurrentDesktop(shellDesktop, xdgDesktop)
    case Some(desktop) =>
      if desktop == "COSMIC" then Success(CompositorBackend.Cosmic(created))
      else Failure(UnsupportedDesktop(Some(desktop)))
    case None => Failure(UnsupportedDesktop(None))
  }

  /** When `RYANABX_SHELL_DESKTOP` is set, `XDG_CURRENT_DESKTOP` is never
      consulted; when it is unset, `XDG_CURRENT_DESKTOP` acts exactly as if
      its value had been given in `RYANABX_SHELL_DESKTOP`. */
  lemma ShellDesktopTakesPrecedence(shell: string, xdg1: Option<string>, xdg2: Option<string>, created: CosmicCompBackend)
    ensures NewBackend(Some(shell), xdg1, created) == NewBackend(Some(shell), xdg2, created)
    ensures xdg1.Some? ==> NewBackend(None, xdg1, created) == NewBackend(xdg1, xdg2, created)
  {
  }

  /** Selection is case-sensitive: "cosmic" does not select the COSMIC backend. */
  lemma SelectionIsCaseSensitive(created: CosmicCompBackend)
    ensures NewBackend(Some("cosmic"), None, created) == Failure(UnsupportedDesktop(Some("cosmic")))
  {
  }

  /** `wayland_subscription`: the COSMIC backend's subscription; for a
      backend that is not supported it is unreachable. */
  function WaylandSubscription(b: CompositorBackend): (r: Result<Subscription>)
    ensures r.Success? <==> b.Cosmic?
    ensures r.Success? ==> r.value.backend == b.backend
    ensures r.Failure? ==> r.panic == Unreachable
  {
    match b
    case Cosmic(backend) => Success(CosmicEvents(backend))
    case NotSupported => Failure(Unreachable)
  }

  /** `handle_message`: a COSMIC event for the COSMIC backend goes to that
      backend; every other pairing is unreachable. */
  function HandleMessage(b: CompositorBackend, ev: WaylandEvent): (r: Result<Delegation>)
    ensures r.Success? <==> b.Cosmic? && ev.Cosmic?
    ensures r.Success? ==> r.value == HandleCosmicMessage(b.backend, ev.message)
    ensures r.Failure? ==> r.panic == Unreachable
  {
    match (b, ev)
    case (Cosmic(backend), Cosmic(message)) => Success(HandleCosmicMessage(backend, message))
    case (NotSupported, _) => Failure(Unreachable)
    case (_, NotSupported) => Failure(Unreachable)
  }

  /** Subscription and handler agree: a backend has a subscription exactly
      when it accepts the COSMIC events, and each event goes to the very
      backend whose subscription carries it. */
  lemma SubscriptionFeedsHandler(b: CompositorBackend, m: CosmicWaylandMessage)
    ensures WaylandSubscription(b).Success? <==> HandleMessage(b, WaylandEvent.Cosmic(m)).Success?
    ensures WaylandSubscription(b).Success? ==>
      HandleMessage(b, WaylandEvent.Cosmic(m)) == Success(HandleCosmicMessage(WaylandSubscription(b).value.backend, m))
  {
  }

  /** A backend that could be created never hits `unreachable!`: it has a
      subscription, backed by the created COSMIC backend, and every COSMIC
      event goes to that backend. */
  lemma SelectedBackendIsRouted(shellDesktop: Option<string>, xdgDesktop: Option<string>, created: CosmicCompBackend, m: CosmicWaylandMessage)
    requires NewBackend(shellDesktop, xdgDesktop, created).Success?
    ensures WaylandSubscription(NewBackend(shellDesktop, xdgDesktop, created).value) == Success(CosmicEvents(created))
    ensures HandleMessage(NewBackend(shellDesktop, xdgDesktop, created).value, WaylandEvent.Cosmic(m))
      == Success(HandleCosmicMessage(created, m))
  {
  }
}
