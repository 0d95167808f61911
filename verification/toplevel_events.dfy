/** The shell's own vocabulary for toplevel events, into which every
    protocol backend's wire events are normalised. */
module ToplevelEvents {
  import opened Handles

  /** The window states the shell distinguishes. A window may hold several. */
  datatype ToplevelState = Maximized | Minimized | Activated | Fullscreen

  /** A toplevel handle of whichever protocol announced it; equality is the
      wrapped proxy's identity. */
  datatype ToplevelHandle = Zwlr(zwlr: ZwlrHandle) | Zcosmic(zcosmic: ZcosmicHandle)

  /** A per-toplevel event. `None` is the no-op event for wire events the
      shell does not track. */
  datatype ToplevelHandleEvent =
    | Title(title: string)
    | AppId(appId: string)
    | OutputEnter(output: WlOutput)
    | OutputLeave(output: WlOutput)
    | State(state: set<ToplevelState>)
    | Done
    | Closed
    | None

  /** A manager-level event: a new toplevel was announced, or the manager is gone. */
  datatype ToplevelManagerEvent = Toplevel(handle: ToplevelHandle) | Finished

  /** What a protocol's `Dispatch::event` impl hands to the event registry. */
  datatype RegistryCall =
    | HandleEvent(handle: ToplevelHandle, event: ToplevelHandleEvent)
    | ManagerEvent(managerEvent: ToplevelManagerEvent)
}
