/** Opaque protocol objects and foreign values. Each is compared by identity
    only, as the Wayland proxies and toolkit ids of the shell are. */
module Handles {

  /** A `zwlr_foreign_toplevel_handle_v1` proxy. */
  type ZwlrHandle(==)

  /** A `zcosmic_toplevel_handle_v1` proxy. */
  type ZcosmicHandle(==)

  /** A `zcosmic_workspace_handle_v1` proxy. */
  type WorkspaceHandle(==)

  /** A `wl_output` proxy. */
  type WlOutput(==)

  /** A `wl_seat` proxy. */
  type WlSeat(==)

  /** A `wl_surface` proxy. */
  type WlSurface(==)

  /** The toolkit's id of a window it opened. */
  type WindowId(==)

  /** The committed information the toplevel-info library keeps per toplevel. */
  type ToplevelInfo(==)

  /** The information the output library keeps per output. */
  type OutputInfo(==)

  /** The sending half of the worker's request channel. */
  type RequestSender(==)
}
