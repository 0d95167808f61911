# rbshell core, modelled in Dafny

rbshell is a panel for Wayland desktops. It shows running applications in an
app tray, can start applications from their desktop entries, and opens a
popup for an application's context menu. This project models its decision
logic as pure Dafny functions and proves what that logic promises:

- **Toplevel protocol events** (`Wlr`, `Cosmic`, `StateArray`,
  `ToplevelEvents`). Events of the wlr-foreign-toplevel-management and
  COSMIC toplevel-info protocols are normalised into one internal
  vocabulary, and each is forwarded with the handle that produced it.
  - The `state` array is decoded in whole 4-byte words. The byte order is a
    parameter, because the program reads native order.
  - Words that name no protocol state are skipped.
  - The result is a set, so duplicate words collapse and word order does
    not matter.
  - The generated protocol enums are non-exhaustive. Each event enum has an
    `Unlisted` variant for that remainder, and reaching it is a
    `Failure(Todo)`.
  - The COSMIC `state` conversion maps four entries and sends any other
    entry to `todo!`. Which further entries the generated enum has depends
    on the protocol revision the bindings come from, so that set of values
    is a parameter `extra`. A payload holding a whole word from `extra` decodes to
    `Failure(Todo)`, and any other unknown word is skipped.
  - The wlr enum has exactly the four mapped entries, so its `todo!` arm
    for states cannot be reached.
- **The COSMIC compositor worker** (`CosmicComp`).
  - Output, toplevel, workspace and activation callbacks become messages
    for the application.
  - Requests from the application become protocol calls. A closed request
    channel sets the exit flag.
  - The dispatch loop tests the exit flag before every dispatch. A
    dispatch that returns an error panics the worker through `unwrap`.
  - Seats, whether the activation global is bound, and the information
    held by the output and toplevel-info libraries are fields of an
    explicit worker state.
- **The worker subscription** (`CosmicSubscription`): the `Waiting` /
  `Finished` state machine of `start_listening`, run over the sequence of
  items the worker's stream yields.
- **Backend selection and routing** (`Compositor`, `AppTrayCompositor`).
  - Environment or configuration strings select a backend.
  - (backend, event) pairs are routed.
  - Panics and `unreachable!` are explicit `Failure` values of `Wrappers.Result`.
  - An environment variable that is unset or not valid Unicode is `None`.
    This is exactly how `env::var` behaves in the precedence rule.
- **Desktop-entry caches** (`DesktopEntries`, `FreedesktopEntries`).
  - The map from application id to parsed entry is built from the sequence
    of parse outcomes, and the last duplicate wins.
  - Fuzzy lookup has three tiers: exact key, then `StartupWMClass`, then the
    name in the default locale.
  - For the start menu, each entry gets a visibility flag and an icon path.
  - The map's iteration order is a parameter `order` that enumerates its
    keys. Tiers two and three therefore promise *some* matching entry, not a
    particular one.
- **Icon themes** (`Icons`).
  - The desktop name chooses the theme, and the theme gives the theme
    directory name and the icon names.
  - The file extension chooses between an SVG and a raster handle. Rust's
    `Path::file_name` / `Path::extension` rules are spelled out.
  - Icon lookup in theme directories is a parameter `find(theme, icon)`.
- **The panel** (`Panel`): the main window id and the one-slot popup record,
  updated by messages. Window opens and closes are returned as tasks.

Handles of Wayland objects (toplevels, outputs, seats, surfaces, workspaces,
windows) and library records (`ToplevelInfo`, `OutputInfo`) are abstract
types with equality.

## Model

| member | source | states |
|---|---|---|
| StateArray.Words | src/app_tray/compositor/wlr.rs:35-37 | the payload is read as one value per whole 4-byte chunk, in order, each assembled in the given byte order; a trailing partial chunk yields nothing |
| StateArray.WordBytes | src/app_tray/compositor/wlr.rs:37 | every 32-bit value has a 4-byte encoding that reads back as that value |
| StateArray.WordsOfEncodeWords | src/app_tray/compositor/wlr.rs:35-37 | reading the encoding of a list of 32-bit values gives back exactly that list |
| StateArray.PartialWordIgnored | src/app_tray/compositor/wlr.rs:35 | appending fewer than four bytes to a whole number of words changes no word read |
| StateArray.DecodeWords | src/app_tray/compositor/wlr.rs:34-42 | the shared decode loop fails exactly when some word names a state whose conversion panics, with that conversion's panic; otherwise the set holds exactly the conversions of the words that name a state |
| StateArray.DecodeDependsOnlyOnWordSet | src/app_tray/compositor/wlr.rs:34-42 | two payloads with the same set of words decode alike: both fail or neither, and successes are equal |
| Wlr.StateTryFrom | src/app_tray/compositor/wlr.rs:36-38 | a word names a wlr state exactly when it is that state's protocol value |
| Wlr.StateFromIsBijective | src/app_tray/compositor/wlr.rs:10-20 | maximized, minimized, activated and fullscreen map one-to-one onto the internal states |
| Wlr.DecodeState | src/app_tray/compositor/wlr.rs:33-43 | an internal state is in the decoded set exactly when its value is one of the payload's whole words |
| Wlr.DecodeEncodeState | src/app_tray/compositor/wlr.rs:33-43 | encoding any set of states as a word array and decoding it gives the set back |
| Wlr.UnknownWordSkipped | src/app_tray/compositor/wlr.rs:36-41 | example: an unknown word between activated and maximized is skipped and those two are still decoded |
| Wlr.DecodeEncodedWords | src/app_tray/compositor/wlr.rs:34-41 | for any list of 32-bit words, a state is decoded exactly when its value is in the list |
| Wlr.DecodeIgnoresPartialWord | src/app_tray/compositor/wlr.rs:35 | a trailing partial word does not change the decoded set |
| Wlr.DecodeIgnoresOrderAndDuplicates | src/app_tray/compositor/wlr.rs:34-39 | payloads with the same words, in any order and multiplicity, decode to the same set |
| Wlr.NormaliseHandleEvent | src/app_tray/compositor/wlr.rs:22-50 | only an unlisted event fails; a state event becomes the decoded set; parent becomes the no-op event and nothing else does |
| Wlr.NormaliseRoundTrip | src/app_tray/compositor/wlr.rs:24-45 | every internal event other than the no-op has a wire event that normalises to exactly it |
| Wlr.WireRoundTrip | src/app_tray/compositor/wlr.rs:25-32 | title, app id, output enter/leave, done and closed carry their payload unchanged |
| Wlr.NormaliseManagerEvent | src/app_tray/compositor/wlr.rs:52-62 | a new toplevel wraps exactly that handle as a wlr handle; finished stays finished; only an unlisted event fails |
| Wlr.ManagerRoundTrip | src/app_tray/compositor/wlr.rs:52-62 | manager events and internal manager events with a wlr handle correspond one to one, each direction undoing the other |
| Wlr.DispatchHandle | src/app_tray/compositor/wlr.rs:66-80 | the normalised event goes to the registry paired with the handle that produced it |
| Wlr.DispatchHandleInjective | src/app_tray/compositor/wlr.rs:66-80 | equal registry calls come from the same handle and the same normal form, and from the same event unless it is a state array or parent event |
| Wlr.DispatchManager | src/app_tray/compositor/wlr.rs:82-93 | the normalised manager event goes to the registry's manager entry point |
| Wlr.DispatchManagerInjective | src/app_tray/compositor/wlr.rs:82-93 | distinct manager events give distinct registry calls |
| Cosmic.StateTryFrom | src/app_tray/compositor/cosmic.rs:45-46 | a word names a COSMIC state exactly when it is the protocol value of an entry the generated enum has |
| Cosmic.StateFrom | src/app_tray/compositor/cosmic.rs:11-21 | converting a state fails, with todo, exactly for an entry beyond the four mapped ones |
| Cosmic.StateFromIsBijective | src/app_tray/compositor/cosmic.rs:13-18 | the four mapped states correspond one-to-one with the internal states |
| Cosmic.DecodeState | src/app_tray/compositor/cosmic.rs:42-52 | decoding fails exactly when a whole word is the value of an unmapped entry of the enum; otherwise a state is in the set exactly when its value is a whole word |
| Cosmic.DecodeStateWords | src/app_tray/compositor/cosmic.rs:43-50 | the decode loop over a word list fails, with todo, exactly when the list holds the value of an unmapped entry, and otherwise collects the states named |
| Cosmic.DecodeEncodeState | src/app_tray/compositor/cosmic.rs:42-52 | encoding any set of internal states and decoding it gives the set back, whatever further entries the enum has |
| Cosmic.UnknownWordSkipped | src/app_tray/compositor/cosmic.rs:45-49 | example: a word the enum lacks, between activated and maximized, is skipped and those two still decoded |
| Cosmic.DecodeEncodedWords | src/app_tray/compositor/cosmic.rs:43-50 | for any list of 32-bit words: failure exactly when the value of an unmapped entry occurs, and otherwise a state is decoded exactly when its value is in the list |
| Cosmic.DecodeIgnoresPartialWord | src/app_tray/compositor/cosmic.rs:44 | a trailing partial word does not change the outcome |
| Cosmic.DecodeIgnoresOrderAndDuplicates | src/app_tray/compositor/cosmic.rs:43-48 | payloads with the same words decode to the same outcome |
| Cosmic.NormaliseHandleEvent | src/app_tray/compositor/cosmic.rs:23-56 | workspace enter/leave and unlisted events fail with todo, as does a state payload holding the value of an unmapped entry; the no-op event is never produced |
| Cosmic.NormaliseRoundTrip | src/app_tray/compositor/cosmic.rs:26-39 | every internal event other than the no-op has a wire event that normalises to exactly it |
| Cosmic.WireRoundTrip | src/app_tray/compositor/cosmic.rs:26-39 | closed, done, title, app id and output enter/leave carry their payload unchanged |
| Cosmic.NormaliseInfoEvent | src/app_tray/compositor/cosmic.rs:58-68 | a new toplevel wraps exactly that handle as a COSMIC handle; finished stays finished |
| Cosmic.InfoRoundTrip | src/app_tray/compositor/cosmic.rs:58-68 | info events and manager events with a COSMIC handle correspond one to one, each direction undoing the other |
| Cosmic.DispatchHandle | src/app_tray/compositor/cosmic.rs:72-87 | the normalised event goes to the registry paired with the originating handle, failing exactly when normalisation fails |
| Cosmic.DispatchHandleInjective | src/app_tray/compositor/cosmic.rs:72-87 | equal registry calls come from the same handle and the same normal form, and from the same event unless it is a state array |
| Cosmic.DispatchInfo | src/app_tray/compositor/cosmic.rs:89-100 | the normalised info event goes to the registry's manager entry point |
| Cosmic.DispatchInfoInjective | src/app_tray/compositor/cosmic.rs:89-100 | distinct info events give distinct registry calls |
| CosmicComp.NewOutput | src/compositor/cosmic_comp.rs:62-76 | an Add carrying the library's info is sent exactly when the library has info for the output, and nothing otherwise |
| CosmicComp.UpdateOutput | src/compositor/cosmic_comp.rs:78-92 | an Update carrying the library's info is sent exactly when the library has info for the output |
| CosmicComp.OutputDestroyed | src/compositor/cosmic_comp.rs:94-103 | destruction always sends exactly one Remove naming the output, whatever the library holds |
| CosmicComp.OutputCallbacksConcernTheirOutput | src/compositor/cosmic_comp.rs:62-103 | output messages name the callback's output and its current info; only a new output adds, only destruction removes, and destruction always sends its message |
| CosmicComp.NewToplevel | src/compositor/cosmic_comp.rs:237-253 | an Add carrying the info is sent exactly when the info library knows the toplevel |
| CosmicComp.UpdateToplevel | src/compositor/cosmic_comp.rs:255-269 | an Update carrying the info is sent exactly when the info library knows the toplevel |
| CosmicComp.ToplevelClosed | src/compositor/cosmic_comp.rs:271-282 | closure always sends exactly one Remove naming the toplevel, whatever the library holds |
| CosmicComp.ToplevelCallbacksConcernTheirToplevel | src/compositor/cosmic_comp.rs:237-282 | toplevel messages name the callback's toplevel and its current info; only closure removes and it always sends; no callback sends two messages |
| CosmicComp.FirstActive | src/compositor/cosmic_comp.rs:117-120 | the found workspace is active and every earlier one in the group is not; none is found exactly when no workspace is active |
| CosmicComp.GroupActive | src/compositor/cosmic_comp.rs:116-121 | a group contributes one handle exactly when it has an active workspace, and that handle is of an active workspace with no active one before it |
| CosmicComp.ActiveWorkspaces | src/compositor/cosmic_comp.rs:112-123 | at most one handle per group; none exactly when no group has an active workspace; one per group exactly when every group has one |
| CosmicComp.ActiveWorkspacesAppend | src/compositor/cosmic_comp.rs:112-123 | the selection is made group by group, in group order |
| CosmicComp.ActiveWorkspacesOfGroup | src/compositor/cosmic_comp.rs:116-122 | a group contributes its first active workspace, or nothing when none is active |
| CosmicComp.ActiveWorkspacesAreActive | src/compositor/cosmic_comp.rs:112-123 | every reported workspace is an active workspace of one of the groups |
| CosmicComp.WorkspacesDone | src/compositor/cosmic_comp.rs:111-127 | done sends exactly one workspace message, holding the active-workspace selection of the current groups, at most one per group |
| CosmicComp.NewToken | src/compositor/cosmic_comp.rs:161-168 | a granted token is passed on in one message with the app id, command line and GPU index of the request that asked for it |
| CosmicComp.OnCallback | src/compositor/cosmic_comp.rs:62-282 | each callback sends at most one message, of its own kind, never Init or Finished; only an announcement or update the libraries know nothing of sends nothing |
| CosmicComp.OnChannel | src/compositor/cosmic_comp.rs:309-362 | activate needs a seat and uses the first; minimise and close are unconditional; a token request asks the bound global (app id, first seat with serial 0, no surface) or answers at once with no token; closure sets exit and nothing else changes |
| CosmicComp.TokenRequestIsAnswered | src/compositor/cosmic_comp.rs:161-168 | a token request ends in exactly one activation-token message with the request's app id, command line and GPU index, carrying a token exactly when the global is bound |
| CosmicComp.DispatchBatch | src/compositor/cosmic_comp.rs:359-361 | a dispatch changes only the exit flag, and it ends set exactly when it was set or the batch closed the channel; it never sends Init or Finished |
| CosmicComp.RunLoop | src/compositor/cosmic_comp.rs:383-389 | no dispatch happens once exit is set; dispatching continues exactly up to and including the first dispatch that closes the channel or fails, and a failing dispatch panics the worker; nothing is sent or called when exit is already set |
| CosmicComp.RunLoopEffects | src/compositor/cosmic_comp.rs:383-389 | what a run sends and calls is exactly, in order, what the dispatches it performed deliver, each handled from the starting state |
| CosmicSubscription.Listen | src/compositor/cosmic_comp.rs:472-504 | the output is Init (only when the receiver slot was empty), then the stream's items before its end in order, then Finished if it ended; a finished subscription sends nothing |
| CosmicSubscription.InitAtMostOnce | src/compositor/cosmic_comp.rs:478-488 | Init is sent at most once, first, and only when the slot was empty |
| CosmicSubscription.FinishedIsLast | src/compositor/cosmic_comp.rs:491-502 | Finished is sent at most once, last, and the state becomes Finished exactly when the stream ended |
| Compositor.CurrentDesktop | src/compositor/mod.rs:22-25 | the shell's own variable wins whenever it is set; the XDG one is the fallback |
| Compositor.NewBackend | src/compositor/mod.rs:20-31 | exactly the desktop "COSMIC" selects the COSMIC backend; any other name, or none, is an unsupported-desktop failure naming it |
| Compositor.ShellDesktopTakesPrecedence | src/compositor/mod.rs:22-25 | with the shell variable set the XDG variable is irrelevant; unset, the XDG value acts as if given in the shell variable |
| Compositor.SelectionIsCaseSensitive | src/compositor/mod.rs:27-28 | example: "cosmic" in lower case is unsupported |
| Compositor.WaylandSubscription | src/compositor/mod.rs:33-38 | only the COSMIC backend has a subscription (its own); the other variant is unreachable |
| Compositor.HandleMessage | src/compositor/mod.rs:40-52 | a COSMIC event for the COSMIC backend is delegated to it; every other pairing is unreachable |
| Compositor.SubscriptionFeedsHandler | src/compositor/mod.rs:33-52 | a backend has a subscription exactly when it accepts COSMIC events, and each event goes to the backend whose subscription carries it |
| Compositor.SelectedBackendIsRouted | src/compositor/mod.rs:20-52 | a backend that could be created never hits unreachable: it subscribes with, and delegates every event to, the created COSMIC backend |
| AppTrayCompositor.NewBackend | src/app_tray/compositor/mod.rs:21-27 | "COSMIC" selects COSMIC, "none" the inert backend, anything else is an unsupported-desktop failure naming it |
| AppTrayCompositor.NewBackendOfName | src/app_tray/compositor/mod.rs:21-27 | naming a selectable backend selects it again |
| AppTrayCompositor.WaylandSubscription | src/app_tray/compositor/mod.rs:29-35 | COSMIC gets its own subscription, None gets none, NotSupported fails |
| AppTrayCompositor.HandleMessage | src/app_tray/compositor/mod.rs:37-49 | COSMIC with a COSMIC event delegates; None answers every event with no command; it fails exactly for a NotSupported backend, or a NotSupported event with COSMIC |
| AppTrayCompositor.HandleOutgoingMessage | src/app_tray/compositor/mod.rs:51-61 | COSMIC delegates the request, None gives no command, NotSupported fails |
| AppTrayCompositor.ActiveWindow | src/app_tray/compositor/mod.rs:63-72 | COSMIC answers with its backend's active window, None with no window, NotSupported fails |
| AppTrayCompositor.NoneBackendIsInert | src/app_tray/compositor/mod.rs:29-72 | the None backend has no subscription and yields no command or window in any operation |
| AppTrayCompositor.NotSupportedAlwaysFails | src/app_tray/compositor/mod.rs:29-72 | the NotSupported backend fails in every operation |
| AppTrayCompositor.SelectedBackendNeverFails | src/app_tray/compositor/mod.rs:21-72 | a backend that could be configured answers every operation, and a COSMIC one hands each to the created backend |
| AppTrayCompositor.SubscriptionFeedsHandler | src/app_tray/compositor/mod.rs:29-49 | events of a COSMIC subscription go to the backend the subscription came from |
| AppTrayCompositor.WindowHandleEquality | src/app_tray/compositor/mod.rs:90-95 | window handles are equal exactly when they wrap the same toplevel |
| Icons.DefaultTheme | src/freedesktop/icons.rs:31-43 | Breeze exactly when the lower-cased desktop is "kde", Cosmic exactly when it is "cosmic", no theme otherwise or when unset |
| Icons.DefaultThemeIgnoresCase | src/freedesktop/icons.rs:34-38 | any mix of upper and lower case of "kde" or "cosmic" selects the theme |
| Icons.ThemeName | src/freedesktop/icons.rs:46-52 | Breeze is "breeze", Cosmic is "Cosmic", no theme is "hicolor" |
| Icons.ThemeNameInjective | src/freedesktop/icons.rs:46-52 | distinct themes have distinct directory names |
| Icons.LookupIsPerTheme | src/freedesktop/icons.rs:54-59 | a lookup consults the finder only about its own theme: finders agreeing there agree on the result, and one that knows only another theme finds nothing |
| Icons.DefaultIconPath | src/freedesktop/icons.rs:62-68 | Breeze looks up "wayland" in "breeze", Cosmic "application-default" in "Cosmic", no theme gives no path |
| Icons.StartMenuIcon | src/freedesktop/icons.rs:70-76 | Breeze looks up "applications-all" in "breeze", Cosmic "applications-office" in "Cosmic", no theme gives no path |
| Icons.NoThemeNoLookup | src/freedesktop/icons.rs:62-76 | without a theme the result does not depend on the icon finder |
| Icons.FromPath | src/freedesktop/icons.rs:21-28 | the handle keeps the path and is SVG exactly when the extension is "svg" |
| Icons.ExtensionOfFile | src/freedesktop/icons.rs:23 | the extension of `dir/stem.ext` is `ext` |
| Icons.SvgByExtension | src/freedesktop/icons.rs:22-28 | `stem.svg` gets an SVG handle and `stem.SVG` a raster one |
| Icons.HiddenFileHasNoExtension | src/freedesktop/icons.rs:23 | a file named `.svg` has no extension and gets a raster handle |
| Icons.TrailingComponentsIgnored | src/freedesktop/icons.rs:23 | a trailing separator or `.` component does not change the file name |
| DesktopEntries.BuildCache | src/freedesktop/desktop_entry.rs:49-58 | an id is a key exactly when some file parsed with it, and its value comes from the last such file |
| DesktopEntries.CachedIds | src/app_tray/desktop_entry.rs:14-16 | an id is cached exactly when some file parsed successfully with it |
| DesktopEntries.FindInOrder | src/app_tray/desktop_entry.rs:27-33 | the search returns a stored value that matches, and nothing exactly when no stored value matches |
| DesktopEntries.FuzzyMatch | src/app_tray/desktop_entry.rs:23-43 | the exact key wins; else some entry with that StartupWMClass; else some entry with that default-locale name; nothing exactly when no tier matches; the result is stored in the cache |
| DesktopEntries.MatchFoundIndependentOfOrder | src/app_tray/desktop_entry.rs:23-43 | whether a match is found does not depend on the map's iteration order |
| DesktopEntries.EntryCache | src/desktop_entry.rs:8-17 | every entry is stored under its own id, ids are those that parsed, and the last file wins |
| DesktopEntries.LastDuplicateWins | src/desktop_entry.rs:11-13 | of two files with the same id, the one iterated later is kept |
| DesktopEntries.UnparsableIgnored | src/desktop_entry.rs:12 | an unparsable file leaves no trace in the cache |
| DesktopEntries.EmptyScanEmptyCache | src/desktop_entry.rs:10-16 | no files give an empty cache |
| DesktopEntries.FuzzyMatchEntry | src/app_tray/desktop_entry.rs:24-42 | the three tiers on plain entries, and the result matches the pattern in one of them |
| FreedesktopEntries.NewEntryInfo | src/freedesktop/desktop_entry.rs:20-42 | invisible exactly when NoDisplay, no localised name, Terminal or no Exec; invisible or icon-less entries have no icon; otherwise the hicolor lookup, else the theme's default icon |
| FreedesktopEntries.HiddenEntryIgnoresIcons | src/freedesktop/desktop_entry.rs:26-27 | a hidden entry's info does not depend on the theme or the icon finder |
| FreedesktopEntries.NoThemeOnlyHicolor | src/freedesktop/desktop_entry.rs:29-35 | without a theme any icon path is the hicolor lookup of the entry's own icon |
| FreedesktopEntries.InfoCache | src/freedesktop/desktop_entry.rs:46-60 | keys are the parsed ids and each value is the info of the last entry with that id |
| FreedesktopEntries.InfoCacheExtendsEntryCache | src/freedesktop/desktop_entry.rs:49-58 | the start menu caches the same entries as the plain cache |
| FreedesktopEntries.FuzzyMatchInfo | src/freedesktop/desktop_entry.rs:62-86 | the three tiers over entry infos; nothing exactly when no tier matches; the result is stored in the cache |
| Panel.New | src/panel.rs:29-45 | the panel starts with no popup, the main window is the one being opened, and it opens the undecorated 1280x48 bar |
| Panel.StartupSettles | src/panel.rs:29-45 | once the requested main window opens, reporting it leaves the panel unchanged and asks for nothing |
| Panel.Update | src/panel.rs:51-81 | the main window never changes; only OpenPopup changes state, recording the new popup and closing the previous one if any; a context menu opens a centred window tagged with its app id |
| Panel.ContextMenuOpensPopupFor | src/panel.rs:53-60 | once a context menu's window opens, it is recorded as the popup for the same application |
| Panel.Run | src/panel.rs:51-81 | a run of messages gives one task per message and keeps the main window |
| Panel.PopupsAccountedFor | src/panel.rs:69-78 | every popup recorded is closed by a later task or still recorded, in order; none leaks and none is closed twice |
| Panel.PopupIsLastOpened | src/panel.rs:69-76 | the recorded popup is the last one reported opened |
| Panel.UnchangedWithoutPopups | src/panel.rs:51-81 | messages that report no opened popup leave the panel as it is |

## Left out

- Wayland connection setup, registry and global binding, the calloop event loop and its sources (src/compositor/cosmic_comp.rs:285-308, 367-381): I/O into foreign libraries. Their outcomes are fields of the worker state.
- The worker thread, the shared `Mutex` receiver slot and the channels (src/compositor/cosmic_comp.rs:469-489): concurrency plumbing. Only the sequential `Waiting`/`Finished` logic is modelled. Two subscriptions racing for the slot are not modelled.
- The updates that the output, toplevel-info, workspace and seat libraries make to their own state: those libraries are foreign. The callbacks and the request handler read that state as given (`outputInfo`, `toplevelInfo`, `workspaceGroups`, `seats`).
- The registry that consumes normalised toplevel events (`AppData::handle_toplevel_handle_event` / `handle_toplevel_manager_event`) is not part of this model. Neither is the COSMIC backend's own message handling, outgoing handling and active-window reduction. Those calls appear as delegations.
- The COSMIC toplevel manager's `Dispatch::event` (src/app_tray/compositor/cosmic.rs:107-118) has an empty body, so there is nothing to model. The `event_created_child!` tables only tell the Wayland library which object type to create.
- src/app_tray/compositor/kde.rs only logs events. `network_icon` is left out because it compares a floating-point strength.
- The application tray's and the settings tray's own `handle_message` are delegations, returned as tasks. Their views, the panel's view, theme and subscription batching are not modelled.
- Desktop-entry file parsing and locale resolution belong to a foreign crate. The model receives parse outcomes and the resolved names as fields.
- Icon lookup in theme directories belongs to a foreign crate and is the parameter `find`.
- The windowing library's default window settings are opaque (`CenteredDefault`). Only the settings the panel sets itself are modelled.
- Panic messages are not modelled. A failure records only its kind, and the name of the desktop when there is one.
- Logging is not modelled.
- CosmicComp.RunLoop: starts once setup has succeeded. The early return when the request channel cannot be inserted into the event loop (src/compositor/cosmic_comp.rs:363-366) is not modelled. Failing dispatches are modelled: `Fails` panics the worker, as the `unwrap` at line 388 does.
- Which state values beyond 0-3 the generated COSMIC enum defines comes from the protocol bindings, which are not part of this model. The Cosmic decoding members (`StateTryFrom`, `DecodeState`, `DecodeStateWords`, `DecodeEncodedWords`, `NormaliseHandleEvent`, `DispatchHandle`) therefore take that set as the parameter `extra`.
- The desktop name that picks the icon theme is lossily converted to UTF-8 in the source. The model takes it as a string already. A value that is not valid UTF-8 cannot lower-case to "kde" or "cosmic" in either case.
