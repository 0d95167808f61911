/** The panel application's own state: the main window and the one-slot
    record of the open context-menu popup. The application tray and the
    settings tray keep their own state and answer their own messages; the
    panel only forwards those, so they appear here as opaque messages. */
module Panel {
  import opened Wrappers
  import opened Handles

  /** Messages of the application tray other than a context-menu request. */
  type AppTrayOther(==)
  /** Messages of the settings tray. */
  type SettingsTrayMessage(==)

  datatype AppTrayMessage = ContextMenu(appId: string) | Other(message: AppTrayOther)

  datatype Message =
    | AppTray(appTray: AppTrayMessage)
    | SettingsTray(settingsTray: SettingsTrayMessage)
    | OpenPopup(id: WindowId, appId: string)
    | OpenMainWindow(window: WindowId)

  /** The settings of a window-open request: the undecorated 1280x48 panel
      bar, or a window with default settings centred on the screen. */
  datatype WindowSettings = PanelBar(width: nat, height: nat, decorations: bool) | CenteredDefault

  /** The message a window-open task produces once the window has opened. */
  datatype OnOpen = ReportMainWindow | ReportPopup(appId: string)

  datatype Task =
    | NoTask
    | OpenWindow(settings: WindowSettings, onOpen: OnOpen)
    | CloseWindow(closed: WindowId)
    /** the application tray's own task for the message, its messages wrapped as `AppTray` */
    | AppTrayTask(appTrayMessage: AppTrayOther)
    /** the settings tray's own task for the message, its messages wrapped as `SettingsTray` */
    | SettingsTrayTask(settingsTrayMessage: SettingsTrayMessage)

  datatype Panel = Panel(mainWindow: WindowId, popupWindow: Option<(WindowId, string)>)

  /** The message a task's window-open result turns into. */
  function Opened(onOpen: OnOpen, id: WindowId): (m: Message)
    ensures onOpen.ReportMainWindow? ==> m == OpenMainWindow(id)
    ensures onOpen.ReportPopup? ==> m == OpenPopup(id, onOpen.appId)
  {
    match onOpen
    case ReportMainWindow => OpenMainWindow(id)
    case ReportPopup(appId) => OpenPopup(id, appId)
  }

  /** `Panel::new`: `id` is the id the windowing library assigns to the main
      window it is asked to open. */
  function New(id: WindowId): (r: (Panel, Task))
    ensures r.0.mainWindow == id && r.0.popupWindow == None
    ensures r.1.OpenWindow? && r.1.onOpen == ReportMainWindow
    ensures r.1.OpenWindow? ==> r.1.settings == PanelBar(1280, 48, false)
  {
    (Panel(id, None), OpenWindow(PanelBar(1280, 48, false), ReportMainWindow))
  }

  /** Start-up settles at once: once the main window the panel asked for
      opens, reporting it changes nothing and asks for nothing more. */
  lemma StartupSettles(id: WindowId)
    ensures var (p, task) := New(id);
      task.OpenWindow? && Update(p, Opened(task.onOpen, id)) == (p, NoTask)
  {
  }

  /** `Panel::update`. */
  function Update(p: Panel, m: Message): (r: (Panel, Task))
    ensures r.0.mainWindow == p.mainWindow
    ensures !m.OpenPopup? ==> r.0 == p
    ensures m.OpenPopup? ==> r.0.popupWindow == Some((m.id, m.appId))
    ensures m.OpenPopup? && p.popupWindow.Some? ==> r.1 == CloseWindow(p.popupWindow.value.0)
    ensures m.OpenPopup? && p.popupWindow.None? ==> r.1 == NoTask
    ensures m.OpenMainWindow? ==> r.1 == NoTask
    ensures m.AppTray? && m.appTray.ContextMenu? ==>
      r.1 == OpenWindow(CenteredDefault, ReportPopup(m.appTray.appId))
  {
    match m
    case AppTray(ContextMenu(appId)) => (p, OpenWindow(CenteredDefault, ReportPopup(appId)))
    case AppTray(Other(msg)) => (p, AppTrayTask(msg))
    case SettingsTray(msg) => (p, SettingsTrayTask(msg))
    case OpenPopup(id, appId) =>
      var task := match p.popupWindow case Some(popup) => CloseWindow(popup.0) case None => NoTask;
      (p.(popupWindow := Some((id, appId))), task)
    case OpenMainWindow(_) => (p, NoTask)
  }

  /** A context-menu request, once its window opens, records that window as
      the popup for the same application. */
  lemma ContextMenuOpensPopupFor(p: Panel, appId: string, id: WindowId)
    ensures var (p1, task) := Update(p, AppTray(ContextMenu(appId)));
      task.OpenWindow? && Update(p1, Opened(task.onOpen, id)).0.popupWindow == Some((id, appId))
  {
  }

  // ---------------------------------------------------------------------
  // Runs of messages

  /** `update` applied to each message in turn, collecting the tasks. */
  function Run(p: Panel, ms: seq<Message>): (r: (Panel, seq<Task>))
    ensures |r.1| == |ms|
    ensures r.0.mainWindow == p.mainWindow
    decreases |ms|
  {
    if |ms| == 0 then (p, [])
    else
      var (p1, t) := Update(p, ms[0]);
      var (p2, ts) := Run(p1, ms[1..]);
      (p2, [t] + ts)
  }

  /** The ids of popups that messages report as opened. */
  function OpenedIds(ms: seq<Message>): seq<WindowId>
  {
    if |ms| == 0 then []
    else (if ms[0].OpenPopup? then [ms[0].id] else []) + OpenedIds(ms[1..])
  }

  /** The ids the tasks close. */
  function ClosedIds(ts: seq<Task>): seq<WindowId>
  {
    if |ts| == 0 then []
    else (if ts[0].CloseWindow? then [ts[0].closed] else []) + ClosedIds(ts[1..])
  }

  function PopupIds(p: Panel): seq<WindowId>
  {
    match p.popupWindow case Some(popup) => [popup.0] case None => []
  }

  /** No popup is leaked and none is closed twice: every popup ever
      recorded is either closed by a later task or still recorded, in the
      order they were opened. */
  lemma {:induction false} PopupsAccountedFor(p: Panel, ms: seq<Message>)
    ensures var (q, ts) := Run(p, ms);
      PopupIds(p) + OpenedIds(ms) == ClosedIds(ts) + PopupIds(q)
    decreases |ms|
  {
    if |ms| > 0 {
      var (p1, t) := Update(p, ms[0]);
      var (q, ts) := Run(p1, ms[1..]);
      PopupsAccountedFor(p1, ms[1..]);
      assert Run(p, ms) == (q, [t] + ts);
      var reported := if ms[0].OpenPopup? then [ms[0].id] else [];
      var closing := if t.CloseWindow? then [t.closed] else [];
      assert ([t] + ts)[0] == t && ([t] + ts)[1..] == ts;
      assert ClosedIds([t] + ts) == closing + ClosedIds(ts);
      assert PopupIds(p) + reported == closing + PopupIds(p1);
      calc {
        PopupIds(p) + OpenedIds(ms);
        PopupIds(p) + (reported + OpenedIds(ms[1..]));
        (PopupIds(p) + reported) + OpenedIds(ms[1..]);
        (closing + PopupIds(p1)) + OpenedIds(ms[1..]);
        closing + (PopupIds(p1) + OpenedIds(ms[1..]));
        closing + (ClosedIds(ts) + PopupIds(q));
        ClosedIds([t] + ts) + PopupIds(q);
      }
    }
  }

  /** At most one popup is recorded, and it is the last one reported open. */
  lemma {:induction false} PopupIsLastOpened(p: Panel, ms: seq<Message>, i: nat)
    requires i < |ms| && ms[i].OpenPopup?
    requires forall j :: i < j < |ms| ==> !ms[j].OpenPopup?
    ensures Run(p, ms).0.popupWindow == Some((ms[i].id, ms[i].appId))
    decreases |ms|
  {
    var (p1, t) := Update(p, ms[0]);
    if i == 0 {
      UnchangedWithoutPopups(p1, ms[1..]);
    } else {
      PopupIsLastOpened(p1, ms[1..], i - 1);
    }
  }

  /** Messages that report no opened popup leave the panel as it is. */
  lemma {:induction false} UnchangedWithoutPopups(p: Panel, ms: seq<Message>)
    requires forall j :: 0 <= j < |ms| ==> !ms[j].OpenPopup?
    ensures Run(p, ms).0 == p
    decreases |ms|
  {
    if |ms| > 0 {
      UnchangedWithoutPopups(p, ms[1..]);
    }
  }
}
