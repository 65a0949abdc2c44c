/**
 * The interface store (`useUIStore`): colour theme, sidebar, command
 * palette, the open modal, the notification list and the visibility of the
 * four builder panels.
 */
module UIStore {
  import opened Nullable
  import opened Seqs

  datatype Theme = Dark | Light

  /** `toggleTheme`: dark becomes light and anything else becomes dark. */
  function Toggled(t: Theme): (r: Theme)
    ensures r != t
  {
    if t == Dark then Light else Dark
  }

  /** Toggling the theme twice restores it. */
  lemma ToggleTwice(t: Theme)
    ensures Toggled(Toggled(t)) == t
  {
  }

  datatype NotificationKind = Success | Failure | Warning | Info

  datatype Notification = Notification(id: string, kind: NotificationKind, title: string, message: Option<string>)

  /** `addNotification(n)`: the notification, with the id passed in for `Math.random`, goes last. */
  function WithNotification(ns: seq<Notification>, kind: NotificationKind, title: string, message: Option<string>, id: string): (r: seq<Notification>)
    ensures |r| == |ns| + 1 && r[..|ns|] == ns
    ensures r[|ns|] == Notification(id, kind, title, message)
  {
    ns + [Notification(id, kind, title, message)]
  }

  /** The test `removeNotification(id)` keeps a notification by. */
  function OtherId(id: string): Notification -> bool
  {
    (n: Notification) => n.id != id
  }

  /** `removeNotification(id)`: every notification with that id goes, the rest keep their order. */
  function WithoutNotification(ns: seq<Notification>, id: string): (r: seq<Notification>)
    ensures IsSubsequence(r, ns)
    ensures forall i :: 0 <= i < |r| ==> r[i].id != id
    ensures forall n :: n in r <==> n in ns && n.id != id
    ensures forall n :: multiset(r)[n] == if n.id != id then multiset(ns)[n] else 0
  {
    FilterIsSubsequence(ns, OtherId(id));
    FilterCount(ns, OtherId(id));
    Filter(ns, OtherId(id))
  }

  /** Removing the id of a notification just added, when no older one shares it, restores the list. */
  lemma {:induction false} RemoveUndoesAdd(ns: seq<Notification>, kind: NotificationKind, title: string, message: Option<string>, id: string)
    requires forall i :: 0 <= i < |ns| ==> ns[i].id != id
    ensures WithoutNotification(WithNotification(ns, kind, title, message, id), id) == ns
  {
    var added := WithNotification(ns, kind, title, message, id);
    assert added[..|added| - 1] == ns;
    FilterAll(ns, OtherId(id));
  }

  datatype Panel = Chat | Code | Preview | Terminal

  datatype PanelVisibility = PanelVisibility(chat: bool, code: bool, preview: bool, terminal: bool)

  /** `panelVisibility[panel]`. */
  function Visible(v: PanelVisibility, panel: Panel): bool
  {
    match panel
    case Chat => v.chat
    case Code => v.code
    case Preview => v.preview
    case Terminal => v.terminal
  }

  /** `{ ...panelVisibility, [panel]: visible }`: that panel takes the value, the other three keep theirs. */
  function WithPanel(v: PanelVisibility, panel: Panel, visible: bool): (r: PanelVisibility)
    ensures Visible(r, panel) == visible
    ensures forall other :: other != panel ==> Visible(r, other) == Visible(v, other)
  {
    match panel
    case Chat => v.(chat := visible)
    case Code => v.(code := visible)
    case Preview => v.(preview := visible)
    case Terminal => v.(terminal := visible)
  }

  /** `togglePanel(panel)`: only that panel flips. */
  function PanelToggled(v: PanelVisibility, panel: Panel): (r: PanelVisibility)
    ensures Visible(r, panel) == !Visible(v, panel)
    ensures forall other :: other != panel ==> Visible(r, other) == Visible(v, other)
  {
    WithPanel(v, panel, !Visible(v, panel))
  }

  /** Two visibility records that agree on every panel are the same record. */
  lemma PanelsEqual(a: PanelVisibility, b: PanelVisibility)
    requires forall p :: Visible(a, p) == Visible(b, p)
    ensures a == b
  {
    assert Visible(a, Chat) == Visible(b, Chat);
    assert Visible(a, Code) == Visible(b, Code);
    assert Visible(a, Preview) == Visible(b, Preview);
    assert Visible(a, Terminal) == Visible(b, Terminal);
  }

  /**
   * Toggling a panel twice restores it, toggles of two panels commute, and
   * setting a panel to the value it already has changes nothing.
   */
  lemma ToggleLaws(v: PanelVisibility, p: Panel, q: Panel)
    ensures PanelToggled(PanelToggled(v, p), p) == v
    ensures PanelToggled(PanelToggled(v, p), q) == PanelToggled(PanelToggled(v, q), p)
    ensures WithPanel(v, p, Visible(v, p)) == v
  {
    PanelsEqual(PanelToggled(PanelToggled(v, p), p), v);
    PanelsEqual(PanelToggled(PanelToggled(v, p), q), PanelToggled(PanelToggled(v, q), p));
    PanelsEqual(WithPanel(v, p, Visible(v, p)), v);
  }

  /** The data fields of the store. */
  datatype UIState = UIState(
    theme: Theme,
    isSidebarOpen: bool,
    isCommandPaletteOpen: bool,
    activeModal: Option<string>,
    notifications: seq<Notification>,
    panelVisibility: PanelVisibility)

  /** The state the store is created with (before any persisted state is restored). */
  const Initial: UIState := UIState(Dark, true, false, None, [], PanelVisibility(true, true, true, true))

  /** The interface store: one field per state key. */
  class Store {
    var theme: Theme
    var isSidebarOpen: bool
    var isCommandPaletteOpen: bool
    var activeModal: Option<string>
    var notifications: seq<Notification>
    var panelVisibility: PanelVisibility

    function State(): UIState
      reads this
    {
      UIState(theme, isSidebarOpen, isCommandPaletteOpen, activeModal, notifications, panelVisibility)
    }

    constructor()
      ensures State() == Initial
    {
      theme := Dark;
      isSidebarOpen := true;
      isCommandPaletteOpen := false;
      activeModal := None;
      notifications := [];
      panelVisibility := PanelVisibility(true, true, true, true);
    }

    method SetTheme(t: Theme)
      modifies this
      ensures State() == old(State()).(theme := t)
    {
      theme := t;
    }

    method ToggleTheme()
      modifies this
      ensures State() == old(State()).(theme := Toggled(old(theme)))
    {
      theme := if theme == Dark then Light else Dark;
    }

    method SetSidebarOpen(isOpen: bool)
      modifies this
      ensures State() == old(State()).(isSidebarOpen := isOpen)
    {
      isSidebarOpen := isOpen;
    }

    method SetCommandPaletteOpen(isOpen: bool)
      modifies this
      ensures State() == old(State()).(isCommandPaletteOpen := isOpen)
    {
      isCommandPaletteOpen := isOpen;
    }

    method OpenModal(modalId: string)
      modifies this
      ensures State() == old(State()).(activeModal := Some(modalId))
    {
      activeModal := Some(modalId);
    }

    method CloseModal()
      modifies this
      ensures State() == old(State()).(activeModal := None)
    {
      activeModal := None;
    }

    /** `id` stands for the random id the source generates. */
    method AddNotification(kind: NotificationKind, title: string, message: Option<string>, id: string)
      modifies this
      ensures State() == old(State()).(notifications := WithNotification(old(notifications), kind, title, message, id))
    {
      notifications := notifications + [Notification(id, kind, title, message)];
    }

    method RemoveNotification(id: string)
      modifies this
      ensures State() == old(State()).(notifications := WithoutNotification(old(notifications), id))
    {
      notifications := WithoutNotification(notifications, id);
    }

    method TogglePanel(panel: Panel)
      modifies this
      ensures State() == old(State()).(panelVisibility := PanelToggled(old(panelVisibility), panel))
    {
      panelVisibility := WithPanel(panelVisibility, panel, !Visible(panelVisibility, panel));
    }

    method SetPanelVisibility(panel: Panel, visible: bool)
      modifies this
      ensures State() == old(State()).(panelVisibility := WithPanel(old(panelVisibility), panel, visible))
    {
      panelVisibility := WithPanel(panelVisibility, panel, visible);
    }
  }
}
