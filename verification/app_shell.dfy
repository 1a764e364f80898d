/** The application shell: the global Cmd/Ctrl+K shortcut, whether the
    command palette is mounted, and the content margin beside the sidebar. */
module AppShell {
  import opened UIStore
  import Sidebar
  import CommandBar

  datatype KeyEvent = KeyEvent(key: string, metaKey: bool, ctrlKey: bool)

  /** Cmd+K or Ctrl+K, with a lower-case `k` (so not with Shift held). */
  function IsPaletteShortcut(e: KeyEvent): (r: bool)
    ensures r ==> e.key == "k"
    ensures !e.metaKey && !e.ctrlKey ==> !r
    ensures e.key == "K" ==> !r
    ensures e.key == "k" && (e.metaKey || e.ctrlKey) ==> r
  {
    (e.metaKey || e.ctrlKey) && e.key == "k"
  }

  /** The shell's key listener: the shortcut opens the palette; it never closes it. */
  function OnShellKey(s: UIState, e: KeyEvent): (r: UIState)
    ensures IsPaletteShortcut(e) ==> r.commandBarOpen
    ensures r.commandBarOpen <==> s.commandBarOpen || IsPaletteShortcut(e)
    ensures r.(commandBarOpen := s.commandBarOpen) == s
  {
    if IsPaletteShortcut(e) then SetCommandBarOpen(s, true) else s
  }

  /** Pressing the shortcut again leaves the palette open. */
  lemma ShortcutIdempotent(s: UIState, e: KeyEvent)
    ensures OnShellKey(OnShellKey(s, e), e) == OnShellKey(s, e)
  {
  }

  /** One key press as the window sees it: the shell's listener runs, then,
      if the palette was mounted when the press arrived, the palette's own. */
  function DispatchKey(s: UIState, e: KeyEvent): (r: UIState)
    ensures r.commandBarOpen <==> IsPaletteShortcut(e) || (s.commandBarOpen && e.key != "Escape")
    ensures r.(commandBarOpen := s.commandBarOpen) == s
  {
    var afterShell := OnShellKey(s, e);
    if s.commandBarOpen then CommandBar.OnPaletteKey(afterShell, e.key) else afterShell
  }

  /** What the shell lays out for a state. The content margin is the one from
      the `md` breakpoint up; below it the margin is zero and the sidebar
      overlays the content as a drawer. */
  datatype Layout = Layout(paletteMounted: bool, contentMarginPx: nat)

  function LayoutFor(s: UIState): (r: Layout)
    ensures r.paletteMounted <==> s.commandBarOpen
    ensures r.contentMarginPx == Sidebar.WidthPx(s.sidebarCollapsed)
  {
    Layout(s.commandBarOpen, if s.sidebarCollapsed then 68 else 260)
  }
}
