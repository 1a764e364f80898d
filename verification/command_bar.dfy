/** The command palette: the list of commands (navigation, theme, one per
    store), the case-insensitive search over it, the de-duplicated group
    headings, and what running a command or closing the palette does. */
module CommandBar {
  import opened Optional
  import opened Text
  import opened UIStore
  import Topbar

  /** What a command does when chosen. */
  datatype Action = Navigate(path: string) | ToggleTheme | SwitchStore(storeId: string)

  datatype Command = Command(
    id: string,
    title: string,
    description: Option<string>,
    group: string,
    keywords: Option<seq<string>>,
    action: Action)

  const NavCommands: seq<Command> := [
    Command("nav-dash", "Go to Dashboard", None, "Navigation", Some(["home", "overview"]), Navigate("/")),
    Command("nav-prod", "Go to Products", None, "Navigation", Some(["catalog", "items"]), Navigate("/products")),
    Command("nav-ord", "Go to Orders", None, "Navigation", Some(["purchases", "sales", "fulfillment"]), Navigate("/orders")),
    Command("nav-cust", "Go to Customers", None, "Navigation", Some(["users", "buyers", "clients"]), Navigate("/customers")),
    Command("nav-ana", "Go to Analytics", None, "Navigation", Some(["reports", "charts", "revenue"]), Navigate("/analytics")),
    Command("nav-set", "Go to Settings", None, "Navigation", Some(["config", "preferences"]), Navigate("/settings"))
  ]

  /** Every navigation command leads to a route the top bar has a title for. */
  lemma NavCommandsHaveTitles()
    ensures forall i :: 0 <= i < |NavCommands| ==>
              NavCommands[i].action.Navigate? && NavCommands[i].action.path in Topbar.PageTitles
  {
  }

  /** The theme command; its label names the theme it switches to. */
  function ThemeCommand(theme: string): (c: Command)
    ensures c.action == ToggleTheme && c.group == "Actions"
    ensures c.title == (if Topbar.FlipTheme(theme) == "light" then "Switch to Light Mode" else "Switch to Dark Mode")
  {
    Command("theme-toggle",
            if theme == "dark" then "Switch to Light Mode" else "Switch to Dark Mode",
            None, "Actions", Some(["dark", "light", "theme", "mode"]), ToggleTheme)
  }

  function StoreCommand(s: Store): Command {
    Command("store-" + s.id, "Switch to " + s.name, Some(s.domain), "Stores",
            Some(["workspace", "switch", ProviderName(s.provider)]), SwitchStore(s.id))
  }

  /** The commands that do not depend on the store list. */
  function FixedCommands(theme: string): (r: seq<Command>)
    ensures |r| == 7
    ensures forall j :: 0 <= j < 7 ==> r[j].group != "Stores" && !r[j].action.SwitchStore?
    ensures forall j :: 0 <= j < 7 ==> |r[j].id| > 0 && r[j].id[0] != 's'
  {
    NavCommands + [ThemeCommand(theme)]
  }

  /** The palette's full command list: six navigation commands, the theme
      command, then one command per store in list order. */
  function AllCommands(stores: seq<Store>, theme: string): (r: seq<Command>)
    ensures |r| == 7 + |stores|
    ensures forall j :: 0 <= j < 7 ==> r[j] == FixedCommands(theme)[j]
    ensures forall j :: 0 <= j < |r| ==> (r[j].group == "Stores" <==> 7 <= j)
    ensures forall j :: 0 <= j < |r| ==> (r[j].action.SwitchStore? <==> 7 <= j)
    ensures forall i :: 0 <= i < |stores| ==>
              && r[7 + i].id == "store-" + stores[i].id
              && r[7 + i].title == "Switch to " + stores[i].name
              && r[7 + i].description == Some(stores[i].domain)
              && r[7 + i].keywords.Some? && ProviderName(stores[i].provider) in r[7 + i].keywords.value
              && r[7 + i].action == SwitchStore(stores[i].id)
  {
    FixedCommands(theme) + seq(|stores|, i requires 0 <= i < |stores| => StoreCommand(stores[i]))
  }

  function CommandIds(cmds: seq<Command>): (ids: seq<string>)
    ensures |ids| == |cmds|
    ensures forall i :: 0 <= i < |cmds| ==> ids[i] == cmds[i].id
  {
    seq(|cmds|, i requires 0 <= i < |cmds| => cmds[i].id)
  }

  /** Commands are keyed by id when rendered: with distinct store ids, all
      command ids are distinct. */
  lemma CommandIdsDistinct(stores: seq<Store>, theme: string)
    requires UniqueIds(stores)
    ensures NoDuplicates(CommandIds(AllCommands(stores, theme)))
  {
    var ids := CommandIds(AllCommands(stores, theme));
    forall i, j | 0 <= i < j < |ids|
      ensures ids[i] != ids[j]
    {
      IdsDistinctAt(stores, theme, i, j);
    }
  }

  lemma IdsDistinctAt(stores: seq<Store>, theme: string, i: nat, j: nat)
    requires UniqueIds(stores) && i < j < 7 + |stores|
    ensures AllCommands(stores, theme)[i].id != AllCommands(stores, theme)[j].id
  {
    if 7 <= i {
      StoreIdsDistinct(stores, theme, i, j);
    } else if 7 <= j {
      FixedAndStoreIdsDistinct(stores, theme, i, j);
    } else {
      FixedIdsDistinct(theme, i, j);
    }
  }

  lemma FixedAndStoreIdsDistinct(stores: seq<Store>, theme: string, i: nat, j: nat)
    requires i < 7 <= j < 7 + |stores|
    ensures AllCommands(stores, theme)[i].id != AllCommands(stores, theme)[j].id
  {
    StoreIdPrefix(stores[j - 7].id);
  }

  /** A store command's id is "store-" followed by the store id. */
  lemma StoreIdPrefix(id: string)
    ensures ("store-" + id)[0] == 's'
    ensures ("store-" + id)[6..] == id
  {
  }

  lemma StoreIdsDistinct(stores: seq<Store>, theme: string, i: nat, j: nat)
    requires UniqueIds(stores) && 7 <= i < j < 7 + |stores|
    ensures AllCommands(stores, theme)[i].id != AllCommands(stores, theme)[j].id
  {
    StoreIdPrefix(stores[i - 7].id);
    StoreIdPrefix(stores[j - 7].id);
  }

  lemma FixedIdsDistinct(theme: string, i: nat, j: nat)
    requires i < j < 7
    ensures FixedCommands(theme)[i].id != FixedCommands(theme)[j].id
  {
    var r := FixedCommands(theme);
    assert |r[i].id| > 4 && |r[j].id| > 4;
    assert r[i].id[4] != r[j].id[4] || r[i].id[5] != r[j].id[5];
  }

  // ---------------------------------------------------------------------------
  // Search

  /** `keywords.some(k => k.includes(q))`: keywords are not lower-cased. */
  function SomeKeywordIncludes(ks: seq<string>, q: string): (r: bool)
    ensures r <==> exists i :: 0 <= i < |ks| && Includes(ks[i], q)
  {
    if |ks| == 0 then false
    else if Includes(ks[0], q) then true
    else
      assert forall i :: 1 <= i < |ks| ==> ks[1..][i - 1] == ks[i];
      SomeKeywordIncludes(ks[1..], q)
  }

  /** A command matches the lower-cased query `q` through its lower-cased
      label, its lower-cased description, or one of its keywords as written.
      The empty query matches every command. */
  function Matches(c: Command, q: string): (r: bool)
    ensures r <==>
      || (exists j :: OccursAt(Lower(c.title), q, j))
      || (c.description.Some? && exists j :: OccursAt(Lower(c.description.value), q, j))
      || (c.keywords.Some? && exists i, j :: 0 <= i < |c.keywords.value| && OccursAt(c.keywords.value[i], q, j))
    ensures q == "" ==> r
  {
    assert q == "" ==> OccursAt(Lower(c.title), q, 0);
    || Includes(Lower(c.title), q)
    || (c.description.Some? && Includes(Lower(c.description.value), q))
    || (c.keywords.Some? && SomeKeywordIncludes(c.keywords.value, q))
  }

  /** `Array.prototype.filter` with `Matches`. */
  function KeepMatching(cmds: seq<Command>, q: string): (r: seq<Command>)
    ensures SubseqOf(r, cmds)
    ensures forall c :: c in r <==> c in cmds && Matches(c, q)
    ensures forall c :: multiset(r)[c] == (if Matches(c, q) then multiset(cmds)[c] else 0)
  {
    if |cmds| == 0 then []
    else
      var rest := KeepMatching(cmds[1..], q);
      assert cmds == [cmds[0]] + cmds[1..];
      assert forall c :: c in cmds <==> c == cmds[0] || c in cmds[1..];
      if Matches(cmds[0], q) then [cmds[0]] + rest else rest
  }

  /** The palette's result list for the text typed so far: everything while
      the query is blank, otherwise the commands matching the lower-cased,
      untrimmed query. */
  function Filter(cmds: seq<Command>, query: string): (r: seq<Command>)
    ensures AllWhiteSpace(query) ==> r == cmds
    ensures !AllWhiteSpace(query) ==> forall c :: c in r <==> c in cmds && Matches(c, Lower(query))
    ensures !AllWhiteSpace(query) ==>
              forall c :: multiset(r)[c] == (if Matches(c, Lower(query)) then multiset(cmds)[c] else 0)
    ensures SubseqOf(r, cmds)
  {
    TrimEmptyIff(query);
    SubseqOfSelf(cmds);
    if Trim(query) == "" then cmds else KeepMatching(cmds, Lower(query))
  }

  /** Changing the case of the query's letters does not change the results:
      the query is lower-cased before any comparison, keywords included. */
  lemma FilterIgnoresQueryCase(cmds: seq<Command>, query: string)
    ensures Filter(cmds, Lower(query)) == Filter(cmds, query)
  {
    var lq := Lower(query);
    assert Lower(lq) == lq;
    assert forall i :: 0 <= i < |query| ==> (IsWhiteSpace(lq[i]) <==> IsWhiteSpace(query[i]));
    TrimEmptyIff(query);
    TrimEmptyIff(lq);
  }

  lemma {:induction false} SubseqOfSelf(xs: seq<Command>)
    ensures SubseqOf(xs, xs)
  {
    if |xs| > 0 {
      SubseqOfSelf(xs[1..]);
    }
  }

  /** The query is not trimmed before matching: a trailing space drops the
      Dashboard command that the same word without it finds. */
  lemma UntrimmedQueryMatters()
    ensures Matches(NavCommands[0], Lower("Dash"))
    ensures !Matches(NavCommands[0], Lower("Dash "))
  {
    LowerDash();
    DashMatchesDashboard();
    DashSpaceMissesDashboard();
  }

  lemma DashMatchesDashboard()
    ensures Matches(NavCommands[0], "dash")
  {
    LowerDashboardTitle();
    DashInDashboard();
  }

  lemma DashSpaceMissesDashboard()
    ensures !Matches(NavCommands[0], "dash ")
  {
    DashSpaceNotInTitle();
    DashSpaceNotInKeywords();
    assert NavCommands[0].description.None?;
    assert NavCommands[0].keywords == Some(["home", "overview"]);
  }

  lemma DashSpaceNotInTitle()
    ensures !Includes(Lower(NavCommands[0].title), "dash ")
  {
    LowerDashboardTitle();
    NoDashSpaceInDashboard();
  }

  lemma DashSpaceNotInKeywords()
    ensures !SomeKeywordIncludes(["home", "overview"], "dash ")
  {
    NoDashSpace("home");
    NoDashSpace("overview");
  }

  lemma LowerDash()
    ensures Lower("Dash") == "dash" && Lower("Dash ") == "dash "
  {
    assert Lower("Dash")[0] == 'd';
    assert Lower("Dash ")[0] == 'd';
  }

  lemma DashInDashboard()
    ensures Includes("go to dashboard", "dash")
  {
    assert "go to dashboard"[6..10] == "dash";
    assert OccursAt("go to dashboard", "dash", 6);
  }

  lemma NoDashSpaceInDashboard()
    ensures !Includes("go to dashboard", "dash ")
  {
    var t := "go to dashboard";
    assert forall i :: 0 <= i < |t| - 4 ==> t[i] == 'd' ==> i == 6;
    NoDashSpace(t);
  }

  lemma LowerDashboardTitle()
    ensures Lower(NavCommands[0].title) == "go to dashboard"
  {
    var s := "Go to Dashboard";
    assert forall i :: 0 <= i < |s| ==> Lower(s)[i] == "go to dashboard"[i];
  }

  /** No `"dash "` inside a word that has no space after a `d`. */
  lemma NoDashSpace(t: string)
    requires forall i :: 0 <= i < |t| - 4 ==> t[i] == 'd' ==> t[i + 4] != ' '
    ensures !Includes(t, "dash ")
  {
    forall j: nat
      ensures !OccursAt(t, "dash ", j)
    {
      if j + 5 <= |t| {
        assert t[j..j + 5][0] == t[j] && t[j..j + 5][4] == t[j + 4];
      }
    }
  }

  // ---------------------------------------------------------------------------
  // Grouping

  function GroupNames(cmds: seq<Command>): (gs: seq<string>)
    ensures |gs| == |cmds|
    ensures forall i :: 0 <= i < |cmds| ==> gs[i] == cmds[i].group
  {
    seq(|cmds|, i requires 0 <= i < |cmds| => cmds[i].group)
  }

  /** `Array.from(new Set(filtered.map(c => c.group)))`. */
  function Groups(filtered: seq<Command>): (gs: seq<string>)
    ensures NoDuplicates(gs)
    ensures forall g :: g in gs <==> exists i :: 0 <= i < |filtered| && filtered[i].group == g
  {
    var names := GroupNames(filtered);
    var r := Dedup(names, []);
    assert forall g :: g in names <==> exists i :: 0 <= i < |filtered| && filtered[i].group == g;
    r
  }

  /** Group headings appear in the order their first command appears. */
  lemma GroupsInFirstOccurrenceOrder(filtered: seq<Command>)
    ensures Groups(filtered) == FirstOccurrences(GroupNames(filtered))
  {
    DedupIsFirstOccurrences(GroupNames(filtered));
  }

  /** The commands shown under heading `g`, in result order. */
  function Section(cmds: seq<Command>, g: string): (r: seq<Command>)
    ensures SubseqOf(r, cmds)
    ensures forall c :: c in r <==> c in cmds && c.group == g
    ensures forall c :: multiset(r)[c] == (if c.group == g then multiset(cmds)[c] else 0)
  {
    if |cmds| == 0 then []
    else
      var rest := Section(cmds[1..], g);
      assert cmds == [cmds[0]] + cmds[1..];
      assert forall c :: c in cmds <==> c == cmds[0] || c in cmds[1..];
      if cmds[0].group == g then [cmds[0]] + rest else rest
  }

  /** The rendered list: each heading's section, heading after heading. */
  function Rendered(cmds: seq<Command>, gs: seq<string>): seq<Command> {
    if |gs| == 0 then [] else Section(cmds, gs[0]) + Rendered(cmds, gs[1..])
  }

  /** The commands whose group is in `gs`, in result order. */
  function SectionIn(cmds: seq<Command>, gs: set<string>): seq<Command> {
    if |cmds| == 0 then []
    else (if cmds[0].group in gs then [cmds[0]] else []) + SectionIn(cmds[1..], gs)
  }

  lemma {:induction false} SectionInSplit(cmds: seq<Command>, g: string, gs: set<string>)
    requires g !in gs
    ensures multiset(SectionIn(cmds, gs + {g})) == multiset(Section(cmds, g)) + multiset(SectionIn(cmds, gs))
  {
    if |cmds| > 0 {
      var c := cmds[0];
      assert SectionIn(cmds, gs + {g}) == (if c.group in gs + {g} then [c] else []) + SectionIn(cmds[1..], gs + {g});
      assert SectionIn(cmds, gs) == (if c.group in gs then [c] else []) + SectionIn(cmds[1..], gs);
      assert Section(cmds, g) == (if c.group == g then [c] else []) + Section(cmds[1..], g);
      SectionInSplit(cmds[1..], g, gs);
    }
  }

  lemma {:induction false} RenderedCollects(cmds: seq<Command>, gs: seq<string>)
    requires NoDuplicates(gs)
    ensures multiset(Rendered(cmds, gs)) == multiset(SectionIn(cmds, set g | g in gs))
  {
    if |gs| > 0 {
      var tail := set g | g in gs[1..];
      assert (set g | g in gs) == tail + {gs[0]};
      assert gs[0] !in tail;
      RenderedCollects(cmds, gs[1..]);
      SectionInSplit(cmds, gs[0], tail);
    } else {
      assert (set g | g in gs) == {};
      SectionInNone(cmds);
    }
  }

  lemma {:induction false} SectionInNone(cmds: seq<Command>)
    ensures SectionIn(cmds, {}) == []
  {
    if |cmds| > 0 {
      SectionInNone(cmds[1..]);
    }
  }

  lemma {:induction false} SectionInAll(cmds: seq<Command>, gs: set<string>)
    requires forall i :: 0 <= i < |cmds| ==> cmds[i].group in gs
    ensures SectionIn(cmds, gs) == cmds
  {
    if |cmds| > 0 {
      SectionInAll(cmds[1..], gs);
    }
  }

  /** Rendering the sections under the headings shows every result exactly
      as often as it occurs in the result list: the sections partition it. */
  lemma GroupsPartitionResults(filtered: seq<Command>)
    ensures multiset(Rendered(filtered, Groups(filtered))) == multiset(filtered)
    ensures forall i :: 0 <= i < |filtered| ==>
              exists j :: 0 <= j < |Groups(filtered)| && Groups(filtered)[j] == filtered[i].group
  {
    var gs := Groups(filtered);
    RenderedCollects(filtered, gs);
    SectionInAll(filtered, set g | g in gs);
    forall i | 0 <= i < |filtered|
      ensures exists j :: 0 <= j < |gs| && gs[j] == filtered[i].group
    {
      assert filtered[i].group in gs;
    }
  }

  // ---------------------------------------------------------------------------
  // Running commands and closing the palette

  /** What a command changes: the UI state, a route pushed to the router, the
      theme. */
  datatype Effect = Effect(ui: UIState, pushed: Option<string>, theme: string)

  function RunCommand(a: Action, ui: UIState, theme: string): (r: Effect)
    ensures !r.ui.commandBarOpen
    ensures r.ui.stores == ui.stores
    ensures a.Navigate? ==>
              r.pushed == Some(a.path) && r.theme == theme && r.ui.(commandBarOpen := ui.commandBarOpen) == ui
    ensures a.ToggleTheme? ==>
              r.pushed.None? && r.theme == Topbar.FlipTheme(theme) && r.ui.(commandBarOpen := ui.commandBarOpen) == ui
    ensures a.SwitchStore? ==>
              && r.pushed.None? && r.theme == theme
              && (HasId(ui.stores, a.storeId) ==>
                    r.ui == ui.(activeStoreId := a.storeId,
                                activeStore := ui.stores[IndexOfId(ui.stores, a.storeId)],
                                commandBarOpen := false))
              && (!HasId(ui.stores, a.storeId) ==> r.ui == ui.(commandBarOpen := false))
  {
    match a
    case Navigate(path) => Effect(SetCommandBarOpen(ui, false), Some(path), theme)
    case ToggleTheme => Effect(SetCommandBarOpen(ui, false), None, Topbar.FlipTheme(theme))
    case SwitchStore(id) => Effect(SetCommandBarOpen(SetActiveStore(ui, id), false), None, theme)
  }

  /** Choosing the command of the i-th store selects that store, closes the
      palette, and keeps the state valid. */
  lemma RunStoreCommandSelectsStore(ui: UIState, theme: string, i: nat)
    requires Valid(ui) && i < |ui.stores|
    ensures var e := RunCommand(AllCommands(ui.stores, theme)[7 + i].action, ui, theme);
            && Valid(e.ui)
            && e.ui.activeStoreId == ui.stores[i].id
            && !e.ui.commandBarOpen
            && e.pushed.None? && e.theme == theme
  {
    assert HasId(ui.stores, ui.stores[i].id);
  }

  /** Any command of the palette keeps the UI state valid. */
  lemma RunCommandPreservesValid(ui: UIState, theme: string, k: nat)
    requires Valid(ui) && k < 7 + |ui.stores|
    ensures Valid(RunCommand(AllCommands(ui.stores, theme)[k].action, ui, theme).ui)
  {
    if 7 <= k {
      RunStoreCommandSelectsStore(ui, theme, k - 7);
    } else {
      assert !AllCommands(ui.stores, theme)[k].action.SwitchStore?;
    }
  }

  /** Escape, the close button and a click on the backdrop all close the palette. */
  function Close(ui: UIState): (r: UIState)
    ensures !r.commandBarOpen
    ensures r.(commandBarOpen := ui.commandBarOpen) == ui
  {
    SetCommandBarOpen(ui, false)
  }

  /** The palette's own key listener: only Escape does anything. */
  function OnPaletteKey(ui: UIState, key: string): (r: UIState)
    ensures key == "Escape" ==> r == Close(ui)
    ensures key != "Escape" ==> r == ui
  {
    if key == "Escape" then Close(ui) else ui
  }
}
