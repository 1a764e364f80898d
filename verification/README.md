# Admin panel UI core, in Dafny

This project models the client-side logic of an e-commerce administration
dashboard. It covers the single UI state container, plus the pure decisions
embedded in the shell components:

- **UI state container** (`ui_store.dfy`, module `UIStore`). One immutable
  `UIState` record holds three interface flags (`sidebarCollapsed`,
  `commandBarOpen`, `mobileSidebarOpen`), the store list, and a denormalised
  selection: `activeStoreId` next to a copy of the selected `activeStore`.
  There are five transition functions. `SetActiveStore` looks the id up with
  a first-match find and ignores unknown ids. The predicate `Valid` is the
  selection invariant: the active store is in the list and carries the
  active id. It holds initially and after any run of operations.
- **Command palette** (`command_bar.dfy`, module `CommandBar`). The command
  list has six navigation commands, the theme command and one command per
  store. The search over it is case-insensitive and matches label,
  description and keywords. The group headings are de-duplicated in
  first-occurrence order, and each heading renders its own section of the
  results. Also modelled: the effect of running a command, and the ways of
  closing the palette.
- **Sidebar** (`sidebar.dfy`). Covers the expanded flag, nav-entry
  highlighting by route, the store-switcher menu guards, provider accent
  colours and the sidebar width.
- **Top bar** (`topbar.dfy`). Covers the exact-key page-title table with its
  fallback, the theme flip, and the Search button.
- **Application shell** (`app_shell.dfy`). Covers the Cmd/Ctrl+K shortcut,
  combined key dispatch with the palette's Escape handler, and the layout
  decisions (palette mounted, content margin).
- **Data table** (`data_table.dfy`). Covers the CSV export (header from
  column definitions, cell rendering, unquoted joining, and a round trip
  through splitting), the skeleton-width formula, and the choice of table
  body.
- **Text helpers** (`text.dfy`). These stand in for the JavaScript built-ins
  the code calls: `toLowerCase`, `includes`, `trim`, `startsWith`, `join`,
  and `Array.from(new Set(...))`. `Split` is not called by the code; it is
  the reader of joined text that the CSV round-trip lemmas use.

Closures are data here. A command's action is the `Action` datatype, and
running one returns an `Effect`: the new UI state, an optional route pushed
to the router, and the theme. The router, the theme provider and the
browser's key events become parameters and results.

What the code does, and so what the model does:

- The state container declares exactly five operations
  (src/core/store/useUIStore.ts:19-23) and has no persistence middleware.
  Nothing updates a store record, and nothing is saved to or restored from
  client storage. The settings page's Save only sets a local `saved` flag
  and clears it two seconds later
  (src/app/(dashboard)/settings/page.tsx:23-26). Its store-name field is
  local input state seeded from the active store's name
  (src/app/(dashboard)/settings/page.tsx:17, 50-51) that Save never writes
  back, so there is no commit or re-sync to model.
- The initial selection is the first entry of the container's own store
  list (src/core/store/useUIStore.ts:30-32), not the configuration's
  `defaultStoreId`.
- Store ids are not checked for uniqueness anywhere. Lemmas that need
  unique ids say so in their `requires` (`UniqueIds`).

## Model

| member | source | states |
|---|---|---|
| UIStore.Initial | src/core/store/useUIStore.ts:26-32 | The initial state has all three flags off, the three mock stores as its list, and the first of them selected, so the selection invariant holds from the start |
| UIStore.IndexOfId | src/core/store/useUIStore.ts:38 | The lookup position is the first store with that id: every store before it has another id, and it is past the end exactly when no store has the id |
| UIStore.FindById | src/core/store/useUIStore.ts:38 | `find` returns nothing exactly when no store has the id; otherwise it returns the first listed store with that id: no store before it has the id |
| UIStore.SetSidebarCollapsed | src/core/store/useUIStore.ts:33 | Sets the collapse flag to the argument; every other field is unchanged |
| UIStore.ToggleSidebar | src/core/store/useUIStore.ts:34 | Negates the collapse flag; every other field is unchanged |
| UIStore.SetCommandBarOpen | src/core/store/useUIStore.ts:35 | Sets the palette flag to the argument; every other field is unchanged |
| UIStore.SetMobileSidebarOpen | src/core/store/useUIStore.ts:36 | Sets the mobile-drawer flag to the argument; every other field is unchanged |
| UIStore.SetActiveStore | src/core/store/useUIStore.ts:37-40 | For a listed id, the id and the first store with it become the selection and nothing else changes; for an unknown id the whole state is unchanged |
| UIStore.ApplyPreservesValid | src/core/store/useUIStore.ts:33-40 | Each of the five operations keeps the active store in the list with the active id, and none changes the list |
| UIStore.RunPreservesValid | src/core/store/useUIStore.ts:26-41 | Any sequence of operations from a valid state keeps the selection invariant and leaves the store list as it was |
| UIStore.ReachableStatesValid | src/core/store/useUIStore.ts:26-41 | Every state reachable from the initial one satisfies the selection invariant and still lists exactly the mock stores |
| UIStore.ToggleSidebarTwice | src/core/store/useUIStore.ts:34 | Toggling twice restores the original state |
| UIStore.SetActiveStoreIdempotent | src/core/store/useUIStore.ts:37-40 | Selecting the same id twice gives the same state as selecting it once |
| UIStore.ReselectActiveIsNoOp | src/core/store/useUIStore.ts:37-40 | With unique ids, selecting the already active store changes nothing |
| UIStore.SwitchThenUnknownKeepsSelection | src/core/store/useUIStore.ts:37-39 | Selecting "medusa-1" makes the second mock store active, and a following unknown id leaves "medusa-1" selected |
| Topbar.PageFor | src/components/shared/Topbar.tsx:31 | The page title is the table entry under exactly the current path if there is one, and otherwise the "Nexus AI" fallback with an empty description. The title is "Nexus AI", and the description empty, exactly when the path has no entry |
| Topbar.PageTitleRoutes | src/components/shared/Topbar.tsx:10-19 | The title table has exactly the eight listed routes as keys |
| Topbar.SubPathGetsFallback | src/components/shared/Topbar.tsx:31 | Lookup is by exact key: a listed route followed by a further path segment gets the fallback |
| Topbar.FlipTheme | src/components/shared/Topbar.tsx:63 | The result is always "light" or "dark", and it is "light" exactly when the theme was "dark" |
| Topbar.FlipThemeTwice | src/components/shared/Topbar.tsx:63 | Flipping twice gives the original theme back exactly when it was "dark" or "light" |
| Topbar.SearchClicked | src/components/shared/Topbar.tsx:43 | The Search button opens the palette and changes nothing else |
| Sidebar.ProviderColorsTotal | src/components/shared/Sidebar.tsx:19-23 | Each of the three providers a store can have has an accent colour |
| Sidebar.WidthPx | src/components/shared/Sidebar.tsx:35 | From the `md` breakpoint up, the sidebar is 68 px wide when collapsed and 260 px otherwise |
| Sidebar.IsExpanded | src/components/shared/Sidebar.tsx:31 | The sidebar is not expanded (labels and the store menu hidden) exactly when it is collapsed and the mobile drawer is closed |
| Sidebar.IsNavActive | src/components/shared/Sidebar.tsx:151 | The root entry is active only on the root path; any other entry is active exactly when its route is a string prefix of the path |
| Sidebar.NavPrefixIgnoresSegments | src/components/shared/Sidebar.tsx:151 | "/products" is active on "/products/123" and on "/productsX", and the root entry is not active on "/products" |
| Sidebar.ExactlyOneActiveOnNavRoute | src/components/shared/Sidebar.tsx:150-151 | On the route of any navigation entry, that entry and no other is highlighted |
| Sidebar.ToggleStoreMenu | src/components/shared/Sidebar.tsx:91 | Clicking the switcher flips the menu while expanded and leaves it as it is while collapsed |
| Sidebar.StoreMenuShown | src/components/shared/Sidebar.tsx:116 | The menu is on screen only when it is open. It is never shown while the sidebar is collapsed with the drawer closed, and an open menu is shown when the sidebar is not collapsed or the drawer is open |
| Sidebar.SwitcherClick | src/components/shared/Sidebar.tsx:91-116 | The menu is on screen only while open and expanded. So after a click on the switcher it shows exactly when the sidebar is expanded and the menu was closed, two clicks cancel out, and a collapsed sidebar with the drawer closed never shows it |
| Sidebar.SelectStore | src/components/shared/Sidebar.tsx:126 | Choosing a menu entry closes the menu. For a listed id, the id and the first listed store with it become the selection and nothing else changes; an unknown id leaves the state unchanged |
| Sidebar.SelectListedStore | src/components/shared/Sidebar.tsx:123-126 | Every store the menu lists can be selected, and selecting it keeps the selection invariant |
| Sidebar.CloseMobileDrawer | src/components/shared/Sidebar.tsx:74 | The drawer's close button closes the mobile drawer and changes nothing else |
| CommandBar.NavCommandsHaveTitles | src/components/modules/CommandBar.tsx:37-42 | Every navigation command leads to a route that has an entry in the top bar's title table |
| CommandBar.ThemeCommand | src/components/modules/CommandBar.tsx:43-48 | The theme command's label names the theme that flipping the current one produces |
| CommandBar.AllCommands | src/components/modules/CommandBar.tsx:36-58 | The list is seven fixed commands, then exactly one command per store in list order. Each store command has id "store-"+id, label "Switch to "+name, the domain as description, the provider among its keywords and the switch action, and only store commands are in the "Stores" group |
| CommandBar.CommandIdsDistinct | src/components/modules/CommandBar.tsx:36-58 | When store ids are distinct, all command ids (the React keys) are distinct |
| CommandBar.SomeKeywordIncludes | src/components/modules/CommandBar.tsx:66 | True exactly when some keyword, not lower-cased, contains the query |
| CommandBar.KeepMatching | src/components/modules/CommandBar.tsx:61-68 | The result is an order-preserving subsequence of the commands. A command is in it iff it matches, and each matching command occurs as often as in the input |
| CommandBar.Matches | src/components/modules/CommandBar.tsx:63-67 | A command matches exactly when the query occurs at some offset of its lower-cased label, of its lower-cased description, or of one of its keywords as written; the empty query matches every command |
| CommandBar.Filter | src/components/modules/CommandBar.tsx:60-69 | A blank query gives the full list unchanged. Otherwise a command is kept iff it matches the lower-cased, untrimmed query, and each kept command occurs as often as in the list. The result is always a subsequence of the list |
| CommandBar.FilterIgnoresQueryCase | src/components/modules/CommandBar.tsx:60-62 | Typing the query in other letter case gives the same results, keywords included, because the query is lower-cased before any comparison |
| CommandBar.UntrimmedQueryMatters | src/components/modules/CommandBar.tsx:60-62 | "Dash" finds the Dashboard command but "Dash " does not: surrounding spaces take part in the match |
| CommandBar.Groups | src/components/modules/CommandBar.tsx:71 | The headings have no duplicates and are exactly the group names of the results |
| CommandBar.GroupsInFirstOccurrenceOrder | src/components/modules/CommandBar.tsx:71 | The headings are the group names at the positions where each first occurs, in that order |
| CommandBar.Section | src/components/modules/CommandBar.tsx:127-128 | A heading's section holds exactly the results of that group, in result order, each as often as in the results |
| CommandBar.GroupsPartitionResults | src/components/modules/CommandBar.tsx:124-129 | The sections under the headings, taken together, contain every result exactly as often as the result list does, and every result's group has a heading |
| CommandBar.RunCommand | src/components/modules/CommandBar.tsx:31-57 | Every command closes the palette and keeps the store list. Navigation pushes its route and changes nothing else. The theme command sets the flipped theme ("light" from "dark", otherwise "dark") and changes nothing else. A store command selects the first store with that id, changing nothing but the selection, if one is listed; otherwise it only closes the palette |
| CommandBar.RunStoreCommandSelectsStore | src/components/modules/CommandBar.tsx:49-57 | Running the i-th store's command selects the i-th store's id (the first store with that id when ids repeat), closes the palette, keeps the invariant, and neither navigates nor changes the theme |
| CommandBar.RunCommandPreservesValid | src/components/modules/CommandBar.tsx:36-58 | Running any command of the palette (any position in the full command list) keeps the selection invariant |
| CommandBar.Close | src/components/modules/CommandBar.tsx:89 | The close button and a backdrop click close the palette and change nothing else |
| CommandBar.OnPaletteKey | src/components/modules/CommandBar.tsx:75-77 | Escape closes the palette; any other key changes nothing |
| AppShell.IsPaletteShortcut | src/components/shared/AppShell.tsx:15 | The shortcut is a lower-case "k" with Cmd or Ctrl held; without either modifier, or with an upper-case "K", it is not |
| AppShell.OnShellKey | src/components/shared/AppShell.tsx:14-20 | After the shell's listener the palette is open iff it was open or the key was Cmd/Ctrl with "k"; nothing else changes |
| AppShell.ShortcutIdempotent | src/components/shared/AppShell.tsx:17 | The shortcut sets rather than toggles: pressing it again leaves the state as after one press |
| AppShell.DispatchKey | src/components/shared/AppShell.tsx:14-20 | After one key press the palette is open iff the key was the shortcut, or it was already open and the key was not Escape; nothing else changes |
| AppShell.LayoutFor | src/components/shared/AppShell.tsx:31-41 | The palette is mounted iff its flag is set, and the content margin (from the `md` breakpoint up) equals the sidebar's width for the current collapse flag |
| DataTable.ColumnKey | src/components/ui/DataTable.tsx:74 | A non-empty accessor key wins. Otherwise a non-empty id is used, and the key is empty iff both are missing or empty |
| DataTable.DropEmpty | src/components/ui/DataTable.tsx:74 | Dropping blanks keeps every non-empty key in order and as often as it occurs, removes every empty one, and changes nothing when no key is empty |
| DataTable.Header | src/components/ui/DataTable.tsx:74 | The header holds the non-empty column keys in column order, each as often as columns carry it. It is exactly the keys of all columns when none is empty |
| DataTable.Cell | src/components/ui/DataTable.tsx:77-78 | A string field is exported as is and a number through the number formatting; a missing or other field becomes "" |
| DataTable.RowCells | src/components/ui/DataTable.tsx:75-80 | Every exported row has one cell per header key, read from the field of that key |
| DataTable.Lines | src/components/ui/DataTable.tsx:75-81 | The exported table is the header followed by one cell row per filtered row, every line as long as the header |
| DataTable.JoinLines | src/components/ui/DataTable.tsx:81 | The text is empty for no lines, the first line's comma-joined cells for one line, and otherwise starts with them and contains a newline |
| DataTable.ExportCsv | src/components/ui/DataTable.tsx:72-81 | The export starts with the comma-joined header; with no rows it is that header line alone, and with rows it contains a newline |
| DataTable.JoinLinesRoundTrip | src/components/ui/DataTable.tsx:81 | Splitting the joined text on newlines and then commas recovers every line, as long as no line is empty and no cell contains a comma or newline |
| DataTable.ExportCsvRoundTrip | src/components/ui/DataTable.tsx:72-81 | With a non-empty header and no comma or newline in any key or cell, parsing the CSV export recovers the header and the cell rows |
| DataTable.CommaInKeyIsAmbiguous | src/components/ui/DataTable.tsx:81 | Without quoting, one column keyed "a,b" and two columns keyed "a" and "b" export identical text |
| DataTable.SkeletonWidth | src/components/ui/DataTable.tsx:37 | A skeleton bar's width is always between 60 and 89 percent |
| DataTable.BodyFor | src/components/ui/DataTable.tsx:209-220 | While loading, eight skeleton rows of one bar per column are shown. Otherwise zero rows give the single "No results found." row spanning all columns, and any other count gives the data rows |
| Text.Lower | src/components/modules/CommandBar.tsx:62-65 | Lower-casing keeps the length and maps each character on its own: A-Z to a-z, everything else unchanged |
| Text.StartsWith | src/components/shared/Sidebar.tsx:151 | `startsWith` holds exactly when the prefix is no longer than the string and agrees with it character by character, that is, when it occurs at offset 0 |
| Text.LeadingWhiteSpace | src/components/modules/CommandBar.tsx:60 | The count of leading white space: every character before it is white space, and the character at it, if any, is not |
| Text.Trim | src/components/modules/CommandBar.tsx:60 | `trim` keeps the contiguous part of the string that starts after the leading white space; everything after it is white space, and the result neither starts nor ends with white space |
| Text.Includes | src/components/modules/CommandBar.tsx:64-66 | `includes` is true exactly when the needle occurs at some offset |
| Text.TrimEmptyIff | src/components/modules/CommandBar.tsx:60 | A query trims to the empty string exactly when every character is JavaScript white space |
| Text.Join | src/components/ui/DataTable.tsx:81 | `join` of no parts is empty and of one part is that part; otherwise the text starts with the first part and contains the separator |
| Text.SplitJoin | src/components/ui/DataTable.tsx:81 | Splitting a join gives back the parts, provided there is at least one part and none contains the separator |
| Text.JoinSplit | src/components/ui/DataTable.tsx:81 | Joining a split gives back the original string |
| Text.Dedup | src/components/modules/CommandBar.tsx:71 | Set insertion keeps what was seen as a prefix, adds no duplicates, and ends holding exactly the seen and walked elements |
| Text.DedupIsFirstOccurrences | src/components/modules/CommandBar.tsx:71 | Building a Set in insertion order and listing it gives exactly the first occurrences, in order |

## Left out

- Rendering, styling, icons, animations and the `mounted` guard on the theme icon. They decide no state.
- The table library's sorting, filtering, pagination and column visibility. The export takes the filtered rows as given, and the body takes the page's row count as given.
- The download plumbing around the CSV (Blob, object URL, anchor click) and the JSON export. Both are browser I/O.
- Number formatting in the CSV. It is the opaque parameter `numberText`, because JavaScript's number-to-string conversion is floating-point formatting. A field holding NaN or ±Infinity is still a number to the export and is written as "NaN" or "Infinity"; the model's `NumVal` holds a real, which cannot be NaN or infinite, so those values are not represented.
- Below the `md` breakpoint the sidebar is a full-width drawer and the content margin is zero. `Sidebar.WidthPx` and `AppShell.LayoutFor` give the widths from that breakpoint up.
- Text.Lower: lower-cases only the ASCII letters A-Z. JavaScript's `toLowerCase` also maps non-ASCII letters, so a query or label with such letters may match differently.
- Topbar.PageFor: a record lookup in JavaScript also finds inherited object members such as `"constructor"`. The model's map does not. A route path always starts with "/", so such keys cannot arise.
- The focus timer on opening the palette (a `setTimeout` of 50 ms). Listener registration and removal are not modelled as operations. `DispatchKey` assumes the shell's listener runs before the palette's.
- The router and theme provider. A pushed route and the theme are outputs of `CommandBar.RunCommand`, not state of the model.
- The data hooks, API route handlers, database schemas, the variants modal and the theme-replacement script. These are network, database or file-system I/O.
- Updating a store record, persisting the state container to client storage, and buffering the settings form. The code has none of these: the container's five operations are all there is.
