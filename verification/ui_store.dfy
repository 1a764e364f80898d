/** The client UI state container: three interface flags, the list of stores
    and a denormalised selection (`activeStoreId` next to a copy of the
    selected `activeStore`), changed only through five setters. */
module UIStore {
  import opened Optional

  datatype Provider = Shopify | Medusa | Custom

  /** The provider's name as it appears in store records and lookup tables. */
  function ProviderName(p: Provider): string {
    match p
    case Shopify => "shopify"
    case Medusa => "medusa"
    case Custom => "custom"
  }

  datatype Store = Store(
    id: string,
    name: string,
    provider: Provider,
    domain: string,
    currency: string,
    logoUrl: Option<string>)

  datatype UIState = UIState(
    sidebarCollapsed: bool,
    commandBarOpen: bool,
    mobileSidebarOpen: bool,
    activeStoreId: string,
    stores: seq<Store>,
    activeStore: Store)

  /** The three stores the container is seeded with. */
  const MockStores: seq<Store> := [
    Store("shopify-1", "Nexus Store", Shopify, "nexus-store.myshopify.com", "USD", None),
    Store("medusa-1", "EU Warehouse", Medusa, "eu.nexus-store.com", "EUR", None),
    Store("custom-1", "Wholesale Portal", Custom, "wholesale.nexus-store.com", "USD", None)
  ]

  /** The selection is one of the listed stores, and the id agrees with it. */
  predicate Valid(s: UIState) {
    s.activeStore in s.stores && s.activeStore.id == s.activeStoreId
  }

  predicate HasId(stores: seq<Store>, id: string) {
    exists i :: 0 <= i < |stores| && stores[i].id == id
  }

  /** Position of the first store with the given id, or `|stores|` if none. */
  function IndexOfId(stores: seq<Store>, id: string): (k: nat)
    ensures k <= |stores|
    ensures forall j :: 0 <= j < k ==> stores[j].id != id
    ensures k < |stores| ==> stores[k].id == id
    ensures k == |stores| <==> !HasId(stores, id)
  {
    if |stores| == 0 then 0
    else if stores[0].id == id then 0
    else
      assert forall j :: 1 <= j < |stores| ==> stores[1..][j - 1] == stores[j];
      1 + IndexOfId(stores[1..], id)
  }

  /** `Array.prototype.find` on the store list, matching on `id`. */
  function FindById(stores: seq<Store>, id: string): (r: Option<Store>)
    ensures r.None? <==> !HasId(stores, id)
    ensures r.Some? ==> r.value in stores && r.value.id == id
    ensures r.Some? ==> exists k :: 0 <= k < |stores| && stores[k] == r.value
                                    && forall j :: 0 <= j < k ==> stores[j].id != id
  {
    var k := IndexOfId(stores, id);
    if k < |stores| then Some(stores[k]) else None
  }

  /** The state the container starts in: every flag off, the first mock
      store selected. */
  function Initial(): (s: UIState)
    ensures Valid(s)
    ensures !s.sidebarCollapsed && !s.commandBarOpen && !s.mobileSidebarOpen
    ensures s.stores == MockStores
    ensures s.activeStore == MockStores[0] && s.activeStoreId == MockStores[0].id
  {
    UIState(false, false, false, MockStores[0].id, MockStores, MockStores[0])
  }

  function SetSidebarCollapsed(s: UIState, collapsed: bool): (r: UIState)
    ensures r.sidebarCollapsed == collapsed
    ensures r.(sidebarCollapsed := s.sidebarCollapsed) == s
  {
    s.(sidebarCollapsed := collapsed)
  }

  function ToggleSidebar(s: UIState): (r: UIState)
    ensures r.sidebarCollapsed != s.sidebarCollapsed
    ensures r.(sidebarCollapsed := s.sidebarCollapsed) == s
  {
    s.(sidebarCollapsed := !s.sidebarCollapsed)
  }

  function SetCommandBarOpen(s: UIState, open: bool): (r: UIState)
    ensures r.commandBarOpen == open
    ensures r.(commandBarOpen := s.commandBarOpen) == s
  {
    s.(commandBarOpen := open)
  }

  function SetMobileSidebarOpen(s: UIState, open: bool): (r: UIState)
    ensures r.mobileSidebarOpen == open
    ensures r.(mobileSidebarOpen := s.mobileSidebarOpen) == s
  {
    s.(mobileSidebarOpen := open)
  }

  /** Selects the first store whose id is `storeId`; an unknown id is ignored. */
  function SetActiveStore(s: UIState, storeId: string): (r: UIState)
    ensures HasId(s.stores, storeId) ==>
              && r.activeStoreId == storeId
              && r.activeStore == s.stores[IndexOfId(s.stores, storeId)]
              && r.(activeStoreId := s.activeStoreId, activeStore := s.activeStore) == s
    ensures !HasId(s.stores, storeId) ==> r == s
  {
    match FindById(s.stores, storeId)
    case Some(store) => s.(activeStoreId := storeId, activeStore := store)
    case None => s
  }

  // ---------------------------------------------------------------------------
  // The operations as data, and runs of them

  datatype Op =
    | SetSidebarCollapsedOp(collapsed: bool)
    | ToggleSidebarOp
    | SetCommandBarOpenOp(open: bool)
    | SetMobileSidebarOpenOp(open: bool)
    | SetActiveStoreOp(storeId: string)

  function Apply(s: UIState, op: Op): UIState {
    match op
    case SetSidebarCollapsedOp(c) => SetSidebarCollapsed(s, c)
    case ToggleSidebarOp => ToggleSidebar(s)
    case SetCommandBarOpenOp(o) => SetCommandBarOpen(s, o)
    case SetMobileSidebarOpenOp(o) => SetMobileSidebarOpen(s, o)
    case SetActiveStoreOp(id) => SetActiveStore(s, id)
  }

  function Run(s: UIState, ops: seq<Op>): UIState
    decreases |ops|
  {
    if |ops| == 0 then s else Run(Apply(s, ops[0]), ops[1..])
  }

  /** Every operation keeps the selection valid and leaves the store list alone. */
  lemma ApplyPreservesValid(s: UIState, op: Op)
    requires Valid(s)
    ensures Valid(Apply(s, op))
    ensures Apply(s, op).stores == s.stores
  {
  }

  /** Any sequence of operations from a valid state keeps the selection valid
      and leaves the store list as it was. */
  lemma {:induction false} RunPreservesValid(s: UIState, ops: seq<Op>)
    requires Valid(s)
    ensures Valid(Run(s, ops))
    ensures Run(s, ops).stores == s.stores
    decreases |ops|
  {
    if |ops| > 0 {
      ApplyPreservesValid(s, ops[0]);
      RunPreservesValid(Apply(s, ops[0]), ops[1..]);
    }
  }

  /** Every state reachable from the initial one is valid and still lists
      exactly the mock stores. */
  lemma ReachableStatesValid(ops: seq<Op>)
    ensures Valid(Run(Initial(), ops))
    ensures Run(Initial(), ops).stores == MockStores
  {
    RunPreservesValid(Initial(), ops);
  }

  lemma ToggleSidebarTwice(s: UIState)
    ensures ToggleSidebar(ToggleSidebar(s)) == s
  {
  }

  lemma SetActiveStoreIdempotent(s: UIState, id: string)
    ensures SetActiveStore(SetActiveStore(s, id), id) == SetActiveStore(s, id)
  {
  }

  predicate UniqueIds(stores: seq<Store>) {
    forall i, j :: 0 <= i < j < |stores| ==> stores[i].id != stores[j].id
  }

  /** With unique ids, re-selecting the active store changes nothing. */
  lemma ReselectActiveIsNoOp(s: UIState)
    requires Valid(s) && UniqueIds(s.stores)
    ensures SetActiveStore(s, s.activeStoreId) == s
  {
    var i :| 0 <= i < |s.stores| && s.stores[i] == s.activeStore;
    var k := IndexOfId(s.stores, s.activeStoreId);
    assert k == i;
  }

  /** After selecting a listed store its id and record are the selection, and
      a later unknown id does not disturb it. */
  lemma SwitchThenUnknownKeepsSelection()
    ensures SetActiveStore(Initial(), "medusa-1").activeStore == MockStores[1]
    ensures SetActiveStore(SetActiveStore(Initial(), "medusa-1"), "does-not-exist").activeStoreId == "medusa-1"
  {
    assert MockStores[1].id == "medusa-1";
    assert IndexOfId(MockStores, "medusa-1") == 1;
    assert !HasId(MockStores, "does-not-exist");
  }
}
