/** The dashboard's project restore: one shared snapshot, its listeners, storage handlers and wallet timer. */
module Dashboard {
  import opened Text
  import opened ProjectSelection
  import Json

  // ---------- The snapshot ----------

  datatype RestoreState =
    Unknown | Restoring | ReadyWithProject | ReadyWithoutProject | BlockedWalletRequired | Broken

  datatype WalletRuntime = Deferred | Importing | Mounted | ImportFailed | SkippedNoWallet | TimeoutFallback

  datatype Snapshot = Snapshot(
    routePath: Text,
    state: RestoreState,
    currentProjectId: Text,
    source: Source,
    walletRuntime: WalletRuntime,
    storageSettled: bool,
    walletSettled: bool,
    mobileSafari: bool,
    errorMessage: Option<Text>)

  const BLANK: Snapshot := Snapshot([], Unknown, [], UnknownSource, Deferred, false, false, false, None)

  /** `isDashboardWalletRuntimeSettled` */
  predicate RuntimeSettled(r: WalletRuntime) {
    r.Mounted? || r.ImportFailed? || r.SkippedNoWallet? || r.TimeoutFallback?
  }

  /** `isDashboardWorkspaceReady` */
  predicate WorkspaceReady(s: Snapshot) {
    s.state.ReadyWithProject? || s.state.ReadyWithoutProject?
  }

  /** `isDashboardBootPending` */
  predicate BootPending(s: Snapshot) {
    s.state.Unknown? || s.state.Restoring? || !s.storageSettled
  }

  // ---------- The module's state ----------

  /**
   The module variables, and what they have set up in the page. Initialisation number n registers
   storage handler n and wallet timer n + 1; `timer` is the variable that holds the timer's id, 0 for
   none. `emits` logs the snapshot at every call of the listeners.
   */
  datatype World = World(
    snapshot: Snapshot,
    emits: seq<Snapshot>,
    cleanup: Option<nat>,
    handlers: set<nat>,
    timer: nat,
    liveTimers: set<nat>,
    inits: nat)

  const START: World := World(BLANK, [], None, {}, 0, {}, 0)

  function UpdateSnapshot(w: World, next: Snapshot): World {
    if next == w.snapshot then w else w.(snapshot := next, emits := w.emits + [next])
  }

  function ResolveRestoreState(w: World, selection: Selection): World {
    var s := w.snapshot;
    if !s.storageSettled then
      UpdateSnapshot(w, s.(currentProjectId := [], source := selection.source, state := Restoring))
    else if selection.currentProjectId != [] then
      if s.state.ReadyWithProject? && s.currentProjectId == selection.currentProjectId
         && s.source == selection.source && s.errorMessage.None? then w
      else
        UpdateSnapshot(w, s.(currentProjectId := selection.currentProjectId, errorMessage := None,
                             source := selection.source, state := ReadyWithProject))
    else
      var resolved := if selection.source.UnknownSource? then NoneConfirmed else selection.source;
      if s.state.ReadyWithoutProject? && s.currentProjectId == [] && s.source == resolved && s.errorMessage.None? then w
      else
        UpdateSnapshot(w, s.(currentProjectId := [], errorMessage := None, source := resolved, state := ReadyWithoutProject))
  }

  /** `refreshProjectRestore`, given what reading localStorage comes to. */
  function Refresh(w: World, reading: Reading): World {
    match reading
    case Selected(selection) => ResolveRestoreState(w, selection)
    case Failed(message) =>
      UpdateSnapshot(w, w.snapshot.(currentProjectId := [], errorMessage := Some(message),
                                    source := UnknownSource, state := Broken))
  }

  function ClearTimers(w: World): World {
    w.(liveTimers := w.liveTimers - {w.timer}, timer := 0)
  }

  /** The function that initialisation number `id` returns. */
  function RunCleanup(w: World, id: nat): World {
    var w := ClearTimers(w);
    w.(handlers := w.handlers - {id})
  }

  function CleanupActive(w: World): World {
    if w.cleanup.Some? then RunCleanup(w, w.cleanup.value) else w
  }

  /** A new restore up to its first refresh: the old one cleaned up, one emit, one handler and one timer. */
  function Begun(w: World, routePath: Text, mobileSafari: bool): World {
    var runtime := w.snapshot.walletRuntime;
    var w := ClearTimers(CleanupActive(w));
    var s := Snapshot(routePath, Restoring, [], UnknownSource, runtime, true, RuntimeSettled(runtime), mobileSafari, None);
    w.(snapshot := s, emits := w.emits + [s], handlers := w.handlers + {w.inits}, timer := w.inits + 1,
       liveTimers := w.liveTimers + {w.inits + 1}, inits := w.inits + 1)
  }

  function Initialize(w: World, routePath: Text, mobileSafari: bool, reading: Reading): World {
    var w := Refresh(Begun(w, routePath, mobileSafari), reading);
    w.(cleanup := Some(w.inits - 1))
  }

  function Reset(w: World): World {
    var w := ClearTimers(CleanupActive(w).(cleanup := None));
    w.(snapshot := BLANK, emits := w.emits + [BLANK])
  }

  function MarkBlocked(w: World, routePath: Text): World {
    var w := ClearTimers(CleanupActive(w).(cleanup := None));
    UpdateSnapshot(w, Snapshot(routePath, BlockedWalletRequired, [], UnknownSource, SkippedNoWallet, false, true,
                               w.snapshot.mobileSafari, None))
  }

  function MarkImportStarted(w: World, routePath: Text, reading: Reading): World {
    var s := w.snapshot;
    if s.routePath == routePath && s.walletSettled && WorkspaceReady(s) then w
    else
      Refresh(UpdateSnapshot(w, s.(routePath := routePath, state := if s.state.Unknown? then Restoring else s.state,
                                   walletRuntime := Importing, walletSettled := false)),
              reading)
  }

  function MarkImportReady(w: World, routePath: Text, reading: Reading): World {
    var w := ClearTimers(w);
    Refresh(UpdateSnapshot(w, w.snapshot.(routePath := routePath, walletRuntime := Mounted, walletSettled := true)), reading)
  }

  function MarkImportFailed(w: World, routePath: Text, message: Option<Text>, reading: Reading): World {
    var w := ClearTimers(w);
    Refresh(UpdateSnapshot(w, w.snapshot.(routePath := routePath,
                                          errorMessage := if message.Some? then message else w.snapshot.errorMessage,
                                          walletRuntime := ImportFailed, walletSettled := true)),
            reading)
  }

  function MarkImportSkipped(w: World, routePath: Text, reading: Reading): World {
    var w := ClearTimers(w);
    Refresh(UpdateSnapshot(w, w.snapshot.(routePath := routePath, walletRuntime := SkippedNoWallet, walletSettled := true)),
            reading)
  }

  function TimerFires(w: World, id: nat, reading: Reading): World {
    if id !in w.liveTimers then w
    else
      var w := w.(liveTimers := w.liveTimers - {id});
      if w.snapshot.walletSettled then w
      else
        Refresh(UpdateSnapshot(w, w.snapshot.(
                  walletRuntime := if w.snapshot.walletRuntime.Mounted? then Mounted else TimeoutFallback,
                  walletSettled := true)),
                reading)
  }

  /** A storage event reaches the registered handler, if there is one. */
  function StorageChanged(w: World, reading: Reading): World {
    if w.handlers == {} then w else Refresh(w, reading)
  }

  // ---------- Runs ----------

  datatype Event =
    | Initialise(routePath: Text, mobileSafari: bool)
    | ResetAll
    | Blocked(routePath: Text)
    | ImportStarted(routePath: Text)
    | ImportReady(routePath: Text)
    | ImportBroken(routePath: Text, message: Option<Text>)
    | ImportSkipped(routePath: Text)
    | TimerFired(id: nat)
    | StorageEvent
    | Cleaned(id: nat)

  /** The effect of an event, given what localStorage reads as when it happens. */
  function Step(w: World, e: Event, reading: Reading): World {
    match e
    case Initialise(route, mobile) => Initialize(w, route, mobile, reading)
    case ResetAll => Reset(w)
    case Blocked(route) => MarkBlocked(w, route)
    case ImportStarted(route) => MarkImportStarted(w, route, reading)
    case ImportReady(route) => MarkImportReady(w, route, reading)
    case ImportBroken(route, message) => MarkImportFailed(w, route, message, reading)
    case ImportSkipped(route) => MarkImportSkipped(w, route, reading)
    case TimerFired(id) => TimerFires(w, id, reading)
    case StorageEvent => StorageChanged(w, reading)
    case Cleaned(id) => RunCleanup(w, id)
  }

  function Run(es: seq<(Event, Reading)>): World {
    if es == [] then START
    else Step(Run(es[..|es| - 1]), es[|es| - 1].0, es[|es| - 1].1)
  }

  // ---------- Invariants ----------

  /** What every snapshot that anybody can see satisfies. */
  predicate Good(s: Snapshot) {
    && (s.currentProjectId != [] <==> s.state.ReadyWithProject?)
    && (s.walletSettled <==> RuntimeSettled(s.walletRuntime))
    && (WorkspaceReady(s) ==> s.storageSettled)
    && (s.state.BlockedWalletRequired? ==> !s.storageSettled)
  }

  predicate AllGood(w: World) {
    Good(w.snapshot) && forall i :: 0 <= i < |w.emits| ==> Good(w.emits[i])
  }

  /** At most one handler and one timer are live, both of the latest initialisation. */
  predicate Tidy(w: World) {
    && (forall h :: h in w.handlers ==> w.cleanup == Some(h))
    && (w.cleanup.Some? ==> w.cleanup.value + 1 == w.inits)
    && (forall t :: t in w.liveTimers ==> t == w.timer == w.inits)
  }

  lemma UpdateKeepsGood(w: World, next: Snapshot)
    requires AllGood(w) && Good(next)
    ensures AllGood(UpdateSnapshot(w, next))
  {
  }

  lemma RefreshKeepsGood(w: World, reading: Reading)
    requires AllGood(w)
    ensures AllGood(Refresh(w, reading))
  {
  }

  lemma RefreshFrame(w: World, reading: Reading)
    ensures var w' := Refresh(w, reading);
            && w'.cleanup == w.cleanup && w'.handlers == w.handlers && w'.timer == w.timer
            && w'.liveTimers == w.liveTimers && w'.inits == w.inits
            && w'.snapshot.storageSettled == w.snapshot.storageSettled
  {
  }

  lemma BegunKeeps(w: World, routePath: Text, mobileSafari: bool)
    requires AllGood(w) && Tidy(w)
    ensures var w' := Begun(w, routePath, mobileSafari);
            AllGood(w') && w'.handlers == {w'.inits - 1} && w'.liveTimers == {w'.inits} && w'.timer == w'.inits
  {
    var w1 := ClearTimers(CleanupActive(w));
    assert w1.handlers == {} && w1.liveTimers == {};
  }

  lemma InitializeKeeps(w: World, routePath: Text, mobileSafari: bool, reading: Reading)
    requires AllGood(w) && Tidy(w)
    ensures AllGood(Initialize(w, routePath, mobileSafari, reading)) && Tidy(Initialize(w, routePath, mobileSafari, reading))
  {
    BegunKeeps(w, routePath, mobileSafari);
    RefreshKeepsGood(Begun(w, routePath, mobileSafari), reading);
    RefreshFrame(Begun(w, routePath, mobileSafari), reading);
  }

  /** After the active restore is cleaned up, nothing of it is live. */
  lemma StopKeeps(w: World)
    requires AllGood(w) && Tidy(w)
    ensures var w' := ClearTimers(CleanupActive(w).(cleanup := None));
            AllGood(w') && Tidy(w') && w'.snapshot == w.snapshot
  {
  }

  lemma MarkKeeps(w: World, next: Snapshot, reading: Reading)
    requires AllGood(w) && Tidy(w) && Good(next)
    ensures var w' := Refresh(UpdateSnapshot(w, next), reading); AllGood(w') && Tidy(w')
  {
    UpdateKeepsGood(w, next);
    RefreshKeepsGood(UpdateSnapshot(w, next), reading);
    RefreshFrame(UpdateSnapshot(w, next), reading);
  }

  lemma ReadyKeeps(w: World, route: Text, reading: Reading)
    requires AllGood(w) && Tidy(w)
    ensures AllGood(MarkImportReady(w, route, reading)) && Tidy(MarkImportReady(w, route, reading))
  {
    MarkKeeps(ClearTimers(w), w.snapshot.(routePath := route, walletRuntime := Mounted, walletSettled := true), reading);
  }

  lemma BrokenKeeps(w: World, route: Text, message: Option<Text>, reading: Reading)
    requires AllGood(w) && Tidy(w)
    ensures AllGood(MarkImportFailed(w, route, message, reading)) && Tidy(MarkImportFailed(w, route, message, reading))
  {
    var s := w.snapshot;
    MarkKeeps(ClearTimers(w), s.(routePath := route, errorMessage := if message.Some? then message else s.errorMessage,
                                 walletRuntime := ImportFailed, walletSettled := true), reading);
  }

  lemma SkippedKeeps(w: World, route: Text, reading: Reading)
    requires AllGood(w) && Tidy(w)
    ensures AllGood(MarkImportSkipped(w, route, reading)) && Tidy(MarkImportSkipped(w, route, reading))
  {
    MarkKeeps(ClearTimers(w), w.snapshot.(routePath := route, walletRuntime := SkippedNoWallet, walletSettled := true),
              reading);
  }

  lemma TimerKeeps(w: World, id: nat, reading: Reading)
    requires AllGood(w) && Tidy(w)
    ensures AllGood(TimerFires(w, id, reading)) && Tidy(TimerFires(w, id, reading))
  {
    var s := w.snapshot;
    MarkKeeps(w.(liveTimers := w.liveTimers - {id}),
              s.(walletRuntime := if s.walletRuntime.Mounted? then Mounted else TimeoutFallback, walletSettled := true), reading);
  }

  lemma BeginKeeps(w: World, route: Text, reading: Reading)
    requires AllGood(w) && Tidy(w)
    ensures AllGood(MarkImportStarted(w, route, reading)) && Tidy(MarkImportStarted(w, route, reading))
  {
    var s := w.snapshot;
    MarkKeeps(w, s.(routePath := route, state := if s.state.Unknown? then Restoring else s.state,
                    walletRuntime := Importing, walletSettled := false), reading);
  }

  lemma ResetKeeps(w: World)
    requires AllGood(w) && Tidy(w)
    ensures AllGood(Reset(w)) && Tidy(Reset(w))
  {
    StopKeeps(w);
  }

  lemma BlockedKeeps(w: World, route: Text)
    requires AllGood(w) && Tidy(w)
    ensures AllGood(MarkBlocked(w, route)) && Tidy(MarkBlocked(w, route))
  {
    StopKeeps(w);
  }

  lemma CleanKeeps(w: World, id: nat)
    requires AllGood(w) && Tidy(w)
    ensures AllGood(RunCleanup(w, id)) && Tidy(RunCleanup(w, id))
  {
  }

  lemma StepKeeps(w: World, e: Event, reading: Reading)
    requires AllGood(w) && Tidy(w)
    ensures AllGood(Step(w, e, reading)) && Tidy(Step(w, e, reading))
  {
    match e
    case Initialise(route, mobile) => InitializeKeeps(w, route, mobile, reading);
    case ResetAll => ResetKeeps(w);
    case Blocked(route) => BlockedKeeps(w, route);
    case ImportStarted(route) => BeginKeeps(w, route, reading);
    case TimerFired(id) => TimerKeeps(w, id, reading);
    case StorageEvent =>
      RefreshKeepsGood(w, reading);
      RefreshFrame(w, reading);
    case Cleaned(id) => CleanKeeps(w, id);
    case ImportReady(route) => ReadyKeeps(w, route, reading);
    case ImportBroken(route, message) => BrokenKeeps(w, route, message, reading);
    case ImportSkipped(route) => SkippedKeeps(w, route, reading);
  }

  // ---------- Main results ----------

  lemma {:induction false} RunKeeps(es: seq<(Event, Reading)>)
    ensures AllGood(Run(es)) && Tidy(Run(es))
  {
    if es == [] {
    } else {
      RunKeeps(es[..|es| - 1]);
      StepKeeps(Run(es[..|es| - 1]), es[|es| - 1].0, es[|es| - 1].1);
    }
  }

  /** In every reachable state and at every emit the snapshot is good, so boot-pending and ready exclude each other. */
  lemma EverySnapshotIsGood(es: seq<(Event, Reading)>, s: Snapshot)
    requires s == Run(es).snapshot || s in Run(es).emits
    ensures Good(s) && !(BootPending(s) && WorkspaceReady(s))
  {
    RunKeeps(es);
  }

  /** In every reachable state exactly one holds: booting, ready, or settled with a read error. */
  lemma BootingReadyOrBroken(es: seq<(Event, Reading)>, s: Snapshot)
    requires s == Run(es).snapshot || s in Run(es).emits
    ensures BootPending(s) <==> !WorkspaceReady(s) && !(s.state.Broken? && s.storageSettled)
    ensures WorkspaceReady(s) <==> s.state == ReadyWithProject || s.state == ReadyWithoutProject
  {
    RunKeeps(es);
  }

  /** At most one storage handler and one wallet timer are live, and they belong to the latest initialisation. */
  lemma AtMostOneLive(es: seq<(Event, Reading)>)
    ensures var w := Run(es);
            && |w.handlers| <= 1 && |w.liveTimers| <= 1
            && (forall h :: h in w.handlers ==> h + 1 == w.inits)
            && (forall t :: t in w.liveTimers ==> t == w.inits)
  {
    RunKeeps(es);
    var w := Run(es);
    if w.handlers != {} {
      assert w.handlers == {w.cleanup.value};
    }
    if w.liveTimers != {} {
      assert w.liveTimers == {w.timer};
    }
  }

  lemma RefreshKeepsWallet(w: World, reading: Reading)
    ensures var s := Refresh(w, reading).snapshot;
            && s.walletRuntime == w.snapshot.walletRuntime && s.walletSettled == w.snapshot.walletSettled
            && s.routePath == w.snapshot.routePath && s.mobileSafari == w.snapshot.mobileSafari
  {
  }

  /** In any run, a wallet timer that fires before the wallet is settled gives up on it; afterwards it changes nothing to see. */
  lemma TimerGivesUp(es: seq<(Event, Reading)>, id: nat, reading: Reading)
    requires id in Run(es).liveTimers
    ensures var s := Run(es).snapshot; var s' := Step(Run(es), TimerFired(id), reading).snapshot;
            if s.walletSettled then s' == s else s'.walletRuntime == TimeoutFallback && s'.walletSettled
  {
    RunKeeps(es);
    var s := Run(es).snapshot;
    var next := s.(walletRuntime := if s.walletRuntime.Mounted? then Mounted else TimeoutFallback, walletSettled := true);
    RefreshKeepsWallet(UpdateSnapshot(Run(es).(liveTimers := Run(es).liveTimers - {id}), next), reading);
  }

  /** A timer that was cleared does nothing, and neither does a storage event without a handler. */
  lemma DeadCallbacks(w: World, id: nat, reading: Reading)
    ensures id !in w.liveTimers ==> Step(w, TimerFired(id), reading) == w
    ensures w.handlers == {} ==> Step(w, StorageEvent, reading) == w
  {
  }

  /** While a restore is active, a storage event selects from what is stored then. */
  lemma StorageEventSelects(es: seq<(Event, Reading)>, items: seq<Item>)
    requires Run(es).handlers != {}
    ensures var s := Step(Run(es), StorageEvent, Read(Readable(items))).snapshot;
            && s.currentProjectId == FirstNonEmpty([LegacyId(items), NamespacedId(items), RecentId(items)])
            && s.state == (if s.currentProjectId == [] then ReadyWithoutProject else ReadyWithProject)
  {
    RunSettled(es);
    HandlerSelects(Run(es), items);
  }

  lemma HandlerSelects(w: World, items: seq<Item>)
    requires w.handlers != {} && w.snapshot.storageSettled
    ensures var s := Step(w, StorageEvent, Read(Readable(items))).snapshot;
            && s.currentProjectId == FirstNonEmpty([LegacyId(items), NamespacedId(items), RecentId(items)])
            && s.state == (if s.currentProjectId == [] then ReadyWithoutProject else ReadyWithProject)
  {
    RefreshSelects(w, items);
  }

  /** While a handler is registered, storage is settled. */
  lemma {:induction false} RunSettled(es: seq<(Event, Reading)>)
    ensures Run(es).handlers != {} ==> Run(es).snapshot.storageSettled
  {
    if es == [] {
    } else {
      var init, e, reading := es[..|es| - 1], es[|es| - 1].0, es[|es| - 1].1;
      RunSettled(init);
      RunKeeps(init);
      StepSettled(Run(init), e, reading);
    }
  }

  lemma StepSettled(w: World, e: Event, reading: Reading)
    requires AllGood(w) && Tidy(w) && (w.handlers != {} ==> w.snapshot.storageSettled)
    ensures Step(w, e, reading).handlers != {} ==> Step(w, e, reading).snapshot.storageSettled
  {
    match e
    case Initialise(route, mobile) => RefreshFrame(Begun(w, route, mobile), reading);
    case ResetAll => StopKeeps(w);
    case Blocked(route) => StopKeeps(w);
    case StorageEvent => RefreshFrame(w, reading);
    case Cleaned(id) =>
    case TimerFired(id) => TimerFrame(w, id, reading);
    case _ => MarkFrame(w, e, reading);
  }

  lemma TimerFrame(w: World, id: nat, reading: Reading)
    ensures var w' := TimerFires(w, id, reading);
            w'.handlers == w.handlers && w'.snapshot.storageSettled == w.snapshot.storageSettled
  {
  }

  lemma MarkFrame(w: World, e: Event, reading: Reading)
    requires e.ImportStarted? || e.ImportReady? || e.ImportBroken? || e.ImportSkipped?
    ensures var w' := Step(w, e, reading);
            w'.handlers == w.handlers && w'.snapshot.storageSettled == w.snapshot.storageSettled
  {
  }

  /** A refreshed update leaves the wallet's part of the snapshot as it was set. */
  lemma UpdateLeaves(w: World, next: Snapshot, reading: Reading)
    ensures var s := Refresh(UpdateSnapshot(w, next), reading).snapshot;
            && s.walletRuntime == next.walletRuntime && s.walletSettled == next.walletSettled
            && s.routePath == next.routePath && s.mobileSafari == next.mobileSafari
  {
    RefreshKeepsWallet(UpdateSnapshot(w, next), reading);
  }

  /** The wallet's part of a snapshot after a mark. */
  predicate Marked(s: Snapshot, route: Text, runtime: WalletRuntime, settled: bool) {
    s.routePath == route && s.walletRuntime == runtime && s.walletSettled == settled
  }

  /** Each wallet mark leaves its route and its runtime, settled except while importing. */
  lemma MarksLeave(w: World, route: Text, message: Option<Text>, reading: Reading)
    ensures Marked(MarkImportReady(w, route, reading).snapshot, route, Mounted, true)
    ensures Marked(MarkImportFailed(w, route, message, reading).snapshot, route, ImportFailed, true)
    ensures Marked(MarkImportSkipped(w, route, reading).snapshot, route, SkippedNoWallet, true)
  {
    var c, s := ClearTimers(w), w.snapshot;
    UpdateLeaves(c, s.(routePath := route, walletRuntime := Mounted, walletSettled := true), reading);
    UpdateLeaves(c, s.(routePath := route, errorMessage := if message.Some? then message else s.errorMessage,
                       walletRuntime := ImportFailed, walletSettled := true), reading);
    UpdateLeaves(c, s.(routePath := route, walletRuntime := SkippedNoWallet, walletSettled := true), reading);
  }

  /** An import that starts is marked, unless the route is ready with a settled wallet: then nothing happens. */
  lemma StartLeaves(w: World, route: Text, reading: Reading)
    ensures var s, w' := w.snapshot, MarkImportStarted(w, route, reading);
            if s.routePath == route && s.walletSettled && (s.state.ReadyWithProject? || s.state.ReadyWithoutProject?) then w' == w
            else Marked(w'.snapshot, route, Importing, false)
  {
    var s := w.snapshot;
    UpdateLeaves(w, s.(routePath := route, state := if s.state.Unknown? then Restoring else s.state,
                       walletRuntime := Importing, walletSettled := false), reading);
  }

  /** A blocked route shows as such, and a reset blanks the snapshot; neither leaves a handler or a timer in a run. */
  lemma StopsLeave(es: seq<(Event, Reading)>, route: Text)
    ensures var w := MarkBlocked(Run(es), route);
            && w.snapshot.state == BlockedWalletRequired && Marked(w.snapshot, route, SkippedNoWallet, true)
            && w.snapshot.currentProjectId == [] && !w.snapshot.storageSettled && w.handlers == {} && w.liveTimers == {}
    ensures var w := Reset(Run(es));
            && w.snapshot == Snapshot([], Unknown, [], UnknownSource, Deferred, false, false, false, None)
            && w.handlers == {} && w.liveTimers == {}
  {
    RunKeeps(es);
  }

  /** A restore that starts shows the route, keeps the wallet's runtime, and has one new handler and one new timer. */
  lemma StartOfRestore(es: seq<(Event, Reading)>, route: Text, mobile: bool, reading: Reading)
    ensures var w, w' := Run(es), Initialize(Run(es), route, mobile, reading);
            && w'.snapshot.routePath == route && w'.snapshot.mobileSafari == mobile && w'.snapshot.storageSettled
            && w'.snapshot.walletRuntime == w.snapshot.walletRuntime
            && w'.handlers == {w.inits} && w'.liveTimers == {w.inits + 1}
  {
    RunKeeps(es);
    BegunKeeps(Run(es), route, mobile);
    RefreshKeepsWallet(Begun(Run(es), route, mobile), reading);
    RefreshFrame(Begun(Run(es), route, mobile), reading);
  }

  lemma RefreshSettled(w: World, selection: Selection)
    requires w.snapshot.storageSettled
    ensures var s := Refresh(w, Selected(selection)).snapshot;
            && s.currentProjectId == selection.currentProjectId
            && s.state == (if s.currentProjectId == [] then ReadyWithoutProject else ReadyWithProject)
            && s.source == (if selection == Selection([], UnknownSource) then NoneConfirmed else selection.source)
            && s.errorMessage.None?
  {
  }

  /** With settled storage a refresh selects the first non-empty of the legacy, namespaced and recent ids. */
  lemma RefreshSelects(w: World, items: seq<Item>)
    requires w.snapshot.storageSettled
    ensures var s := Refresh(w, Read(Readable(items))).snapshot;
            && s.currentProjectId == FirstNonEmpty([LegacyId(items), NamespacedId(items), RecentId(items)])
            && s.state == (if s.currentProjectId == [] then ReadyWithoutProject else ReadyWithProject)
            && s.errorMessage.None?
  {
    SelectionIsFirstNonEmpty(items);
    RefreshSettled(w, Read(Readable(items)).selection);
  }

  /** With settled storage and only a list of recent projects stored, a refresh restores its first entry with an id. */
  lemma RefreshRestoresRecent(w: World, key: Text, entries: seq<Json.Value>, k: nat)
    requires w.snapshot.storageSettled
    requires StartsWith(key, RECENT_PREFIX) && FirstWithId(entries, k)
    requires forall i :: 0 <= i < |entries| ==> Json.Defined(entries[i])
    ensures var s := Refresh(w, Read(Readable([Item(key, Json.Stringify(Json.Arr(entries)))]))).snapshot;
            var id := Json.Field(entries[k], OBJECT_ID);
            && s.currentProjectId == (if id.Str? then NormalizeObjectId(id.s) else [])
            && s.source == RecentProjects
            && s.state == (if s.currentProjectId == [] then ReadyWithoutProject else ReadyWithProject)
  {
    RecentListSelects(key, entries, k);
    var id := Json.Field(entries[k], OBJECT_ID);
    RefreshSettled(w, Selection(if id.Str? then NormalizeObjectId(id.s) else [], RecentProjects));
  }

  /** A second refresh with unchanged storage changes nothing and notifies nobody. */
  lemma RefreshTwice(w: World, reading: Reading)
    ensures Refresh(Refresh(w, reading), reading) == Refresh(w, reading)
  {
  }

  /** A refresh notifies the listeners at most once, and only of a new snapshot. */
  lemma RefreshEmits(w: World, reading: Reading)
    ensures var w' := Refresh(w, reading);
            if w'.snapshot == w.snapshot then w'.emits == w.emits else w'.emits == w.emits + [w'.snapshot]
  {
  }

  /** Any number of storage events, with whatever storage, notify only of changes. */
  predicate Changes(before: Snapshot, emits: seq<Snapshot>)
    decreases emits
  {
    emits == [] || (emits[0] != before && Changes(emits[0], emits[1..]))
  }

  lemma {:induction false} StorageEventsNotifyChanges(w: World, readings: seq<Reading>) returns (emitted: seq<Snapshot>)
    ensures var w' := AfterStorageEvents(w, readings);
            && w'.emits == w.emits + emitted && Changes(w.snapshot, emitted)
            && |emitted| <= |readings|
            && w'.snapshot == (if emitted == [] then w.snapshot else emitted[|emitted| - 1])
    decreases readings
  {
    if readings == [] {
      emitted := [];
    } else {
      var w1 := StorageChanged(w, readings[0]);
      RefreshEmits(w, readings[0]);
      var rest := StorageEventsNotifyChanges(w1, readings[1..]);
      if w1.snapshot == w.snapshot {
        emitted := rest;
      } else {
        emitted := [w1.snapshot] + rest;
      }
    }
  }

  function AfterStorageEvents(w: World, readings: seq<Reading>): World
    decreases readings
  {
    if readings == [] then w else AfterStorageEvents(StorageChanged(w, readings[0]), readings[1..])
  }

  // ---------- The module's variables ----------

  /** The module-level variables, updated in place; `emits` records the calls of the listeners. */
  class ProjectRestore {
    var snapshot: Snapshot
    var emits: seq<Snapshot>
    var cleanupActiveRestore: Option<nat>
    var handlers: set<nat>
    var walletTimeoutTimer: nat
    var liveTimers: set<nat>
    var inits: nat

    function Contents(): World
      reads this
    {
      World(snapshot, emits, cleanupActiveRestore, handlers, walletTimeoutTimer, liveTimers, inits)
    }

    /** What all methods keep. */
    ghost predicate Valid()
      reads this
    {
      AllGood(Contents()) && Tidy(Contents())
    }

    constructor ()
      ensures Contents() == START && Valid()
    {
      snapshot, emits := BLANK, [];
      cleanupActiveRestore, handlers := None, {};
      walletTimeoutTimer, liveTimers, inits := 0, {}, 0;
    }

    method Emit()
      modifies this`emits
      ensures emits == old(emits) + [snapshot]
    {
      emits := emits + [snapshot];
    }

    method Update(next: Snapshot)
      modifies this
      ensures Contents() == UpdateSnapshot(old(Contents()), next)
    {
      if next == snapshot {
        return;
      }
      snapshot := next;
      Emit();
    }

    method Resolve(selection: Selection)
      modifies this
      ensures Contents() == ResolveRestoreState(old(Contents()), selection)
    {
      if !snapshot.storageSettled {
        Update(snapshot.(currentProjectId := [], source := selection.source, state := Restoring));
        return;
      }
      if selection.currentProjectId != [] {
        if snapshot.state.ReadyWithProject? && snapshot.currentProjectId == selection.currentProjectId
           && snapshot.source == selection.source && snapshot.errorMessage.None? {
          return;
        }
        Update(snapshot.(currentProjectId := selection.currentProjectId, errorMessage := None,
                         source := selection.source, state := ReadyWithProject));
        return;
      }
      var resolved := if selection.source.UnknownSource? then NoneConfirmed else selection.source;
      if snapshot.state.ReadyWithoutProject? && snapshot.currentProjectId == []
         && snapshot.source == resolved && snapshot.errorMessage.None? {
        return;
      }
      Update(snapshot.(currentProjectId := [], errorMessage := None, source := resolved, state := ReadyWithoutProject));
    }

    method RefreshRestore(reading: Reading)
      modifies this
      ensures Contents() == Refresh(old(Contents()), reading)
      ensures old(Valid()) ==> Valid()
    {
      if Valid() {
        RefreshKeepsGood(Contents(), reading);
        RefreshFrame(Contents(), reading);
      }
      match reading
      case Selected(selection) => Resolve(selection);
      case Failed(message) =>
        Update(snapshot.(currentProjectId := [], errorMessage := Some(message), source := UnknownSource, state := Broken));
    }

    method ClearRestoreTimers()
      modifies this
      ensures Contents() == ClearTimers(old(Contents()))
    {
      liveTimers := liveTimers - {walletTimeoutTimer};
      walletTimeoutTimer := 0;
    }

    method CleanUp(id: nat)
      modifies this
      ensures Contents() == RunCleanup(old(Contents()), id)
      ensures forall reading :: Contents() == Step(old(Contents()), Cleaned(id), reading)
      ensures old(Valid()) ==> Valid()
    {
      if Valid() {
        CleanKeeps(Contents(), id);
      }
      ClearRestoreTimers();
      handlers := handlers - {id};
    }

    /** `initializeDashboardProjectRestore` up to its refresh. */
    method Begin(routePath: Text, mobileSafari: bool)
      modifies this
      ensures Contents() == Begun(old(Contents()), routePath, mobileSafari)
    {
      var walletRuntime := snapshot.walletRuntime;
      if cleanupActiveRestore.Some? {
        CleanUp(cleanupActiveRestore.value);
      }
      ClearRestoreTimers();
      snapshot := Snapshot(routePath, Restoring, [], UnknownSource, walletRuntime, true,
                           RuntimeSettled(walletRuntime), mobileSafari, None);
      Emit();
      handlers := handlers + {inits};
      walletTimeoutTimer := inits + 1;
      liveTimers := liveTimers + {inits + 1};
      inits := inits + 1;
    }

    method Start(routePath: Text, mobileSafari: bool, reading: Reading)
      modifies this
      ensures Contents() == Step(old(Contents()), Initialise(routePath, mobileSafari), reading)
      ensures old(Valid()) ==> Valid()
    {
      if Valid() {
        InitializeKeeps(Contents(), routePath, mobileSafari, reading);
      }
      Begin(routePath, mobileSafari);
      RefreshRestore(reading);
      cleanupActiveRestore := Some(inits - 1);
    }

    method Stop()
      modifies this
      ensures forall reading :: Contents() == Step(old(Contents()), ResetAll, reading)
      ensures old(Valid()) ==> Valid()
    {
      if Valid() {
        ResetKeeps(Contents());
      }
      if cleanupActiveRestore.Some? {
        CleanUp(cleanupActiveRestore.value);
      }
      cleanupActiveRestore := None;
      ClearRestoreTimers();
      snapshot := BLANK;
      Emit();
    }

    /** The registered storage handler, if there is one, is called. */
    method HandleStorage(reading: Reading)
      modifies this
      ensures Contents() == Step(old(Contents()), StorageEvent, reading)
      ensures old(Valid()) ==> Valid()
    {
      if handlers != {} {
        RefreshRestore(reading);
      }
    }

    /** The wallet timer's callback. */
    method FireTimer(id: nat, reading: Reading)
      requires id in liveTimers
      modifies this
      ensures Contents() == Step(old(Contents()), TimerFired(id), reading)
      ensures old(Valid()) ==> Valid()
    {
      if Valid() {
        TimerKeeps(Contents(), id, reading);
      }
      liveTimers := liveTimers - {id};
      if snapshot.walletSettled {
        return;
      }
      Update(snapshot.(walletRuntime := if snapshot.walletRuntime.Mounted? then Mounted else TimeoutFallback,
                       walletSettled := true));
      RefreshRestore(reading);
    }

    method ImportBegins(routePath: Text, reading: Reading)
      modifies this
      ensures Contents() == Step(old(Contents()), ImportStarted(routePath), reading)
      ensures old(Valid()) ==> Valid()
    {
      if Valid() {
        BeginKeeps(Contents(), routePath, reading);
      }
      if snapshot.routePath == routePath && snapshot.walletSettled && WorkspaceReady(snapshot) {
        return;
      }
      Update(snapshot.(routePath := routePath, state := if snapshot.state.Unknown? then Restoring else snapshot.state,
                       walletRuntime := Importing, walletSettled := false));
      RefreshRestore(reading);
    }

    method ImportIsReady(routePath: Text, reading: Reading)
      modifies this
      ensures Contents() == Step(old(Contents()), ImportReady(routePath), reading)
      ensures old(Valid()) ==> Valid()
    {
      if Valid() {
        ReadyKeeps(Contents(), routePath, reading);
      }
      ClearRestoreTimers();
      Update(snapshot.(routePath := routePath, walletRuntime := Mounted, walletSettled := true));
      RefreshRestore(reading);
    }

    method ImportHasFailed(routePath: Text, message: Option<Text>, reading: Reading)
      modifies this
      ensures Contents() == Step(old(Contents()), ImportBroken(routePath, message), reading)
      ensures old(Valid()) ==> Valid()
    {
      if Valid() {
        BrokenKeeps(Contents(), routePath, message, reading);
      }
      ClearRestoreTimers();
      Update(snapshot.(routePath := routePath, errorMessage := if message.Some? then message else snapshot.errorMessage,
                       walletRuntime := ImportFailed, walletSettled := true));
      RefreshRestore(reading);
    }

    method ImportIsSkipped(routePath: Text, reading: Reading)
      modifies this
      ensures Contents() == Step(old(Contents()), ImportSkipped(routePath), reading)
      ensures old(Valid()) ==> Valid()
    {
      if Valid() {
        SkippedKeeps(Contents(), routePath, reading);
      }
      ClearRestoreTimers();
      Update(snapshot.(routePath := routePath, walletRuntime := SkippedNoWallet, walletSettled := true));
      RefreshRestore(reading);
    }

    method Block(routePath: Text)
      modifies this
      ensures forall reading :: Contents() == Step(old(Contents()), Blocked(routePath), reading)
      ensures old(Valid()) ==> Valid()
    {
      if Valid() {
        BlockedKeeps(Contents(), routePath);
      }
      if cleanupActiveRestore.Some? {
        CleanUp(cleanupActiveRestore.value);
      }
      cleanupActiveRestore := None;
      ClearRestoreTimers();
      Update(Snapshot(routePath, BlockedWalletRequired, [], UnknownSource, SkippedNoWallet, false, true,
                      snapshot.mobileSafari, None));
    }
  }
}
