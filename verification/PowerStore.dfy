/** The package store of one Power: its installed tree, the history of earlier trees, and the bindings of the
    projects that use it. Directory moves are renames on a map, so a restored layout is an equal map. */
module PowerStore {
  import opened Results
  import opened Sequences
  import opened Sorting
  import opened FreshNames

  /** A distribution package; `valid` is whether its files pass verification. */
  datatype Package = Package(version: string, manifestSha: string, runtimeRoot: string, valid: bool)

  /** A directory tree; a managed one carries a marker with its version and manifest digest. */
  datatype Tree = Tree(package: Package, managed: bool, mtime: int)

  datatype Place = Installed | History(name: string) | Staging

  datatype Binding = Binding(target: string, version: string, manifestSha: string, storePath: string,
      runtimePath: string, configPath: Option<string>)

  datatype Config = Config(managed: bool, config: Option<string>, contract: Option<string>)

  datatype State = State(dirs: map<Place, Tree>, bindings: map<string, Binding>, configs: map<string, Config>,
      runtimes: set<string>)

  /** Where the store is, how targets are keyed and checked, how a runtime root resolves below a target (None when
      it escapes), and in which order a directory lists its entries. */
  datatype Env = Env(
    storePath: string, keyOf: string -> string, separated: string -> bool, resolve: (string, string) -> Option<string>,
    listing: set<string> -> seq<string>)

  datatype StoreError =
    | Overlap | InvalidPackage | Unmanaged | NotInstalled | NoHistoryEntry | RuntimeEscapes | BindingMissing
    | UnmanagedConfiguration | ConfirmationRequired | NothingToConfigure | Interrupted

  /** Where an operation is interrupted by the file system. */
  datatype Fault =
    | Never | OnCopy | OnBackup | OnSwap | OnRefresh(done: nat) | OnRuntime | OnBinding
    | OnConfigBackup | OnConfigSwap | OnUnlink | OnConfigRemoval | OnRuntimeRemoval | OnPackageRemoval

  ghost predicate Enumerates(xs: seq<string>, s: set<string>) {
    (forall x :: x in xs <==> x in s) && forall i, j :: 0 <= i < j < |xs| ==> xs[i] != xs[j]
  }

  ghost predicate ValidEnv(env: Env) {
    forall s: set<string> :: Enumerates(env.listing(s), s)
  }

  // ---- directory moves ----

  function Rename(dirs: map<Place, Tree>, from: Place, to: Place): map<Place, Tree>
    requires from in dirs
  {
    (dirs - {from})[to := dirs[from]]
  }

  function HistoryNames(dirs: map<Place, Tree>): set<string> {
    set p | p in dirs.Keys && p.History? :: p.name
  }

  function InstallBackup(dirs: map<Place, Tree>, version: string, now: nat): (name: string)
    ensures History(name) !in dirs
  {
    var name := Fresh(HistoryNames(dirs), Numbered(version + "-" + Digits(now)), 0);
    assert forall p :: p in dirs.Keys && p.History? ==> p.name in HistoryNames(dirs);
    name
  }

  /** Stage a copy, move the installed tree to history, swap the copy in; undo on failure. */
  function InstallTree(dirs: map<Place, Tree>, package: Package, now: nat, fault: Fault): (r: (map<Place, Tree>, bool))
    ensures r.1 ==> Installed in r.0
  {
    if fault.OnCopy? then (dirs - {Staging}, false)
    else
      var staged := dirs[Staging := Tree(package, true, now)];
      if Installed !in staged then
        if fault.OnSwap? then (staged - {Staging}, false) else (Rename(staged, Staging, Installed), true)
      else
        var backup := History(InstallBackup(staged, staged[Installed].package.version, now));
        if fault.OnBackup? then (staged - {Staging}, false)
        else
          var moved := Rename(staged, Installed, backup);
          if fault.OnSwap? then
            var cleaned := moved - {Staging};
            (if backup in cleaned && Installed !in cleaned then Rename(cleaned, backup, Installed) else cleaned, false)
          else (Rename(moved, Staging, Installed), true)
  }

  /** A failed installation leaves the layout as it was; a successful one adds the new tree and keeps the old one
      under a fresh history name. */
  lemma InstallTreeExactly(dirs: map<Place, Tree>, package: Package, now: nat, fault: Fault)
    requires Staging !in dirs
    ensures var (after, ok) := InstallTree(dirs, package, now, fault);
            && (!ok ==> after == dirs)
            && (ok <==> !fault.OnCopy? && !fault.OnSwap? && (Installed in dirs ==> !fault.OnBackup?))
            && (ok ==> if Installed in dirs
                       then exists name ::
                         && History(name) !in dirs
                         && after == dirs[Installed := Tree(package, true, now)][History(name) := dirs[Installed]]
                       else after == dirs[Installed := Tree(package, true, now)])
  {
    var staged := dirs[Staging := Tree(package, true, now)];
    assert staged - {Staging} == dirs;
    if !fault.OnCopy? && Installed in dirs && !fault.OnBackup? {
      var name := InstallBackup(staged, staged[Installed].package.version, now);
      var backup := History(name);
      assert backup !in dirs;
      var moved := Rename(staged, Installed, backup);
      if fault.OnSwap? {
        assert Rename(moved - {Staging}, backup, Installed) == dirs;
      } else {
        assert Rename(moved, Staging, Installed)
            == dirs[Installed := Tree(package, true, now)][backup := dirs[Installed]];
      }
    } else if !fault.OnCopy? && Installed !in dirs && !fault.OnSwap? {
      assert Rename(staged, Staging, Installed) == dirs[Installed := Tree(package, true, now)];
    }
  }

  // ---- choosing what to roll back to ----

  datatype Row = Row(name: string, version: string, mtime: int)

  predicate ManagedAt(dirs: map<Place, Tree>, name: string) {
    History(name) in dirs && dirs[History(name)].managed
  }

  function NewestFirst(): (Row, Row) -> bool {
    (a: Row, b: Row) => a.mtime >= b.mtime
  }

  function RowOf(dirs: map<Place, Tree>, name: string): Row {
    if History(name) in dirs then Row(name, dirs[History(name)].package.version, dirs[History(name)].mtime)
      else Row(name, "", 0)
  }

  function ManagedRow(dirs: map<Place, Tree>): Row -> bool {
    (r: Row) => ManagedAt(dirs, r.name)
  }

  function AsRow(dirs: map<Place, Tree>): string -> Row {
    (name: string) => RowOf(dirs, name)
  }

  /** The managed history entries, newest first. */
  function HistoryEntries(env: Env, dirs: map<Place, Tree>): seq<Row> {
    Filter(ManagedRow(dirs), SortBy(NewestFirst(), Map(AsRow(dirs), env.listing(HistoryNames(dirs)))))
  }

  function Wanted(version: Option<string>): Row -> bool {
    (r: Row) => version.None? || version.value == "" || version.value == r.version || version.value == r.name
  }

  function Candidates(env: Env, dirs: map<Place, Tree>, version: Option<string>): (r: seq<Row>)
    ensures forall row :: row in r ==> ManagedAt(dirs, row.name)
  {
    assert forall row :: row in HistoryEntries(env, dirs) ==> ManagedRow(dirs)(row);
    Filter(Wanted(version), HistoryEntries(env, dirs))
  }

  predicate Matches(dirs: map<Place, Tree>, version: Option<string>, name: string) {
    && History(name) in dirs && dirs[History(name)].managed
    && (version.None? || version.value == "" || version.value == dirs[History(name)].package.version
          || version.value == name)
  }

  /** Rollback goes to the newest managed tree that the request names by version or by directory. */
  lemma RollbackPicksNewest(env: Env, dirs: map<Place, Tree>, version: Option<string>)
    requires ValidEnv(env)
    ensures Candidates(env, dirs, version) == [] <==> forall name :: !Matches(dirs, version, name)
    ensures Candidates(env, dirs, version) != [] ==>
              var pick := Candidates(env, dirs, version)[0].name;
              Matches(dirs, version, pick) && forall name :: Matches(dirs, version, name) ==>
                  dirs[History(name)].mtime <= dirs[History(pick)].mtime
  {
    hide Filter, SortBy, Map;
    var listed := Map(AsRow(dirs), env.listing(HistoryNames(dirs)));
    var sorted := SortBy(NewestFirst(), listed);
    var entries, found := HistoryEntries(env, dirs), Candidates(env, dirs, version);
    SamePermutation(sorted, listed);
    SortBySorted(NewestFirst(), listed);
    FilterSorted(NewestFirst(), ManagedRow(dirs), sorted);
    FilterSorted(NewestFirst(), Wanted(version), entries);
    forall name | Matches(dirs, version, name) ensures RowOf(dirs, name) in found {
      ListedRow(env, dirs, name);
      assert ManagedRow(dirs)(RowOf(dirs, name));
    }
    forall row | row in found ensures row == RowOf(dirs, row.name) && Matches(dirs, version, row.name) {
      assert row in listed && Wanted(version)(row) && ManagedRow(dirs)(row);
      var i :| 0 <= i < |listed| && listed[i] == row;
      assert row == AsRow(dirs)(env.listing(HistoryNames(dirs))[i]);
    }
    if found != [] {
      var pick := found[0].name;
      assert found[0] in found;
      forall name | Matches(dirs, version, name) ensures dirs[History(name)].mtime <= dirs[History(pick)].mtime {
        var row := RowOf(dirs, name);
        var i :| 0 <= i < |found| && found[i] == row;
        assert i == 0 || NewestFirst()(found[0], found[i]);
      }
    }
  }

  lemma ListedRow(env: Env, dirs: map<Place, Tree>, name: string)
    requires ValidEnv(env) && History(name) in dirs
    ensures RowOf(dirs, name) in Map(AsRow(dirs), env.listing(HistoryNames(dirs)))
  {
    hide Map;
    var listing := env.listing(HistoryNames(dirs));
    assert Enumerates(listing, HistoryNames(dirs));
    assert History(name) in dirs.Keys && History(name).History? && History(name).name == name;
    assert name in HistoryNames(dirs);
    var i :| 0 <= i < |listing| && listing[i] == name;
    assert Map(AsRow(dirs), listing)[i] == AsRow(dirs)(name);
  }

  // ---- rolling back ----

  function RollbackBackup(dirs: map<Place, Tree>, version: string, now: nat): (name: string)
    ensures History(name) !in dirs
  {
    var name := Fresh(HistoryNames(dirs), Extended(version + "-rollback-" + Digits(now)), 0);
    assert forall p :: p in dirs.Keys && p.History? ==> p.name in HistoryNames(dirs);
    name
  }

  /** Move the installed tree to history and the selected one into its place, verify, undo on failure. */
  function RollbackTree(dirs: map<Place, Tree>, selected: Place, now: nat, fault: Fault): (r: (map<Place, Tree>, bool))
    requires Installed in dirs && selected in dirs && selected.History?
    ensures r.1 ==> Installed in r.0
  {
    var backup := History(RollbackBackup(dirs, dirs[Installed].package.version, now));
    if fault.OnBackup? then (dirs, false)
    else
      var moved := Rename(dirs, Installed, backup);
      if fault.OnSwap? then (Rename(moved, backup, Installed), false)
      else
        var swapped := Rename(moved, selected, Installed);
        if swapped[Installed].package.valid then (swapped, true)
        else (Rename(Rename(swapped, Installed, selected), backup, Installed), false)
  }

  /** A failed rollback restores the exact layout; a successful one exchanges the two trees. */
  lemma RollbackTreeExactly(dirs: map<Place, Tree>, selected: Place, now: nat, fault: Fault)
    requires Installed in dirs && selected in dirs && selected.History?
    ensures var (after, ok) := RollbackTree(dirs, selected, now, fault);
            && (!ok ==> after == dirs)
            && (ok <==> !fault.OnBackup? && !fault.OnSwap? && dirs[selected].package.valid)
            && (ok ==> exists name :: History(name) !in dirs
                         && after == (dirs - {selected})[Installed := dirs[selected]][History(name) := dirs[Installed]])
  {
    var backup := History(RollbackBackup(dirs, dirs[Installed].package.version, now));
    var moved := Rename(dirs, Installed, backup);
    assert Rename(moved, backup, Installed) == dirs;
    var swapped := Rename(moved, selected, Installed);
    assert Rename(Rename(swapped, Installed, selected), backup, Installed) == dirs;
    assert swapped == (dirs - {selected})[Installed := dirs[selected]][backup := dirs[Installed]];
  }

  // ---- bindings ----

  function Refreshed(env: Env, b: Binding, t: Tree): Binding {
    b.(version := t.package.version, manifestSha := t.package.manifestSha, storePath := env.storePath)
  }

  /** The bindings of the listed keys rewritten for the installed tree. */
  function RefreshAll(env: Env, bindings: map<string, Binding>, keys: seq<string>, t: Tree): map<string, Binding> {
    if keys == [] then bindings
    else
      var before, key := RefreshAll(env, bindings, keys[..|keys| - 1], t), keys[|keys| - 1];
      if key in before then before[key := Refreshed(env, before[key], t)] else before
  }

  function Reached(env: Env, bindings: map<string, Binding>, fault: Fault): seq<string> {
    var keys := env.listing(bindings.Keys);
    if fault.OnRefresh? && fault.done < |keys| then keys[..fault.done] else keys
  }

  predicate RefreshFails(env: Env, bindings: map<string, Binding>, fault: Fault) {
    fault.OnRefresh? && fault.done < |env.listing(bindings.Keys)|
  }

  /** The binding names this tree and this store. */
  predicate Names(env: Env, b: Binding, t: Tree) {
    b.version == t.package.version && b.manifestSha == t.package.manifestSha && b.storePath == env.storePath
  }

  lemma {:induction false} RefreshAllIs(env: Env, bindings: map<string, Binding>, keys: seq<string>, t: Tree)
    requires forall k :: k in keys ==> k in bindings
    ensures RefreshAll(env, bindings, keys, t) ==
              map k | k in bindings :: if k in keys then Refreshed(env, bindings[k], t) else bindings[k]
  {
    if keys != [] {
      var init, key := keys[..|keys| - 1], keys[|keys| - 1];
      assert keys == init + [key];
      RefreshAllIs(env, bindings, init, t);
    }
  }

  function Written(env: Env, bindings: map<string, Binding>, target: string, runtimePath: string, t: Tree,
      configPath: Option<string>): map<string, Binding> {
    var key := env.keyOf(target);
    var kept := if configPath.Some? then configPath else if key in bindings then bindings[key].configPath else None;
    bindings[key := Binding(target, t.package.version, t.package.manifestSha, env.storePath, runtimePath, kept)]
  }

  // ---- the operations ----

  datatype Op =
    | Install(target: string, package: Package, now: nat, fault: Fault)
    | Configure(target: string, config: Option<string>, contract: Option<string>, fault: Fault)
    | Rollback(version: Option<string>, now: nat, fault: Fault)
    | Uninstall(target: string, includeRuntime: bool, yes: bool, fault: Fault)

  datatype Outcome = Done | Detached | Failed(error: StoreError)

  function DoInstall(env: Env, s: State, op: Op): (State, Outcome)
    requires op.Install?
  {
    if !env.separated(op.target) then (s, Failed(Overlap))
    else if !op.package.valid then (s, Failed(InvalidPackage))
    else if Installed in s.dirs && !s.dirs[Installed].managed then (s, Failed(Unmanaged))
    else
      var (dirs, ok) := InstallTree(s.dirs, op.package, op.now, op.fault);
      if !ok then (s.(dirs := dirs), Failed(Interrupted))
      else
        var t := dirs[Installed];
        var s1 := s.(dirs := dirs, bindings := RefreshAll(env, s.bindings, Reached(env, s.bindings, op.fault), t));
        var runtime := env.resolve(op.target, op.package.runtimeRoot);
        if RefreshFails(env, s.bindings, op.fault) then (s1, Failed(Interrupted))
        else if runtime.None? then (s1, Failed(RuntimeEscapes))
        else if op.fault.OnRuntime? then (s1, Failed(Interrupted))
        else
          var s2 := s1.(runtimes := s1.runtimes + {runtime.value});
          if op.fault.OnBinding? then (s2, Failed(Interrupted))
          else (s2.(bindings := Written(env, s2.bindings, op.target, runtime.value, t, None)), Done)
  }

  /** The installed tree an operation on a target works with. */
  function ConfiguredInstall(env: Env, s: State, target: string): Result<Tree, StoreError> {
    if !env.separated(target) then Err(Overlap)
    else if Installed !in s.dirs || !s.dirs[Installed].managed then Err(NotInstalled)
    else if !s.dirs[Installed].package.valid then Err(InvalidPackage)
    else Ok(s.dirs[Installed])
  }

  function DoConfigure(env: Env, s: State, op: Op): (State, Outcome)
    requires op.Configure?
  {
    var install := ConfiguredInstall(env, s, op.target);
    if install.Err? then (s, Failed(install.error))
    else if op.config.None? && op.contract.None? then (s, Failed(NothingToConfigure))
    else
      var runtime := env.resolve(op.target, install.value.package.runtimeRoot);
      if runtime.None? then (s, Failed(RuntimeEscapes))
      else
        var path := runtime.value + "/config";
        if path in s.configs && !s.configs[path].managed then (s, Failed(UnmanagedConfiguration))
        else if op.fault.OnCopy? || op.fault.OnConfigBackup? || op.fault.OnConfigSwap? then (s, Failed(Interrupted))
        else
          var prior := if path in s.configs then s.configs[path] else Config(true, None, None);
          var next := Config(true, if op.config.Some? then op.config else prior.config, if op.contract.Some?
            then op.contract else prior.contract);
          var s1 := s.(configs := s.configs[path := next]);
          if op.fault.OnBinding? then (s1, Failed(Interrupted))
          else (s1.(bindings := Written(env, s1.bindings, op.target, runtime.value, install.value, Some(path))), Done)
  }

  function DoRollback(env: Env, s: State, op: Op): (State, Outcome)
    requires op.Rollback?
  {
    if Installed !in s.dirs || !s.dirs[Installed].managed then (s, Failed(NotInstalled))
    else
      var entries := Candidates(env, s.dirs, op.version);
      if entries == [] then (s, Failed(NoHistoryEntry))
      else
        assert entries[0] in entries;
        var (dirs, ok) := RollbackTree(s.dirs, History(entries[0].name), op.now, op.fault);
        if !ok then (s.(dirs := dirs), Failed(if op.fault.OnBackup? || op.fault.OnSwap? then Interrupted
          else InvalidPackage))
        else
          (s.(dirs := dirs, bindings := RefreshAll(env, s.bindings, Reached(env, s.bindings, op.fault),
              dirs[Installed])),
           if RefreshFails(env, s.bindings, op.fault) then Failed(Interrupted) else Done)
  }

  function DoUninstall(env: Env, s: State, op: Op): (State, Outcome)
    requires op.Uninstall?
  {
    var install := ConfiguredInstall(env, s, op.target);
    var key := env.keyOf(op.target);
    if install.Err? then (s, Failed(install.error))
    else if key !in s.bindings then (s, Failed(BindingMissing))
    else
      var runtime := env.resolve(op.target, install.value.package.runtimeRoot);
      if runtime.None? then (s, Failed(RuntimeEscapes))
      else
        var path := runtime.value + "/config";
        if path in s.configs && !s.configs[path].managed then (s, Failed(UnmanagedConfiguration))
        else if op.includeRuntime && !op.yes then (s, Failed(ConfirmationRequired))
        else if op.fault.OnUnlink? then (s, Failed(Interrupted))
        else
          var s1 := s.(bindings := s.bindings - {key});
          if op.fault.OnConfigRemoval? then (s1, Failed(Interrupted))
          else
            var s2 := s1.(configs := s1.configs - {path});
            if op.fault.OnRuntimeRemoval? then (s2, Failed(Interrupted))
            else
              var s3 := if op.includeRuntime then s2.(runtimes := s2.runtimes - {runtime.value}) else s2;
              if s3.bindings != map[] then (s3, Detached)
              else if op.fault.OnPackageRemoval? then (s3, Failed(Interrupted))
              else (s3.(dirs := s3.dirs - {Installed}), Done)
  }

  function Apply(env: Env, s: State, op: Op): (State, Outcome) {
    match op
    case Install(_, _, _, _) => DoInstall(env, s, op)
    case Configure(_, _, _, _) => DoConfigure(env, s, op)
    case Rollback(_, _, _) => DoRollback(env, s, op)
    case Uninstall(_, _, _, _) => DoUninstall(env, s, op)
  }

  // ---- what the bindings promise ----

  /** Every binding names the installed package, which exists and is managed while any binding does. */
  predicate Tracks(env: Env, s: State) {
    && Staging !in s.dirs
    && forall k :: k in s.bindings ==>
          Installed in s.dirs && s.dirs[Installed].managed && Names(env, s.bindings[k], s.dirs[Installed])
  }

  /** The rewriting of the bindings will be cut short before a binding that names something else than this tree. */
  predicate LeftBehind(env: Env, s: State, fault: Fault, t: Tree) {
    RefreshFails(env, s.bindings, fault) && exists k ::
        k in s.bindings && k !in Reached(env, s.bindings, fault) && !Names(env, s.bindings[k], t)
  }

  /** The one way to lose track, seen before the call: the operation will exchange the installed tree, and the
      rewriting of the bindings for the incoming tree will leave one of them behind. */
  predicate LeavesStale(env: Env, s: State, op: Op) {
    match op
    case Install(target, package, now, fault) =>
      && env.separated(target) && package.valid && (Installed in s.dirs ==> s.dirs[Installed].managed)
      && LeftBehind(env, s, fault, Tree(package, true, now))
    case Rollback(version, now, fault) =>
      && Installed in s.dirs && s.dirs[Installed].managed
      && var entries := Candidates(env, s.dirs, version);
         && entries != []
         && (assert entries[0] in entries; s.dirs[History(entries[0].name)].package.valid)
         && LeftBehind(env, s, fault, s.dirs[History(entries[0].name)])
    case _ => false
  }

  lemma RefreshTracks(env: Env, s: State, dirs: map<Place, Tree>, fault: Fault)
    requires ValidEnv(env) && Staging !in dirs && Installed in dirs && dirs[Installed].managed
    ensures var after := State(dirs, RefreshAll(env, s.bindings, Reached(env, s.bindings, fault), dirs[Installed]),
            s.configs, s.runtimes);
            && (Tracks(env, after) <==>
                  forall k :: k in s.bindings && k !in Reached(env, s.bindings, fault) ==>
                      Names(env, s.bindings[k], dirs[Installed]))
            && (!RefreshFails(env, s.bindings, fault) ==> Tracks(env, after))
  {
    hide RefreshAll;
    var keys := Reached(env, s.bindings, fault);
    assert Enumerates(env.listing(s.bindings.Keys), s.bindings.Keys);
    assert forall k :: k in keys ==> k in env.listing(s.bindings.Keys);
    RefreshAllIs(env, s.bindings, keys, dirs[Installed]);
    var after := State(dirs, RefreshAll(env, s.bindings, keys, dirs[Installed]), s.configs, s.runtimes);
    forall k | k in s.bindings
      ensures Names(env, after.bindings[k], dirs[Installed]) <==>
              k in keys || Names(env, s.bindings[k], dirs[Installed]) {
    }
    assert after.bindings.Keys == s.bindings.Keys;
  }

  lemma InstallTracks(env: Env, s: State, op: Op)
    requires ValidEnv(env) && Tracks(env, s) && op.Install?
    ensures Tracks(env, Apply(env, s, op).0) <==> !LeavesStale(env, s, op)
  {
    hide RefreshAll, InstallTree, Reached;
    InstallTreeExactly(s.dirs, op.package, op.now, op.fault);
    var (dirs, ok) := InstallTree(s.dirs, op.package, op.now, op.fault);
    if env.separated(op.target) && op.package.valid && (Installed in s.dirs ==> s.dirs[Installed].managed) && ok {
      InstallChanges(s.dirs, op.package, op.now, op.fault);
      RefreshTracks(env, s, dirs, op.fault);
    }
  }

  /** What a successful installation puts in place. */
  lemma InstallChanges(dirs: map<Place, Tree>, package: Package, now: nat, fault: Fault)
    requires Staging !in dirs && InstallTree(dirs, package, now, fault).1
    ensures Staging !in InstallTree(dirs, package, now, fault).0
         && Installed in InstallTree(dirs, package, now, fault).0
    ensures InstallTree(dirs, package, now, fault).0[Installed] == Tree(package, true, now)
  {
    hide InstallTree;
    InstallTreeExactly(dirs, package, now, fault);
  }

  lemma RollbackTracks(env: Env, s: State, op: Op)
    requires ValidEnv(env) && Tracks(env, s) && op.Rollback?
    ensures Tracks(env, Apply(env, s, op).0) <==> !LeavesStale(env, s, op)
  {
    hide RefreshAll, RollbackTree, Reached, Candidates;
    if Installed in s.dirs && s.dirs[Installed].managed && Candidates(env, s.dirs, op.version) != [] {
      var entries := Candidates(env, s.dirs, op.version);
      assert entries[0] in entries;
      var selected := History(entries[0].name);
      RollbackTreeExactly(s.dirs, selected, op.now, op.fault);
      var (dirs, ok) := RollbackTree(s.dirs, selected, op.now, op.fault);
      if ok {
        var name :| History(name) !in s.dirs
                 && dirs == (s.dirs - {selected})[Installed := s.dirs[selected]][History(name) := s.dirs[Installed]];
        assert History(name) in dirs;
        RefreshTracks(env, s, dirs, op.fault);
      }
    }
  }

  lemma ConfigureTracks(env: Env, s: State, op: Op)
    requires Tracks(env, s) && op.Configure?
    ensures Tracks(env, Apply(env, s, op).0)
  {
  }

  lemma UninstallTracks(env: Env, s: State, op: Op)
    requires Tracks(env, s) && op.Uninstall?
    ensures Tracks(env, Apply(env, s, op).0)
  {
  }

  /** Any operation, successful or interrupted anywhere, keeps every binding on the installed package if and only
      if it does not leave a stale one behind. */
  lemma OperationTracks(env: Env, s: State, op: Op)
    requires ValidEnv(env) && Tracks(env, s)
    ensures Tracks(env, Apply(env, s, op).0) <==> !LeavesStale(env, s, op)
  {
    hide Apply, Tracks;
    match op
    case Install(_, _, _, _) => InstallTracks(env, s, op);
    case Configure(_, _, _, _) => ConfigureTracks(env, s, op);
    case Rollback(_, _, _) => RollbackTracks(env, s, op);
    case Uninstall(_, _, _, _) => UninstallTracks(env, s, op);
  }

  const Empty := State(map[], map[], map[], {})

  function Run(env: Env, s: State, ops: seq<Op>): State {
    if ops == [] then s else Apply(env, Run(env, s, ops[..|ops| - 1]), ops[|ops| - 1]).0
  }

  /** Over whole lifecycles from the empty store. */
  lemma {:induction false} LifecycleTracks(env: Env, ops: seq<Op>)
    requires ValidEnv(env)
    requires forall n :: 0 <= n < |ops| ==> !LeavesStale(env, Run(env, Empty, ops[..n]), ops[n])
    ensures Tracks(env, Run(env, Empty, ops))
  {
    hide LeavesStale, Apply;
    if ops != [] {
      var init := ops[..|ops| - 1];
      forall n | 0 <= n < |init| ensures !LeavesStale(env, Run(env, Empty, init[..n]), init[n]) {
        assert init[..n] == ops[..n];
      }
      LifecycleTracks(env, init);
      assert ops[..|ops| - 1] == init;
      OperationTracks(env, Run(env, Empty, init), ops[|ops| - 1]);
    }
  }

  // ---- conservation of packages ----

  /** How many places hold this tree. */
  function Copies(dirs: map<Place, Tree>, t: Tree): nat {
    |set p | p in dirs.Keys && dirs[p] == t|
  }

  lemma CopiesAdd(dirs: map<Place, Tree>, p: Place, added: Tree, t: Tree)
    requires p !in dirs
    ensures Copies(dirs[p := added], t) == Copies(dirs, t) + if t == added then 1 else 0
  {
    var next := dirs[p := added];
    var before, after := set q | q in dirs.Keys && dirs[q] == t, set q | q in next.Keys && next[q] == t;
    assert after == if t == added then before + {p} else before;
  }

  lemma CopiesRemove(dirs: map<Place, Tree>, p: Place, t: Tree)
    requires p in dirs
    ensures Copies(dirs - {p}, t) == Copies(dirs, t) - if t == dirs[p] then 1 else 0
  {
    CopiesAdd(dirs - {p}, p, dirs[p], t);
    assert (dirs - {p})[p := dirs[p]] == dirs;
  }

  /** Installing adds exactly one tree to store and history together. */
  lemma InstallAddsOne(dirs: map<Place, Tree>, package: Package, now: nat, fault: Fault, t: Tree)
    requires Staging !in dirs
    ensures var (after, ok) := InstallTree(dirs, package, now, fault);
            Copies(after, t) == Copies(dirs, t) + if ok && t == Tree(package, true, now) then 1 else 0
  {
    hide InstallTree, Copies;
    InstallTreeExactly(dirs, package, now, fault);
    var (after, ok) := InstallTree(dirs, package, now, fault);
    var added := Tree(package, true, now);
    if ok && Installed in dirs {
      var name :| History(name) !in dirs && after == dirs[Installed := added][History(name) := dirs[Installed]];
      CopiesRemove(dirs, Installed, t);
      CopiesAdd(dirs - {Installed}, Installed, added, t);
      assert (dirs - {Installed})[Installed := added] == dirs[Installed := added];
      CopiesAdd(dirs[Installed := added], History(name), dirs[Installed], t);
    } else if ok {
      CopiesAdd(dirs, Installed, added, t);
    }
  }

  /** Rolling back only moves trees around. */
  lemma RollbackPreserves(dirs: map<Place, Tree>, selected: Place, now: nat, fault: Fault, t: Tree)
    requires Installed in dirs && selected in dirs && selected.History?
    ensures Copies(RollbackTree(dirs, selected, now, fault).0, t) == Copies(dirs, t)
  {
    hide RollbackTree, Copies;
    RollbackTreeExactly(dirs, selected, now, fault);
    var (after, ok) := RollbackTree(dirs, selected, now, fault);
    if ok {
      var name :| History(name) !in dirs
          && after == (dirs - {selected})[Installed := dirs[selected]][History(name) := dirs[Installed]];
      var d1 := dirs - {selected};
      CopiesRemove(dirs, selected, t);
      CopiesRemove(d1, Installed, t);
      CopiesAdd(d1 - {Installed}, Installed, dirs[selected], t);
      assert (d1 - {Installed})[Installed := dirs[selected]] == d1[Installed := dirs[selected]];
      CopiesAdd(d1[Installed := dirs[selected]], History(name), dirs[Installed], t);
    }
  }

  /** What each operation does to the number of copies of any tree. */
  lemma OperationConserves(env: Env, s: State, op: Op, t: Tree)
    requires Tracks(env, s)
    ensures var (after, outcome) := Apply(env, s, op);
            && (op.Install? ==> Copies(after.dirs, t) == Copies(s.dirs, t)
                                || (t == Tree(op.package, true, op.now)
                                      && Copies(after.dirs, t) == Copies(s.dirs, t) + 1))
            && (op.Install? && outcome.Done? ==>
                  Copies(after.dirs, t) == Copies(s.dirs, t) + if t == Tree(op.package, true, op.now) then 1 else 0)
            && (op.Rollback? || op.Configure? ==> Copies(after.dirs, t) == Copies(s.dirs, t))
            && (op.Uninstall? ==>
                  Copies(after.dirs, t) == Copies(s.dirs, t) - if outcome.Done? && Installed in s.dirs
                      && t == s.dirs[Installed] then 1 else 0)
  {
    hide Copies, InstallTree, RollbackTree, RefreshAll, Candidates;
    match op
    case Install(_, package, now, fault) => InstallAddsOne(s.dirs, package, now, fault, t);
    case Configure(_, _, _, _) =>
    case Rollback(version, now, fault) =>
      var entries := Candidates(env, s.dirs, version);
      if Installed in s.dirs && entries != [] {
        assert entries[0] in entries;
        RollbackPreserves(s.dirs, History(entries[0].name), now, fault, t);
      }
    case Uninstall(_, _, _, _) => if Installed in s.dirs { CopiesRemove(s.dirs, Installed, t); }
  }

  /** The package goes only with its last binding, and history never goes. */
  lemma UninstallRemovesLast(env: Env, s: State, op: Op)
    requires op.Uninstall?
    ensures var (after, outcome) := Apply(env, s, op);
            && (after.dirs != s.dirs ==> outcome.Done?)
            && (outcome.Done? ==>
                  s.bindings.Keys == {env.keyOf(op.target)} && after.bindings == map[]
                      && after.dirs == s.dirs - {Installed})
            && (outcome.Detached? ==>
                  && s.bindings.Keys != {env.keyOf(op.target)} && env.keyOf(op.target) in s.bindings
                  && after.bindings == s.bindings - {env.keyOf(op.target)} && after.dirs == s.dirs)
  {
    var key := env.keyOf(op.target);
    assert (s.bindings - {key}).Keys == s.bindings.Keys - {key};
    if s.bindings - {key} == map[] {
      forall k | k in s.bindings ensures k == key { assert k != key ==> k in s.bindings - {key}; }
    }
    if s.bindings.Keys == {key} {
      assert s.bindings - {key} == map[];
    }
  }

  // ---- configurations and runtime roots ----

  /** Installing and rolling back leave every configuration and where it is bound alone, and only ever add the runtime
      root they install. */
  lemma ExchangeFrame(env: Env, s: State, op: Op)
    requires ValidEnv(env) && (op.Install? || op.Rollback?)
    ensures var after := Apply(env, s, op).0;
            && after.configs == s.configs && s.runtimes <= after.runtimes
            && (op.Rollback? ==> after.runtimes == s.runtimes)
            && (forall k :: k in s.bindings ==>
                  k in after.bindings && after.bindings[k].configPath == s.bindings[k].configPath)
            && (op.Install? ==>
                  forall r :: r in after.runtimes ==>
                      r in s.runtimes || env.resolve(op.target, op.package.runtimeRoot) == Some(r))
  {
    hide InstallTree, RollbackTree, RefreshAll, Candidates, Reached;
    var keys := Reached(env, s.bindings, op.fault);
    ReachedBound(env, s.bindings, op.fault);
    if op.Install? {
      var (dirs, ok) := InstallTree(s.dirs, op.package, op.now, op.fault);
      if ok { RefreshKeeps(env, s.bindings, keys, dirs[Installed]); }
    } else if Installed in s.dirs && Candidates(env, s.dirs, op.version) != [] {
      var entries := Candidates(env, s.dirs, op.version);
      assert entries[0] in entries;
      var (dirs, ok) := RollbackTree(s.dirs, History(entries[0].name), op.now, op.fault);
      if ok { RefreshKeeps(env, s.bindings, keys, dirs[Installed]); }
    }
  }

  lemma RefreshKeeps(env: Env, bindings: map<string, Binding>, keys: seq<string>, t: Tree)
    requires forall k :: k in keys ==> k in bindings
    ensures var after := RefreshAll(env, bindings, keys, t);
            after.Keys == bindings.Keys && forall k :: k in bindings ==> after[k].configPath == bindings[k].configPath
  {
    hide RefreshAll;
    RefreshAllIs(env, bindings, keys, t);
  }

  /** Exactly when each operation comes to its end. */
  lemma DoneExactly(env: Env, s: State, op: Op)
    ensures op.Install? ==>
              (Apply(env, s, op).1 == Done <==>
                 && env.separated(op.target) && op.package.valid && (Installed in s.dirs ==> s.dirs[Installed].managed)
                 && InstallTree(s.dirs, op.package, op.now, op.fault).1 && !RefreshFails(env, s.bindings, op.fault)
                 && env.resolve(op.target, op.package.runtimeRoot).Some?
                 && !op.fault.OnRuntime? && !op.fault.OnBinding?)
    ensures op.Rollback? ==>
              (Apply(env, s, op).1 == Done <==>
                 && Installed in s.dirs && s.dirs[Installed].managed && Candidates(env, s.dirs, op.version) != []
                 && !op.fault.OnBackup? && !op.fault.OnSwap?
                 && (assert Candidates(env, s.dirs, op.version)[0] in Candidates(env, s.dirs, op.version);
                     s.dirs[History(Candidates(env, s.dirs, op.version)[0].name)].package.valid)
                 && !RefreshFails(env, s.bindings, op.fault))
    ensures op.Configure? || op.Uninstall? ==>
              (Apply(env, s, op).1 == Done || Apply(env, s, op).1 == Detached ==>
                 && env.separated(op.target) && Installed in s.dirs && s.dirs[Installed].managed
                 && s.dirs[Installed].package.valid
                 && env.resolve(op.target, s.dirs[Installed].package.runtimeRoot).Some?
                 && (op.Uninstall? ==> env.keyOf(op.target) in s.bindings && (op.includeRuntime ==> op.yes))
                 && (op.Configure? ==> op.config.Some? || op.contract.Some?)
                 && var path := env.resolve(op.target, s.dirs[Installed].package.runtimeRoot).value + "/config";
                    path in s.configs ==> s.configs[path].managed)
  {
    hide InstallTree, RefreshAll, Candidates, RefreshFails, RollbackTree;
    if op.Rollback? && Installed in s.dirs && Candidates(env, s.dirs, op.version) != [] {
      var entries := Candidates(env, s.dirs, op.version);
      assert entries[0] in entries;
      RollbackTreeExactly(s.dirs, History(entries[0].name), op.now, op.fault);
    }
  }

  /** Configuring touches one configuration: the halves given are set, a half not given stays as it was; nothing
      else changes but the project's binding, and a failure before the swap changes nothing. */
  lemma ConfigureFrame(env: Env, s: State, op: Op)
    requires op.Configure?
    ensures var (after, outcome) := Apply(env, s, op);
            && after.dirs == s.dirs && after.runtimes == s.runtimes
            && (forall k :: k in s.bindings && k != env.keyOf(op.target) ==>
                  k in after.bindings && after.bindings[k] == s.bindings[k])
            && (outcome.Done? ==>
                  && Installed in s.dirs && env.resolve(op.target, s.dirs[Installed].package.runtimeRoot).Some?
                  && var path := env.resolve(op.target, s.dirs[Installed].package.runtimeRoot).value + "/config";
                     && path in after.configs && after.configs[path].managed
                     && after.configs - {path} == s.configs - {path}
                     && (op.config.Some? ==> after.configs[path].config == op.config)
                     && (op.contract.Some? ==> after.configs[path].contract == op.contract)
                     && (op.config.None? ==>
                           after.configs[path].config == if path in s.configs then s.configs[path].config else None)
                     && (op.contract.None? ==>
                           after.configs[path].contract == if path in s.configs then s.configs[path].contract else None)
                     && env.keyOf(op.target) in after.bindings
                     && after.bindings[env.keyOf(op.target)].configPath == Some(path))
            && (outcome.Failed? && !op.fault.OnBinding? ==> after == s)
  {
  }

  /** Uninstalling removes the project's managed configuration, keeps the runtime unless told to include it, and
      keeps every other configuration and runtime. */
  lemma UninstallFrame(env: Env, s: State, op: Op)
    requires op.Uninstall?
    ensures var (after, outcome) := Apply(env, s, op);
            && (!op.includeRuntime ==> after.runtimes == s.runtimes)
            && (op.includeRuntime && !op.yes ==> after == s && outcome.Failed?)
            && (outcome.Done? || outcome.Detached? ==>
                  && Installed in s.dirs && env.resolve(op.target, s.dirs[Installed].package.runtimeRoot).Some?
                  && var runtime := env.resolve(op.target, s.dirs[Installed].package.runtimeRoot).value;
                     && after.configs == s.configs - {runtime + "/config"}
                     && (runtime + "/config" in s.configs ==> s.configs[runtime + "/config"].managed)
                     && after.runtimes == if op.includeRuntime then s.runtimes - {runtime} else s.runtimes)
  {
  }

  // ---- the doctor ----

  datatype Mismatch = StorePath | RuntimePath | PackageVersion | ManifestSha

  /** The binding checks of the doctor, in order. */
  function BindingMismatch(env: Env, b: Binding, t: Tree, runtime: string): Option<Mismatch> {
    if b.storePath != env.storePath then Some(StorePath)
    else if b.runtimePath != runtime then Some(RuntimePath)
    else if b.version != t.package.version then Some(PackageVersion)
    else if b.manifestSha != t.package.manifestSha then Some(ManifestSha)
    else None
  }

  /** While the store keeps track, the only binding check that can fail is the runtime path. */
  lemma DoctorSeesOnlyRuntime(env: Env, s: State, key: string, runtime: string)
    requires Tracks(env, s) && key in s.bindings
    ensures BindingMismatch(env, s.bindings[key], s.dirs[Installed], runtime)
         == if s.bindings[key].runtimePath == runtime then None else Some(RuntimePath)
  {
  }

  /** The runtime root the doctor resolves for a binding's project, under the package now installed. */
  function ResolvedRuntime(env: Env, s: State, key: string): Option<string>
    requires key in s.bindings && Installed in s.dirs
  {
    env.resolve(s.bindings[key].target, s.dirs[Installed].package.runtimeRoot)
  }

  /** Every binding check of the doctor passes for this project. */
  predicate DoctorAccepts(env: Env, s: State, key: string) {
    && key in s.bindings && Installed in s.dirs && ResolvedRuntime(env, s, key).Some?
    && BindingMismatch(env, s.bindings[key], s.dirs[Installed], ResolvedRuntime(env, s, key).value).None?
  }

  /** The runtime root of the package that an exchange would put in place. */
  function IncomingRoot(env: Env, s: State, op: Op): string
    requires op.Install? || op.Rollback?
  {
    if op.Install? then op.package.runtimeRoot
    else
      var entries := Candidates(env, s.dirs, op.version);
      if entries == [] then ""
      else
        assert entries[0] in entries;
        s.dirs[History(entries[0].name)].package.runtimeRoot
  }

  /** Rolling back, or upgrading for another project, rewrites everything in a binding but its runtime path: the
      doctor goes on accepting a binding if and only if the incoming package's runtime root, known before the call,
      resolves for that project to where the outgoing one's does. */
  lemma DoctorAfterExchange(env: Env, s: State, op: Op, key: string)
    requires ValidEnv(env) && Tracks(env, s) && DoctorAccepts(env, s, key)
    requires op.Rollback? || (op.Install? && env.keyOf(op.target) != key)
    requires Apply(env, s, op).1.Done?
    ensures key in Apply(env, s, op).0.bindings
    ensures DoctorAccepts(env, Apply(env, s, op).0, key) <==>
              env.resolve(s.bindings[key].target, IncomingRoot(env, s, op)) == ResolvedRuntime(env, s, key)
  {
    hide RefreshAll, RollbackTree, InstallTree, Candidates, LeavesStale, IncomingRoot, DoInstall, DoRollback;
    var after := Apply(env, s, op).0;
    ExchangeRewrites(env, s, op, key);
    ExchangeInstalls(env, s, op);
    DoctorSeesOnlyRuntime(env, s, key, ResolvedRuntime(env, s, key).value);
    if ResolvedRuntime(env, after, key).Some? {
      DoctorSeesOnlyRuntime(env, after, key, ResolvedRuntime(env, after, key).value);
    }
  }

  lemma ExchangeInstalls(env: Env, s: State, op: Op)
    requires Staging !in s.dirs && (op.Install? || op.Rollback?) && Apply(env, s, op).1.Done?
    ensures Installed in Apply(env, s, op).0.dirs
    ensures Apply(env, s, op).0.dirs[Installed].package.runtimeRoot == IncomingRoot(env, s, op)
  {
    hide RefreshAll, RollbackTree, InstallTree, Candidates;
    if op.Install? {
      InstallChanges(s.dirs, op.package, op.now, op.fault);
    } else {
      var entries := Candidates(env, s.dirs, op.version);
      assert entries[0] in entries;
      RollbackTreeExactly(s.dirs, History(entries[0].name), op.now, op.fault);
    }
  }

  lemma ExchangeRewrites(env: Env, s: State, op: Op, key: string)
    requires ValidEnv(env) && Tracks(env, s) && key in s.bindings && Apply(env, s, op).1.Done?
    requires op.Rollback? || (op.Install? && env.keyOf(op.target) != key)
    ensures var after := Apply(env, s, op).0;
            && Tracks(env, after) && key in after.bindings && Installed in after.dirs
            && after.bindings[key].target == s.bindings[key].target
            && after.bindings[key].runtimePath == s.bindings[key].runtimePath
  {
    hide RollbackTree, InstallTree, Candidates, RefreshAll, Tracks, Names;
    OperationTracks(env, s, op);
    assert !RefreshFails(env, s.bindings, op.fault);
    var t := Apply(env, s, op).0.dirs[Installed];
    var keys := Reached(env, s.bindings, op.fault);
    assert Enumerates(env.listing(s.bindings.Keys), s.bindings.Keys);
    RefreshAllIs(env, s.bindings, keys, t);
  }

  // ---- one runtime root throughout ----

  /** Every tree has this runtime root, and every binding's runtime path is what it resolves to. */
  predicate Rooted(env: Env, s: State, root: string) {
    && (forall p :: p in s.dirs ==> s.dirs[p].package.runtimeRoot == root)
    && (forall k :: k in s.bindings ==> env.resolve(s.bindings[k].target, root) == Some(s.bindings[k].runtimePath))
  }

  lemma RefreshRooted(env: Env, s: State, root: string, keys: seq<string>, t: Tree)
    requires ValidEnv(env) && Rooted(env, s, root) && forall k :: k in keys ==> k in s.bindings
    ensures Rooted(env, s.(bindings := RefreshAll(env, s.bindings, keys, t)), root)
  {
    hide RefreshAll;
    RefreshAllIs(env, s.bindings, keys, t);
  }

  lemma ReachedBound(env: Env, bindings: map<string, Binding>, fault: Fault)
    requires ValidEnv(env)
    ensures forall k :: k in Reached(env, bindings, fault) ==> k in bindings
  {
    assert Enumerates(env.listing(bindings.Keys), bindings.Keys);
  }

  lemma InstallTreeRooted(dirs: map<Place, Tree>, package: Package, now: nat, fault: Fault)
    requires Staging !in dirs && forall p :: p in dirs ==> dirs[p].package.runtimeRoot == package.runtimeRoot
    ensures var after := InstallTree(dirs, package, now, fault).0;
            Staging !in after && forall p :: p in after ==> after[p].package.runtimeRoot == package.runtimeRoot
  {
    hide InstallTree;
    InstallTreeExactly(dirs, package, now, fault);
  }

  lemma InstallRooted(env: Env, s: State, op: Op)
    requires ValidEnv(env) && op.Install? && Rooted(env, s, op.package.runtimeRoot) && Staging !in s.dirs
    ensures Rooted(env, Apply(env, s, op).0, op.package.runtimeRoot) && Staging !in Apply(env, s, op).0.dirs
  {
    hide InstallTree, RefreshAll, Reached;
    InstallTreeRooted(s.dirs, op.package, op.now, op.fault);
    var (dirs, ok) := InstallTree(s.dirs, op.package, op.now, op.fault);
    if ok {
      ReachedBound(env, s.bindings, op.fault);
      RefreshRooted(env, s.(dirs := dirs), op.package.runtimeRoot, Reached(env, s.bindings, op.fault), dirs[Installed]);
    }
  }

  lemma RollbackRooted(env: Env, s: State, op: Op, root: string)
    requires ValidEnv(env) && op.Rollback? && Rooted(env, s, root) && Staging !in s.dirs
    ensures Rooted(env, Apply(env, s, op).0, root) && Staging !in Apply(env, s, op).0.dirs
  {
    hide RollbackTree, RefreshAll, Reached, Candidates;
    if Installed in s.dirs && Candidates(env, s.dirs, op.version) != [] {
      var entries := Candidates(env, s.dirs, op.version);
      assert entries[0] in entries;
      var selected := History(entries[0].name);
      RollbackTreeExactly(s.dirs, selected, op.now, op.fault);
      var (dirs, ok) := RollbackTree(s.dirs, selected, op.now, op.fault);
      if ok {
        ReachedBound(env, s.bindings, op.fault);
        RefreshRooted(env, s.(dirs := dirs), root, Reached(env, s.bindings, op.fault), dirs[Installed]);
      }
    }
  }

  lemma OperationRooted(env: Env, s: State, op: Op, root: string)
    requires ValidEnv(env) && Rooted(env, s, root) && Staging !in s.dirs
    requires op.Install? ==> op.package.runtimeRoot == root
    ensures Rooted(env, Apply(env, s, op).0, root) && Staging !in Apply(env, s, op).0.dirs
  {
    match op
    case Install(_, _, _, _) => InstallRooted(env, s, op);
    case Configure(_, _, _, _) =>
    case Rollback(_, _, _) => RollbackRooted(env, s, op, root);
    case Uninstall(_, _, _, _) =>
  }

  /** While every package installed has the same runtime root, every binding's runtime path is what that root
      resolves to for its project, through successes and interruptions alike. */
  lemma {:induction false} LifecycleRooted(env: Env, ops: seq<Op>, root: string)
    requires ValidEnv(env)
    requires forall n :: 0 <= n < |ops| && ops[n].Install? ==> ops[n].package.runtimeRoot == root
    ensures var s := Run(env, Empty, ops); Rooted(env, s, root) && Staging !in s.dirs
  {
    hide Apply, Rooted;
    if ops == [] {
      EmptyRooted(env, root);
    } else {
      var init := ops[..|ops| - 1];
      LifecycleRooted(env, init, root);
      OperationRooted(env, Run(env, Empty, init), ops[|ops| - 1], root);
    }
  }

  lemma EmptyRooted(env: Env, root: string)
    ensures Rooted(env, Empty, root)
  {
  }

  /** So over such a lifecycle the doctor accepts every binding, as long as none was left behind. */
  lemma LifecycleAccepted(env: Env, ops: seq<Op>, root: string, key: string)
    requires ValidEnv(env)
    requires forall n :: 0 <= n < |ops| && ops[n].Install? ==> ops[n].package.runtimeRoot == root
    requires forall n :: 0 <= n < |ops| ==> !LeavesStale(env, Run(env, Empty, ops[..n]), ops[n])
    requires key in Run(env, Empty, ops).bindings
    ensures DoctorAccepts(env, Run(env, Empty, ops), key)
  {
    hide LeavesStale, Run;
    LifecycleTracks(env, ops);
    LifecycleRooted(env, ops, root);
  }

  // ---- losing track, concretely ----

  /** An undisturbed installation succeeds, binds its project and keeps all other bindings. */
  lemma InstallDone(env: Env, s: State, op: Op)
    requires ValidEnv(env) && Tracks(env, s) && op.Install? && op.fault.Never?
    requires env.separated(op.target) && op.package.valid && (Installed in s.dirs ==> s.dirs[Installed].managed)
    requires env.resolve(op.target, op.package.runtimeRoot).Some?
    ensures var (after, outcome) := Apply(env, s, op);
            && outcome.Done? && Tracks(env, after) && Installed in after.dirs
            && after.dirs[Installed] == Tree(op.package, true, op.now)
            && after.bindings.Keys == s.bindings.Keys + {env.keyOf(op.target)}
  {
    hide InstallTree, RefreshAll;
    InstallTreeExactly(s.dirs, op.package, op.now, op.fault);
    InstallChanges(s.dirs, op.package, op.now, op.fault);
    InstallTracks(env, s, op);
    ReachedBound(env, s.bindings, op.fault);
    RefreshAllIs(env, s.bindings, Reached(env, s.bindings, op.fault), Tree(op.package, true, op.now));
  }

  /** From the empty store: two projects install one version, then an upgrade whose rewriting of the bindings stops
      after the first. Every binding was right before it, and one is stale after it. */
  lemma InterruptedRefreshLosesTrack(env: Env, a: string, b: string, first: Package, second: Package, t: nat)
    requires ValidEnv(env) && env.separated(a) && env.separated(b) && env.keyOf(a) != env.keyOf(b)
    requires first.valid && second.valid && first.version != second.version
    requires env.resolve(a, first.runtimeRoot).Some? && env.resolve(b, first.runtimeRoot).Some?
    ensures var s := Run(env, Empty, [Install(a, first, t, Never), Install(b, first, t, Never)]);
            Tracks(env, s) && !Tracks(env, Apply(env, s, Install(a, second, t, OnRefresh(1))).0)
  {
    hide Apply, Tracks;
    var ops := [Install(a, first, t, Never), Install(b, first, t, Never)];
    EmptyTracks(env);
    InstallDone(env, Empty, ops[0]);
    var s1 := Apply(env, Empty, ops[0]).0;
    InstallDone(env, s1, ops[1]);
    var s2 := Apply(env, s1, ops[1]).0;
    assert ops[..1] == [ops[0]] && [ops[0]][..0] == [];
    assert Run(env, Empty, []) == Empty && Run(env, Empty, [ops[0]]) == s1;
    assert Run(env, Empty, ops) == s2;
    UpgradeCut(env, s2, Install(a, second, t, OnRefresh(1)), env.keyOf(a), env.keyOf(b));
  }

  lemma EmptyTracks(env: Env)
    ensures Tracks(env, Empty)
  {
  }

  lemma UpgradeCut(env: Env, s: State, op: Op, j: string, k: string)
    requires ValidEnv(env) && Tracks(env, s) && op.Install? && op.fault == OnRefresh(1)
    requires env.separated(op.target) && op.package.valid
    requires j != k && j in s.bindings && k in s.bindings && s.dirs[Installed].package.version != op.package.version
    ensures !Tracks(env, Apply(env, s, op).0)
  {
    hide Apply;
    var keys := env.listing(s.bindings.Keys);
    assert Enumerates(keys, s.bindings.Keys) && j in keys && k in keys;
    TwoListed(keys, j, k);
    var other := if keys[0] == j then k else j;
    assert other in s.bindings && other !in Reached(env, s.bindings, op.fault);
    InstallTracks(env, s, op);
  }

  lemma TwoListed(keys: seq<string>, a: string, b: string)
    requires a != b && a in keys && b in keys
    ensures |keys| >= 2
  {
    var i :| 0 <= i < |keys| && keys[i] == a;
    var j :| 0 <= j < |keys| && keys[j] == b;
  }
}
