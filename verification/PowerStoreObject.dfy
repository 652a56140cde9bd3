/** The store as it is operated: directories renamed, bindings rewritten in loops, failures undone. */
module PowerStoreObject {
  import opened Results
  import opened Sequences
  import opened Sorting
  import opened FreshNames
  import opened PowerStore

  /** Try the plain name, then numbered ones. */
  method FreshInstallName(taken: set<string>, base: string) returns (name: string)
    ensures name == Fresh(taken, Numbered(base), 0) && name !in taken
  {
    var suffix := 0;
    name := base;
    var f := Numbered(base);
    while name in taken
      invariant name == f(suffix)
      invariant forall i :: 0 <= i < suffix ==> f(i) in taken
      invariant Fresh(taken, f, suffix) == Fresh(taken, f, 0)
      decreases |taken| + 1 - suffix
    {
      TriedBounded(taken, f, suffix + 1);
      suffix := suffix + 1;
      name := base + "-" + Digits(suffix);
    }
  }

  /** Try the plain name, then keep appending the number of the try to the last one. */
  method FreshRollbackName(taken: set<string>, base: string) returns (name: string)
    ensures name == Fresh(taken, Extended(base), 0) && name !in taken
  {
    var suffix := 0;
    name := base;
    var f := Extended(base);
    while name in taken
      invariant name == f(suffix)
      invariant forall i :: 0 <= i < suffix ==> f(i) in taken
      invariant Fresh(taken, f, suffix) == Fresh(taken, f, 0)
      decreases |taken| + 1 - suffix
    {
      TriedBounded(taken, f, suffix + 1);
      suffix := suffix + 1;
      name := name + "-" + Digits(suffix);
    }
  }

  class Store {
    var dirs: map<Place, Tree>
    var bindings: map<string, Binding>
    var configs: map<string, Config>
    var runtimes: set<string>

    function Contents(): State
      reads this
    {
      State(dirs, bindings, configs, runtimes)
    }

    constructor ()
      ensures Contents() == State(map[], map[], map[], {})
    {
      dirs, bindings, configs, runtimes := map[], map[], map[], {};
    }

    method Move(from: Place, to: Place)
      requires from in dirs
      modifies this`dirs
      ensures dirs == Rename(old(dirs), from, to)
    {
      dirs := (dirs - {from})[to := dirs[from]];
    }

    method InstallPackageTree(package: Package, now: nat, fault: Fault) returns (ok: bool)
      modifies this`dirs
      ensures (dirs, ok) == InstallTree(old(dirs), package, now, fault)
    {
      if fault.OnCopy? {
        dirs := dirs - {Staging};
        return false;
      }
      dirs := dirs[Staging := Tree(package, true, now)];
      if Installed in dirs {
        var name := FreshInstallName(HistoryNames(dirs), dirs[Installed].package.version + "-" + Digits(now));
        if fault.OnBackup? {
          dirs := dirs - {Staging};
          return false;
        }
        Move(Installed, History(name));
        if fault.OnSwap? {
          dirs := dirs - {Staging};
          if History(name) in dirs && Installed !in dirs {
            Move(History(name), Installed);
          }
          return false;
        }
      } else if fault.OnSwap? {
        dirs := dirs - {Staging};
        return false;
      }
      Move(Staging, Installed);
      return true;
    }

    method RefreshBindings(env: Env, t: Tree, fault: Fault) returns (ok: bool)
      requires ValidEnv(env)
      modifies this`bindings
      ensures ok == !RefreshFails(env, old(bindings), fault)
      ensures bindings == RefreshAll(env, old(bindings), Reached(env, old(bindings), fault), t)
    {
      hide RefreshAll;
      var keys := env.listing(bindings.Keys);
      ghost var start := bindings;
      assert Enumerates(keys, start.Keys);
      NothingRefreshed(env, start, t);
      for i := 0 to |keys|
        invariant bindings == RefreshAll(env, start, keys[..i], t) && bindings.Keys == start.Keys
        invariant fault.OnRefresh? ==> i <= fault.done
      {
        if fault.OnRefresh? && fault.done == i {
          return false;
        }
        assert keys[i] in keys;
        RefreshNext(env, start, keys, i, t);
        bindings := bindings[keys[i] := Refreshed(env, bindings[keys[i]], t)];
      }
      assert keys[..|keys|] == keys;
      return true;
    }

    method WriteBinding(env: Env, target: string, runtimePath: string, t: Tree, configPath: Option<string>)
      modifies this`bindings
      ensures bindings == Written(env, old(bindings), target, runtimePath, t, configPath)
    {
      var key := env.keyOf(target);
      var kept := None;
      if key in bindings {
        kept := bindings[key].configPath;
      }
      if configPath.Some? {
        kept := configPath;
      }
      bindings := bindings[key := Binding(target, t.package.version, t.package.manifestSha, env.storePath, runtimePath,
          kept)];
    }

    method InstallPower(env: Env, op: Op) returns (outcome: Outcome)
      requires ValidEnv(env) && op.Install?
      modifies this
      ensures (Contents(), outcome) == DoInstall(env, old(Contents()), op)
    {
      hide InstallTree, RefreshAll;
      if !env.separated(op.target) {
        return Failed(Overlap);
      }
      if !op.package.valid {
        return Failed(InvalidPackage);
      }
      if Installed in dirs && !dirs[Installed].managed {
        return Failed(Unmanaged);
      }
      var ok := InstallPackageTree(op.package, op.now, op.fault);
      if !ok {
        return Failed(Interrupted);
      }
      var t := dirs[Installed];
      ok := RefreshBindings(env, t, op.fault);
      if !ok {
        return Failed(Interrupted);
      }
      var runtime := env.resolve(op.target, op.package.runtimeRoot);
      if runtime.None? {
        return Failed(RuntimeEscapes);
      }
      if op.fault.OnRuntime? {
        return Failed(Interrupted);
      }
      runtimes := runtimes + {runtime.value};
      if op.fault.OnBinding? {
        return Failed(Interrupted);
      }
      WriteBinding(env, op.target, runtime.value, t, None);
      return Done;
    }

    /** The managed rows, newest first, that the request matches. */
    method SelectHistory(env: Env, version: Option<string>) returns (entries: seq<Row>)
      ensures entries == Candidates(env, dirs, version)
    {
      hide Filter, SortBy, Map;
      var sorted := SortBy(NewestFirst(), Map(AsRow(dirs), env.listing(HistoryNames(dirs))));
      var rows := [];
      FilterEmpty(ManagedRow(dirs));
      for i := 0 to |sorted|
        invariant rows == Filter(ManagedRow(dirs), sorted[..i])
      {
        assert sorted[..i + 1] == sorted[..i] + [sorted[i]];
        FilterAppend(ManagedRow(dirs), sorted[..i], sorted[i]);
        if ManagedAt(dirs, sorted[i].name) {
          rows := rows + [sorted[i]];
        }
      }
      assert sorted[..|sorted|] == sorted;
      entries := Filter(Wanted(version), rows);
    }

    method RollbackPower(env: Env, op: Op) returns (outcome: Outcome)
      requires ValidEnv(env) && op.Rollback?
      modifies this
      ensures (Contents(), outcome) == DoRollback(env, old(Contents()), op)
    {
      hide RefreshAll, Candidates;
      if Installed !in dirs || !dirs[Installed].managed {
        return Failed(NotInstalled);
      }
      var entries := SelectHistory(env, op.version);
      if entries == [] {
        return Failed(NoHistoryEntry);
      }
      assert entries[0] in entries;
      var selected := History(entries[0].name);
      var name := FreshRollbackName(HistoryNames(dirs),
          dirs[Installed].package.version + "-rollback-" + Digits(op.now));
      if op.fault.OnBackup? {
        return Failed(Interrupted);
      }
      Move(Installed, History(name));
      if op.fault.OnSwap? {
        Move(History(name), Installed);
        return Failed(Interrupted);
      }
      Move(selected, Installed);
      if !dirs[Installed].package.valid {
        Move(Installed, selected);
        Move(History(name), Installed);
        return Failed(InvalidPackage);
      }
      var ok := RefreshBindings(env, dirs[Installed], op.fault);
      return if ok then Done else Failed(Interrupted);
    }

    method ConfigurePower(env: Env, op: Op) returns (outcome: Outcome)
      requires op.Configure?
      modifies this
      ensures (Contents(), outcome) == DoConfigure(env, old(Contents()), op)
    {
      var install := ConfiguredInstall(env, Contents(), op.target);
      if install.Err? {
        return Failed(install.error);
      }
      if op.config.None? && op.contract.None? {
        return Failed(NothingToConfigure);
      }
      var runtime := env.resolve(op.target, install.value.package.runtimeRoot);
      if runtime.None? {
        return Failed(RuntimeEscapes);
      }
      var path := runtime.value + "/config";
      if path in configs && !configs[path].managed {
        return Failed(UnmanagedConfiguration);
      }
      if op.fault.OnCopy? {
        return Failed(Interrupted);
      }
      var next := Config(true, op.config, op.contract);
      if path in configs {
        next := Config(true, if op.config.Some? then op.config else configs[path].config,
                       if op.contract.Some? then op.contract else configs[path].contract);
        if op.fault.OnConfigBackup? {
          return Failed(Interrupted);
        }
        var aside := configs[path];
        configs := configs - {path};
        if op.fault.OnConfigSwap? {
          configs := configs[path := aside];
          assert configs == old(configs);
          return Failed(Interrupted);
        }
      } else if op.fault.OnConfigBackup? || op.fault.OnConfigSwap? {
        return Failed(Interrupted);
      }
      configs := configs[path := next];
      assert configs == old(configs)[path := next];
      if op.fault.OnBinding? {
        return Failed(Interrupted);
      }
      WriteBinding(env, op.target, runtime.value, install.value, Some(path));
      return Done;
    }

    method UninstallPower(env: Env, op: Op) returns (outcome: Outcome, removed: seq<string>)
      requires op.Uninstall?
      modifies this
      ensures (Contents(), outcome) == DoUninstall(env, old(Contents()), op)
      ensures outcome.Done? <==> old(Contents()).dirs != Contents().dirs
      ensures outcome.Done? || outcome.Detached? ==> env.keyOf(op.target) in removed
    {
      removed := [];
      var install := ConfiguredInstall(env, Contents(), op.target);
      if install.Err? {
        return Failed(install.error), removed;
      }
      var key := env.keyOf(op.target);
      if key !in bindings {
        return Failed(BindingMissing), removed;
      }
      var runtime := env.resolve(op.target, install.value.package.runtimeRoot);
      if runtime.None? {
        return Failed(RuntimeEscapes), removed;
      }
      var path := runtime.value + "/config";
      if path in configs && !configs[path].managed {
        return Failed(UnmanagedConfiguration), removed;
      }
      if op.includeRuntime && !op.yes {
        return Failed(ConfirmationRequired), removed;
      }
      if op.fault.OnUnlink? {
        return Failed(Interrupted), removed;
      }
      bindings := bindings - {key};
      removed := removed + [key];
      if op.fault.OnConfigRemoval? {
        return Failed(Interrupted), removed;
      }
      if path in configs {
        configs := configs - {path};
        removed := removed + [path];
      }
      assert configs == old(configs) - {path};
      if op.fault.OnRuntimeRemoval? {
        return Failed(Interrupted), removed;
      }
      if op.includeRuntime && runtime.value in runtimes {
        runtimes := runtimes - {runtime.value};
        removed := removed + [runtime.value];
      }
      assert runtimes == if op.includeRuntime then old(runtimes) - {runtime.value} else old(runtimes);
      if bindings != map[] {
        return Detached, removed;
      }
      if op.fault.OnPackageRemoval? {
        return Failed(Interrupted), removed;
      }
      dirs := dirs - {Installed};
      removed := removed + [env.storePath];
      assert Installed in old(dirs) && Installed !in dirs;
      return Done, removed;
    }
  }

  lemma NothingRefreshed(env: Env, bindings: map<string, Binding>, t: Tree)
    ensures RefreshAll(env, bindings, [], t) == bindings
  {
  }

  lemma RefreshNext(env: Env, bindings: map<string, Binding>, keys: seq<string>, i: nat, t: Tree)
    requires i < |keys| && keys[i] in RefreshAll(env, bindings, keys[..i], t)
    ensures var before := RefreshAll(env, bindings, keys[..i], t);
            RefreshAll(env, bindings, keys[..i + 1], t) == before[keys[i] := Refreshed(env, before[keys[i]], t)]
  {
    assert keys[..i + 1][..i] == keys[..i];
  }
}
