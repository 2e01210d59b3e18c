/**
 * ExtensionLoader.loadExtensions: the order in which the extensions of a folder
 * are loaded. Each file contributes a plugin description (its name and its
 * depend, softdepend and loadbefore lists); registration collects them into a
 * map of pending plugins and two dependency maps, and the scheduler then loads,
 * round by round, every pending plugin whose dependencies are satisfied.
 *
 * Reading the jar files, building and enabling the extension objects and the log
 * messages are not part of this model: a file is its description, and an
 * extension is the description it was loaded from. A missing (null) list in a
 * description is the empty list. The iteration order of the pending HashMap is
 * a parameter: any duplicate-free order of the plugin names, of which each
 * pass visits the names still pending.
 */
module ExtensionLoader {
  import opened Wrappers
  import opened Text

  /** The plugin that counts as loaded from the start. */
  const Core: string := "MrCore_BukkitImpl"

  datatype Description = Description(
    name: string,
    depend: seq<string>,
    softDepend: seq<string>,
    loadBefore: seq<string>)

  /** The three maps registration builds: pending plugins, hard and soft dependencies. */
  datatype Registry = Registry(
    plugins: map<string, Description>,
    deps: map<string, seq<string>>,
    soft: map<string, seq<string>>)

  // ---------------------------------------------------------------------
  // Registration (the loop over the folder's files)

  predicate Restricted(name: string) {
    EqualsIgnoreCase(name, "bukkit") || EqualsIgnoreCase(name, "minecraft") || EqualsIgnoreCase(name, "mojang")
  }

  /** Every soft dependency listed in `a` is still listed, under the same plugin, in `b`. */
  predicate SoftWithin(a: map<string, seq<string>>, b: map<string, seq<string>>) {
    forall key :: key in a ==> key in b && forall x :: x in a[key] ==> x in b[key]
  }

  /** softDependencies: add `more` to the list of `key`, creating the list if there is none. */
  function AddSoft(soft: map<string, seq<string>>, key: string, more: seq<string>): (r: map<string, seq<string>>)
    ensures key in r && forall x :: x in more ==> x in r[key]
    ensures SoftWithin(soft, r)
    ensures forall k :: k in r ==> k in soft || k == key
  {
    if key in soft then soft[key := soft[key] + more] else soft[key := more]
  }

  /** The load-before targets of plugin `name` each get `name` as a soft dependency. */
  function LoadBefore(soft: map<string, seq<string>>, targets: seq<string>, name: string): map<string, seq<string>>
    decreases |targets|
  {
    if |targets| == 0 then soft
    else AddSoft(LoadBefore(soft, targets[..|targets| - 1], name), targets[|targets| - 1], [name])
  }

  /** One file: a restricted name is skipped; otherwise the file replaces any earlier one of its name. */
  function RegisterOne(reg: Registry, d: Description): Registry {
    if Restricted(d.name) then reg
    else
      var soft := if |d.softDepend| > 0 then AddSoft(reg.soft, d.name, d.softDepend) else reg.soft;
      var deps := if |d.depend| > 0 then reg.deps[d.name := d.depend] else reg.deps;
      Registry(reg.plugins[d.name := d], deps, LoadBefore(soft, d.loadBefore, d.name))
  }

  function Registered(files: seq<Description>): Registry
    decreases |files|
  {
    if |files| == 0 then Registry(map[], map[], map[])
    else RegisterOne(Registered(files[..|files| - 1]), files[|files| - 1])
  }

  /** The registration loop over the folder's files, in the order listFiles gives them. */
  method Register(files: seq<Description>) returns (reg: Registry)
    ensures reg == Registered(files)
  {
    reg := Registry(map[], map[], map[]);
    for i := 0 to |files|
      invariant reg == Registered(files[..i])
    {
      assert files[..i + 1][..i] == files[..i];
      reg := RegisterFile(reg, files[i]);
    }
    assert files[..|files|] == files;
  }

  /**
   * One turn of the registration loop: a restricted name is skipped; otherwise the
   * file goes into the plugin map, its soft and hard dependencies are recorded, and
   * it becomes a soft dependency of every plugin it loads before.
   */
  method RegisterFile(reg: Registry, d: Description) returns (reg': Registry)
    ensures reg' == RegisterOne(reg, d)
  {
    if Restricted(d.name) {
      return reg;
    }
    var plugins := reg.plugins[d.name := d];
    var dependencies := reg.deps;
    var softDependencies := reg.soft;
    if |d.softDepend| > 0 {
      if d.name in softDependencies {
        softDependencies := softDependencies[d.name := softDependencies[d.name] + d.softDepend];
      } else {
        softDependencies := softDependencies[d.name := d.softDepend];
      }
    }
    if |d.depend| > 0 {
      dependencies := dependencies[d.name := d.depend];
    }
    softDependencies := AddLoadBefore(softDependencies, d.loadBefore, d.name);
    reg' := Registry(plugins, dependencies, softDependencies);
  }

  /** The loadbefore loop: `name` becomes a soft dependency of each target, in order. */
  method AddLoadBefore(soft: map<string, seq<string>>, targets: seq<string>, name: string)
    returns (soft': map<string, seq<string>>)
    ensures soft' == LoadBefore(soft, targets, name)
  {
    soft' := soft;
    for j := 0 to |targets|
      invariant soft' == LoadBefore(soft, targets[..j], name)
    {
      assert targets[..j + 1][..j] == targets[..j];
      var target := targets[j];
      if target in soft' {
        soft' := soft'[target := soft'[target] + [name]];
      } else {
        soft' := soft'[target := [name]];
      }
    }
    assert targets[..|targets|] == targets;
  }

  // ---------------------------------------------------------------------
  // What registration keeps

  /** The pending plugins are the files with unrestricted names, each under its own name. */
  lemma {:induction false} RegisteredNames(files: seq<Description>)
    ensures forall n :: n in Registered(files).plugins <==>
      exists k :: 0 <= k < |files| && files[k].name == n && !Restricted(n)
    ensures forall n :: n in Registered(files).plugins ==> Registered(files).plugins[n].name == n
    decreases |files|
  {
    if |files| > 0 {
      var init := files[..|files| - 1];
      RegisteredNames(init);
      forall n | exists k :: 0 <= k < |files| && files[k].name == n && !Restricted(n)
        ensures n in Registered(files).plugins
      {
        var k :| 0 <= k < |files| && files[k].name == n && !Restricted(n);
        if k < |files| - 1 {
          assert init[k] == files[k];
        }
      }
      forall n | n in Registered(files).plugins
        ensures exists k :: 0 <= k < |files| && files[k].name == n && !Restricted(n)
      {
        if n in Registered(init).plugins {
          var k :| 0 <= k < |init| && init[k].name == n && !Restricted(n);
          assert files[k] == init[k];
        } else {
          assert files[|files| - 1].name == n;
        }
      }
    }
  }

  /** A restricted name never becomes pending, whatever its case. */
  lemma RestrictedNeverPending(files: seq<Description>, n: string)
    requires Restricted(n)
    ensures n !in Registered(files).plugins
  {
    RegisteredNames(files);
  }

  /** Of several files with one name, the last one is the plugin registered under it. */
  lemma {:induction false} LastFileWins(files: seq<Description>, k: nat)
    requires k < |files| && !Restricted(files[k].name)
    requires forall j :: k < j < |files| ==> files[j].name != files[k].name
    ensures files[k].name in Registered(files).plugins && Registered(files).plugins[files[k].name] == files[k]
    decreases |files|
  {
    if k < |files| - 1 {
      var init := files[..|files| - 1];
      assert init[k] == files[k];
      LastFileWins(init, k);
    }
  }

  /** Soft dependencies are only ever added to. */
  lemma {:induction false} LoadBeforeWithin(soft: map<string, seq<string>>, targets: seq<string>, name: string)
    ensures SoftWithin(soft, LoadBefore(soft, targets, name))
    ensures forall x :: x in targets ==> x in LoadBefore(soft, targets, name) && name in LoadBefore(soft, targets, name)[x]
    decreases |targets|
  {
    if |targets| > 0 {
      var init := targets[..|targets| - 1];
      LoadBeforeWithin(soft, init, name);
      var mid := LoadBefore(soft, init, name);
      var last := targets[|targets| - 1];
      SoftWithinTrans(soft, mid, AddSoft(mid, last, [name]));
      forall x | x in targets
        ensures x in LoadBefore(soft, targets, name) && name in LoadBefore(soft, targets, name)[x]
      {
        if x != last {
          assert x in init by {
            var i :| 0 <= i < |targets| && targets[i] == x;
            assert init[i] == x;
          }
        }
      }
    }
  }

  lemma SoftWithinTrans(a: map<string, seq<string>>, b: map<string, seq<string>>, c: map<string, seq<string>>)
    requires SoftWithin(a, b) && SoftWithin(b, c)
    ensures SoftWithin(a, c)
  {
  }

  lemma RegisterOneWithin(reg: Registry, d: Description)
    ensures SoftWithin(reg.soft, RegisterOne(reg, d).soft)
  {
    if !Restricted(d.name) {
      var soft := if |d.softDepend| > 0 then AddSoft(reg.soft, d.name, d.softDepend) else reg.soft;
      LoadBeforeWithin(soft, d.loadBefore, d.name);
      SoftWithinTrans(reg.soft, soft, RegisterOne(reg, d).soft);
    }
  }

  /**
   * A plugin's soft dependencies include every softdepend entry of every file with
   * its name (they are merged, not replaced), and it is a soft dependency of
   * every plugin it names in loadbefore.
   */
  lemma {:induction false} SoftDependenciesKept(files: seq<Description>, k: nat)
    requires k < |files| && !Restricted(files[k].name)
    ensures forall s :: s in files[k].softDepend ==>
      files[k].name in Registered(files).soft && s in Registered(files).soft[files[k].name]
    ensures forall x :: x in files[k].loadBefore ==>
      x in Registered(files).soft && files[k].name in Registered(files).soft[x]
    decreases |files|
  {
    var init := files[..|files| - 1];
    var d := files[|files| - 1];
    RegisterOneWithin(Registered(init), d);
    if k < |files| - 1 {
      assert init[k] == files[k];
      SoftDependenciesKept(init, k);
    } else {
      var soft := if |d.softDepend| > 0 then AddSoft(Registered(init).soft, d.name, d.softDepend)
                  else Registered(init).soft;
      LoadBeforeWithin(soft, d.loadBefore, d.name);
    }
  }

  /**
   * The hard dependencies of a plugin are the depend list of the last file with
   * its name whose list is not empty; an empty list leaves an earlier one in place.
   */
  lemma {:induction false} LastDependWins(files: seq<Description>, k: nat)
    requires k < |files| && !Restricted(files[k].name) && |files[k].depend| > 0
    requires forall j :: k < j < |files| && |files[j].depend| > 0 ==> files[j].name != files[k].name
    ensures files[k].name in Registered(files).deps && Registered(files).deps[files[k].name] == files[k].depend
    decreases |files|
  {
    if k < |files| - 1 {
      var init := files[..|files| - 1];
      assert init[k] == files[k];
      LastDependWins(init, k);
    }
  }

  /** Only pending plugins have hard dependencies, and never an empty list of them. */
  lemma {:induction false} DependenciesOfPending(files: seq<Description>)
    ensures forall n :: n in Registered(files).deps ==> n in Registered(files).plugins && |Registered(files).deps[n]| > 0
    decreases |files|
  {
    if |files| > 0 {
      DependenciesOfPending(files[..|files| - 1]);
    }
  }

  // ---------------------------------------------------------------------
  // Sequences of names

  predicate Distinct(xs: seq<string>) {
    forall i, j :: 0 <= i < j < |xs| ==> xs[i] != xs[j]
  }

  /** The elements of `xs` that are in `s`, in their order. */
  function Keep(xs: seq<string>, s: set<string>): (r: seq<string>)
    ensures forall x :: x in r <==> x in xs && x in s
    decreases |xs|
  {
    if |xs| == 0 then []
    else Keep(xs[..|xs| - 1], s) + (if xs[|xs| - 1] in s then [xs[|xs| - 1]] else [])
  }

  /** The elements of `xs` that are not in `s`, in their order. */
  function Without(xs: seq<string>, s: set<string>): (r: seq<string>)
    ensures forall x :: x in r <==> x in xs && x !in s
    decreases |xs|
  {
    if |xs| == 0 then []
    else Without(xs[..|xs| - 1], s) + (if xs[|xs| - 1] in s then [] else [xs[|xs| - 1]])
  }

  lemma {:induction false} KeepDistinct(xs: seq<string>, s: set<string>)
    requires Distinct(xs)
    ensures Distinct(Keep(xs, s))
    decreases |xs|
  {
    if |xs| > 0 {
      var init := xs[..|xs| - 1];
      assert Distinct(init) by {
        forall i, j | 0 <= i < j < |init| ensures init[i] != init[j] {
          assert init[i] == xs[i] && init[j] == xs[j];
        }
      }
      KeepDistinct(init, s);
      var last := xs[|xs| - 1];
      assert last !in init by {
        forall i | 0 <= i < |init| ensures init[i] != last {
          assert init[i] == xs[i];
        }
      }
    }
  }

  /** The names of the loaded extensions, in load order. */
  function Names(ext: seq<Description>): seq<string> {
    seq(|ext|, k requires 0 <= k < |ext| => ext[k].name)
  }

  function DepsOf(deps: map<string, seq<string>>, p: string): seq<string> {
    if p in deps then deps[p] else []
  }

  // ---------------------------------------------------------------------
  // Scheduling (the while loop over the pending plugins)

  /**
   * The loader's working state: the pending plugins, what is left of their hard
   * and soft dependency lists, the names loaded so far (MrCore_BukkitImpl from
   * the start) and the extensions loaded, in order.
   */
  datatype State = State(
    plugins: map<string, Description>,
    deps: map<string, seq<string>>,
    soft: map<string, seq<string>>,
    loaded: set<string>,
    extensions: seq<Description>)

  function Start(reg: Registry): State {
    State(reg.plugins, reg.deps, reg.soft, {Core}, [])
  }

  /** The pending plugins are registered plugins, as registered. */
  ghost predicate PendingRegistered(reg: Registry, st: State) {
    forall p :: p in st.plugins ==> p in reg.plugins && st.plugins[p] == reg.plugins[p]
  }

  /** Dependency lists only lose entries. */
  ghost predicate DepsShrunk(reg: Registry, st: State) {
    forall p :: p in st.deps ==> p in reg.deps && forall d :: d in st.deps[p] ==> d in reg.deps[p]
  }

  /** Each loaded extension is a registered plugin, loaded once and no longer pending. */
  ghost predicate LoadedOnce(reg: Registry, ext: seq<Description>, pending: map<string, Description>) {
    Distinct(Names(ext)) &&
    forall k :: 0 <= k < |ext| ==>
      ext[k].name in reg.plugins && ext[k] == reg.plugins[ext[k].name] && ext[k].name !in pending
  }

  ghost predicate LoadedNames(st: State) {
    forall n :: n in st.loaded <==> n == Core || n in Names(st.extensions)
  }

  /** A hard dependency of a pending plugin is loaded or still on its list. */
  ghost predicate HardProgress(reg: Registry, st: State) {
    forall p, d :: p in st.plugins && d in DepsOf(reg.deps, p) ==>
      d in st.loaded || (p in st.deps && d in st.deps[p])
  }

  /** Every hard dependency of an extension is MrCore_BukkitImpl or an extension loaded before it. */
  ghost predicate DepsEarlier(reg: Registry, ext: seq<Description>) {
    forall k, d :: 0 <= k < |ext| && d in DepsOf(reg.deps, ext[k].name) ==> d == Core || d in Names(ext)[..k]
  }

  /** A soft dependency of a pending plugin is no longer pending or still on its list. */
  ghost predicate SoftProgress(reg: Registry, st: State) {
    forall p, s :: p in st.plugins && s in DepsOf(reg.soft, p) ==>
      s !in st.plugins || (p in st.soft && s in st.soft[p])
  }

  /** A plugin without hard dependencies is pending or loaded: nothing drops it. */
  ghost predicate FreeKept(reg: Registry, st: State) {
    forall p :: p in reg.plugins && p !in reg.deps ==> p in st.plugins || p in Names(st.extensions)
  }

  ghost predicate Inv(reg: Registry, st: State) {
    (forall p :: p in reg.plugins ==> reg.plugins[p].name == p) &&
    PendingRegistered(reg, st) && DepsShrunk(reg, st) && LoadedOnce(reg, st.extensions, st.plugins) &&
    LoadedNames(st) && HardProgress(reg, st) && DepsEarlier(reg, st.extensions) &&
    SoftProgress(reg, st) && FreeKept(reg, st)
  }

  /**
   * The extensions loaded from index `from` on were loaded with none of their
   * soft dependencies pending: those are pending no more and load after none of them.
   */
  ghost predicate SoftCleared(reg: Registry, st: State, from: nat) {
    forall k, s :: from <= k < |st.extensions| && s in DepsOf(reg.soft, st.extensions[k].name) ==>
      s !in st.plugins && s !in Names(st.extensions)[k + 1..]
  }

  lemma StartInv(reg: Registry)
    requires forall p :: p in reg.plugins ==> reg.plugins[p].name == p
    ensures Inv(reg, Start(reg))
  {
  }

  /**
   * The hard-dependency loop of one plugin: loaded dependencies are removed, and
   * the first one neither loaded nor pending stops it and is returned.
   */
  method PruneDependencies(list: seq<string>, loaded: set<string>, pending: set<string>)
    returns (kept: seq<string>, unknown: Option<string>)
    ensures unknown.None? <==> forall d :: d in list ==> d in loaded || d in pending
    ensures unknown.Some? ==> unknown.value in list && unknown.value !in loaded && unknown.value !in pending
    ensures unknown.None? ==> kept == Without(list, loaded)
  {
    kept, unknown := [], None;
    var j := 0;
    while j < |list|
      invariant 0 <= j <= |list|
      invariant forall d :: d in list[..j] ==> d in loaded || d in pending
      invariant kept == Without(list[..j], loaded)
    {
      assert list[..j + 1][..j] == list[..j];
      var dependency := list[j];
      if dependency in loaded {
        // dependencyIterator.remove()
      } else if dependency !in pending {
        unknown := Some(dependency);
        break;
      } else {
        kept := kept + [dependency];
      }
      j := j + 1;
    }
    if unknown.None? {
      assert list[..j] == list;
    }
  }

  /** The soft-dependency loop of one plugin: the ones no longer pending are removed. */
  method PruneSoft(list: seq<string>, pending: set<string>) returns (kept: seq<string>)
    ensures kept == Keep(list, pending)
  {
    kept := [];
    for j := 0 to |list|
      invariant kept == Keep(list[..j], pending)
    {
      assert list[..j + 1][..j] == list[..j];
      if list[j] in pending {
        kept := kept + [list[j]];
      }
    }
    assert list[..|list|] == list;
  }

  /** A plugin with a dependency neither loaded nor pending is dropped with its lists. */
  lemma DropKeepsInv(reg: Registry, st: State, p: string)
    requires Inv(reg, st) && p in st.plugins && p in st.deps
    ensures Inv(reg, State(st.plugins - {p}, st.deps - {p}, st.soft - {p}, st.loaded, st.extensions))
  {
    var st' := State(st.plugins - {p}, st.deps - {p}, st.soft - {p}, st.loaded, st.extensions);
    assert HardProgress(reg, st');
    assert SoftProgress(reg, st');
    assert FreeKept(reg, st') by {
      assert p in reg.deps;
    }
  }

  /** Removing the loaded hard dependencies from a pending plugin's list, and the list once empty. */
  lemma PruneDepsKeepsInv(reg: Registry, st: State, p: string, kept: seq<string>)
    requires Inv(reg, st) && p in st.plugins && p in st.deps && kept == Without(st.deps[p], st.loaded)
    ensures Inv(reg, st.(deps := st.deps[p := kept]))
    ensures |kept| == 0 ==> Inv(reg, st.(deps := st.deps[p := kept] - {p}))
  {
    PrunedDeps(reg, st, p, kept, st.deps[p := kept]);
    DepsFrame(reg, st, st.deps[p := kept]);
    if |kept| == 0 {
      PrunedDeps(reg, st, p, kept, st.deps[p := kept] - {p});
      DepsFrame(reg, st, st.deps[p := kept] - {p});
    }
  }

  /** A new dependency map keeps the invariant when it keeps its two dependency clauses. */
  lemma DepsFrame(reg: Registry, st: State, deps: map<string, seq<string>>)
    requires Inv(reg, st) && DepsShrunk(reg, st.(deps := deps)) && HardProgress(reg, st.(deps := deps))
    ensures Inv(reg, st.(deps := deps))
  {
  }

  lemma PrunedDeps(reg: Registry, st: State, p: string, kept: seq<string>, deps: map<string, seq<string>>)
    requires DepsShrunk(reg, st) && HardProgress(reg, st) && p in st.deps && kept == Without(st.deps[p], st.loaded)
    requires deps == st.deps[p := kept] || (|kept| == 0 && deps == st.deps[p := kept] - {p})
    ensures DepsShrunk(reg, st.(deps := deps)) && HardProgress(reg, st.(deps := deps))
  {
    var st1 := st.(deps := deps);
    forall q, d | q in st1.plugins && d in DepsOf(reg.deps, q) && d !in st1.loaded
      ensures q in deps && d in deps[q]
    {
      if q == p {
        assert d in st.deps[p];
        assert d in kept;
      }
    }
  }

  /** Removing the soft dependencies that are no longer pending from a plugin's list, and the list once empty. */
  lemma PruneSoftKeepsInv(reg: Registry, st: State, p: string, kept: seq<string>)
    requires Inv(reg, st) && p in st.soft && kept == Keep(st.soft[p], st.plugins.Keys)
    ensures Inv(reg, st.(soft := st.soft[p := kept]))
    ensures |kept| == 0 ==> Inv(reg, st.(soft := st.soft[p := kept] - {p}))
  {
    PrunedSoft(reg, st, p, kept, st.soft[p := kept]);
    SoftFrame(reg, st, st.soft[p := kept]);
    if |kept| == 0 {
      PrunedSoft(reg, st, p, kept, st.soft[p := kept] - {p});
      SoftFrame(reg, st, st.soft[p := kept] - {p});
    }
  }

  lemma SoftFrame(reg: Registry, st: State, soft: map<string, seq<string>>)
    requires Inv(reg, st) && SoftProgress(reg, st.(soft := soft))
    ensures Inv(reg, st.(soft := soft))
  {
  }

  lemma PrunedSoft(reg: Registry, st: State, p: string, kept: seq<string>, soft: map<string, seq<string>>)
    requires SoftProgress(reg, st) && p in st.soft && kept == Keep(st.soft[p], st.plugins.Keys)
    requires soft == st.soft[p := kept] || (|kept| == 0 && soft == st.soft[p := kept] - {p})
    ensures SoftProgress(reg, st.(soft := soft))
  {
    var st1 := st.(soft := soft);
    forall q, x | q in st1.plugins && x in DepsOf(reg.soft, q) && x in st1.plugins
      ensures q in soft && x in soft[q]
    {
      if q == p {
        assert x in st.soft[p];
        assert x in kept;
      }
    }
  }

  /**
   * Loading a pending plugin without hard dependencies left: it is appended to the
   * extensions and marked loaded. Its soft-dependency list is gone (the fallback
   * removes it, the normal path loads only when there is none).
   */
  lemma LoadKeepsInv(reg: Registry, st: State, p: string, soft: map<string, seq<string>>)
    requires Inv(reg, st) && p in st.plugins && p !in st.deps && p !in soft
    requires forall q :: q != p ==> (q in soft <==> q in st.soft)
    requires forall q :: q in soft ==> soft[q] == st.soft[q]
    ensures Inv(reg, State(st.plugins - {p}, st.deps, soft, st.loaded + {p}, st.extensions + [st.plugins[p]]))
  {
    var st' := State(st.plugins - {p}, st.deps, soft, st.loaded + {p}, st.extensions + [st.plugins[p]]);
    NamesSnoc(st.extensions, st.plugins[p]);
    LoadedOnceSnoc(reg, st.extensions, st.plugins, p);
    assert forall d :: d in DepsOf(reg.deps, p) ==> d == Core || d in Names(st.extensions);
    DepsEarlierSnoc(reg, st.extensions, st.plugins[p]);
    LoadProgress(reg, st, p, st');
  }

  lemma LoadProgress(reg: Registry, st: State, p: string, st': State)
    requires HardProgress(reg, st) && SoftProgress(reg, st) && FreeKept(reg, st) && LoadedNames(st)
    requires p in st.plugins && st'.plugins == st.plugins - {p} && st'.deps == st.deps && p !in st'.soft
    requires forall q :: q != p ==> (q in st'.soft <==> q in st.soft)
    requires forall q :: q in st'.soft ==> st'.soft[q] == st.soft[q]
    requires st'.loaded == st.loaded + {p} && Names(st'.extensions) == Names(st.extensions) + [p]
    ensures HardProgress(reg, st') && SoftProgress(reg, st') && FreeKept(reg, st') && LoadedNames(st')
  {
  }

  /** On the normal path a plugin loads only once none of its soft dependencies is pending. */
  lemma ClearToLoad(reg: Registry, st: State, p: string)
    requires SoftProgress(reg, st) && p in st.plugins && p !in st.soft
    ensures forall x :: x in DepsOf(reg.soft, p) ==> x !in st.plugins
  {
  }

  lemma NamesSnoc(ext: seq<Description>, x: Description)
    ensures Names(ext + [x]) == Names(ext) + [x.name]
  {
  }

  lemma LoadedOnceSnoc(reg: Registry, ext: seq<Description>, pending: map<string, Description>, p: string)
    requires LoadedOnce(reg, ext, pending) && p in pending && p in reg.plugins && pending[p] == reg.plugins[p]
    requires reg.plugins[p].name == p
    ensures LoadedOnce(reg, ext + [pending[p]], pending - {p})
  {
    var ext' := ext + [pending[p]];
    NamesSnoc(ext, pending[p]);
    forall i, j | 0 <= i < j < |ext'| ensures Names(ext')[i] != Names(ext')[j] {
      if j == |ext| {
        assert ext[i].name !in pending;
      }
    }
  }

  lemma DepsEarlierSnoc(reg: Registry, ext: seq<Description>, x: Description)
    requires DepsEarlier(reg, ext)
    requires forall d :: d in DepsOf(reg.deps, x.name) ==> d == Core || d in Names(ext)
    ensures DepsEarlier(reg, ext + [x])
  {
    var ext' := ext + [x];
    NamesSnoc(ext, x);
    forall k, d | 0 <= k < |ext'| && d in DepsOf(reg.deps, ext'[k].name)
      ensures d == Core || d in Names(ext')[..k]
    {
      if k < |ext| {
        assert Names(ext')[..k] == Names(ext)[..k];
      } else {
        assert Names(ext')[..k] == Names(ext);
      }
    }
  }

  /**
   * One turn of the inner while loop: the visit of pending plugin `p`. It is
   * dropped when a hard dependency is neither loaded nor pending, loaded when no
   * hard dependency is left and none of its soft dependencies is still pending,
   * and otherwise stays pending with shorter lists. `progress` is
   * !missingDependency: the visit removed `p` from the pending plugins.
   */
  method Visit(reg: Registry, st: State, p: string) returns (st': State, progress: bool)
    requires Inv(reg, st) && p in st.plugins
    ensures Inv(reg, st')
    ensures progress <==> p !in st'.plugins
    ensures st'.plugins == if progress then st.plugins - {p} else st.plugins
    ensures st'.extensions == st.extensions || (progress && st'.extensions == st.extensions + [st.plugins[p]])
    ensures st'.extensions != st.extensions ==> forall x :: x in DepsOf(reg.soft, p) ==> x !in st.plugins
    ensures progress && st'.extensions == st.extensions ==>
      exists d :: d in DepsOf(reg.deps, p) && d !in st.loaded && d !in st.plugins
  {
    var unknown;
    st', unknown := VisitDependencies(reg, st, p);
    if unknown.None? {
      st' := VisitSoftDependencies(reg, st', p);
      st' := LoadIfClear(reg, st', p);
    }
    progress := p !in st'.plugins;
  }

  /** The hard dependencies of `p`: drop it for an unknown one, or forget the loaded ones. */
  method VisitDependencies(reg: Registry, st: State, p: string) returns (st': State, unknown: Option<string>)
    requires Inv(reg, st) && p in st.plugins
    ensures Inv(reg, st')
    ensures st'.extensions == st.extensions && st'.loaded == st.loaded
    ensures unknown.Some? ==> st'.plugins == st.plugins - {p}
    ensures unknown.Some? ==>
      unknown.value in DepsOf(reg.deps, p) && unknown.value !in st.loaded && unknown.value !in st.plugins
    ensures unknown.None? ==> st'.plugins == st.plugins && st'.soft == st.soft
  {
    st', unknown := st, None;
    if p in st.deps {
      var kept;
      kept, unknown := PruneDependencies(st.deps[p], st.loaded, st.plugins.Keys);
      if unknown.Some? {
        DropKeepsInv(reg, st, p);
        DependencyRegistered(reg, st, p, unknown.value);
        st' := State(st.plugins - {p}, st.deps - {p}, st.soft - {p}, st.loaded, st.extensions);
      } else {
        PruneDepsKeepsInv(reg, st, p, kept);
        var dependencies := st.deps[p := kept];
        if |kept| == 0 {
          dependencies := dependencies - {p};
        }
        st' := st.(deps := dependencies);
      }
    }
  }

  lemma DependencyRegistered(reg: Registry, st: State, p: string, d: string)
    requires DepsShrunk(reg, st) && p in st.deps && d in st.deps[p]
    ensures d in DepsOf(reg.deps, p)
  {
  }

  /** The soft dependencies of `p`: forget the ones no longer pending. */
  method VisitSoftDependencies(reg: Registry, st: State, p: string) returns (st': State)
    requires Inv(reg, st)
    ensures Inv(reg, st')
    ensures st' == st.(soft := st'.soft)
    ensures forall q :: q != p ==> (q in st'.soft <==> q in st.soft)
  {
    st' := st;
    if p in st.soft {
      var kept := PruneSoft(st.soft[p], st.plugins.Keys);
      PruneSoftKeepsInv(reg, st, p, kept);
      var softDependencies := st.soft[p := kept];
      if |kept| == 0 {
        softDependencies := softDependencies - {p};
      }
      st' := st.(soft := softDependencies);
    }
  }

  /** Load `p` when it is pending and no hard or soft dependency of it is left. */
  method LoadIfClear(reg: Registry, st: State, p: string) returns (st': State)
    requires Inv(reg, st)
    ensures Inv(reg, st')
    ensures st' == st || (p in st.plugins && st' == State(st.plugins - {p}, st.deps, st.soft, st.loaded + {p}, st.extensions + [st.plugins[p]]))
    ensures p in st'.plugins <==> st' == st && p in st.plugins
    ensures st'.extensions != st.extensions ==> forall x :: x in DepsOf(reg.soft, p) ==> x !in st.plugins
  {
    st' := st;
    if !(p in st.deps || p in st.soft) && p in st.plugins {
      LoadKeepsInv(reg, st, p, st.soft);
      ClearToLoad(reg, st, p);
      st' := State(st.plugins - {p}, st.deps, st.soft, st.loaded + {p}, st.extensions + [st.plugins[p]]);
    }
  }

  /** A visit keeps the soft dependencies of the plugins loaded in this pass out of the way. */
  lemma SoftClearedStep(reg: Registry, st: State, st': State, p: string, from: nat)
    requires SoftCleared(reg, st, from) && p in st.plugins && st.plugins[p].name == p
    requires st'.plugins == st.plugins - {p} || st'.plugins == st.plugins
    requires st'.extensions == st.extensions ||
      (st'.extensions == st.extensions + [st.plugins[p]] && st'.plugins == st.plugins - {p} &&
       forall x :: x in DepsOf(reg.soft, p) ==> x !in st.plugins)
    ensures SoftCleared(reg, st', from)
  {
    if st'.extensions != st.extensions {
      NamesSnoc(st.extensions, st.plugins[p]);
      forall k, x | from <= k < |st'.extensions| && x in DepsOf(reg.soft, st'.extensions[k].name)
        ensures x !in st'.plugins && x !in Names(st'.extensions)[k + 1..]
      {
        if k < |st.extensions| {
          assert st'.extensions[k] == st.extensions[k];
          assert x !in st.plugins && x != p;
          assert Names(st'.extensions)[k + 1..] == Names(st.extensions)[k + 1..] + [p];
        } else {
          assert st'.extensions[k].name == p;
          assert Names(st'.extensions)[k + 1..] == [];
        }
      }
    } else {
      forall k, x | from <= k < |st'.extensions| && x in DepsOf(reg.soft, st'.extensions[k].name)
        ensures x !in st'.plugins && x !in Names(st'.extensions)[k + 1..]
      {
        assert x !in st.plugins;
      }
    }
  }

  lemma DistinctAfter(xs: seq<string>, i: nat)
    requires Distinct(xs) && i < |xs|
    ensures forall j :: i < j < |xs| ==> xs[j] != xs[i]
  {
  }

  /** What a pass has done so far to the state `st` it started from. */
  ghost predicate PassSoFar(reg: Registry, st: State, cur: State, progress: bool) {
    cur.plugins.Keys <= st.plugins.Keys && |cur.plugins| <= |st.plugins| &&
    (progress ==> |cur.plugins| < |st.plugins|) &&
    (!progress ==> cur.plugins == st.plugins && cur.extensions == st.extensions) &&
    st.extensions <= cur.extensions &&
    SoftCleared(reg, cur, |st.extensions|)
  }

  /** One visit inside a pass, as Visit describes it, keeps PassSoFar. */
  lemma PassStep(reg: Registry, st: State, before: State, after: State, p: string, removed: bool, progress: bool)
    requires PassSoFar(reg, st, before, progress) && p in before.plugins && before.plugins[p].name == p
    requires after.plugins == if removed then before.plugins - {p} else before.plugins
    requires after.extensions == before.extensions || (removed && after.extensions == before.extensions + [before.plugins[p]])
    requires after.extensions != before.extensions ==> forall x :: x in DepsOf(reg.soft, p) ==> x !in before.plugins
    ensures PassSoFar(reg, st, after, progress || removed)
  {
    SoftClearedStep(reg, before, after, p, |st.extensions|);
  }

  /**
   * One pass of the inner while loop over the pending plugins, in iteration
   * order. `progress` is !missingDependency: some plugin was loaded or dropped.
   * Every plugin the pass loads was loaded with none of its soft dependencies pending.
   */
  method Pass(reg: Registry, order: seq<string>, st: State) returns (st': State, progress: bool)
    requires Inv(reg, st) && Distinct(order) && forall p :: p in st.plugins ==> p in order
    ensures Inv(reg, st')
    ensures st'.plugins.Keys <= st.plugins.Keys && st.extensions <= st'.extensions
    ensures progress ==> |st'.plugins| < |st.plugins|
    ensures !progress ==> st'.plugins == st.plugins && st'.extensions == st.extensions
    ensures SoftCleared(reg, st', |st.extensions|)
  {
    var snap := Keep(order, st.plugins.Keys);
    KeepDistinct(order, st.plugins.Keys);
    st', progress := st, false;
    for i := 0 to |snap|
      invariant Inv(reg, st') && PassSoFar(reg, st, st', progress)
      invariant forall j :: i <= j < |snap| ==> snap[j] in st'.plugins
    {
      var plugin := snap[i];
      ghost var before := st';
      var removed;
      st', removed := Visit(reg, st', plugin);
      PassStep(reg, st, before, st', plugin, removed, progress);
      progress := progress || removed;
      DistinctAfter(snap, i);
    }
  }

  /** `ps[i]` has no hard-dependency list and every name before it has one. */
  predicate FirstFreeAt(ps: seq<string>, deps: map<string, seq<string>>, i: int) {
    0 <= i < |ps| && ps[i] !in deps && forall j :: 0 <= j < i ==> ps[j] in deps
  }

  /** The first name of `ps` without a hard-dependency list. */
  function FirstFree(ps: seq<string>, deps: map<string, seq<string>>): (r: Option<string>)
    ensures r.None? <==> forall q :: q in ps ==> q in deps
    ensures r.Some? ==> exists i :: FirstFreeAt(ps, deps, i) && ps[i] == r.value
  {
    if |ps| == 0 then None
    else if ps[0] !in deps then
      assert FirstFreeAt(ps, deps, 0);
      Some(ps[0])
    else
      var r := FirstFree(ps[1..], deps);
      assert r.Some? ==> exists i :: FirstFreeAt(ps, deps, i) && ps[i] == r.value by {
        if r.Some? {
          var i :| FirstFreeAt(ps[1..], deps, i) && ps[1..][i] == r.value;
          forall j | 0 <= j < i + 1 ensures ps[j] in deps {
            if j > 0 {
              assert ps[j] == ps[1..][j - 1];
            }
          }
          assert FirstFreeAt(ps, deps, i + 1);
        }
      }
      r
  }

  /** No plugin without hard dependencies is pending: every pending plugin is dropped. */
  lemma CircularKeepsInv(reg: Registry, st: State, order: seq<string>)
    requires Inv(reg, st) && forall p :: p in st.plugins ==> p in order
    requires FirstFree(Keep(order, st.plugins.Keys), st.deps).None?
    ensures Inv(reg, State(map[], map[], map[], st.loaded, st.extensions))
  {
    forall p | p in reg.plugins && p !in reg.deps
      ensures p in Names(st.extensions)
    {
      if p in st.plugins {
        assert false;
      }
    }
  }

  /**
   * The fallback after a pass without progress: the first pending plugin (in
   * iteration order) without hard dependencies is loaded, its soft dependencies
   * ignored; when there is none, every pending plugin is dropped as circular.
   */
  method Fallback(reg: Registry, order: seq<string>, st: State) returns (st': State)
    requires Inv(reg, st) && forall p :: p in st.plugins ==> p in order
    ensures Inv(reg, st')
    ensures match FirstFree(Keep(order, st.plugins.Keys), st.deps)
      case Some(p) =>
        p in st.plugins && st'.plugins == st.plugins - {p} && st'.extensions == st.extensions + [st.plugins[p]]
      case None =>
        st'.plugins == map[] && st'.deps == map[] && st'.soft == map[] && st'.extensions == st.extensions
  {
    var snap := Keep(order, st.plugins.Keys);
    var missingDependency := true;
    st' := st;
    var i := 0;
    while i < |snap|
      invariant 0 <= i <= |snap|
      invariant missingDependency && st' == st
      invariant FirstFree(snap[i..], st.deps) == FirstFree(snap, st.deps)
    {
      var plugin := snap[i];
      assert snap[i..][1..] == snap[i + 1..];
      if plugin !in st.deps {
        LoadKeepsInv(reg, st, plugin, st.soft - {plugin});
        st' := State(st.plugins - {plugin}, st.deps, st.soft - {plugin}, st.loaded + {plugin}, st.extensions + [st.plugins[plugin]]);
        missingDependency := false;
        break;
      }
      i := i + 1;
    }
    if missingDependency {
      assert snap[i..] == [];
      CircularKeepsInv(reg, st, order);
      st' := State(map[], map[], map[], st.loaded, st.extensions);
    }
  }

  /** One turn of the outer while loop; it always removes at least one pending plugin. */
  method Round(reg: Registry, order: seq<string>, st: State) returns (st': State)
    requires Inv(reg, st) && Distinct(order) && (forall p :: p in st.plugins ==> p in order) && |st.plugins| > 0
    ensures Inv(reg, st')
    ensures st'.plugins.Keys <= st.plugins.Keys && |st'.plugins| < |st.plugins|
    ensures st.extensions <= st'.extensions
  {
    var progress;
    st', progress := Pass(reg, order, st);
    if !progress {
      st' := Fallback(reg, order, st');
    }
  }

  /**
   * The scheduling loop: rounds until nothing is pending. Each extension is a
   * registered plugin loaded once; its hard dependencies are MrCore_BukkitImpl or
   * extensions loaded before it; and every plugin without hard dependencies is loaded.
   */
  method LoadOrder(reg: Registry, order: seq<string>) returns (extensions: seq<Description>)
    requires Distinct(order) && forall p :: p in reg.plugins ==> p in order
    requires forall p :: p in reg.plugins ==> reg.plugins[p].name == p
    ensures Distinct(Names(extensions))
    ensures forall k :: 0 <= k < |extensions| ==>
      extensions[k].name in reg.plugins && extensions[k] == reg.plugins[extensions[k].name]
    ensures DepsEarlier(reg, extensions)
    ensures forall p :: p in reg.plugins && p !in reg.deps ==> p in Names(extensions)
  {
    var st := Start(reg);
    StartInv(reg);
    while |st.plugins| > 0
      invariant Inv(reg, st) && forall p :: p in st.plugins ==> p in order
      decreases |st.plugins|
    {
      st := Round(reg, order, st);
    }
    extensions := st.extensions;
  }

  /** loadExtensions: registration, then scheduling. */
  method LoadExtensions(files: seq<Description>, order: seq<string>) returns (extensions: seq<Description>)
    requires Distinct(order) && forall k :: 0 <= k < |files| ==> files[k].name in order
    ensures Distinct(Names(extensions))
    ensures forall k :: 0 <= k < |extensions| ==>
      extensions[k].name in Registered(files).plugins && extensions[k] == Registered(files).plugins[extensions[k].name]
    ensures DepsEarlier(Registered(files), extensions)
    ensures forall p :: p in Registered(files).plugins && p !in Registered(files).deps ==> p in Names(extensions)
  {
    var reg := Register(files);
    RegisteredNames(files);
    extensions := LoadOrder(reg, order);
  }

  /** A plugin with a hard dependency that is neither MrCore_BukkitImpl nor registered is never loaded. */
  lemma UnknownDependencyNeverLoaded(reg: Registry, extensions: seq<Description>, p: string, d: string)
    requires forall k :: 0 <= k < |extensions| ==> extensions[k].name in reg.plugins
    requires DepsEarlier(reg, extensions)
    requires d in DepsOf(reg.deps, p) && d != Core && d !in reg.plugins
    ensures p !in Names(extensions)
  {
    if p in Names(extensions) {
      assert false;
    }
  }
}
