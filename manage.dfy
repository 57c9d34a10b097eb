/**
 * The mod manager: back up the game's plugin directory and the BepInEx
 * loader files, delete the loader from the game, and move freshly unpacked
 * mods from the staging directory into the plugin directory.
 *
 * The game's install root is a map from names to entries; the plugin
 * directory is not a separate field but the entry `BepInEx/plugins` inside
 * it, so copying or deleting `BepInEx` carries the plugins along, as on disk.
 */
module Manage {
  import opened Files
  import Unpack
  import Fetch

  /** The four names of the loader, in the order they are handled. */
  const Support: seq<string> := ["BepInEx", "doorstop_libs", "doorstop_config.ini", "winhttp.dll"]

  /** How a command ended: normally, through `sys.exit(code)`, or by an
      uncaught exception from the filesystem. */
  datatype Flow = Done | Exit(code: int) | Crash

  /** The process exit status: `main` returns 0, `sys.exit(1)` exits 1 and
      an uncaught exception exits 1. */
  function ExitStatus(flow: Flow): (status: int)
    ensures flow.Done? ==> status == 0
    ensures flow.Crash? ==> status == 1
    ensures flow.Exit? ==> status == flow.code
  {
    match flow
    case Done => 0
    case Exit(code) => code
    case Crash => 1
  }

  function Lookup(dir: map<string, Entry>, name: string): Option<Entry>
  {
    if name in dir then Some(dir[name]) else None
  }

  predicate Distinct(names: seq<string>)
  {
    forall i, j :: 0 <= i < j < |names| ==> names[i] != names[j]
  }

  lemma SortedNamesDistinct(s: set<string>)
    ensures Distinct(SortedNames(s))
  {
    var r := SortedNames(s);
    forall i, j | 0 <= i < j < |r| ensures r[i] != r[j] {
      SortedDistinct(r, i, j);
    }
  }

  /** Where a directory is absent it is created empty first. */
  function OrEmpty(dir: Option<map<string, Entry>>): map<string, Entry>
  {
    match dir
    case Some(d) => d
    case None => map[]
  }

  // ---------------------------------------------------------------------
  // Copying one entry: rmtree + copytree for a directory, copy2 for a file
  // ---------------------------------------------------------------------

  /** The copy raises: a directory over an existing file (`rmtree` refuses a
      file), or a file over a directory that already holds a directory of
      the same name (`copy2` into a directory targets `dest/name`). */
  predicate Conflict(cur: Option<Entry>, name: string, e: Entry)
  {
    match e
    case Dir(_) => cur.Some? && cur.value.File?
    case File(_) => cur.Some? && cur.value.Dir? && name in cur.value.children && cur.value.children[name].Dir?
  }

  /** What the destination name holds after the copy: the source entry,
      replacing whatever was there, except that a file copied onto an
      existing directory lands inside it under its own name. */
  function Landed(cur: Option<Entry>, name: string, e: Entry): (r: Entry)
    ensures !(e.File? && cur.Some? && cur.value.Dir?) ==> r == e
    ensures e.File? && cur.Some? && cur.value.Dir? ==>
              r.Dir? && r.children.Keys == cur.value.children.Keys + {name} && r.children[name] == e &&
              forall k :: k in r.children && k != name ==> r.children[k] == cur.value.children[k]
  {
    if e.File? && cur.Some? && cur.value.Dir? then Dir(cur.value.children[name := e]) else e
  }

  /** A copy loop's state: the destination listing and whether no copy has
      raised yet. */
  datatype Copied = Copied(dir: map<string, Entry>, ok: bool)

  /** One iteration: a name missing from the source is skipped; otherwise
      its entry is copied, or the copy raises and the loop ends there. */
  function CopyStep(c: Copied, src: map<string, Entry>, name: string): Copied
  {
    if !c.ok || name !in src then c
    else
      var cur := Lookup(c.dir, name);
      if Conflict(cur, name, src[name]) then c.(ok := false)
      else Copied(c.dir[name := Landed(cur, name, src[name])], true)
  }

  function CopyEach(dir: map<string, Entry>, src: map<string, Entry>, names: seq<string>): Copied
    decreases |names|
  {
    if names == [] then Copied(dir, true)
    else CopyStep(CopyEach(dir, src, names[..|names| - 1]), src, names[|names| - 1])
  }

  /** Copying a list of distinct names: the loop completes exactly when no
      name conflicts with what the destination held at the start; then each
      copied name holds its landed entry; names not copied are untouched,
      whether or not the loop completed. */
  lemma {:induction false} CopyEachSpec(dir: map<string, Entry>, src: map<string, Entry>, names: seq<string>)
    requires Distinct(names)
    ensures var r := CopyEach(dir, src, names);
            && (r.ok <==> forall i :: 0 <= i < |names| && names[i] in src ==>
                            !Conflict(Lookup(dir, names[i]), names[i], src[names[i]]))
            && (r.ok ==> forall i :: 0 <= i < |names| && names[i] in src ==>
                            Lookup(r.dir, names[i]) == Some(Landed(Lookup(dir, names[i]), names[i], src[names[i]])))
            && (forall x :: x !in src || x !in names ==> Lookup(r.dir, x) == Lookup(dir, x))
    decreases |names|
  {
    if names != [] {
      var p := names[..|names| - 1];
      var n := names[|names| - 1];
      assert Distinct(p);
      CopyEachSpec(dir, src, p);
      var rp := CopyEach(dir, src, p);
      assert n !in p;
      assert Lookup(rp.dir, n) == Lookup(dir, n);
      var r := CopyEach(dir, src, names);
      assert forall i :: 0 <= i < |p| ==> names[i] == p[i];
      forall x | x !in src || x !in names
        ensures Lookup(r.dir, x) == Lookup(dir, x)
      {
        assert x !in p || x !in src;
      }
      if r.ok {
        forall i | 0 <= i < |names| && names[i] in src
          ensures Lookup(r.dir, names[i]) == Some(Landed(Lookup(dir, names[i]), names[i], src[names[i]]))
        {
          if i < |p| {
            assert names[i] != n;
          }
        }
      }
    }
  }

  /** Once a copy has raised, the later names change nothing. */
  lemma {:induction false} CopyCrashSticks(dir: map<string, Entry>, src: map<string, Entry>, names: seq<string>, i: nat)
    requires i <= |names|
    requires !CopyEach(dir, src, names[..i]).ok
    ensures CopyEach(dir, src, names) == CopyEach(dir, src, names[..i])
    decreases |names| - i
  {
    if i < |names| {
      assert names[..i + 1][..i] == names[..i];
      CopyCrashSticks(dir, src, names, i + 1);
    } else {
      assert names[..i] == names;
    }
  }

  // ---------------------------------------------------------------------
  // print_mods
  // ---------------------------------------------------------------------

  /** The glob pattern "*.dll" (case-sensitive, as on POSIX). */
  predicate IsDll(name: string)
  {
    |name| >= 4 && name[|name| - 4..] == ".dll"
  }

  /** The names of a listing that match "*.dll", in listing order (see
      `DllsAppend`). */
  function Dlls(names: seq<string>): (r: seq<string>)
    ensures forall x :: x in r <==> x in names && IsDll(x)
    decreases |names|
  {
    if names == [] then []
    else
      var rest := Dlls(names[..|names| - 1]);
      var last := names[|names| - 1];
      assert forall x :: x in names <==> x in names[..|names| - 1] || x == last;
      if IsDll(last) then rest + [last] else rest
  }

  /** Matching distributes over concatenation: the matches of a listing
      keep its order. */
  lemma {:induction false} DllsAppend(a: seq<string>, b: seq<string>)
    ensures Dlls(a + b) == Dlls(a) + Dlls(b)
    decreases |b|
  {
    if b != [] {
      var b' := b[..|b| - 1];
      assert (a + b)[..|a + b| - 1] == a + b';
      assert (a + b)[|a + b| - 1] == b[|b| - 1];
      DllsAppend(a, b');
    } else {
      assert a + b == a;
    }
  }

  /** `glob("*.dll")`: the matching top-level names of a directory. */
  function TopDlls(c: map<string, Entry>): seq<string>
  {
    Dlls(SortedNames(c.Keys))
  }

  /** `rglob("*.dll")`: the matching names at every depth, those of a
      directory before those of its subdirectories, subdirectories in
      sorted order. */
  function DeepDlls(c: map<string, Entry>): seq<string>
    decreases Dir(c), 1
  {
    TopDlls(c) + SubDlls(c, SortedNames(c.Keys))
  }

  function SubDlls(c: map<string, Entry>, ks: seq<string>): seq<string>
    decreases Dir(c), 0, |ks|
  {
    if ks == [] then []
    else
      var k := ks[0];
      var here := if k in c && c[k].Dir? then (assert c[k] in c.Values; DeepDlls(c[k].children)) else [];
      here + SubDlls(c, ks[1..])
  }

  /** One printed line per match: "> " and the file's stem. */
  function Lines(names: seq<string>): (lines: seq<string>)
    ensures |lines| == |names|
    ensures forall i :: 0 <= i < |names| ==> lines[i] == "> " + Stem(names[i])
    decreases |names|
  {
    if names == [] then [] else Lines(names[..|names| - 1]) + ["> " + Stem(names[|names| - 1])]
  }

  /** What `print_mods` prints for the plugin backup: nothing when it does
      not exist; otherwise the top-level matches, then every match at every
      depth. */
  function Listing(backup: Option<map<string, Entry>>): seq<string>
  {
    match backup
    case None => []
    case Some(c) => Lines(TopDlls(c)) + Lines(DeepDlls(c))
  }

  /** Every top-level DLL is printed twice: once by the top-level glob and
      again by the recursive one. */
  lemma TopDllListedTwice(c: map<string, Entry>, name: string)
    requires name in c && IsDll(name)
    ensures var out := Listing(Some(c));
            exists i, j :: 0 <= i < j < |out| && out[i] == "> " + Stem(name) && out[j] == "> " + Stem(name)
  {
    var top := TopDlls(c);
    assert name in top;
    var k :| 0 <= k < |top| && top[k] == name;
    var deep := DeepDlls(c);
    DeepStartsWithTop(c);
    LinesOfPair(top, deep, k);
    var out := Listing(Some(c));
    assert out[k] == "> " + Stem(name);
    assert out[|top| + k] == "> " + Stem(name);
  }

  /** The recursive glob starts with the top-level matches. */
  lemma DeepStartsWithTop(c: map<string, Entry>)
    ensures |TopDlls(c)| <= |DeepDlls(c)|
    ensures forall k :: 0 <= k < |TopDlls(c)| ==> DeepDlls(c)[k] == TopDlls(c)[k]
  {
    assert DeepDlls(c) == TopDlls(c) + SubDlls(c, SortedNames(c.Keys));
  }

  /** Where the lines of two listings printed one after the other sit. */
  lemma LinesOfPair(a: seq<string>, b: seq<string>, j: nat)
    requires j < |b|
    ensures var out := Lines(a) + Lines(b);
            && |out| == |a| + |b|
            && (forall i :: 0 <= i < |a| ==> out[i] == "> " + Stem(a[i]))
            && out[|a| + j] == "> " + Stem(b[j])
  {
  }

  /** `path` leads from the listing `c` through subdirectories to a name
      matching "*.dll". */
  predicate DllAt(c: map<string, Entry>, path: seq<string>)
    decreases |path|
  {
    |path| >= 1 && path[0] in c &&
    if |path| == 1 then IsDll(path[0])
    else c[path[0]].Dir? && DllAt(c[path[0]].children, path[1..])
  }

  /** Every DLL of the backup, at any depth, is printed. */
  lemma DllListed(c: map<string, Entry>, path: seq<string>)
    requires DllAt(c, path)
    ensures "> " + Stem(path[|path| - 1]) in Listing(Some(c))
  {
    var name := path[|path| - 1];
    DeepHas(c, path);
    var deep := DeepDlls(c);
    var j :| 0 <= j < |deep| && deep[j] == name;
    var top := TopDlls(c);
    LinesOfPair(top, deep, j);
    assert Listing(Some(c))[|top| + j] == "> " + Stem(name);
  }

  /** The recursive glob finds the DLL at the end of any path. */
  lemma {:induction false} DeepHas(c: map<string, Entry>, path: seq<string>)
    requires DllAt(c, path)
    ensures path[|path| - 1] in DeepDlls(c)
    decreases |path|
  {
    var ks := SortedNames(c.Keys);
    if |path| == 1 {
      assert path[0] in ks;
      assert path[0] in TopDlls(c);
      TopInDeep(c, path[0]);
    } else {
      var sub := path[0];
      DeepHas(c[sub].children, path[1..]);
      assert path[1..][|path| - 2] == path[|path| - 1];
      var i :| 0 <= i < |ks| && ks[i] == sub;
      SubDllsHas(c, ks, i, path[|path| - 1]);
      assert DeepDlls(c) == TopDlls(c) + SubDlls(c, ks);
    }
  }

  lemma {:induction false} SubDllsHas(c: map<string, Entry>, ks: seq<string>, i: nat, x: string)
    requires i < |ks| && ks[i] in c && c[ks[i]].Dir?
    requires x in DeepDlls(c[ks[i]].children)
    ensures x in SubDlls(c, ks)
    decreases i
  {
    SubDllsUnfold(c, ks);
    if i > 0 {
      assert ks[1..][i - 1] == ks[i];
      SubDllsHas(c, ks[1..], i - 1, x);
    }
  }

  lemma SubDllsUnfold(c: map<string, Entry>, ks: seq<string>)
    requires ks != []
    ensures var k := ks[0];
            SubDlls(c, ks) == (if k in c && c[k].Dir? then DeepDlls(c[k].children) else []) + SubDlls(c, ks[1..])
  {
  }

  /** A match among the subdirectories is in the first one or among the rest. */
  lemma SubDllsSplit(c: map<string, Entry>, ks: seq<string>, x: string)
    requires x in SubDlls(c, ks)
    ensures ks != []
    ensures || (ks[0] in c && c[ks[0]].Dir? && x in DeepDlls(c[ks[0]].children))
            || x in SubDlls(c, ks[1..])
  {
    SubDllsUnfold(c, ks);
  }

  lemma TopInDeep(c: map<string, Entry>, x: string)
    requires x in TopDlls(c)
    ensures x in DeepDlls(c)
  {
    assert DeepDlls(c) == TopDlls(c) + SubDlls(c, SortedNames(c.Keys));
  }

  /** Every name the recursive glob yields is a DLL found along some path;
      the path is returned. */
  lemma {:induction false} DeepFound(c: map<string, Entry>, x: string) returns (path: seq<string>)
    requires x in DeepDlls(c)
    ensures DllAt(c, path) && EndsAt(path, x)
    decreases Dir(c), 1
  {
    var ks := SortedNames(c.Keys);
    assert DeepDlls(c) == TopDlls(c) + SubDlls(c, ks);
    if x in TopDlls(c) {
      TopFound(c, x);
      path := [x];
    } else {
      path := SubFound(c, ks, x);
    }
  }

  lemma {:induction false} SubFound(c: map<string, Entry>, ks: seq<string>, x: string) returns (path: seq<string>)
    requires x in SubDlls(c, ks)
    ensures DllAt(c, path) && EndsAt(path, x)
    decreases Dir(c), 0, |ks|
  {
    SubDllsSplit(c, ks, x);
    var k := ks[0];
    if k in c && c[k].Dir? && x in DeepDlls(c[k].children) {
      path := FoundBelow(c, k, x);
    } else {
      path := SubFound(c, ks[1..], x);
    }
  }

  /** A match inside subdirectory `k`, reached through `k`. */
  lemma {:induction false} FoundBelow(c: map<string, Entry>, k: string, x: string) returns (path: seq<string>)
    requires k in c && c[k].Dir? && x in DeepDlls(c[k].children)
    ensures DllAt(c, path) && EndsAt(path, x)
    decreases Dir(c), 0, 0
  {
    assert c[k] in c.Values;
    var p := DeepFound(c[k].children, x);
    path := ExtendPath(c, k, p);
  }

  /** `path` leads to an entry named `x`. */
  predicate EndsAt(path: seq<string>, x: string)
  {
    path != [] && path[|path| - 1] == x
  }

  /** A path inside a subdirectory, prefixed with that subdirectory's name. */
  lemma ExtendPath(c: map<string, Entry>, k: string, p: seq<string>) returns (q: seq<string>)
    requires k in c && c[k].Dir? && DllAt(c[k].children, p)
    ensures q == [k] + p
    ensures DllAt(c, q) && EndsAt(q, p[|p| - 1])
  {
    q := [k] + p;
    assert q[1..] == p;
  }

  /** A top-level match is the DLL at the one-step path. */
  lemma TopFound(c: map<string, Entry>, x: string)
    requires x in TopDlls(c)
    ensures DllAt(c, [x])
  {
  }

  /** Every line `print_mods` prints is "> " and the stem of a DLL found in
      the backup at some depth. */
  lemma ListingSound(c: map<string, Entry>, i: nat)
    requires i < |Listing(Some(c))|
    ensures exists path :: DllAt(c, path) && Listing(Some(c))[i] == "> " + Stem(path[|path| - 1])
  {
    var top := TopDlls(c);
    var deep := DeepDlls(c);
    var x := (top + deep)[i];
    LinesAt(top, deep, i);
    InDeep(top, deep, c, i);
    var path := DeepFound(c, x);
  }

  lemma InDeep(top: seq<string>, deep: seq<string>, c: map<string, Entry>, i: nat)
    requires top == TopDlls(c) && deep == DeepDlls(c) && i < |top| + |deep|
    ensures (top + deep)[i] in DeepDlls(c)
  {
    if i < |top| {
      assert (top + deep)[i] == top[i];
      TopInDeep(c, top[i]);
    } else {
      assert (top + deep)[i] == deep[i - |top|];
    }
  }

  /** The line at position `i` of two listings printed one after the other. */
  lemma LinesAt(a: seq<string>, b: seq<string>, i: nat)
    requires i < |a| + |b|
    ensures |Lines(a) + Lines(b)| == |a| + |b|
    ensures (Lines(a) + Lines(b))[i] == "> " + Stem((a + b)[i])
  {
    if i < |a| {
      assert (a + b)[i] == a[i];
    } else {
      assert (a + b)[i] == b[i - |a|];
      assert (Lines(a) + Lines(b))[i] == Lines(b)[i - |a|];
    }
  }

  // ---------------------------------------------------------------------
  // The plugin directory inside the install root
  // ---------------------------------------------------------------------

  /** `BepInEx/plugins` when it exists (as a file or a directory). */
  function PluginsOf(install: map<string, Entry>): Option<Entry>
  {
    if "BepInEx" in install && install["BepInEx"].Dir? && "plugins" in install["BepInEx"].children
    then Some(install["BepInEx"].children["plugins"])
    else None
  }

  /** The plugin directory's listing; empty when it is not a directory. */
  function PluginMap(install: map<string, Entry>): map<string, Entry>
  {
    match PluginsOf(install)
    case Some(Dir(p)) => p
    case _ => map[]
  }

  /** The entries of `BepInEx` other than `plugins` (the loader's own files
      and folders); none when `BepInEx` is not a directory. */
  function Siblings(install: map<string, Entry>): map<string, Entry>
  {
    if "BepInEx" in install && install["BepInEx"].Dir? then install["BepInEx"].children - {"plugins"} else map[]
  }

  /** The install root with `BepInEx/plugins` set to a directory listing `p`,
      everything else kept: the names outside `BepInEx` and the other
      children of a `BepInEx` directory. */
  function WithPlugins(install: map<string, Entry>, p: map<string, Entry>): (r: map<string, Entry>)
    ensures PluginsOf(r) == Some(Dir(p)) && PluginMap(r) == p
    ensures forall k :: k in install ==> k in r
    ensures forall k :: k in r && k != "BepInEx" ==> k in install && r[k] == install[k]
  {
    var b := if "BepInEx" in install && install["BepInEx"].Dir? then install["BepInEx"].children else map[];
    install["BepInEx" := Dir(b["plugins" := Dir(p)])]
  }

  /** Setting the plugin directory keeps every other child of a `BepInEx`
      directory, as `mkdir(parents=True, exist_ok=True)` does. */
  lemma WithPluginsKeepsLoader(install: map<string, Entry>, p: map<string, Entry>)
    ensures var r := WithPlugins(install, p);
            && Siblings(r) == Siblings(install)
            && ("BepInEx" in install && install["BepInEx"].Dir? ==>
                  r["BepInEx"].children.Keys == install["BepInEx"].children.Keys + {"plugins"})
  {
    var b := if "BepInEx" in install && install["BepInEx"].Dir? then install["BepInEx"].children else map[];
    assert b["plugins" := Dir(p)] - {"plugins"} == b - {"plugins"};
  }

  /** `ensure_dir(MODDIR)`: creates `BepInEx` and `plugins` where missing;
      raises when either exists as a file. */
  function EnsurePlugins(install: map<string, Entry>): (r: Option<map<string, Entry>>)
    ensures r.None? <==> ("BepInEx" in install && install["BepInEx"].File?) ||
                         (PluginsOf(install).Some? && PluginsOf(install).value.File?)
    ensures r.Some? ==> r.value == WithPlugins(install, PluginMap(install))
    ensures r.Some? ==> Siblings(r.value) == Siblings(install)
  {
    WithPluginsKeepsLoader(install, PluginMap(install));
    if "BepInEx" in install && install["BepInEx"].File? then None
    else match PluginsOf(install)
      case Some(File(_)) => None
      case Some(Dir(p)) =>
        assert install["BepInEx"].children["plugins" := Dir(p)] == install["BepInEx"].children;
        Some(install)
      case None => Some(WithPlugins(install, map[]))
  }

  lemma WithPluginsTwice(install: map<string, Entry>, p: map<string, Entry>, q: map<string, Entry>)
    ensures WithPlugins(WithPlugins(install, p), q) == WithPlugins(install, q)
    ensures EnsurePlugins(WithPlugins(install, p)) == Some(WithPlugins(install, p))
  {
    var b := if "BepInEx" in install && install["BepInEx"].Dir? then install["BepInEx"].children else map[];
    assert b["plugins" := Dir(p)]["plugins" := Dir(q)] == b["plugins" := Dir(q)];
  }

  // ---------------------------------------------------------------------
  // move_extracted_raw_mods
  // ---------------------------------------------------------------------

  /** The move loop's state: install root, staging listing, and whether no
      step has raised yet. */
  datatype Moving = Moving(install: map<string, Entry>, staging: map<string, Entry>, ok: bool)

  /** `child` leaves the staging directory `item`. */
  function Drop(staging: map<string, Entry>, item: string, child: string): map<string, Entry>
  {
    if item in staging && staging[item].Dir?
    then staging[item := Dir(staging[item].children - {child})]
    else staging
  }

  /** One child: ensure the plugin directory, remove what is at its name,
      and move the child there. */
  function MoveChild(s: Moving, item: string, child: string, e: Entry): Moving
  {
    if !s.ok then s
    else match EnsurePlugins(s.install)
      case None => s.(ok := false)
      case Some(ins) => Moving(WithPlugins(ins, PluginMap(ins)[child := e]), Drop(s.staging, item, child), true)
  }

  /** The inner loop over the children of one staging directory. */
  function MoveKids(s: Moving, item: string, kids: seq<string>, src: map<string, Entry>): Moving
    decreases |kids|
  {
    if kids == [] then s
    else
      var s' := MoveKids(s, item, kids[..|kids| - 1], src);
      var k := kids[|kids| - 1];
      if k in src then MoveChild(s', item, k, src[k]) else s'
  }

  /** The children of a staging entry, when it is a directory. */
  function KidsOf(d0: map<string, Entry>, item: string): map<string, Entry>
  {
    if item in d0 && d0[item].Dir? then d0[item].children else map[]
  }

  /** The outer loop over the sorted staging listing: loose files are
      skipped, each directory has its children moved. */
  function MoveItems(s: Moving, items: seq<string>, d0: map<string, Entry>): Moving
    decreases |items|
  {
    if items == [] then s
    else
      var s' := MoveItems(s, items[..|items| - 1], d0);
      var item := items[|items| - 1];
      if item in d0 && d0[item].Dir?
      then MoveKids(s', item, SortedNames(d0[item].children.Keys), d0[item].children)
      else s'
  }

  /** Every child of the listed staging directories, a later directory's
      child replacing an earlier one of the same name. */
  function Gathered(d0: map<string, Entry>, items: seq<string>): map<string, Entry>
    decreases |items|
  {
    if items == [] then map[] else Gathered(d0, items[..|items| - 1]) + KidsOf(d0, items[|items| - 1])
  }

  /** The staging listing with the listed directories emptied. */
  function Emptied(d0: map<string, Entry>, items: seq<string>): map<string, Entry>
    decreases |items|
  {
    if items == [] then d0
    else
      var e := Emptied(d0, items[..|items| - 1]);
      var item := items[|items| - 1];
      if item in d0 && d0[item].Dir? then e[item := Dir(map[])] else e
  }

  /** The state the loop reaches once the children in `g` have been seen:
      nothing moved yet while `g` is empty; after that, a raise at the very
      first child when the plugin directory cannot be ensured, and otherwise
      the plugin directory overlaid with `g`. */
  function Closed(i0: map<string, Entry>, st0: map<string, Entry>, g: map<string, Entry>, st: map<string, Entry>): Moving
  {
    if g == map[] then Moving(i0, st, true)
    else if EnsurePlugins(i0).None? then Moving(i0, st0, false)
    else Moving(WithPlugins(i0, PluginMap(i0) + g), st, true)
  }

  function Restrict(src: map<string, Entry>, kids: seq<string>): map<string, Entry>
  {
    map k | k in src && k in kids :: src[k]
  }

  /** One child moved from the closed form gives the closed form with that
      child added. */
  lemma MoveChildClosed(i0: map<string, Entry>, st0: map<string, Entry>, g: map<string, Entry>,
                        st: map<string, Entry>, item: string, k: string, e: Entry)
    requires g == map[] ==> st == st0
    ensures MoveChild(Closed(i0, st0, g, st), item, k, e) == Closed(i0, st0, g[k := e], Drop(st, item, k))
  {
    assert g[k := e] != map[] by { assert k in g[k := e]; }
    if EnsurePlugins(i0).Some? {
      if g == map[] {
        FirstChildClosed(i0, st, item, k, e);
      } else {
        LaterChildClosed(i0, st0, g, st, item, k, e);
      }
    }
  }

  /** `MoveChildClosed` for the first child moved: it creates the plugin
      directory if needed and puts the child there. */
  lemma FirstChildClosed(i0: map<string, Entry>, st: map<string, Entry>, item: string, k: string, e: Entry)
    requires EnsurePlugins(i0).Some?
    ensures MoveChild(Moving(i0, st, true), item, k, e) ==
            Moving(WithPlugins(i0, PluginMap(i0) + map[k := e]), Drop(st, item, k), true)
  {
    var pm := PluginMap(i0);
    WithPluginsTwice(i0, pm, pm[k := e]);
    assert pm + map[k := e] == pm[k := e];
  }

  /** `MoveChildClosed` once some child has been moved: the plugin directory
      exists, and the child overlays it. */
  lemma LaterChildClosed(i0: map<string, Entry>, st0: map<string, Entry>, g: map<string, Entry>,
                         st: map<string, Entry>, item: string, k: string, e: Entry)
    requires EnsurePlugins(i0).Some? && g != map[]
    ensures MoveChild(Moving(WithPlugins(i0, PluginMap(i0) + g), st, true), item, k, e) ==
            Moving(WithPlugins(i0, PluginMap(i0) + g[k := e]), Drop(st, item, k), true)
  {
    var pm := PluginMap(i0);
    WithPluginsTwice(i0, pm + g, (pm + g)[k := e]);
    assert (pm + g)[k := e] == pm + g[k := e];
  }

  lemma RestrictSnoc(src: map<string, Entry>, kids: seq<string>)
    requires kids != [] && kids[|kids| - 1] in src
    ensures var k := kids[|kids| - 1];
            Restrict(src, kids) == Restrict(src, kids[..|kids| - 1])[k := src[k]]
  {
    var k := kids[|kids| - 1];
    assert forall x :: x in kids <==> x in kids[..|kids| - 1] || x == k;
  }

  /** The names of a list, as a set. */
  function NameSet(kids: seq<string>): set<string>
  {
    set x | x in kids
  }

  lemma RemoveSnoc(src: map<string, Entry>, kids: seq<string>)
    requires kids != []
    ensures src - NameSet(kids) == (src - NameSet(kids[..|kids| - 1])) - {kids[|kids| - 1]}
  {
    assert forall x :: x in kids <==> x in kids[..|kids| - 1] || x == kids[|kids| - 1];
    assert NameSet(kids) == NameSet(kids[..|kids| - 1]) + {kids[|kids| - 1]};
  }

  lemma {:induction false} MoveKidsClosed(i0: map<string, Entry>, st0: map<string, Entry>, g: map<string, Entry>,
                                          st: map<string, Entry>, item: string, kids: seq<string>, src: map<string, Entry>)
    requires item in st && st[item] == Dir(src)
    requires g == map[] ==> st == st0
    requires forall k :: k in kids ==> k in src
    ensures MoveKids(Closed(i0, st0, g, st), item, kids, src) ==
            Closed(i0, st0, g + Restrict(src, kids), st[item := Dir(src - NameSet(kids))])
    decreases |kids|
  {
    if kids == [] {
      assert Restrict(src, kids) == map[];
      assert g + map[] == g;
      assert src - NameSet(kids) == src;
      assert st[item := Dir(src)] == st;
    } else {
      var p := kids[..|kids| - 1];
      MoveKidsClosed(i0, st0, g, st, item, p, src);
      MoveKidsStep(i0, st0, g, st, item, kids, src);
    }
  }

  lemma MoveKidsStep(i0: map<string, Entry>, st0: map<string, Entry>, g: map<string, Entry>,
                     st: map<string, Entry>, item: string, kids: seq<string>, src: map<string, Entry>)
    requires item in st && st[item] == Dir(src)
    requires g == map[] ==> st == st0
    requires kids != [] && forall k :: k in kids ==> k in src
    requires var p := kids[..|kids| - 1];
             MoveKids(Closed(i0, st0, g, st), item, p, src) ==
             Closed(i0, st0, g + Restrict(src, p), st[item := Dir(src - NameSet(p))])
    ensures MoveKids(Closed(i0, st0, g, st), item, kids, src) ==
            Closed(i0, st0, g + Restrict(src, kids), st[item := Dir(src - NameSet(kids))])
  {
    var p := kids[..|kids| - 1];
    var k := kids[|kids| - 1];
    var gp := g + Restrict(src, p);
    var stp := st[item := Dir(src - NameSet(p))];
    FreshUntilFirst(g, st, st0, item, src, p);
    MoveKidsUnfold(Closed(i0, st0, g, st), item, kids, src);
    MoveChildClosed(i0, st0, gp, stp, item, k, src[k]);
    SnocState(g, st, item, kids, src);
  }

  lemma MoveKidsUnfold(c: Moving, item: string, kids: seq<string>, src: map<string, Entry>)
    requires kids != [] && kids[|kids| - 1] in src
    ensures MoveKids(c, item, kids, src) ==
            MoveChild(MoveKids(c, item, kids[..|kids| - 1], src), item, kids[|kids| - 1], src[kids[|kids| - 1]])
  {
  }

  lemma FreshUntilFirst(g: map<string, Entry>, st: map<string, Entry>, st0: map<string, Entry>,
                        item: string, src: map<string, Entry>, p: seq<string>)
    requires item in st && st[item] == Dir(src)
    requires g == map[] ==> st == st0
    requires forall k :: k in p ==> k in src
    ensures g + Restrict(src, p) == map[] ==> st[item := Dir(src - NameSet(p))] == st0
  {
    if g + Restrict(src, p) == map[] {
      GatheredNothing(g, src, p);
    }
  }

  lemma SnocState(g: map<string, Entry>, st: map<string, Entry>, item: string, kids: seq<string>, src: map<string, Entry>)
    requires kids != [] && kids[|kids| - 1] in src
    ensures var p := kids[..|kids| - 1];
            var k := kids[|kids| - 1];
            && (g + Restrict(src, p))[k := src[k]] == g + Restrict(src, kids)
            && Drop(st[item := Dir(src - NameSet(p))], item, k) == st[item := Dir(src - NameSet(kids))]
  {
    RestrictSnoc(src, kids);
    RemoveSnoc(src, kids);
  }

  lemma GatheredNothing(g: map<string, Entry>, src: map<string, Entry>, p: seq<string>)
    requires forall k :: k in p ==> k in src
    requires g + Restrict(src, p) == map[]
    ensures g == map[] && src - NameSet(p) == src
  {
    assert Restrict(src, p) == map[];
    assert forall x :: x in p ==> x in Restrict(src, p);
    assert NameSet(p) == {};
  }

  /** The emptied listing keeps every name, and names not listed keep their
      entries. */
  lemma {:induction false} EmptiedOutside(d0: map<string, Entry>, items: seq<string>)
    ensures Emptied(d0, items).Keys == d0.Keys
    ensures forall x :: x !in items ==> Lookup(Emptied(d0, items), x) == Lookup(d0, x)
    decreases |items|
  {
    if items != [] {
      EmptiedOutside(d0, items[..|items| - 1]);
    }
  }

  /** While no child has been seen, emptying changed nothing. */
  lemma {:induction false} EmptiedNothing(d0: map<string, Entry>, items: seq<string>)
    requires Gathered(d0, items) == map[]
    ensures Emptied(d0, items) == d0
    decreases |items|
  {
    if items != [] {
      var p := items[..|items| - 1];
      var item := items[|items| - 1];
      assert Gathered(d0, p) == map[] && KidsOf(d0, item) == map[] by {
        assert Gathered(d0, items) == Gathered(d0, p) + KidsOf(d0, item);
        assert forall x :: x in Gathered(d0, p) ==> x in Gathered(d0, items);
        assert forall x :: x in KidsOf(d0, item) ==> x in Gathered(d0, items);
      }
      EmptiedNothing(d0, p);
    }
  }

  lemma SortedRestrict(src: map<string, Entry>)
    ensures Restrict(src, SortedNames(src.Keys)) == src
    ensures src - NameSet(SortedNames(src.Keys)) == map[]
  {
    assert NameSet(SortedNames(src.Keys)) == src.Keys;
  }

  /** The whole move loop in closed form: see `Closed`. */
  lemma {:induction false} MoveItemsClosed(i0: map<string, Entry>, d0: map<string, Entry>, items: seq<string>)
    requires Distinct(items)
    ensures MoveItems(Moving(i0, d0, true), items, d0) == Closed(i0, d0, Gathered(d0, items), Emptied(d0, items))
    decreases |items|
  {
    if items != [] {
      var p := items[..|items| - 1];
      assert Distinct(p);
      MoveItemsClosed(i0, d0, p);
      MoveItemsStep(i0, d0, items);
    }
  }

  lemma MoveItemsStep(i0: map<string, Entry>, d0: map<string, Entry>, items: seq<string>)
    requires items != [] && Distinct(items)
    requires var p := items[..|items| - 1];
             MoveItems(Moving(i0, d0, true), p, d0) == Closed(i0, d0, Gathered(d0, p), Emptied(d0, p))
    ensures MoveItems(Moving(i0, d0, true), items, d0) == Closed(i0, d0, Gathered(d0, items), Emptied(d0, items))
  {
    var p := items[..|items| - 1];
    var item := items[|items| - 1];
    var gp := Gathered(d0, p);
    var ep := Emptied(d0, p);
    MoveItemsUnfold(Moving(i0, d0, true), items, d0);
    if item in d0 && d0[item].Dir? {
      var src := d0[item].children;
      var kids := SortedNames(src.Keys);
      var g, e := MoveItemDir(i0, d0, items);
      calc {
        MoveItems(Moving(i0, d0, true), items, d0);
        MoveKids(Closed(i0, d0, gp, ep), item, kids, src);
        Closed(i0, d0, g, e);
      }
    } else {
      MoveItemSkip(d0, items);
    }
  }

  /** A loose file in the staging listing adds no children and empties
      nothing. */
  lemma MoveItemSkip(d0: map<string, Entry>, items: seq<string>)
    requires items != []
    requires var item := items[|items| - 1]; !(item in d0 && d0[item].Dir?)
    ensures var p := items[..|items| - 1];
            Gathered(d0, items) == Gathered(d0, p) && Emptied(d0, items) == Emptied(d0, p)
  {
    var p := items[..|items| - 1];
    assert Gathered(d0, items) == Gathered(d0, p) + map[];
  }

  lemma MoveItemsNext(s: Moving, items: seq<string>, d0: map<string, Entry>, i: nat)
    requires i < |items|
    ensures var item := items[i];
            var s' := MoveItems(s, items[..i], d0);
            MoveItems(s, items[..i + 1], d0) ==
            if item in d0 && d0[item].Dir?
            then MoveKids(s', item, SortedNames(d0[item].children.Keys), d0[item].children)
            else s'
  {
    assert items[..i + 1][..i] == items[..i];
  }

  lemma MoveItemsUnfold(s: Moving, items: seq<string>, d0: map<string, Entry>)
    requires items != []
    ensures var item := items[|items| - 1];
            var s' := MoveItems(s, items[..|items| - 1], d0);
            MoveItems(s, items, d0) ==
            if item in d0 && d0[item].Dir?
            then MoveKids(s', item, SortedNames(d0[item].children.Keys), d0[item].children)
            else s'
  {
  }

  /** The step of `MoveItemsStep` for a staging directory: its children, in
      sorted order, extend the gathered map and empty the directory. */
  lemma MoveItemDir(i0: map<string, Entry>, d0: map<string, Entry>, items: seq<string>)
    returns (g: map<string, Entry>, e: map<string, Entry>)
    requires items != [] && Distinct(items)
    requires var item := items[|items| - 1]; item in d0 && d0[item].Dir?
    ensures g == Gathered(d0, items) && e == Emptied(d0, items)
    ensures var p := items[..|items| - 1];
            var item := items[|items| - 1];
            var src := d0[item].children;
            MoveKids(Closed(i0, d0, Gathered(d0, p), Emptied(d0, p)), item, SortedNames(src.Keys), src) ==
            Closed(i0, d0, g, e)
  {
    var p := items[..|items| - 1];
    var item := items[|items| - 1];
    var gp := Gathered(d0, p);
    var ep := Emptied(d0, p);
    var src := d0[item].children;
    var kids := SortedNames(src.Keys);
    ItemStillStaged(d0, items);
    if gp == map[] { EmptiedNothing(d0, p); }
    MoveKidsClosed(i0, d0, gp, ep, item, kids, src);
    SortedRestrict(src);
    g := gp + src;
    e := ep[item := Dir(map[])];
  }

  lemma ItemStillStaged(d0: map<string, Entry>, items: seq<string>)
    requires items != [] && Distinct(items)
    ensures var item := items[|items| - 1];
            Lookup(Emptied(d0, items[..|items| - 1]), item) == Lookup(d0, item)
  {
    var p := items[..|items| - 1];
    assert items[|items| - 1] !in p;
    EmptiedOutside(d0, p);
  }

  /** A later staging directory's child wins a name collision: the gathered
      entry for `x` is the one from the last listed directory holding `x`. */
  lemma {:induction false} LaterWins(d0: map<string, Entry>, items: seq<string>, j: nat, x: string)
    requires j < |items| && x in KidsOf(d0, items[j])
    requires forall i :: j < i < |items| ==> x !in KidsOf(d0, items[i])
    ensures x in Gathered(d0, items) && Gathered(d0, items)[x] == KidsOf(d0, items[j])[x]
    decreases |items|
  {
    var p := items[..|items| - 1];
    if j < |items| - 1 {
      assert x !in KidsOf(d0, items[|items| - 1]);
      LaterWins(d0, p, j, x);
    }
  }

  /** A name is gathered exactly when some listed staging directory has a
      child of that name. */
  lemma {:induction false} GatheredNames(d0: map<string, Entry>, items: seq<string>, x: string)
    ensures x in Gathered(d0, items) <==> exists i :: 0 <= i < |items| && x in KidsOf(d0, items[i])
    decreases |items|
  {
    if items != [] {
      var p := items[..|items| - 1];
      GatheredNames(d0, p, x);
      if exists i :: 0 <= i < |items| && x in KidsOf(d0, items[i]) {
        var i :| 0 <= i < |items| && x in KidsOf(d0, items[i]);
        if i < |p| { assert KidsOf(d0, p[i]) == KidsOf(d0, items[i]); }
      }
      if exists i :: 0 <= i < |p| && x in KidsOf(d0, p[i]) {
        var i :| 0 <= i < |p| && x in KidsOf(d0, p[i]);
        assert items[i] == p[i];
      }
    }
  }

  /** The inner move loop, one child further. */
  lemma MoveKidsNext(s: Moving, item: string, kids: seq<string>, src: map<string, Entry>, j: nat)
    requires j < |kids| && kids[j] in src
    ensures MoveKids(s, item, kids[..j + 1], src) == MoveChild(MoveKids(s, item, kids[..j], src), item, kids[j], src[kids[j]])
  {
    assert kids[..j + 1][..j] == kids[..j];
  }

  /** A staging directory visited after a raise moves nothing. */
  lemma IdleWhenStuck(s: Moving, item: string, d0: map<string, Entry>)
    requires !s.ok
    ensures item in d0 && d0[item].Dir? ==>
              MoveKids(s, item, SortedNames(d0[item].children.Keys), d0[item].children) == s
  {
    if item in d0 && d0[item].Dir? {
      var src := d0[item].children;
      var kids := SortedNames(src.Keys);
      assert kids[..0] == [];
      MoveKidsStuck(s, item, kids, src, 0);
    }
  }

  lemma {:induction false} MoveKidsStuck(s: Moving, item: string, kids: seq<string>, src: map<string, Entry>, j: nat)
    requires j <= |kids| && !MoveKids(s, item, kids[..j], src).ok
    ensures MoveKids(s, item, kids, src) == MoveKids(s, item, kids[..j], src)
    decreases |kids| - j
  {
    if j < |kids| {
      assert kids[..j + 1][..j] == kids[..j];
      MoveKidsStuck(s, item, kids, src, j + 1);
    } else {
      assert kids[..j] == kids;
    }
  }

  /** Once the move loop has raised, nothing more happens. */
  lemma {:induction false} MoveItemsStuck(s: Moving, items: seq<string>, d0: map<string, Entry>, i: nat)
    requires i <= |items| && !MoveItems(s, items[..i], d0).ok
    ensures MoveItems(s, items, d0) == MoveItems(s, items[..i], d0)
    decreases |items| - i
  {
    if i < |items| {
      MoveItemsNext(s, items, d0, i);
      IdleWhenStuck(MoveItems(s, items[..i], d0), items[i], d0);
      MoveItemsStuck(s, items, d0, i + 1);
    } else {
      assert items[..i] == items;
    }
  }

  // ---------------------------------------------------------------------
  // The commands, as functions of the disk
  // ---------------------------------------------------------------------

  /** Everything the commands read or change: the game's install root, the
      plugin backup (`~/val/plugins`), the loader backup (`~/val/bepin`) and
      the staging directory (`raw_mods`); `None` for a directory that does
      not exist. */
  datatype Disk = Disk(install: map<string, Entry>, pluginCopy: Option<map<string, Entry>>,
                       bepinCopy: Option<map<string, Entry>>, staging: Option<map<string, Entry>>)

  datatype After = After(flow: Flow, disk: Disk)

  /** `copy_plugin_mods` without its printing: exit 1 when the plugin
      directory is missing; in a dry run nothing else; otherwise create the
      backup if missing and copy every plugin entry into it, in sorted order. */
  function PluginBackup(d: Disk, dryRun: bool): (a: After)
    ensures PluginsOf(d.install).None? ==> a == After(Exit(1), d)
    ensures PluginsOf(d.install).Some? ==> a.flow.Done? || a.flow.Crash?
    ensures dryRun ==> a.disk == d
    ensures a.disk.install == d.install && a.disk.bepinCopy == d.bepinCopy && a.disk.staging == d.staging
  {
    match PluginsOf(d.install)
    case None => After(Exit(1), d)
    case Some(plugins) =>
      if dryRun then After(Done, d)
      else
        var c := OrEmpty(d.pluginCopy);
        match plugins
        case File(_) => After(Crash, d.(pluginCopy := Some(c)))
        case Dir(src) =>
          var r := CopyEach(c, src, SortedNames(src.Keys));
          After(if r.ok then Done else Crash, d.(pluginCopy := Some(r.dir)))
  }

  /** A real plugin backup completes exactly when no plugin conflicts with
      the backup; then every plugin name holds the plugin's content (a file
      over an existing directory lands inside it), and backup entries with
      other names are untouched. */
  lemma PluginBackupMerges(d: Disk, src: map<string, Entry>)
    requires PluginsOf(d.install) == Some(Dir(src))
    ensures var a := PluginBackup(d, false);
            var c := OrEmpty(d.pluginCopy);
            && a.disk.pluginCopy.Some?
            && (a.flow.Done? <==> forall n :: n in src ==> !Conflict(Lookup(c, n), n, src[n]))
            && (a.flow.Done? ==> forall n :: n in src ==>
                  Lookup(a.disk.pluginCopy.value, n) == Some(Landed(Lookup(c, n), n, src[n])))
            && (forall x :: x !in src ==> Lookup(a.disk.pluginCopy.value, x) == Lookup(c, x))
  {
    var c := OrEmpty(d.pluginCopy);
    var names := SortedNames(src.Keys);
    SortedNamesDistinct(src.Keys);
    CopyEachSpec(c, src, names);
    var r := CopyEach(c, src, names);
    forall n | n in src ensures exists i :: 0 <= i < |names| && names[i] == n {
      assert n in names;
    }
  }

  /** `copy_bepinex`: in a dry run nothing; otherwise create the backup if
      missing and copy each of the four loader names that exists. */
  function BepinBackup(d: Disk, dryRun: bool): (a: After)
    ensures dryRun ==> a == After(Done, d)
    ensures a.flow.Done? || a.flow.Crash?
    ensures a.disk.install == d.install && a.disk.pluginCopy == d.pluginCopy && a.disk.staging == d.staging
  {
    if dryRun then After(Done, d)
    else
      var r := CopyEach(OrEmpty(d.bepinCopy), d.install, Support);
      After(if r.ok then Done else Crash, d.(bepinCopy := Some(r.dir)))
  }

  lemma SupportDistinct()
    ensures Distinct(Support)
  {
  }

  /** A real loader backup handles exactly the four names: each that exists
      in the install root is copied over its backup (unless a conflict
      raises), and every other backup entry, including those of missing
      sources, is untouched. */
  lemma BepinBackupCopies(d: Disk)
    ensures var a := BepinBackup(d, false);
            var c := OrEmpty(d.bepinCopy);
            && a.disk.bepinCopy.Some?
            && (a.flow.Done? <==> forall f :: f in Support && f in d.install ==> !Conflict(Lookup(c, f), f, d.install[f]))
            && (a.flow.Done? ==> forall f :: f in Support && f in d.install ==>
                  Lookup(a.disk.bepinCopy.value, f) == Some(Landed(Lookup(c, f), f, d.install[f])))
            && (forall x :: x !in Support || x !in d.install ==> Lookup(a.disk.bepinCopy.value, x) == Lookup(c, x))
  {
    SupportDistinct();
    CopyEachSpec(OrEmpty(d.bepinCopy), d.install, Support);
  }

  /** `copy_mods`: the plugin backup, then, only if it completed, the loader
      backup. */
  function CopyAll(d: Disk, dryRun: bool): (a: After)
    ensures PluginsOf(d.install).None? ==> a == After(Exit(1), d)
    ensures dryRun ==> a.disk == d
    ensures a.disk.install == d.install && a.disk.staging == d.staging
  {
    var p := PluginBackup(d, dryRun);
    if p.flow.Done? then BepinBackup(p.disk, dryRun) else p
  }

  /** `remove_mods`: the full backup first; only when it completed, and not
      in a dry run, the four loader names are deleted from the install root. */
  function RemoveAll(d: Disk, dryRun: bool): (a: After)
    ensures dryRun ==> a.disk == d
    ensures !a.flow.Done? ==> a.disk.install == d.install
    ensures var c := CopyAll(d, dryRun);
            a.flow == c.flow && a.disk == c.disk.(install := a.disk.install)
  {
    var c := CopyAll(d, dryRun);
    if !c.flow.Done? || dryRun then c
    else After(Done, c.disk.(install := c.disk.install - NameSet(Support)))
  }

  /** A completed real removal deletes exactly the four loader names (and
      with `BepInEx` the plugin directory inside it), keeps every other
      entry, and only after each deleted name was copied to the backup. */
  lemma RemoveDeletesBackedUp(d: Disk)
    requires RemoveAll(d, false).flow.Done?
    ensures var a := RemoveAll(d, false);
            && (forall k :: k in a.disk.install <==> k in d.install && k !in Support)
            && (forall k :: k in a.disk.install ==> a.disk.install[k] == d.install[k])
            && PluginsOf(a.disk.install).None?
            && a.disk.bepinCopy.Some?
            && (forall f :: f in Support && f in d.install ==>
                  Lookup(a.disk.bepinCopy.value, f) == Some(Landed(Lookup(OrEmpty(d.bepinCopy), f), f, d.install[f])))
  {
    var p := PluginBackup(d, false);
    assert p.flow.Done?;
    BepinBackupCopies(p.disk);
    assert "BepInEx" in Support;
  }

  /** `move_extracted_raw_mods`: nothing without a staging directory or in a
      dry run; otherwise the children of the staging directories, in sorted
      order, are moved into the plugin directory. */
  function MoveAll(d: Disk, dryRun: bool): (a: After)
    ensures d.staging.None? || dryRun ==> a == After(Done, d)
    ensures a.disk.pluginCopy == d.pluginCopy && a.disk.bepinCopy == d.bepinCopy
    ensures a.flow.Done? || a.flow.Crash?
  {
    if d.staging.None? || dryRun then After(Done, d)
    else
      var st := d.staging.value;
      var m := MoveItems(Moving(d.install, st, true), SortedNames(st.Keys), st);
      After(if m.ok then Done else Crash, d.(install := m.install, staging := Some(m.staging)))
  }

  /** The move in full: with nothing to move, nothing changes; when the
      plugin directory cannot be created (`BepInEx` or `plugins` is a file)
      it raises before moving anything; otherwise the plugin directory
      becomes its old listing overlaid with every gathered child, and each
      staging directory is left empty. */
  lemma MoveAllClosed(d: Disk)
    requires d.staging.Some?
    ensures var st := d.staging.value;
            var g := Gathered(st, SortedNames(st.Keys));
            var a := MoveAll(d, false);
            && (g == map[] ==> a == After(Done, d))
            && (g != map[] && EnsurePlugins(d.install).None? ==> a == After(Crash, d))
            && (g != map[] && EnsurePlugins(d.install).Some? ==>
                  a == After(Done, d.(install := WithPlugins(d.install, PluginMap(d.install) + g),
                                      staging := Some(Emptied(st, SortedNames(st.Keys))))))
  {
    var st := d.staging.value;
    var items := SortedNames(st.Keys);
    SortedNamesDistinct(st.Keys);
    MoveItemsClosed(d.install, st, items);
    if Gathered(st, items) == map[] {
      EmptiedNothing(st, items);
    }
  }

  /** What a completed real move guarantees entry by entry: each staged
      child is at its name in the plugin directory, plugin entries named by
      no child are unchanged, everything in the install root outside
      `BepInEx` and every other child of `BepInEx` is unchanged, and staged
      loose files stay where they were. */
  lemma MoveAllPlaces(d: Disk)
    requires d.staging.Some? && MoveAll(d, false).flow.Done?
    ensures var st := d.staging.value;
            var g := Gathered(st, SortedNames(st.Keys));
            var a := MoveAll(d, false);
            && (forall x :: x in g ==> Lookup(PluginMap(a.disk.install), x) == Some(g[x]))
            && (forall x :: x !in g ==> Lookup(PluginMap(a.disk.install), x) == Lookup(PluginMap(d.install), x))
            && (forall k :: k != "BepInEx" ==> Lookup(a.disk.install, k) == Lookup(d.install, k))
            && Siblings(a.disk.install) == Siblings(d.install)
            && a.disk.staging.Some? && a.disk.staging.value.Keys == st.Keys
            && (forall x :: x in st && st[x].File? ==> a.disk.staging.value[x] == st[x])
  {
    var st := d.staging.value;
    var items := SortedNames(st.Keys);
    MoveAllClosed(d);
    WithPluginsKeepsLoader(d.install, PluginMap(d.install) + Gathered(st, items));
    EmptiedOutside(st, items);
    EmptiedFiles(st, items);
  }

  lemma {:induction false} EmptiedFiles(d0: map<string, Entry>, items: seq<string>)
    ensures forall x :: x in d0 && d0[x].File? ==> x in Emptied(d0, items) && Emptied(d0, items)[x] == d0[x]
    decreases |items|
  {
    if items != [] {
      EmptiedFiles(d0, items[..|items| - 1]);
    }
  }

  /** `install_cmd`: fetch and unpack, then move, whatever status the fetch
      returned; an exception escaping the fetch ends the command before the
      move. */
  function InstallAll(d: Disk, dryRun: bool, config: Fetch.Config,
                      net: string -> Fetch.Download, tools: Unpack.Tools): (a: After)
    ensures config.Unreadable? ==> a == After(Crash, d) && ExitStatus(a.flow) == 1
  {
    var f := Fetch.FetchOutcome(config, d.staging, dryRun, net, tools);
    if f.Raised? then After(Crash, d)
    else MoveAll(d.(staging := f.staging), dryRun)
  }

  /** Without `env.yaml` the fetch reports 2, which is ignored: the move
      still runs over whatever staging directory exists. */
  lemma InstallIgnoresFetchStatus(d: Disk, dryRun: bool, net: string -> Fetch.Download, tools: Unpack.Tools)
    ensures Fetch.FetchOutcome(Fetch.NoConfig, d.staging, dryRun, net, tools).status == 2
    ensures InstallAll(d, dryRun, Fetch.NoConfig, net, tools) == MoveAll(d, dryRun)
  {
  }

  /** The four commands `main` accepts. */
  datatype Command = RemoveCmd | InstallCmd | FetchCmd | CopyCmd

  /** `main`'s dispatch; `fetch` only logs "Not Implemented". */
  function RunCommand(d: Disk, cmd: Command, dryRun: bool, config: Fetch.Config,
                      net: string -> Fetch.Download, tools: Unpack.Tools): (a: After)
    ensures cmd == FetchCmd ==> a == After(Done, d)
    ensures dryRun && cmd != InstallCmd ==> a.disk == d
  {
    match cmd
    case RemoveCmd => RemoveAll(d, dryRun)
    case InstallCmd => InstallAll(d, dryRun, config, net, tools)
    case FetchCmd => After(Done, d)
    case CopyCmd => CopyAll(d, dryRun)
  }

  /** A dry-run install never touches the game's install root or the
      backups; it still fetches, creates and unpacks into the staging
      directory. It completes unless `env.yaml` cannot be read. */
  lemma DryInstallKeepsGame(d: Disk, config: Fetch.Config, net: string -> Fetch.Download, tools: Unpack.Tools)
    ensures var a := InstallAll(d, true, config, net, tools);
            a.flow == (if config.Unreadable? then Crash else Done) && a.disk.install == d.install &&
            a.disk.pluginCopy == d.pluginCopy && a.disk.bepinCopy == d.bepinCopy
  {
  }

  // ---------------------------------------------------------------------
  // The imperative commands
  // ---------------------------------------------------------------------

  /** Copy one entry to `name` in `dest`: `rmtree` + `copytree` for a
      directory, `copy2` for a file. */
  method CopyOne(dest: map<string, Entry>, name: string, e: Entry) returns (ok: bool, out: map<string, Entry>)
    ensures ok <==> !Conflict(Lookup(dest, name), name, e)
    ensures ok ==> out == dest[name := Landed(Lookup(dest, name), name, e)]
    ensures !ok ==> out == dest
  {
    out := dest;
    if e.Dir? {
      if name in dest {
        if dest[name].File? {
          return false, dest;   // rmtree on a file raises
        }
      }
      out := dest[name := e];
    } else if name in dest && dest[name].Dir? {
      var inner := dest[name].children;
      if name in inner && inner[name].Dir? {
        return false, dest;   // copy2 onto dest/name, a directory, raises
      }
      out := dest[name := Dir(inner[name := e])];
    } else {
      out := dest[name := e];
    }
    ok := true;
  }

  /** The copy loop shared by both backups: each name present in `src` is
      copied into `dest` in turn, until one copy raises. */
  method CopyNames(dest: map<string, Entry>, src: map<string, Entry>, names: seq<string>)
    returns (ok: bool, out: map<string, Entry>)
    ensures Copied(out, ok) == CopyEach(dest, src, names)
  {
    out := dest;
    for i := 0 to |names|
      invariant CopyEach(dest, src, names[..i]) == Copied(out, true)
    {
      assert names[..i + 1][..i] == names[..i];
      var name := names[i];
      if name in src {
        var copied, next := CopyOne(out, name, src[name]);
        if !copied {
          CopyCrashSticks(dest, src, names, i + 1);
          return false, out;
        }
        out := next;
      }
    }
    assert names[..|names|] == names;
    ok := true;
  }

  /** One `print` per matched name. */
  method EmitLines(names: seq<string>) returns (lines: seq<string>)
    ensures lines == Lines(names)
  {
    lines := [];
    for i := 0 to |names|
      invariant lines == Lines(names[..i])
    {
      assert names[..i + 1][..i] == names[..i];
      lines := lines + ["> " + Stem(names[i])];
    }
    assert names[..|names|] == names;
  }

  /** The deletion loop of `remove_mods`: `rmtree` for a directory, `unlink`
      for a file, nothing for a name that does not exist. */
  method DeleteNames(dir: map<string, Entry>, names: seq<string>) returns (out: map<string, Entry>)
    ensures out == dir - NameSet(names)
  {
    out := dir;
    for i := 0 to |names|
      invariant out == dir - NameSet(names[..i])
    {
      var f := names[i];
      if f in out {
        out := out - {f};
      }
      assert NameSet(names[..i + 1]) == NameSet(names[..i]) + {f};
    }
    assert names[..|names|] == names;
  }

  class ModManager {
    var install: map<string, Entry>
    var pluginCopy: Option<map<string, Entry>>
    var bepinCopy: Option<map<string, Entry>>
    /** `raw_mods`, shared with the fetcher and the unpacker. */
    const raw: Folder

    constructor (install: map<string, Entry>, pluginCopy: Option<map<string, Entry>>,
                 bepinCopy: Option<map<string, Entry>>, raw: Folder)
      ensures this.install == install && this.pluginCopy == pluginCopy
      ensures this.bepinCopy == bepinCopy && this.raw == raw
    {
      this.install := install;
      this.pluginCopy := pluginCopy;
      this.bepinCopy := bepinCopy;
      this.raw := raw;
    }

    function Snapshot(): Disk
      reads this, raw
    {
      Disk(install, pluginCopy, bepinCopy, raw.entries)
    }

    /** `print_mods`: the top-level glob, then the recursive one, over the
        plugin backup. */
    method PrintMods() returns (lines: seq<string>)
      ensures lines == Listing(pluginCopy)
    {
      if pluginCopy.None? {
        return [];
      }
      var top := EmitLines(TopDlls(pluginCopy.value));
      var deep := EmitLines(DeepDlls(pluginCopy.value));
      lines := top + deep;
    }

    method CopyPluginMods(dryRun: bool) returns (flow: Flow, lines: seq<string>)
      modifies this
      ensures After(flow, Snapshot()) == PluginBackup(old(Snapshot()), dryRun)
      ensures lines == if flow.Done? then Listing(pluginCopy) else []
    {
      var plugins := PluginsOf(install);
      if plugins.None? {
        return Exit(1), [];
      }
      if pluginCopy.None? && !dryRun {
        pluginCopy := Some(map[]);
      }
      if !dryRun {
        if plugins.value.File? {
          return Crash, [];   // iterdir on a file raises
        }
        var src := plugins.value.children;
        var ok, out := CopyNames(pluginCopy.value, src, SortedNames(src.Keys));
        pluginCopy := Some(out);
        if !ok {
          return Crash, [];
        }
      }
      lines := PrintMods();
      flow := Done;
    }

    method CopyBepinex(dryRun: bool) returns (flow: Flow)
      modifies this
      ensures After(flow, Snapshot()) == BepinBackup(old(Snapshot()), dryRun)
    {
      if dryRun {
        return Done;   // only logs what it would copy
      }
      if bepinCopy.None? {
        bepinCopy := Some(map[]);
      }
      var ok, out := CopyNames(bepinCopy.value, install, Support);
      bepinCopy := Some(out);
      flow := if ok then Done else Crash;
    }

    method CopyMods(dryRun: bool) returns (flow: Flow, lines: seq<string>)
      modifies this
      ensures After(flow, Snapshot()) == CopyAll(old(Snapshot()), dryRun)
      ensures var p := PluginBackup(old(Snapshot()), dryRun);
              lines == if p.flow.Done? then Listing(p.disk.pluginCopy) else []
    {
      flow, lines := CopyPluginMods(dryRun);
      if flow.Done? {
        flow := CopyBepinex(dryRun);
      }
    }

    method RemoveMods(dryRun: bool) returns (flow: Flow, lines: seq<string>)
      modifies this
      ensures After(flow, Snapshot()) == RemoveAll(old(Snapshot()), dryRun)
    {
      flow, lines := CopyMods(dryRun);
      if flow.Done? && !dryRun {
        install := DeleteNames(install, Support);
      }
    }

    /** One child: `ensure_dir(MODDIR)`, remove what is at the child's
        name, and move the child there. */
    method MoveOne(item: string, kid: string, e: Entry) returns (ok: bool)
      requires raw.entries.Some?
      modifies this, raw
      ensures raw.entries.Some? && pluginCopy == old(pluginCopy) && bepinCopy == old(bepinCopy)
      ensures Moving(install, raw.entries.value, ok) ==
              MoveChild(Moving(old(install), old(raw.entries.value), true), item, kid, e)
    {
      var ensured := EnsurePlugins(install);
      if ensured.None? {
        return false;
      }
      install := WithPlugins(ensured.value, PluginMap(ensured.value)[kid := e]);
      raw.entries := Some(Drop(raw.entries.value, item, kid));
      ok := true;
    }

    /** The inner loop of `move_extracted_raw_mods` over the children of
        one staging directory. */
    method MoveChildren(item: string, src: map<string, Entry>) returns (ok: bool)
      requires raw.entries.Some?
      modifies this, raw
      ensures raw.entries.Some? && pluginCopy == old(pluginCopy) && bepinCopy == old(bepinCopy)
      ensures Moving(install, raw.entries.value, ok) ==
              MoveKids(Moving(old(install), old(raw.entries.value), true), item, SortedNames(src.Keys), src)
    {
      var kids := SortedNames(src.Keys);
      ghost var s := Moving(install, raw.entries.value, true);
      for j := 0 to |kids|
        invariant raw.entries.Some? && pluginCopy == old(pluginCopy) && bepinCopy == old(bepinCopy)
        invariant MoveKids(s, item, kids[..j], src) == Moving(install, raw.entries.value, true)
      {
        MoveKidsNext(s, item, kids, src, j);
        var moved := MoveOne(item, kids[j], src[kids[j]]);
        if !moved {
          MoveKidsStuck(s, item, kids, src, j + 1);
          return false;
        }
      }
      assert kids[..|kids|] == kids;
      ok := true;
    }

    method MoveExtractedRawMods(dryRun: bool) returns (flow: Flow)
      modifies this, raw
      ensures After(flow, Snapshot()) == MoveAll(old(Snapshot()), dryRun)
    {
      if raw.entries.None? || dryRun {
        return Done;   // a dry run only logs each child it would move
      }
      var ok := MoveStaged();
      flow := if ok then Done else Crash;
    }

    /** The outer loop over the sorted staging listing. */
    method MoveStaged() returns (ok: bool)
      requires raw.entries.Some?
      modifies this, raw
      ensures raw.entries.Some? && pluginCopy == old(pluginCopy) && bepinCopy == old(bepinCopy)
      ensures Moving(install, raw.entries.value, ok) ==
              MoveItems(Moving(old(install), old(raw.entries.value), true),
                        SortedNames(old(raw.entries.value).Keys), old(raw.entries.value))
    {
      var d0 := raw.entries.value;
      var items := SortedNames(d0.Keys);
      ghost var s0 := Moving(install, d0, true);
      for i := 0 to |items|
        invariant raw.entries.Some? && pluginCopy == old(pluginCopy) && bepinCopy == old(bepinCopy)
        invariant MoveItems(s0, items[..i], d0) == Moving(install, raw.entries.value, true)
      {
        MoveItemsNext(s0, items, d0, i);
        var item := items[i];
        if !d0[item].Dir? {
          continue;   // loose archives are skipped
        }
        var moved := MoveChildren(item, d0[item].children);
        if !moved {
          MoveItemsStuck(s0, items, d0, i + 1);
          return false;
        }
      }
      assert items[..|items|] == items;
      ok := true;
    }

    method InstallCmd(dryRun: bool, config: Fetch.Config, net: string -> Fetch.Download, tools: Unpack.Tools)
      returns (flow: Flow)
      modifies this, raw
      ensures After(flow, Snapshot()) == InstallAll(old(Snapshot()), dryRun, config, net, tools)
    {
      var raised, _, _ := Fetch.FetchAndUnpack(raw, config, dryRun, net, tools);
      if raised {
        return Crash;
      }
      flow := MoveExtractedRawMods(dryRun);
    }

    /** `main`: run the command and return the process exit status. */
    method Run(cmd: Command, dryRun: bool, config: Fetch.Config, net: string -> Fetch.Download, tools: Unpack.Tools)
      returns (status: int)
      modifies this, raw
      ensures var a := RunCommand(old(Snapshot()), cmd, dryRun, config, net, tools);
              Snapshot() == a.disk && status == ExitStatus(a.flow)
    {
      var flow: Flow;
      var printed: seq<string>;
      match cmd {
        case RemoveCmd =>
          flow, printed := RemoveMods(dryRun);
        case InstallCmd =>
          flow := InstallCmd(dryRun, config, net, tools);
        case FetchCmd =>
          flow := Done;   // logs "Not Implemented"
        case CopyCmd =>
          flow, printed := CopyMods(dryRun);
      }
      status := ExitStatus(flow);
    }
  }
}
