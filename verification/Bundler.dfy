/**
 The service bundler: the files an entrypoint needs are found by a worklist over the
 import graph of a finite file system, package initialisers included.

 A path is its sequence of components below the file system's root.  What a file imports is
 an arbitrary function here; the names are resolved as the script resolves them.  The output
 tree is apart from the source tree, so copying does not change what exists in the source.
 */
module Bundler {
  import opened Options

  type Path = seq<string>

  /** An import as written: dotted name split at the dots, and the number of leading dots. */
  datatype Import = Import(parts: seq<string>, level: nat)

  /** `files` are the existing paths; `imports` lists a file's imports in any order. */
  datatype Tree = Tree(files: set<Path>, imports: Path -> seq<Import>, root: Path)

  function Parent(p: Path): Path {
    if p == [] then p else p[..|p| - 1]
  }

  predicate IsRelativeTo(p: Path, root: Path) {
    root <= p
  }

  predicate HasSuffix(name: string, suffix: string) {
    |suffix| <= |name| && name[|name| - |suffix|..] == suffix
  }

  predicate IsPython(p: Path) {
    p != [] && |p[|p| - 1]| > 3 && HasSuffix(p[|p| - 1], ".py")
  }

  // ---------------------------------------------------------------- resolving imports

  function Ancestor(p: Path, n: nat): Path {
    if n == 0 then p else Ancestor(Parent(p), n - 1)
  }

  /** Where the suffix of a name starts, at its last dot if that is inner; |name| without a suffix. */
  function SuffixStart(name: string, i: nat): (r: nat)
    requires i <= |name|
    ensures r <= |name|
  {
    if i <= 1 then |name|
    else if name[i - 1] == '.' then (if i < |name| then i - 1 else |name|)
    else SuffixStart(name, i - 1)
  }

  /** `with_suffix(".py")` on a path that has a name. */
  function WithPySuffix(p: Path): Path
    requires p != []
  {
    var name := p[|p| - 1];
    p[..|p| - 1] + [name[..SuffixStart(name, |name|)] + ".py"]
  }

  predicate NamesPackage(parts: seq<string>) {
    parts != [] && "estateflow" <= parts[0]
  }

  function Resolve(t: Tree, i: Import, current: Path): Option<Path> {
    var base := if NamesPackage(i.parts) then t.root + i.parts
                else Ancestor(Parent(current), if i.level >= 1 then i.level - 1 else 0) + i.parts;
    if base != [] && WithPySuffix(base) in t.files then Some(WithPySuffix(base))
    else if base + ["__init__.py"] in t.files then Some(base + ["__init__.py"])
    else None
  }

  lemma {:induction false} AncestorIs(p: Path, n: nat)
    ensures Ancestor(p, n) == p[..if n <= |p| then |p| - n else 0]
  {
    if n > 0 {
      AncestorIs(Parent(p), n - 1);
    }
  }

  lemma {:induction false} SuffixStartsAtLastDot(name: string, i: nat)
    requires i <= |name|
    ensures i > 0 && '.' !in name[1..i] ==> SuffixStart(name, i) == |name|
    ensures forall d :: 1 <= d < i && name[d] == '.' && '.' !in name[d + 1..i] ==>
              SuffixStart(name, i) == if d < |name| - 1 then d else |name|
  {
    if i > 1 {
      SuffixStartsAtLastDot(name, i - 1);
      assert name[1..i] == name[1..i - 1] + [name[i - 1]];
      forall d | 1 <= d < i && name[d] == '.' && '.' !in name[d + 1..i]
        ensures SuffixStart(name, i) == if d < |name| - 1 then d else |name|
      {
        if d < i - 1 {
          assert name[d + 1..i] == name[d + 1..i - 1] + [name[i - 1]];
          assert name[i - 1] in name[d + 1..i];
        }
      }
    }
  }

  /** A name without a dot gets the suffix, a name with one has its last part replaced. */
  lemma SuffixIsReplaced(dir: Path, stem: string, suffix: string)
    requires stem != "" && '.' !in suffix
    ensures '.' !in stem ==> WithPySuffix(dir + [stem]) == dir + [stem + ".py"]
    ensures suffix != "" ==> WithPySuffix(dir + [stem + "." + suffix]) == dir + [stem + ".py"]
    ensures WithPySuffix(dir + ["." + suffix]) == dir + ["." + suffix + ".py"]
  {
    SuffixStartsAtLastDot(stem, |stem|);
    var hidden := "." + suffix;
    SuffixStartsAtLastDot(hidden, |hidden|);
    assert hidden[1..|hidden|] == suffix && hidden[..|hidden|] == hidden;
    assert (dir + [hidden])[..|dir|] == dir;
    assert stem[..|stem|] == stem;
    var name := stem + "." + suffix;
    SuffixStartsAtLastDot(name, |name|);
    assert name[|stem|] == '.' && name[|stem| + 1..|name|] == suffix && name[..|stem|] == stem;
    assert (dir + [stem])[..|dir|] == dir && (dir + [name])[..|dir|] == dir;
  }

  /** A Python file is one whose name is something and then ".py". */
  lemma PythonIff(p: Path)
    ensures IsPython(p) <==> p != [] && exists stem :: stem != "" && p[|p| - 1] == stem + ".py"
  {
    if IsPython(p) {
      var name := p[|p| - 1];
      assert name == name[..|name| - 3] + ".py";
    }
  }

  /** Where an import is looked up: from the root by its full name, else from the directory as many levels up. */
  function LookupBase(t: Tree, i: Import, current: Path): Path {
    if i.parts != [] && "estateflow" <= i.parts[0] then t.root + i.parts
    else
      var up := if i.level > 1 then i.level else 1;
      (if up <= |current| then current[..|current| - up] else []) + i.parts
  }

  /** The module file is preferred to the package, and nothing else is found. */
  lemma ResolveIff(t: Tree, i: Import, current: Path)
    ensures var base, r := LookupBase(t, i, current), Resolve(t, i, current);
            var isModule := base != [] && WithPySuffix(base) in t.files;
            && (isModule ==> r == Some(WithPySuffix(base)))
            && (!isModule && base + ["__init__.py"] in t.files ==> r == Some(base + ["__init__.py"]))
            && (r == None <==> !isModule && base + ["__init__.py"] !in t.files)
  {
    var n: nat := if i.level >= 1 then i.level - 1 else 0;
    AncestorIs(Parent(current), n);
    if !NamesPackage(i.parts) {
      assert Ancestor(Parent(current), n) + i.parts == LookupBase(t, i, current);
    }
  }

  /** A module named by plain parts is the file of that name in its directory below the root. */
  lemma ModuleIsFile(t: Tree, dirs: seq<string>, name: string, current: Path)
    requires name != "" && '.' !in name && "estateflow" <= (dirs + [name])[0]
    requires t.root + dirs + [name + ".py"] in t.files
    ensures Resolve(t, Import(dirs + [name], 0), current) == Some(t.root + dirs + [name + ".py"])
  {
    SuffixIsReplaced(t.root + dirs, name, "x");
    assert t.root + (dirs + [name]) == t.root + dirs + [name];
  }

  /** One dot means the importing file's own directory, each further one the directory above. */
  lemma SiblingIsFile(t: Tree, dir: Path, above: seq<string>, file: string, name: string)
    requires name != "" && '.' !in name && !("estateflow" <= name) && dir + [name + ".py"] in t.files
    ensures Resolve(t, Import([name], |above| + 1), dir + above + [file]) == Some(dir + [name + ".py"])
  {
    SuffixIsReplaced(dir, name, "x");
    var current := dir + above + [file];
    assert current[..|current| - (|above| + 1)] == dir;
    ResolveIff(t, Import([name], |above| + 1), current);
  }

  // ---------------------------------------------------------------- specification

  /** `__init__.py` of some directory from the file's own up to the source root. */
  ghost predicate IsInitializer(t: Tree, path: Path, init: Path) {
    && init in t.files && |init| >= 1 && init[|init| - 1] == "__init__.py"
    && IsRelativeTo(Parent(init), t.root) && Parent(init) <= Parent(path)
  }

  /** `next` must be bundled whenever `path` is. */
  ghost predicate Needs(t: Tree, path: Path, next: Path) {
    || (IsRelativeTo(path, t.root) && IsInitializer(t, path, next))
    || (exists k :: 0 <= k < |t.imports(path)| && Resolve(t, t.imports(path)[k], path) == Some(next))
  }

  ghost predicate Starts(t: Tree, entrypoints: seq<Path>, s: set<Path>) {
    forall e :: e in entrypoints && e in t.files && IsPython(e) ==> e in s
  }

  ghost predicate Closed(t: Tree, s: set<Path>) {
    forall p, q :: p in s && Needs(t, p, q) && q in t.files && IsPython(q) ==> q in s
  }

  /** The least set of files with the entrypoints that is closed under what its files need. */
  ghost predicate IsBundle(t: Tree, entrypoints: seq<Path>, s: set<Path>) {
    && s <= t.files && (forall p :: p in s ==> IsPython(p))
    && Starts(t, entrypoints, s) && Closed(t, s)
    && (forall other: set<Path> :: Starts(t, entrypoints, other) && Closed(t, other) ==> s <= other)
  }

  /** `next` is the initialiser of the directory made of the first `n` components of the path. */
  predicate InitializerAt(t: Tree, path: Path, next: Path, n: nat) {
    |t.root| <= n < |path| && next == path[..n] + ["__init__.py"]
  }

  /** The initialisers of a file below the root: those of its directory and of each above, the root's included. */
  lemma InitializerIff(t: Tree, path: Path, next: Path)
    ensures IsRelativeTo(path, t.root) <==> |t.root| <= |path| && path[..|t.root|] == t.root
    ensures IsRelativeTo(path, t.root) && path != t.root ==>
              (IsInitializer(t, path, next) <==> next in t.files && exists n :: InitializerAt(t, path, next, n))
  {
    if IsRelativeTo(path, t.root) && path != t.root {
      if IsInitializer(t, path, next) {
        assert InitializerAt(t, path, next, |next| - 1);
      }
      if n: nat :| next in t.files && InitializerAt(t, path, next, n) {
        assert Parent(next) == path[..n];
        assert t.root <= path[..n] && path[..n] <= Parent(path);
      }
    }
  }

  lemma BundleIsUnique(t: Tree, entrypoints: seq<Path>, a: set<Path>, b: set<Path>)
    requires IsBundle(t, entrypoints, a) && IsBundle(t, entrypoints, b)
    ensures a == b
  {
  }

  // ---------------------------------------------------------------- the worklist in any order

  /** Files under the root, by their path relative to it. */
  function Below(root: Path, files: set<Path>): set<Path> {
    set p | p in files && IsRelativeTo(p, root) :: p[|root|..]
  }

  lemma BelowAdds(root: Path, files: set<Path>, path: Path)
    ensures Below(root, files + {path}) ==
            Below(root, files) + (if IsRelativeTo(path, root) then {path[|root|..]} else {})
  {
    forall q | q in Below(root, files + {path})
      ensures q in Below(root, files) + (if IsRelativeTo(path, root) then {path[|root|..]} else {})
    {
    }
  }

  /** What every intermediate state of the worklist satisfies. */
  ghost predicate Working(t: Tree, entrypoints: seq<Path>, pending: seq<Path>, visited: set<Path>) {
    && visited <= t.files && (forall p :: p in visited ==> IsPython(p))
    && (forall e :: e in entrypoints && e in t.files && IsPython(e) ==> e in visited || e in pending)
    && (forall p, q :: p in visited && Needs(t, p, q) && q in t.files && IsPython(q) ==> q in visited || q in pending)
    && (forall other: set<Path> :: Starts(t, entrypoints, other) && Closed(t, other) ==>
          visited <= other && forall p :: p in pending && p in t.files && IsPython(p) ==> p in other)
  }

  ghost predicate Skipped(t: Tree, path: Path, visited: set<Path>) {
    path in visited || path !in t.files || !IsPython(path)
  }

  /** The paths pushed for `path`: all it needs that are not visited, and nothing it does not need. */
  ghost predicate Pushes(t: Tree, path: Path, visited: set<Path>, pushed: seq<Path>) {
    && (forall q :: q in pushed ==> Needs(t, path, q))
    && (forall q :: Needs(t, path, q) ==> q in pushed || q in visited)
  }

  /** One turn of the loop, taking the pending path at index `i`. */
  ghost predicate Turn(t: Tree, i: nat, pending: seq<Path>, visited: set<Path>, pending': seq<Path>,
                       visited': set<Path>) {
    && i < |pending|
    && (var path, rest := pending[i], pending[..i] + pending[i + 1..];
        if Skipped(t, path, visited) then pending' == rest && visited' == visited
        else
          && visited' == visited + {path}
          && exists pushed :: Pushes(t, path, visited', pushed) && pending' == rest + pushed)
  }

  lemma TurnKeepsWorking(t: Tree, entrypoints: seq<Path>, i: nat, pending: seq<Path>, visited: set<Path>,
                         pending': seq<Path>, visited': set<Path>)
    requires Working(t, entrypoints, pending, visited) && Turn(t, i, pending, visited, pending', visited')
    ensures Working(t, entrypoints, pending', visited')
  {
    var path, rest := pending[i], pending[..i] + pending[i + 1..];
    assert forall p :: p in pending <==> p == path || p in rest by {
      assert pending == pending[..i] + [path] + pending[i + 1..];
    }
    if !Skipped(t, path, visited) {
      var pushed :| Pushes(t, path, visited', pushed) && pending' == rest + pushed;
      forall other: set<Path> | Starts(t, entrypoints, other) && Closed(t, other)
        ensures visited' <= other
        ensures forall p :: p in pending' && p in t.files && IsPython(p) ==> p in other
      {
        assert path in pending && path in other;
      }
    }
  }

  /** Whatever the order in which paths are taken, an empty worklist leaves the bundle. */
  lemma DrainedIsBundle(t: Tree, entrypoints: seq<Path>, visited: set<Path>)
    requires Working(t, entrypoints, [], visited)
    ensures IsBundle(t, entrypoints, visited)
  {
  }

  /** Each turn lowers (files left, length of the worklist), so every order terminates. */
  lemma TurnsDecrease(t: Tree, i: nat, pending: seq<Path>, visited: set<Path>, pending': seq<Path>, visited': set<Path>)
    requires visited <= t.files && Turn(t, i, pending, visited, pending', visited')
    ensures |t.files - visited'| < |t.files - visited|
            || (visited' == visited && |pending'| < |pending|)
  {
    var path := pending[i];
    if !Skipped(t, path, visited) {
      assert t.files - visited == (t.files - visited') + {path};
    }
  }

  // ---------------------------------------------------------------- whole runs in any order

  /** The worklist and the visited files between two turns. */
  datatype State = State(pending: seq<Path>, visited: set<Path>)

  ghost predicate Next(t: Tree, s: State, s': State) {
    exists i: nat :: Turn(t, i, s.pending, s.visited, s'.pending, s'.visited)
  }

  /** A run of the loop that takes pending paths in any order, from the entrypoints on. */
  ghost predicate IsRun(t: Tree, entrypoints: seq<Path>, run: seq<State>) {
    && run != [] && run[0] == State(entrypoints, {})
    && forall k :: 0 <= k < |run| - 1 ==> Next(t, run[k], run[k + 1])
  }

  function Last(run: seq<State>): State
    requires run != []
  {
    run[|run| - 1]
  }

  lemma {:induction false} RunKeepsWorking(t: Tree, entrypoints: seq<Path>, run: seq<State>)
    requires IsRun(t, entrypoints, run)
    ensures Working(t, entrypoints, Last(run).pending, Last(run).visited)
  {
    if |run| > 1 {
      var prior := run[..|run| - 1];
      RunKeepsWorking(t, entrypoints, prior);
      var s, s' := Last(prior), Last(run);
      assert Next(t, run[|run| - 2], run[|run| - 1]);
      var i: nat :| Turn(t, i, s.pending, s.visited, s'.pending, s'.visited);
      TurnKeepsWorking(t, entrypoints, i, s.pending, s.visited, s'.pending, s'.visited);
    }
  }

  /** Every run that empties the worklist ends with the least set, whatever order it took. */
  lemma AnyOrderBundles(t: Tree, entrypoints: seq<Path>, run: seq<State>)
    requires IsRun(t, entrypoints, run) && Last(run).pending == []
    ensures IsBundle(t, entrypoints, Last(run).visited)
  {
    RunKeepsWorking(t, entrypoints, run);
    DrainedIsBundle(t, entrypoints, Last(run).visited);
  }

  /** No order of turns goes on for ever, cyclic imports included. */
  lemma {:induction false} NoOrderGoesOnForever(t: Tree, states: nat -> State, n: nat)
    requires states(n).visited <= t.files
    requires forall k: nat :: Next(t, states(k), states(k + 1))
    ensures false
    decreases |t.files - states(n).visited|, |states(n).pending|
  {
    var s, s' := states(n), states(n + 1);
    assert Next(t, states(n), states(n + 1));
    var i: nat :| Turn(t, i, s.pending, s.visited, s'.pending, s'.visited);
    TurnsDecrease(t, i, s.pending, s.visited, s'.pending, s'.visited);
    NoOrderGoesOnForever(t, states, n + 1);
  }

  // ---------------------------------------------------------------- the script

  method PackageInitializers(path: Path, t: Tree) returns (initializers: seq<Path>)
    ensures forall q :: q in initializers <==> IsInitializer(t, path, q)
  {
    initializers := [];
    var parent := Parent(path);
    while IsRelativeTo(parent, t.root)
      invariant parent <= Parent(path)
      invariant forall q :: q in initializers <==> IsInitializer(t, path, q) && |Parent(q)| > |parent|
      decreases |parent|
    {
      var initializer := parent + ["__init__.py"];
      assert Parent(initializer) == parent;
      forall q | IsInitializer(t, path, q) && |Parent(q)| == |parent| ensures q == initializer {
        assert Parent(q) == parent && q == Parent(q) + [q[|q| - 1]];
      }
      if initializer in t.files {
        initializers := initializers + [initializer];
      }
      if parent == t.root {
        break;
      }
      parent := Parent(parent);
    }
  }

  /** The files that the first `k` imports of `path` resolve to, save those already visited. */
  ghost predicate Targets(t: Tree, path: Path, visited: set<Path>, k: nat, targets: seq<Path>)
    requires k <= |t.imports(path)|
  {
    forall q :: q in targets <==>
      q !in visited && exists j :: 0 <= j < k && Resolve(t, t.imports(path)[j], path) == Some(q)
  }

  lemma TargetsNext(t: Tree, path: Path, visited: set<Path>, k: nat, targets: seq<Path>)
    requires k < |t.imports(path)| && Targets(t, path, visited, k, targets)
    ensures var r := Resolve(t, t.imports(path)[k], path);
            Targets(t, path, visited, k + 1,
                    if r.Some? && r.value !in visited then targets + [r.value] else targets)
  {
    var r := Resolve(t, t.imports(path)[k], path);
    var targets' := if r.Some? && r.value !in visited then targets + [r.value] else targets;
    forall q
      ensures q in targets' <==>
        q !in visited && exists j :: 0 <= j < k + 1 && Resolve(t, t.imports(path)[j], path) == Some(q)
    {
      if q in targets' && q in targets {
        var j :| 0 <= j < k && Resolve(t, t.imports(path)[j], path) == Some(q);
      }
    }
  }

  method ImportTargets(path: Path, t: Tree, visited: set<Path>) returns (targets: seq<Path>)
    ensures Targets(t, path, visited, |t.imports(path)|, targets)
  {
    targets := [];
    var imports := t.imports(path);
    for k := 0 to |imports|
      invariant Targets(t, path, visited, k, targets)
    {
      var resolved := Resolve(t, imports[k], path);
      TargetsNext(t, path, visited, k, targets);
      if resolved.Some? && resolved.value !in visited {
        targets := targets + [resolved.value];
      }
    }
  }

  /** `visited` at the end, and the relative paths copied below the output root. */
  method Bundle(entrypoints: seq<Path>, t: Tree) returns (visited: set<Path>, copied: set<Path>)
    ensures IsBundle(t, entrypoints, visited)
    ensures copied == Below(t.root, visited)
  {
    var pending := entrypoints;
    visited, copied := {}, {};
    while pending != []
      invariant Working(t, entrypoints, pending, visited)
      invariant copied == Below(t.root, visited)
      decreases |t.files - visited|, |pending|
    {
      var path := pending[|pending| - 1];
      ghost var before, visitedBefore := pending, visited;
      pending := pending[..|pending| - 1];
      if path in visited || path !in t.files || !IsPython(path) {
        SkipIsTurn(t, entrypoints, before, visitedBefore);
        continue;
      }
      visited := visited + {path};
      BelowAdds(t.root, visitedBefore, path);
      var initializers := [];
      if IsRelativeTo(path, t.root) {
        copied := copied + {path[|t.root|..]};
        initializers := PackageInitializers(path, t);
      }
      var targets := ImportTargets(path, t, visited);
      VisitIsTurn(t, entrypoints, before, visitedBefore, initializers, targets);
      pending := pending + (initializers + targets);
    }
    DrainedIsBundle(t, entrypoints, visited);
  }

  lemma SkipIsTurn(t: Tree, entrypoints: seq<Path>, pending: seq<Path>, visited: set<Path>)
    requires Working(t, entrypoints, pending, visited) && pending != []
    requires Skipped(t, pending[|pending| - 1], visited)
    ensures Working(t, entrypoints, pending[..|pending| - 1], visited)
  {
    var last := |pending| - 1;
    assert pending[..last] == pending[..last] + pending[last + 1..];
    TurnKeepsWorking(t, entrypoints, last, pending, visited, pending[..last], visited);
  }

  lemma VisitIsTurn(t: Tree, entrypoints: seq<Path>, pending: seq<Path>, visited: set<Path>,
                    initializers: seq<Path>, targets: seq<Path>)
    requires Working(t, entrypoints, pending, visited) && pending != []
    requires var path := pending[|pending| - 1];
             && !Skipped(t, path, visited)
             && (forall q :: q in initializers <==> IsRelativeTo(path, t.root) && IsInitializer(t, path, q))
             && Targets(t, path, visited + {path}, |t.imports(path)|, targets)
    ensures var visited' := visited + {pending[|pending| - 1]};
            && Working(t, entrypoints, pending[..|pending| - 1] + (initializers + targets), visited')
            && |t.files - visited'| < |t.files - visited|
  {
    var last := |pending| - 1;
    var path, pushed := pending[last], initializers + targets;
    var pending' := pending[..last] + pushed;
    assert Pushes(t, path, visited + {path}, pushed) by {
      forall q | Needs(t, path, q) ensures q in pushed || q in visited + {path} {
        if IsRelativeTo(path, t.root) && IsInitializer(t, path, q) {
          assert q in initializers;
        } else {
          var k :| 0 <= k < |t.imports(path)| && Resolve(t, t.imports(path)[k], path) == Some(q);
        }
      }
    }
    assert pending' == pending[..last] + pending[last + 1..] + pushed;
    assert Turn(t, last, pending, visited, pending', visited + {path});
    TurnKeepsWorking(t, entrypoints, last, pending, visited, pending', visited + {path});
    TurnsDecrease(t, last, pending, visited, pending', visited + {path});
  }

  /** The final pass over the packages of the visited files; `added` is what it would copy. */
  method CopyPackageInitializers(visited: set<Path>, copied: set<Path>, t: Tree) returns (added: set<Path>)
    ensures forall q :: q in added <==>
      && q !in copied
      && exists p :: p in visited && IsRelativeTo(p, t.root) && IsInitializer(t, p, t.root + q)
  {
    added := {};
    var todo := visited;
    while todo != {}
      invariant todo <= visited
      invariant forall q :: q in added <==>
        && q !in copied
        && exists p :: p in visited - todo && IsRelativeTo(p, t.root) && IsInitializer(t, p, t.root + q)
      decreases |todo|
    {
      var path :| path in todo;
      ghost var addedBefore := added;
      if IsRelativeTo(path, t.root) {
        var initializers := PackageInitializers(path, t);
        for k := 0 to |initializers|
          invariant forall q :: q in added <==> q in addedBefore || (q !in copied && t.root + q in initializers[..k])
        {
          assert initializers[k] in initializers && t.root <= Parent(initializers[k]) <= initializers[k];
          var relative := initializers[k][|t.root|..];
          assert t.root + relative == initializers[k];
          assert forall q :: t.root + q == initializers[k] ==> q == relative;
          if relative !in copied {
            added := added + {relative};
          }
        }
        assert initializers[..|initializers|] == initializers;
      }
      todo := todo - {path};
    }
  }

  /** The final pass never finds anything to copy after the worklist has drained. */
  lemma FinalPassCopiesNothing(t: Tree, entrypoints: seq<Path>, visited: set<Path>, q: Path, p: Path)
    requires IsBundle(t, entrypoints, visited)
    requires p in visited && IsRelativeTo(p, t.root) && IsInitializer(t, p, t.root + q)
    ensures q in Below(t.root, visited)
  {
    var init := t.root + q;
    assert Needs(t, p, init) && IsPython(init);
    assert init[|t.root|..] == q;
  }

  method Run(entrypoints: seq<Path>, t: Tree) returns (visited: set<Path>, copied: set<Path>, added: set<Path>)
    ensures IsBundle(t, entrypoints, visited)
    ensures added == {}
  {
    visited, copied := Bundle(entrypoints, t);
    added := CopyPackageInitializers(visited, copied, t);
    forall q | q in added ensures false {
      var p :| p in visited && IsRelativeTo(p, t.root) && IsInitializer(t, p, t.root + q);
      FinalPassCopiesNothing(t, entrypoints, visited, q, p);
    }
  }
}
