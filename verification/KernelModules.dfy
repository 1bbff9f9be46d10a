/** Loading a kernel module after its dependencies: a depth-first walk that keeps its state in
    the module map itself. */
module KernelModules {
  import opened Common

  type Path = string

  datatype State = Unloaded | Loading | Loaded | Builtin

  datatype ModuleInfo = ModuleInfo(state: State, dependencyPaths: seq<Path>)

  type Modules = map<Path, ModuleInfo>

  datatype Error = NotFound(path: Path) | Circular(path: Path) | InitFailed(path: Path)

  // ---------------------------------------------------------------- the dependency graph

  predicate Ready(m: Modules, p: Path) {
    p in m && (m[p].state == Loaded || m[p].state == Builtin)
  }

  /** p has to be loaded and needs q. */
  ghost predicate Edge(m: Modules, p: Path, q: Path) {
    p in m && m[p].state == Unloaded && q in m[p].dependencyPaths
  }

  ghost predicate Walk(m: Modules, ps: seq<Path>) {
    ps != [] && forall i :: 0 <= i < |ps| - 1 ==> Edge(m, ps[i], ps[i + 1])
  }

  ghost predicate Reaches(m: Modules, p: Path, q: Path) {
    exists ps :: Walk(m, ps) && ps[0] == p && ps[|ps| - 1] == q
  }

  /** There is a way from p to q of at least one edge. */
  ghost predicate Needs(m: Modules, p: Path, q: Path) {
    exists d :: Edge(m, p, d) && Reaches(m, d, q)
  }

  /** Everything the module needs is known, acyclic and accepted by the kernel. */
  ghost predicate Loadable(m: Modules, works: Path -> bool, p: Path) {
    forall q :: Reaches(m, p, q) ==>
      q in m && !Needs(m, q, q) && (m[q].state == Unloaded ==> works(q))
  }

  /** The error describes a real defect of what p needs. */
  ghost predicate Justified(m: Modules, works: Path -> bool, p: Path, e: Error) {
    Reaches(m, p, e.path) &&
    match e
    case NotFound(q) => q !in m
    case Circular(q) => Needs(m, q, q)
    case InitFailed(q) => q in m && m[q].state == Unloaded && !works(q)
  }

  /** A sequence of initModule calls in which every module is new and comes after all its
      dependencies that were not ready before. */
  ghost predicate WellOrdered(m: Modules, works: Path -> bool, inits: seq<Path>) {
    forall i :: 0 <= i < |inits| ==>
      && inits[i] in m && m[inits[i]].state == Unloaded && works(inits[i])
      && inits[i] !in inits[..i]
      && forall d :: d in m[inits[i]].dependencyPaths ==> Ready(m, d) || d in inits[..i]
  }

  /** The calls that a failed load has made: well ordered, but for the last one if it is the call
      that failed. */
  ghost predicate BrokenOff(m: Modules, works: Path -> bool, before: seq<Path>, inits: seq<Path>, e: Error) {
    if e.InitFailed? then
      && inits != [] && inits[|inits| - 1] == e.path
      && before <= inits[..|inits| - 1] && WellOrdered(m, works, inits[..|inits| - 1])
      && e.path !in inits[..|inits| - 1]
      && e.path in m && forall d :: d in m[e.path].dependencyPaths ==> Done(m, inits[..|inits| - 1], d)
    else
      before <= inits && WellOrdered(m, works, inits)
  }

  /** Every new call is for a module that is reached from p. */
  ghost predicate NewAreReached(m: Modules, before: seq<Path>, inits: seq<Path>, p: Path) {
    forall k :: |before| <= k < |inits| ==> Reaches(m, p, inits[k])
  }

  /** The map tells what the calls so far have done to the initial map. */
  ghost predicate Tracks(m: Modules, works: Path -> bool, now: Modules, inits: seq<Path>) {
    && now.Keys == m.Keys
    && WellOrdered(m, works, inits)
    && forall p :: p in m ==> TracksModule(m[p], now[p], p in inits)
  }

  predicate TracksModule(before: ModuleInfo, now: ModuleInfo, loaded: bool) {
    && now.dependencyPaths == before.dependencyPaths
    && before.state != Loading
    && if loaded then now.state == Loaded
       else now.state == before.state || (now.state == Loading && before.state == Unloaded)
  }

  function InState(m: Modules, state: State): set<Path> {
    set p | p in m && m[p].state == state
  }

  /** p was ready from the start or has been loaded since. */
  predicate Done(m: Modules, inits: seq<Path>, p: Path) {
    Ready(m, p) || p in inits
  }

  // ---------------------------------------------------------------- the code

  class Loader {
    var modulesInfo: Modules
    var inits: seq<Path>            // the initModule calls so far
    const works: Path -> bool       // whether the kernel accepts a module
    ghost const initial: Modules

    constructor (modulesInfo: Modules, works: Path -> bool)
      requires forall p :: p in modulesInfo ==> modulesInfo[p].state != Loading
      ensures Valid() && inits == [] && initial == modulesInfo == this.modulesInfo && this.works == works
    {
      this.modulesInfo := modulesInfo;
      this.inits := [];
      this.works := works;
      this.initial := modulesInfo;
    }

    ghost predicate Valid()
      reads this
    {
      Tracks(initial, works, modulesInfo, inits)
    }

    method InitModule(path: Path) returns (r: Result<(), Error>)
      modifies `inits
      ensures inits == old(inits) + [path]
      ensures r == if works(path) then Ok(()) else Err(InitFailed(path))
    {
      inits := inits + [path];
      r := if works(path) then Ok(()) else Err(InitFailed(path));
    }

    method InitDependencies(path: Path) returns (r: Result<(), Error>)
      requires Valid()
      requires forall q :: q in InState(modulesInfo, Loading) ==> Needs(initial, q, path)
      modifies this
      ensures r.Ok? <==> Loadable(initial, works, path)
      ensures r.Err? ==> Justified(initial, works, path, r.error)
      ensures r.Ok? ==> Valid() && Done(initial, inits, path)
      ensures r.Ok? ==> InState(modulesInfo, Loading) == old(InState(modulesInfo, Loading))
      ensures r.Ok? ==> InState(modulesInfo, Unloaded) <= old(InState(modulesInfo, Unloaded))
      ensures r.Ok? ==> old(inits) <= inits
      ensures r.Ok? ==> if old(Done(initial, inits, path)) then inits == old(inits)
                        else |inits| > 0 && inits[|inits| - 1] == path
      ensures r.Err? ==> BrokenOff(initial, works, old(inits), inits, r.error)
      ensures NewAreReached(initial, old(inits), inits, path)
      decreases InState(modulesInfo, Unloaded), 1
    {
      hide WellOrdered, Needs, Reaches, Justified, Loadable, NewAreReached, BrokenOff, Edge;
      NothingBroken(initial, works, inits);
      NothingNew(initial, inits, path);
      if path !in modulesInfo {
        JustifiedHere(initial, works, NotFound(path));
        JustifiedRefutes(initial, works, path, NotFound(path));
        return Err(NotFound(path));
      }
      var info := modulesInfo[path];
      match info.state {
        case Unloaded =>
        case Loaded =>
          DoneIsLoadable(initial, works, inits, path);
          return Ok(());
        case Builtin =>
          DoneIsLoadable(initial, works, inits, path);
          return Ok(());
        case Loading =>
          assert path in InState(modulesInfo, Loading);
          JustifiedHere(initial, works, Circular(path));
          JustifiedRefutes(initial, works, path, Circular(path));
          return Err(Circular(path));
      }

      info := info.(state := Loading);
      MarkLoading(initial, works, modulesInfo, inits, path);
      modulesInfo := modulesInfo[path := info];

      r := InitAll(path, info.dependencyPaths);
      if r.Err? {
        JustifiedRefutes(initial, works, path, r.error);
        return;
      }

      BrokenOffHere(initial, works, old(inits), inits, path);
      NewIsItself(initial, old(inits), inits, path);
      r := InitModule(path);
      if r.Err? {
        JustifiedHere(initial, works, r.error);
        JustifiedRefutes(initial, works, path, r.error);
        return;
      }
      info := info.(state := Loaded);
      MarkLoaded(initial, works, modulesInfo, inits[..|inits| - 1], path);
      modulesInfo := modulesInfo[path := info];
      DoneIsLoadable(initial, works, inits, path);
    }

    /** The loop over the dependencies of a module. */
    method InitAll(path: Path, dependencyPaths: seq<Path>) returns (r: Result<(), Error>)
      requires Valid()
      requires path in initial && initial[path].state == Unloaded && initial[path].dependencyPaths == dependencyPaths
      requires forall q :: q in InState(modulesInfo, Loading) ==> q == path || Needs(initial, q, path)
      modifies this
      ensures r.Err? ==> Justified(initial, works, path, r.error)
      ensures r.Ok? ==> Valid() && forall d :: d in dependencyPaths ==> Done(initial, inits, d)
      ensures r.Ok? ==> InState(modulesInfo, Loading) == old(InState(modulesInfo, Loading))
      ensures r.Ok? ==> InState(modulesInfo, Unloaded) <= old(InState(modulesInfo, Unloaded))
      ensures r.Ok? ==> old(inits) <= inits && (path !in old(inits) ==> path !in inits)
      ensures r.Err? ==> BrokenOff(initial, works, old(inits), inits, r.error)
      ensures NewAreReached(initial, old(inits), inits, path)
      decreases InState(modulesInfo, Unloaded), 2
    {
      hide WellOrdered, Needs, Reaches, Justified, Loadable, NewAreReached, BrokenOff;
      NothingNew(initial, inits, path);
      for i := 0 to |dependencyPaths|
        invariant Valid() && old(inits) <= inits && (path !in old(inits) ==> path !in inits)
        invariant InState(modulesInfo, Loading) == old(InState(modulesInfo, Loading))
        invariant InState(modulesInfo, Unloaded) <= old(InState(modulesInfo, Unloaded))
        invariant forall j :: 0 <= j < i ==> Done(initial, inits, dependencyPaths[j])
        invariant NewAreReached(initial, old(inits), inits, path)
      {
        var dependency := dependencyPaths[i];
        ghost var before := inits;
        StackNeeds(initial, InState(modulesInfo, Loading), path, dependency);
        r := InitDependencies(dependency);
        if r.Err? {
          JustifiedThrough(initial, works, path, dependency, r.error);
          BrokenOffBefore(initial, works, old(inits), before, inits, r.error);
          NewThrough(initial, old(inits), before, inits, path, dependency);
          return;
        }
        NewThrough(initial, old(inits), before, inits, path, dependency);
        DependencyComesLast(initial, works, before, inits, path, dependency);
      }
      r := Ok(());
    }

    /** modProbe, from the module path found for the name on. The source marks the root as
        loading in a copy only, so the map never shows it. */
    method ModProbe(modulePath: Path) returns (r: Result<(), Error>)
      requires Valid() && modulesInfo == initial && inits == [] && modulePath in modulesInfo
      modifies this
      ensures r.Ok? <==> Loadable(initial, works, modulePath)
      ensures r.Err? ==> Justified(initial, works, modulePath, r.error)
      ensures r.Ok? ==> WellOrdered(initial, works, inits)
      ensures r.Ok? ==> if Ready(initial, modulePath) then inits == []
                        else inits != [] && inits[|inits| - 1] == modulePath
      ensures r.Err? ==> BrokenOff(initial, works, [], inits, r.error)
      ensures NewAreReached(initial, [], inits, modulePath)
    {
      var info := modulesInfo[modulePath];
      if info.state == Builtin || info.state == Loaded {
        DoneIsLoadable(initial, works, inits, modulePath);
        return Ok(());
      }
      ReachesItself(initial, modulePath);
      r := InitAll(modulePath, info.dependencyPaths);
      if r.Err? {
        return;
      }
      ghost var before := inits;
      r := InitModule(modulePath);
      if r.Err? {
        return;
      }
      OrderedSnoc(initial, works, before, modulePath);
      DoneIsLoadable(initial, works, inits, modulePath);
    }
  }

  // ---------------------------------------------------------------- reachability

  lemma ReachesItself(m: Modules, p: Path)
    ensures Reaches(m, p, p)
  {
    assert Walk(m, [p]);
  }

  lemma ReachesThrough(m: Modules, p: Path, d: Path, q: Path)
    requires Edge(m, p, d) && Reaches(m, d, q)
    ensures Reaches(m, p, q)
  {
    var ps :| Walk(m, ps) && ps[0] == d && ps[|ps| - 1] == q;
    assert Walk(m, [p] + ps);
  }

  lemma ReachesOn(m: Modules, p: Path, q: Path, d: Path)
    requires Reaches(m, p, q) && Edge(m, q, d)
    ensures Reaches(m, p, d)
  {
    var ps :| Walk(m, ps) && ps[0] == p && ps[|ps| - 1] == q;
    assert Walk(m, ps + [d]);
  }

  /** Nothing reached from a module is loaded later than it: along a walk positions in the
      sequence of calls only go down. */
  lemma {:induction false} WalkBelow(m: Modules, works: Path -> bool, inits: seq<Path>, k: nat, ps: seq<Path>)
    requires WellOrdered(m, works, inits) && k <= |inits| && Walk(m, ps)
    requires Done(m, inits[..k], ps[0])
    ensures Done(m, inits[..k], ps[|ps| - 1])
  {
    if |ps| > 1 {
      assert Edge(m, ps[0], ps[1]);
      var j :| 0 <= j < k && inits[j] == ps[0];
      assert Walk(m, ps[1..]) by {
        forall i | 0 <= i < |ps| - 2
          ensures Edge(m, ps[1..][i], ps[1..][i + 1])
        {
          assert Edge(m, ps[i + 1], ps[i + 2]);
        }
      }
      WalkBelow(m, works, inits, k, ps[1..]);
    }
  }

  /** A module that has been loaded has no defect below it. */
  lemma DoneIsLoadable(m: Modules, works: Path -> bool, inits: seq<Path>, p: Path)
    requires WellOrdered(m, works, inits) && Done(m, inits, p)
    requires forall q :: q in m ==> m[q].state != Loading
    ensures Loadable(m, works, p)
  {
    forall q | Reaches(m, p, q)
      ensures q in m && !Needs(m, q, q) && (m[q].state == Unloaded ==> works(q))
    {
      var ps :| Walk(m, ps) && ps[0] == p && ps[|ps| - 1] == q;
      assert inits[..|inits|] == inits;
      WalkBelow(m, works, inits, |inits|, ps);
      if Needs(m, q, q) {
        var d :| Edge(m, q, d) && Reaches(m, d, q);
        var back :| Walk(m, back) && back[0] == d && back[|back| - 1] == q;
        var i :| 0 <= i < |inits| && inits[i] == q;
        WalkBelow(m, works, inits, i, back);
        assert false;
      }
    }
  }

  /** A module is not among the calls that end with one of its own dependencies. */
  lemma DependencyComesLast(m: Modules, works: Path -> bool, before: seq<Path>, after: seq<Path>, p: Path, d: Path)
    requires WellOrdered(m, works, after) && before <= after && Edge(m, p, d)
    requires if Done(m, before, d) then after == before else after != [] && after[|after| - 1] == d
    ensures p in after ==> p in before
  {
  }

  /** What needs path also needs the dependencies of path. */
  lemma StackNeeds(m: Modules, stack: set<Path>, path: Path, d: Path)
    requires Edge(m, path, d)
    requires forall q :: q in stack ==> q == path || Needs(m, q, path)
    ensures forall q :: q in stack ==> Needs(m, q, d)
  {
    forall q | q in stack
      ensures Needs(m, q, d)
    {
      if q == path {
        ReachesItself(m, d);
      } else {
        var e :| Edge(m, q, e) && Reaches(m, e, path);
        ReachesOn(m, e, path, d);
      }
    }
  }

  /** A defect of the module itself. */
  lemma JustifiedHere(m: Modules, works: Path -> bool, e: Error)
    requires match e
      case NotFound(q) => q !in m
      case Circular(q) => Needs(m, q, q)
      case InitFailed(q) => q in m && m[q].state == Unloaded && !works(q)
    ensures Justified(m, works, e.path, e)
  {
    ReachesItself(m, e.path);
  }

  lemma JustifiedRefutes(m: Modules, works: Path -> bool, p: Path, e: Error)
    requires Justified(m, works, p, e)
    ensures !Loadable(m, works, p)
  {
  }

  lemma JustifiedThrough(m: Modules, works: Path -> bool, p: Path, d: Path, e: Error)
    requires Edge(m, p, d) && Justified(m, works, d, e)
    ensures Justified(m, works, p, e)
  {
    ReachesThrough(m, p, d, e.path);
  }

  /** An error before any call leaves the calls as they are. */
  lemma NothingBroken(m: Modules, works: Path -> bool, inits: seq<Path>)
    requires WellOrdered(m, works, inits)
    ensures forall e: Error :: !e.InitFailed? ==> BrokenOff(m, works, inits, inits, e)
  {
    hide WellOrdered;
  }

  lemma NothingNew(m: Modules, inits: seq<Path>, p: Path)
    ensures NewAreReached(m, inits, inits, p)
  {
  }

  /** The calls of a dependency are calls of the module that needs it. */
  lemma NewThrough(m: Modules, before: seq<Path>, mid: seq<Path>, after: seq<Path>, p: Path, d: Path)
    requires Edge(m, p, d) && mid <= after
    requires NewAreReached(m, before, mid, p) && NewAreReached(m, mid, after, d)
    ensures NewAreReached(m, before, after, p)
  {
    hide Reaches, Edge;
    forall k | |before| <= k < |after|
      ensures Reaches(m, p, after[k])
    {
      if k >= |mid| {
        ReachesThrough(m, p, d, after[k]);
      }
    }
  }

  lemma NewIsItself(m: Modules, before: seq<Path>, inits: seq<Path>, p: Path)
    requires NewAreReached(m, before, inits, p)
    ensures NewAreReached(m, before, inits + [p], p)
  {
    hide Reaches;
    ReachesItself(m, p);
  }

  lemma BrokenOffBefore(
      m: Modules, works: Path -> bool, before: seq<Path>, mid: seq<Path>, after: seq<Path>, e: Error)
    requires before <= mid && BrokenOff(m, works, mid, after, e)
    ensures BrokenOff(m, works, before, after, e) && mid <= after
  {
    hide WellOrdered;
  }

  /** The call that fails comes after those of all dependencies. */
  lemma BrokenOffHere(m: Modules, works: Path -> bool, before: seq<Path>, inits: seq<Path>, p: Path)
    requires before <= inits && WellOrdered(m, works, inits) && p !in inits && p in m
    requires forall d :: d in m[p].dependencyPaths ==> Done(m, inits, d)
    ensures BrokenOff(m, works, before, inits + [p], InitFailed(p))
  {
    hide WellOrdered;
    assert (inits + [p])[..|inits|] == inits;
  }

  // ---------------------------------------------------------------- the map

  lemma MarkLoading(m: Modules, works: Path -> bool, now: Modules, inits: seq<Path>, p: Path)
    requires Tracks(m, works, now, inits) && p in now && now[p].state == Unloaded
    ensures var next := now[p := now[p].(state := Loading)];
      && Tracks(m, works, next, inits)
      && InState(next, Loading) == InState(now, Loading) + {p}
      && InState(next, Unloaded) == InState(now, Unloaded) - {p}
      && m[p].state == Unloaded && p !in inits
  {
  }

  lemma MarkLoaded(m: Modules, works: Path -> bool, now: Modules, inits: seq<Path>, p: Path)
    requires Tracks(m, works, now, inits) && p in now && now[p].state == Loading && works(p)
    requires forall d :: d in now[p].dependencyPaths ==> Done(m, inits, d)
    ensures var next := now[p := now[p].(state := Loaded)];
      && Tracks(m, works, next, inits + [p])
      && InState(next, Loading) == InState(now, Loading) - {p}
      && InState(next, Unloaded) == InState(now, Unloaded)
  {
    OrderedSnoc(m, works, inits, p);
  }

  lemma OrderedSnoc(m: Modules, works: Path -> bool, inits: seq<Path>, p: Path)
    requires WellOrdered(m, works, inits)
    requires p in m && m[p].state == Unloaded && works(p) && p !in inits
    requires forall d :: d in m[p].dependencyPaths ==> Done(m, inits, d)
    ensures WellOrdered(m, works, inits + [p])
  {
    forall i | 0 <= i <= |inits|
      ensures (inits + [p])[..i] == inits[..i]
    {
    }
  }
}
