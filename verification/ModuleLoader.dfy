/** Module loading: a depth-first walk of the (possibly cyclic) requires graph.

    The file system is a finite map from paths to file contents.  Running a module's
    top-level is one entry in a run log whose success flag is an arbitrary function
    of the runs so far.
 */
module ModuleLoader {
  import opened Options

  /** "<dir>/<stem>.bin", in canonical form. */
  datatype Path = Path(dir: string, stem: string)

  datatype File = File(readable: bool, needs: seq<string>)

  datatype Entry = Entry(path: Path, name: string, file: File)

  datatype Run = Run(path: Path, ok: bool)

  /** Everything the loader reads from outside: the disk, the search roots, the project directory. */
  datatype World = World(fs: map<Path, File>, roots: seq<string>, project: string) {

    // Two files never share a stem, so a logical module name identifies one file.
    ghost predicate OneFilePerStem() {
      forall p, q :: p in fs && q in fs && p.stem == q.stem ==> p == q
    }

    function Candidates(from: Path, name: string): seq<Path> {
      [Path(from.dir, name)] + seq(|roots|, i requires 0 <= i < |roots| => Path(roots[i], name))
      + [Path(project, name)]
    }

    // The directories in which a module looks for what it requires, in this order.
    ghost predicate IsSearched(from: Path, dir: string) {
      dir == from.dir || dir in roots || dir == project
    }

    // Where the search for a name from a module ends: its own directory, the roots in order, the project.
    ghost predicate EndsAt(from: Path, name: string, found: Option<Path>) {
      match found
      case None => forall dir :: IsSearched(from, dir) ==> Path(dir, name) !in fs
      case Some(p) =>
        && p in fs && p.stem == name
        && if Path(from.dir, name) in fs then p.dir == from.dir
           else if exists i :: 0 <= i < |roots| && Path(roots[i], name) in fs then
             exists i :: 0 <= i < |roots| && Path(roots[i], name) == p && forall j :: 0 <= j < i ==> Path(roots[j], name) !in fs
           else p.dir == project
    }

    function FirstExisting(candidates: seq<Path>): (r: Option<Path>)
      ensures r.Some? ==> r.value in fs && r.value in candidates
      ensures r.None? <==> forall c :: c in candidates ==> c !in fs
    {
      if candidates == [] then None
      else if candidates[0] in fs then Some(candidates[0])
      else FirstExisting(candidates[1..])
    }

    function Resolve(from: Path, name: string): Option<Path> {
      FirstExisting(Candidates(from, name))
    }

    // a's file lists a name that resolves to b.
    ghost predicate Requires(a: Path, b: Path) {
      a in fs && exists i :: 0 <= i < |fs[a].needs| && Resolve(a, fs[a].needs[i]) == Some(b)
    }

    // The requirements of all modules but the known ones.
    ghost function Graph(known: set<Path>): set<(Path, Path)> {
      set a, b | a in fs && b in fs && a !in known && Requires(a, b) :: (a, b)
    }

    // a leads to b without going through a known module.
    ghost predicate Reaches(known: set<Path>, a: Path, b: Path) {
      Linked(Graph(known), a, b)
    }

    // Every name that p's file lists is somewhere on disk.
    ghost predicate AllFound(p: Path) {
      p in fs && forall i :: 0 <= i < |fs[p].needs| ==> Resolve(p, fs[p].needs[i]).Some?
    }

    // Every name that p's file lists resolves to a member of s.
    ghost predicate NeedsWithin(p: Path, s: set<Path>) {
      p in fs && NeedsWithinUpTo(p, |fs[p].needs|, s)
    }

    ghost predicate NeedsWithinUpTo(p: Path, n: nat, s: set<Path>)
      requires p in fs && n <= |fs[p].needs|
    {
      forall i :: 0 <= i < n ==> Resolve(p, fs[p].needs[i]).Some? && Resolve(p, fs[p].needs[i]).value in s
    }

    ghost predicate Acyclic() {
      forall a, b :: Requires(a, b) ==> !Reaches({}, b, a)
    }
  }

  lemma {:induction false} FirstExistingIsFirst(w: World, candidates: seq<Path>, k: nat)
    requires k < |candidates| && candidates[k] in w.fs
    requires forall j :: 0 <= j < k ==> candidates[j] !in w.fs
    ensures w.FirstExisting(candidates) == Some(candidates[k])
  {
    if k > 0 {
      FirstExistingIsFirst(w, candidates[1..], k - 1);
    }
  }

  /** A required module is looked for in the directory of the module that requires it, then in the
      roots in their order, then in the project; it is the first one there. */
  lemma ResolveEndsAt(w: World, from: Path, name: string)
    ensures w.EndsAt(from, name, w.Resolve(from, name))
  {
    var candidates := w.Candidates(from, name);
    var n := |w.roots|;
    assert candidates[0] == Path(from.dir, name) && candidates[n + 1] == Path(w.project, name);
    assert forall i :: 0 <= i < n ==> candidates[i + 1] == Path(w.roots[i], name);
    if Path(from.dir, name) in w.fs {
      FirstExistingIsFirst(w, candidates, 0);
    } else if exists i :: 0 <= i < n && Path(w.roots[i], name) in w.fs {
      var i :| 0 <= i < n && Path(w.roots[i], name) in w.fs && forall j :: 0 <= j < i ==> Path(w.roots[j], name) !in w.fs by {
        FirstRoot(w, name, n);
      }
      FirstExistingIsFirst(w, candidates, i + 1);
    } else if Path(w.project, name) in w.fs {
      FirstExistingIsFirst(w, candidates, n + 1);
    } else {
      forall dir | w.IsSearched(from, dir)
        ensures Path(dir, name) !in w.fs
      {
      }
    }
  }

  lemma {:induction false} FirstRoot(w: World, name: string, n: nat)
    requires n <= |w.roots| && exists i :: 0 <= i < n && Path(w.roots[i], name) in w.fs
    ensures exists i :: 0 <= i < n && Path(w.roots[i], name) in w.fs && forall j :: 0 <= j < i ==> Path(w.roots[j], name) !in w.fs
  {
    if exists i :: 0 <= i < n - 1 && Path(w.roots[i], name) in w.fs {
      FirstRoot(w, name, n - 1);
    } else {
      assert Path(w.roots[n - 1], name) in w.fs;
    }
  }

  // b is n edges away from a.
  ghost predicate LinkedIn(g: set<(Path, Path)>, n: nat, a: Path, b: Path) {
    if n == 0 then a == b else exists c :: (a, c) in g && LinkedIn(g, n - 1, c, b)
  }

  ghost predicate Linked(g: set<(Path, Path)>, a: Path, b: Path) {
    exists n: nat :: LinkedIn(g, n, a, b)
  }

  lemma {:induction false} LinkedInThenEdge(g: set<(Path, Path)>, n: nat, a: Path, b: Path, c: Path)
    requires LinkedIn(g, n, a, b) && (b, c) in g
    ensures LinkedIn(g, n + 1, a, c)
  {
    if n == 0 {
      assert LinkedIn(g, 0, c, c);
    } else {
      var d :| (a, d) in g && LinkedIn(g, n - 1, d, b);
      LinkedInThenEdge(g, n - 1, d, b, c);
    }
  }

  // A set that contains a and the far end of every edge of its members contains all that a reaches.
  lemma {:induction false} ClosedSetHoldsLinked(g: set<(Path, Path)>, s: set<Path>, n: nat, a: Path, b: Path)
    requires a in s && LinkedIn(g, n, a, b)
    requires forall p, q :: p in s && (p, q) in g ==> q in s
    ensures b in s
  {
    if n > 0 {
      var c :| (a, c) in g && LinkedIn(g, n - 1, c, b);
      ClosedSetHoldsLinked(g, s, n - 1, c, b);
    }
  }

  lemma EdgeThenLinked(g: set<(Path, Path)>, a: Path, b: Path, c: Path)
    requires (a, b) in g && Linked(g, b, c)
    ensures Linked(g, a, c)
  {
    var n: nat :| LinkedIn(g, n, b, c);
    assert LinkedIn(g, n + 1, a, c);
  }

  // More edges link more.
  lemma {:induction false} LinkedInMore(g: set<(Path, Path)>, h: set<(Path, Path)>, n: nat, a: Path, b: Path)
    requires LinkedIn(g, n, a, b) && g <= h
    ensures LinkedIn(h, n, a, b)
  {
    if n > 0 {
      var c :| (a, c) in g && LinkedIn(g, n - 1, c, b);
      LinkedInMore(g, h, n - 1, c, b);
    }
  }

  lemma ReachesThenRequires(w: World, known: set<Path>, a: Path, b: Path, c: Path)
    requires w.Reaches(known, a, b) && b !in known && w.Requires(b, c)
    ensures w.Reaches(known, a, c)
  {
    var n: nat :| LinkedIn(w.Graph(known), n, a, b);
    LinkedInThenEdge(w.Graph(known), n, a, b, c);
  }

  lemma RequiresThenReaches(w: World, known: set<Path>, a: Path, b: Path, c: Path)
    requires a !in known && w.Requires(a, b) && w.Reaches(known, b, c)
    ensures w.Reaches(known, a, c)
  {
    EdgeThenLinked(w.Graph(known), a, b, c);
  }

  lemma ReachesSelf(w: World, known: set<Path>, a: Path)
    ensures w.Reaches(known, a, a)
  {
    assert LinkedIn(w.Graph(known), 0, a, a);
  }

  lemma ReachesAtAll(w: World, known: set<Path>, a: Path, b: Path)
    requires w.Reaches(known, a, b)
    ensures w.Reaches({}, a, b)
  {
    var n: nat :| LinkedIn(w.Graph(known), n, a, b);
    LinkedInMore(w.Graph(known), w.Graph({}), n, a, b);
  }

  // A set whose unknown members require only its members holds the far ends of their edges.
  lemma ClosedUnderNeeds(w: World, known: set<Path>, s: set<Path>)
    requires forall p :: p in s - known ==> w.NeedsWithin(p, s)
    ensures forall p, q :: p in s && (p, q) in w.Graph(known) ==> q in s
  {
    forall p, q | p in s && (p, q) in w.Graph(known)
      ensures q in s
    {
      assert p in s - known && w.Requires(p, q);
    }
  }

  // Whatever leads into a closed set ends there; whatever does not, avoids the edges out of it.
  lemma {:induction false} LeadsPastOrInto(g: set<(Path, Path)>, h: set<(Path, Path)>, s: set<Path>, n: nat, a: Path, b: Path)
    requires LinkedIn(g, n, a, b)
    requires forall p, q :: p in s && (p, q) in g ==> q in s
    requires forall p, q :: p !in s && (p, q) in g ==> (p, q) in h
    ensures b in s || LinkedIn(h, n, a, b)
  {
    if a in s {
      ClosedSetHoldsLinked(g, s, n, a, b);
    } else if n > 0 {
      var c :| (a, c) in g && LinkedIn(g, n - 1, c, b);
      LeadsPastOrInto(g, h, s, n - 1, c, b);
    }
  }

  lemma ReachesPastOrInto(w: World, known: set<Path>, a: Path, b: Path)
    requires w.Reaches({}, a, b) && forall p :: p in known ==> w.NeedsWithin(p, known)
    ensures b in known || w.Reaches(known, a, b)
  {
    var n: nat :| LinkedIn(w.Graph({}), n, a, b);
    ClosedUnderNeeds(w, {}, known);
    LeadsPastOrInto(w.Graph({}), w.Graph(known), known, n, a, b);
  }

  // ---- run logs ----

  ghost function Done(log: seq<Run>): set<Path> {
    set i | 0 <= i < |log| && log[i].ok :: log[i].path
  }

  // What has run successfully at or after index start.
  ghost function DoneSince(log: seq<Run>, start: nat): set<Path>
    requires start <= |log|
  {
    Done(log[start..])
  }

  // At the run at index i all requirements were found, and each had run successfully, except those
  // known before the start and those that lead back to the running module.
  ghost predicate RunsAfterNeeds(w: World, known: set<Path>, log: seq<Run>, start: nat, i: nat)
    requires start <= i < |log|
  {
    w.AllFound(log[i].path) && forall d :: w.Requires(log[i].path, d) ==>
      d in known || d in Done(log[start..i]) || w.Reaches(known, d, log[i].path)
  }

  ghost predicate Ordered(w: World, known: set<Path>, log: seq<Run>, start: nat)
  {
    forall i :: start <= i < |log| ==> RunsAfterNeeds(w, known, log, start, i)
  }

  // No module runs twice at or after index start.
  ghost predicate RunsOnce(log: seq<Run>, start: nat)
  {
    forall i, j :: start <= i < j < |log| ==> log[i].path != log[j].path
  }

  // Every run at or after index start succeeded, except possibly the very last one.
  ghost predicate StopsAtFirstFailure(log: seq<Run>, start: nat)
  {
    forall i :: start <= i < |log| - 1 ==> log[i].ok
  }

  // Every run went as the module's top-level makes it go at that point.
  ghost predicate Reported(outcome: (seq<Run>, Path) -> bool, log: seq<Run>)
  {
    forall i :: 0 <= i < |log| ==> log[i].ok == outcome(log[..i], log[i].path)
  }

  lemma ReportedAppend(outcome: (seq<Run>, Path) -> bool, log: seq<Run>, p: Path)
    requires Reported(outcome, log)
    ensures Reported(outcome, log + [Run(p, outcome(log, p))])
  {
    var next := log + [Run(p, outcome(log, p))];
    forall i | 0 <= i < |next|
      ensures next[i].ok == outcome(next[..i], next[i].path)
    {
      assert next[..i] == log[..i] && log[..|log|] == log;
    }
  }

  ghost predicate AlwaysSucceeds(outcome: (seq<Run>, Path) -> bool)
  {
    forall log, p :: outcome(log, p)
  }

  lemma DoneAppend(log: seq<Run>, r: Run)
    ensures Done(log + [r]) == Done(log) + (if r.ok then {r.path} else {})
  {
    var next := log + [r];
    forall p | p in Done(log) + (if r.ok then {r.path} else {})
      ensures p in Done(next)
    {
      if p in Done(log) {
        var i :| 0 <= i < |log| && log[i].ok && log[i].path == p;
        assert next[i] == log[i];
      } else {
        assert next[|log|] == r;
      }
    }
    forall p | p in Done(next)
      ensures p in Done(log) + (if r.ok then {r.path} else {})
    {
      var i :| 0 <= i < |next| && next[i].ok && next[i].path == p;
      if i < |log| {
        assert log[i] == next[i];
      }
    }
  }

  lemma DoneSinceAppend(log: seq<Run>, start: nat, r: Run)
    requires start <= |log|
    ensures DoneSince(log + [r], start) == DoneSince(log, start) + (if r.ok then {r.path} else {})
  {
    assert (log + [r])[start..] == log[start..] + [r];
    DoneAppend(log[start..], r);
  }

  lemma {:induction false} DoneBeforeAndSince(log: seq<Run>, start: nat)
    requires start <= |log|
    ensures Done(log) == Done(log[..start]) + DoneSince(log, start)
    decreases |log|
  {
    if start == |log| {
      assert log[..start] == log && log[start..] == [];
    } else {
      var n := |log| - 1;
      DoneBeforeAndSince(log[..n], start);
      DoneSinceAppend(log[..n], start, log[n]);
      DoneAppend(log[..n], log[n]);
      assert log[..n] + [log[n]] == log && log[..n][..start] == log[..start];
    }
  }

  lemma OrderedAppend(w: World, known: set<Path>, log: seq<Run>, start: nat, r: Run)
    requires start <= |log| && Ordered(w, known, log, start) && w.AllFound(r.path)
    requires forall d :: w.Requires(r.path, d) ==> d in known || d in DoneSince(log, start) || w.Reaches(known, d, r.path)
    ensures Ordered(w, known, log + [r], start)
  {
    var next := log + [r];
    forall i | start <= i < |next|
      ensures RunsAfterNeeds(w, known, next, start, i)
    {
      assert next[start..i] == log[start..i];
      if i < |log| {
        assert RunsAfterNeeds(w, known, log, start, i);
      } else {
        assert log[start..i] == log[start..];
      }
    }
  }

  // Why a load that began at index start failed: a file that cannot be read, a requirement that
  // is nowhere on disk, or a top-level that failed.
  ghost predicate Broken(w: World, p: Path, log: seq<Run>, start: nat)
  {
    || p !in w.fs
    || !w.fs[p].readable
    || !w.AllFound(p)
    || (start < |log| && log[|log| - 1] == Run(p, false))
  }

  // ---- the walk ----

  /** Where a walk began: the run log and the modules registered at that time. */
  datatype Start = Start(log: seq<Run>, known: set<Path>)

  // The state of a walk: which modules are registered, what ran, which paths were visited,
  // and which modules are grey, that is, have requirements being loaded right now.
  ghost predicate Walking(w: World, start: Start, registered: set<Path>, log: seq<Run>,
                          visited: set<Path>, grey: set<Path>)
  {
    && start.log <= log
    && start.known <= registered <= start.known + visited
    && grey <= visited && grey <= registered && grey !! start.known && grey !! DoneSince(log, |start.log|)
    && visited - grey - start.known <= DoneSince(log, |start.log|) <= registered
    && (forall p :: p in visited - grey - start.known ==> w.NeedsWithin(p, visited))
    && (forall i :: |start.log| <= i < |log| ==> log[i].ok && log[i].path !in start.known)
    && Ordered(w, start.known, log, |start.log|) && RunsOnce(log, |start.log|)
  }

  // What a failed walk leaves behind.
  ghost predicate Aborted(w: World, start: Start, registered: set<Path>, log: seq<Run>, grey: set<Path>)
  {
    && start.log <= log && start.known <= registered
    && grey <= registered && grey !! DoneSince(log, |start.log|)
    && Ordered(w, start.known, log, |start.log|) && RunsOnce(log, |start.log|) && StopsAtFirstFailure(log, |start.log|)
  }

  lemma NeedsWithinMore(w: World, p: Path, s: set<Path>, t: set<Path>)
    requires s <= t && w.NeedsWithin(p, s)
    ensures w.NeedsWithin(p, t)
  {
  }

  lemma OneMoreNeed(w: World, p: Path, n: nat, s: set<Path>, t: set<Path>)
    requires p in w.fs && n < |w.fs[p].needs| && s <= t && w.NeedsWithinUpTo(p, n, s)
    requires w.Resolve(p, w.fs[p].needs[n]).Some? && w.Resolve(p, w.fs[p].needs[n]).value in t
    ensures w.NeedsWithinUpTo(p, n + 1, t)
  {
  }

  // A walk that has just begun.
  lemma BeginWalk(w: World, start: Start)
    ensures Walking(w, start, start.known, start.log, {}, {})
  {
  }

  lemma VisitRegistered(w: World, start: Start, registered: set<Path>, log: seq<Run>,
                        visited: set<Path>, grey: set<Path>, path: Path)
    requires Walking(w, start, registered, log, visited, grey)
    requires path in registered && path !in visited
    ensures Walking(w, start, registered, log, visited + {path}, grey)
  {
    forall p | p in visited + {path} - grey - start.known
      ensures w.NeedsWithin(p, visited + {path})
    {
      NeedsWithinMore(w, p, visited, visited + {path});
    }
  }

  lemma EnterModule(w: World, start: Start, registered: set<Path>, log: seq<Run>,
                    visited: set<Path>, grey: set<Path>, path: Path)
    requires Walking(w, start, registered, log, visited, grey)
    requires path !in registered && path !in visited
    ensures Walking(w, start, registered + {path}, log, visited + {path}, grey + {path})
  {
    forall p | p in visited + {path} - (grey + {path}) - start.known
      ensures w.NeedsWithin(p, visited + {path})
    {
      NeedsWithinMore(w, p, visited, visited + {path});
    }
  }

  // A module whose requirements are all visited may run: the ones not yet done are known or grey,
  // and every grey module reaches the one about to run.
  lemma RunModule(w: World, start: Start, registered: set<Path>, log: seq<Run>,
                  visited: set<Path>, grey: set<Path>, path: Path, ok: bool)
    requires path !in grey && Walking(w, start, registered, log, visited, grey + {path})
    requires forall g :: g in grey ==> w.Reaches(start.known, g, path)
    requires w.NeedsWithin(path, visited)
    ensures ok ==> Walking(w, start, registered, log + [Run(path, ok)], visited, grey)
    ensures !ok ==> Aborted(w, start, registered, log + [Run(path, ok)], grey)
    ensures !ok ==> path !in DoneSince(log + [Run(path, ok)], |start.log|)
  {
    DoneSinceAppend(log, |start.log|, Run(path, ok));
    forall d | w.Requires(path, d)
      ensures d in start.known || d in DoneSince(log, |start.log|) || w.Reaches(start.known, d, path)
    {
      if d == path {
        ReachesSelf(w, start.known, path);
      }
    }
    OrderedAppend(w, start.known, log, |start.log|, Run(path, ok));
    forall i | |start.log| <= i < |log|
      ensures log[i].path != path
    {
      assert log[|start.log|..][i - |start.log|] == log[i];
    }
  }

  // Whatever reaches a module also reaches each module it requires, and what that one reaches,
  // the module reaches too.
  lemma AllReachNeed(w: World, known: set<Path>, grey: set<Path>, path: Path, j: nat)
    requires path in w.fs && j < |w.fs[path].needs| && w.Resolve(path, w.fs[path].needs[j]).Some?
    requires path !in known && forall g :: g in grey ==> w.Reaches(known, g, path)
    ensures var need := w.Resolve(path, w.fs[path].needs[j]).value;
            && (forall g :: g in grey + {path} ==> w.Reaches(known, g, need))
            && (forall p :: w.Reaches(known, need, p) ==> w.Reaches(known, path, p))
  {
    var need := w.Resolve(path, w.fs[path].needs[j]).value;
    assert w.Requires(path, need);
    ReachesSelf(w, known, path);
    forall g | g in grey + {path}
      ensures w.Reaches(known, g, need)
    {
      ReachesThenRequires(w, known, g, path, need);
    }
    forall p | w.Reaches(known, need, p)
      ensures w.Reaches(known, path, p)
    {
      RequiresThenReaches(w, known, path, need, p);
    }
  }

  // Nothing that the root leads to, past the known modules, is broken.
  ghost predicate NothingBroken(w: World, root: Path, known: set<Path>, log: seq<Run>, start: nat)
  {
    forall p :: w.Reaches(known, root, p) && p !in known ==> !Broken(w, p, log, start)
  }

  // Everything that the root leads to, past the known modules, is readable and finds what it requires.
  ghost predicate NothingMissing(w: World, root: Path, known: set<Path>)
  {
    forall p :: w.Reaches(known, root, p) && p !in known ==> p in w.fs && w.fs[p].readable && w.AllFound(p)
  }

  // If no top-level ever fails, a file or a requirement must be missing.
  lemma MissingIsBroken(w: World, root: Path, known: set<Path>, outcome: (seq<Run>, Path) -> bool, log: seq<Run>, start: nat)
    requires Reported(outcome, log) && AlwaysSucceeds(outcome)
    ensures NothingBroken(w, root, known, log, start) <==> NothingMissing(w, root, known)
  {
    assert |log| > 0 ==> log[|log| - 1].ok;
  }

  lemma NewlyDoneIsNotKnown(w: World, start: Start, registered: set<Path>, log: seq<Run>, visited: set<Path>)
    requires Walking(w, start, registered, log, visited, {})
    ensures registered == start.known + visited && registered - start.known == DoneSince(log, |start.log|)
  {
    forall p | p in DoneSince(log, |start.log|)
      ensures p !in start.known
    {
      var recent := log[|start.log|..];
      var i :| 0 <= i < |recent| && recent[i].ok && recent[i].path == p;
      assert recent[i] == log[|start.log| + i];
    }
  }

  // At the end of a walk everything reached is registered, and what is new has run and found
  // all it requires.
  lemma FinishedWalk(w: World, start: Start, registered: set<Path>, log: seq<Run>, visited: set<Path>, root: Path)
    requires Walking(w, start, registered, log, visited, {}) && root in visited
    ensures registered - start.known == DoneSince(log, |start.log|)
    ensures forall p :: w.Reaches(start.known, root, p) ==> p in registered
    ensures forall p :: p in registered - start.known ==> w.NeedsWithin(p, registered)
  {
    NewlyDoneIsNotKnown(w, start, registered, log, visited);
    forall p | p in registered - start.known
      ensures w.NeedsWithin(p, registered)
    {
      NeedsWithinMore(w, p, visited, registered);
    }
    ClosedUnderNeeds(w, start.known, registered);
    forall p | w.Reaches(start.known, root, p)
      ensures p in registered
    {
      var n: nat :| LinkedIn(w.Graph(start.known), n, root, p);
      ClosedSetHoldsLinked(w.Graph(start.known), registered, n, root, p);
    }
  }

  lemma FinishedWalkBrokeNothing(w: World, start: Start, registered: set<Path>, log: seq<Run>, visited: set<Path>, root: Path)
    requires Walking(w, start, registered, log, visited, {}) && root in visited
    requires forall p :: p in registered ==> p in w.fs && w.fs[p].readable
    ensures NothingBroken(w, root, start.known, log, |start.log|)
  {
    FinishedWalk(w, start, registered, log, visited, root);
    forall p | w.Reaches(start.known, root, p) && p !in start.known
      ensures !Broken(w, p, log, |start.log|)
    {
      assert w.NeedsWithin(p, registered);
    }
  }

  // ---- registries in which everything has run ----

  // Loading on top of a registry that is closed and has run: the log is ordered outright.
  lemma OrderedOutright(w: World, start: Start, log: seq<Run>, i: nat, d: Path)
    requires start.log <= log && |start.log| <= i < |log| && Ordered(w, start.known, log, |start.log|)
    requires start.known <= Done(start.log) && w.Requires(log[i].path, d)
    ensures d in Done(log[..i]) || w.Reaches({}, d, log[i].path)
  {
    var n := |start.log|;
    assert RunsAfterNeeds(w, start.known, log, n, i);
    DoneBeforeAndSince(log[..i], n);
    assert log[..i][..n] == start.log && log[..i][n..] == log[n..i];
    if w.Reaches(start.known, d, log[i].path) {
      ReachesAtAll(w, start.known, d, log[i].path);
    }
  }

  class Carbon {
    var byName: map<string, Entry>
    var byPath: map<Path, string>
    var runLog: seq<Run>
    const outcome: (seq<Run>, Path) -> bool

    ghost predicate Valid(w: World)
      reads this
    {
      && w.OneFilePerStem() && Reported(outcome, runLog)
      && (forall p :: p in byPath ==> p in w.fs && w.fs[p].readable && byPath[p] == p.stem && p.stem in byName && byName[p.stem].path == p)
      && (forall n :: n in byName ==> byName[n].path in byPath && byName[n].name == n
                                      && byName[n].path.stem == n && byName[n].file == w.fs[byName[n].path])
    }

    // Every registered module has run its top-level, and so has everything it requires.
    ghost predicate Settled(w: World)
      reads this
    {
      && Valid(w)
      && Done(runLog) == byPath.Keys
      && forall p :: p in byPath ==> w.NeedsWithin(p, byPath.Keys)
    }

    constructor (outcome: (seq<Run>, Path) -> bool)
      ensures byName == map[] && byPath == map[] && runLog == [] && this.outcome == outcome
    {
      byName, byPath, runLog := map[], map[], [];
      this.outcome := outcome;
    }

    /** Register the file at path, unless it is registered already. */
    method LoadModule(w: World, path: Path) returns (ok: bool)
      requires Valid(w)
      modifies this`byName, this`byPath
      ensures Valid(w)
      ensures ok <==> path in old(byPath) || (path in w.fs && w.fs[path].readable)
      ensures byPath.Keys == old(byPath.Keys) + (if ok then {path} else {})
      ensures !ok ==> unchanged(this)
    {
      if path in byPath {
        return true;
      }
      if path !in w.fs || !w.fs[path].readable {
        return false;
      }
      byName := byName[path.stem := Entry(path, path.stem, w.fs[path])];
      byPath := byPath[path := path.stem];
      return true;
    }

    /** Run the top-level of the module registered under this logical name. */
    method RunTopLevel(name: string) returns (ok: bool)
      modifies this`runLog
      ensures name !in byName ==> !ok && runLog == old(runLog)
      ensures name in byName ==>
        ok == outcome(old(runLog), byName[name].path) && runLog == old(runLog) + [Run(byName[name].path, ok)]
    {
      if name !in byName {
        return false;
      }
      ok := outcome(runLog, byName[name].path);
      runLog := runLog + [Run(byName[name].path, ok)];
    }

    method LoadModuleRecursive(w: World, path: Path, visited: set<Path>, ghost grey: set<Path>, ghost start: Start)
      returns (ok: bool, visited': set<Path>, ghost culprit: Path)
      requires Valid(w) && Walking(w, start, byPath.Keys, runLog, visited, grey)
      requires forall g :: g in grey ==> w.Reaches(start.known, g, path)
      modifies this`byName, this`byPath, this`runLog
      ensures Valid(w)
      ensures ok ==> Walking(w, start, byPath.Keys, runLog, visited', grey) && visited + {path} <= visited'
      ensures !ok ==> Aborted(w, start, byPath.Keys, runLog, grey)
      ensures !ok ==> w.Reaches(start.known, path, culprit) && Broken(w, culprit, runLog, |start.log|) && culprit !in start.known
      ensures path in visited || path in old(byPath) ==> ok && unchanged(this)
      ensures !ok && path in w.fs && w.fs[path].readable ==> path in byPath && path !in DoneSince(runLog, |start.log|)
      ensures !ok && !(path in w.fs && w.fs[path].readable) ==> unchanged(this)
      decreases w.fs.Keys - visited, 1
    {
      visited', culprit := visited, path;
      ReachesSelf(w, start.known, path);
      if path in visited' {
        return true, visited', culprit;
      }
      visited' := visited' + {path};
      if path in byPath {
        VisitRegistered(w, start, byPath.Keys, runLog, visited, grey, path);
        return true, visited', culprit;
      }
      EnterModule(w, start, byPath.Keys, runLog, visited, grey, path);
      ok := LoadModule(w, path);
      if !ok {
        return false, visited', culprit;
      }
      ok, visited', culprit := LoadNeeds(w, path, visited', grey, start);
      if !ok {
        return false, visited', culprit;
      }
      culprit := path;
      ok := FinishModule(w, path, visited', grey, start);
    }

    /** The last step of loading a module: run its top-level, now that all it requires is up. */
    method FinishModule(w: World, path: Path, visited: set<Path>, ghost grey: set<Path>, ghost start: Start)
      returns (ok: bool)
      requires Valid(w) && path in byPath && path !in grey && w.NeedsWithin(path, visited)
      requires Walking(w, start, byPath.Keys, runLog, visited, grey + {path})
      requires forall g :: g in grey ==> w.Reaches(start.known, g, path)
      modifies this`runLog
      ensures Valid(w) && runLog == old(runLog) + [Run(path, ok)]
      ensures ok ==> Walking(w, start, byPath.Keys, runLog, visited, grey)
      ensures !ok ==> Aborted(w, start, byPath.Keys, runLog, grey + {path}) && Broken(w, path, runLog, |start.log|)
    {
      ok := RunTopLevel(path.stem);
      ReportedAppend(outcome, old(runLog), path);
      RunModule(w, start, byPath.Keys, old(runLog), visited, grey, path, ok);
    }

    /** The first existing "<name>.bin" among the directories a requiring module may use. */
    method FindCandidate(w: World, path: Path, name: string) returns (found: Option<Path>)
      ensures found == w.Resolve(path, name) && w.EndsAt(path, name, found)
    {
      ResolveEndsAt(w, path, name);
      var candidates := w.Candidates(path, name);
      for k := 0 to |candidates|
        invariant forall i :: 0 <= i < k ==> candidates[i] !in w.fs
      {
        if candidates[k] in w.fs {
          FirstExistingIsFirst(w, candidates, k);
          return Some(candidates[k]);
        }
      }
      return None;
    }

    /** Load whatever the "requires" list of a registered module names, in order, up to the first failure. */
    method LoadNeeds(w: World, path: Path, visited: set<Path>, ghost grey: set<Path>, ghost start: Start)
      returns (ok: bool, visited': set<Path>, ghost culprit: Path)
      requires Valid(w) && path in byPath && path !in grey
      requires Walking(w, start, byPath.Keys, runLog, visited, grey + {path})
      requires forall g :: g in grey ==> w.Reaches(start.known, g, path)
      modifies this`byName, this`byPath, this`runLog
      ensures Valid(w)
      ensures ok ==> Walking(w, start, byPath.Keys, runLog, visited', grey + {path})
      ensures ok ==> visited <= visited' && w.NeedsWithin(path, visited') && path in byPath
      ensures !ok ==> Aborted(w, start, byPath.Keys, runLog, grey + {path})
      ensures !ok ==> w.Reaches(start.known, path, culprit) && Broken(w, culprit, runLog, |start.log|) && culprit !in start.known
      decreases w.fs.Keys - visited, 2
    {
      visited', culprit := visited, path;
      ReachesSelf(w, start.known, path);
      var needs := byName[path.stem].file.needs;
      var j := 0;
      while j < |needs|
        invariant 0 <= j <= |needs| && needs == w.fs[path].needs
        invariant Valid(w) && Walking(w, start, byPath.Keys, runLog, visited', grey + {path})
        invariant visited <= visited'
        invariant w.NeedsWithinUpTo(path, j, visited')
      {
        var found := FindCandidate(w, path, needs[j]);
        if found.None? {
          return false, visited', path;
        }
        AllReachNeed(w, start.known, grey, path, j);
        ghost var before := visited';
        ok, visited', culprit := LoadModuleRecursive(w, found.value, visited', grey + {path}, start);
        if !ok {
          return false, visited', culprit;
        }
        OneMoreNeed(w, path, j, before, visited');
        j := j + 1;
      }
      ok := true;
    }

    /** Load a module and all it requires, in dependency order.  Modules that are registered
        already are taken for initialised and not looked into, whatever became of them. */
    method LoadModuleWithImports(w: World, path: Path) returns (ok: bool)
      requires Valid(w)
      modifies this`byName, this`byPath, this`runLog
      ensures Valid(w) && old(runLog) <= runLog && old(byPath.Keys) <= byPath.Keys
      // In every run: requirements first, each module once, nothing after a failure.
      ensures Ordered(w, old(byPath.Keys), runLog, |old(runLog)|)
      ensures RunsOnce(runLog, |old(runLog)|)
      ensures StopsAtFirstFailure(runLog, |old(runLog)|)
      // It fails exactly when something newly reached is broken.
      ensures ok <==> NothingBroken(w, path, old(byPath.Keys), runLog, |old(runLog)|)
      // If no top-level ever fails, the files alone decide.
      ensures AlwaysSucceeds(outcome) ==> (ok <==> NothingMissing(w, path, old(byPath.Keys)))
      // Success means everything newly reached is registered and has run.
      ensures ok ==> forall p :: w.Reaches(old(byPath.Keys), path, p) ==>
        p in byPath && (p in old(byPath) || p in DoneSince(runLog, |old(runLog)|))
      // Every newly registered module has run, unless something newly reached is broken although
      // the root could be read: then the root counts as loaded and has not run.
      ensures byPath.Keys - old(byPath.Keys) <= DoneSince(runLog, |old(runLog)|) <==>
        NothingBroken(w, path, old(byPath.Keys), runLog, |old(runLog)|) || path !in w.fs || !w.fs[path].readable
      // A registered module is not loaded again, even if it never ran.
      ensures path in old(byPath) ==> ok && unchanged(this)
      ensures ok ==> byPath.Keys - old(byPath.Keys) == DoneSince(runLog, |old(runLog)|)
                     && forall p :: p in byPath.Keys - old(byPath.Keys) ==> w.NeedsWithin(p, byPath.Keys)
      ensures !ok && (path !in w.fs || !w.fs[path].readable) ==> unchanged(this)
      ensures !ok && path in w.fs && w.fs[path].readable ==> path in byPath && path !in DoneSince(runLog, |old(runLog)|)
    {
      ghost var start := Start(runLog, byPath.Keys);
      var visited: set<Path>;
      ghost var culprit;
      BeginWalk(w, start);
      ok, visited, culprit := LoadModuleRecursive(w, path, {}, {}, start);
      if ok {
        FinishedWalk(w, start, byPath.Keys, runLog, visited, path);
        FinishedWalkBrokeNothing(w, start, byPath.Keys, runLog, visited, path);
      }
      if AlwaysSucceeds(outcome) {
        MissingIsBroken(w, path, start.known, outcome, runLog, |start.log|);
      }
    }

    /** The same on a registry in which everything has run: then it is so again, unless the load
        failed although the root could be read. */
    method LoadFromSettled(w: World, path: Path) returns (ok: bool)
      requires Settled(w)
      modifies this`byName, this`byPath, this`runLog
      ensures Valid(w) && old(runLog) <= runLog
      ensures forall i, d :: |old(runLog)| <= i < |runLog| && w.Requires(runLog[i].path, d) ==>
        d in Done(runLog[..i]) || w.Reaches({}, d, runLog[i].path)
      ensures ok ==> forall p :: w.Reaches({}, path, p) ==> p in byPath && p in Done(runLog)
      ensures Settled(w) <==>
        NothingBroken(w, path, old(byPath.Keys), runLog, |old(runLog)|) || path !in w.fs || !w.fs[path].readable
    {
      ghost var start := Start(runLog, byPath.Keys);
      ok := LoadModuleWithImports(w, path);
      forall i, d | |start.log| <= i < |runLog| && w.Requires(runLog[i].path, d)
        ensures d in Done(runLog[..i]) || w.Reaches({}, d, runLog[i].path)
      {
        OrderedOutright(w, start, runLog, i, d);
      }
      DoneBeforeAndSince(runLog, |start.log|);
      assert runLog[..|start.log|] == start.log;
      if ok {
        forall p | w.Reaches({}, path, p)
          ensures p in byPath
        {
          ReachesPastOrInto(w, start.known, path, p);
        }
        forall p | p in byPath
          ensures w.NeedsWithin(p, byPath.Keys)
        {
          if p in start.known {
            NeedsWithinMore(w, p, start.known, byPath.Keys);
          }
        }
      }
    }
  }

  // Without cycles the runs are a topological order: each requirement was known or ran before.
  lemma AcyclicRunsAreTopological(w: World, known: set<Path>, log: seq<Run>, start: nat, i: nat, d: Path)
    requires w.Acyclic() && start <= i < |log| && Ordered(w, known, log, start)
    requires w.Requires(log[i].path, d) && d !in known
    ensures exists j :: start <= j < i && log[j] == Run(d, true)
  {
    assert RunsAfterNeeds(w, known, log, start, i);
    if w.Reaches(known, d, log[i].path) {
      ReachesAtAll(w, known, d, log[i].path);
    }
    var recent := log[start..i];
    assert d in Done(recent);
    var j :| 0 <= j < |recent| && recent[j].ok && recent[j].path == d;
    assert log[start + j] == Run(d, true);
  }

  /** A failed load is taken for initialised by the next one: the root requires a file that does not
      exist, the first load fails, the second one succeeds, and the root has never run. */
  method FailedLoadPoisonsRegistry(outcome: (seq<Run>, Path) -> bool)
    returns (carbon: Carbon, w: World, root: Path, first: bool, second: bool)
    ensures !first && second
    ensures carbon.Valid(w) && root in carbon.byPath && carbon.runLog == [] && !carbon.Settled(w)
  {
    root := Path("lib", "a");
    w := World(map[root := File(true, ["b"])], [], "lib");
    carbon := new Carbon(outcome);
    assert carbon.byPath.Keys == {};
    first := carbon.LoadModuleWithImports(w, root);
    ReachesSelf(w, {}, root);
    MissingNeed(w, root);
    NothingFoundNothingRun(w, {}, carbon.runLog);
    second := carbon.LoadModuleWithImports(w, root);
  }

  // Where no module finds all it requires, nothing runs.
  lemma NothingFoundNothingRun(w: World, known: set<Path>, log: seq<Run>)
    requires Ordered(w, known, log, 0) && forall p :: !w.AllFound(p)
    ensures log == []
  {
    assert forall i :: 0 <= i < |log| ==> RunsAfterNeeds(w, known, log, 0, i) && w.AllFound(log[i].path);
    assert |log| == 0 || w.AllFound(log[0].path);
  }

  lemma MissingNeed(w: World, root: Path)
    requires root == Path("lib", "a") && w == World(map[root := File(true, ["b"])], [], "lib")
    ensures forall p :: !w.AllFound(p)
  {
    assert w.fs[root].needs[0] == "b";
    var candidates := w.Candidates(root, "b");
    forall c | c in candidates
      ensures c !in w.fs
    {
      assert c.stem == "b";
    }
  }
}
