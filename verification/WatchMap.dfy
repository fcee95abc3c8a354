/** The two-way map between inotify watch descriptors and directory paths. */
module WatchMap {
  import opened Paths

  /** The value of a watch map. */
  datatype Watches = Watches(pathByWd: map<nat, string>, wdByPath: map<string, nat>) {

    /** The two maps are inverse to each other. */
    ghost predicate Inverse() {
      && (forall wd :: wd in pathByWd ==> pathByWd[wd] in wdByPath && wdByPath[pathByWd[wd]] == wd)
      && (forall p :: p in wdByPath ==> wdByPath[p] in pathByWd && pathByWd[wdByPath[p]] == p)
    }
  }

  const NO_WATCHES := Watches(map[], map[])

  function Added(w: Watches, wd: nat, path: string): Watches {
    Watches(w.pathByWd[wd := path], w.wdByPath[path := wd])
  }

  function RenamedPaths(pathByWd: map<nat, string>, from: string, to: string): map<nat, string> {
    map wd | wd in pathByWd :: Renamed(pathByWd[wd], from, to)
  }

  function RenamedWatches(w: Watches, from: string, to: string): Watches {
    Watches(RenamedPaths(w.pathByWd, from, to), RenamedKeys(w.wdByPath, from, to))
  }

  function Removed(w: Watches, path: string): Watches {
    if path in w.wdByPath then
      Watches(w.pathByWd - {w.wdByPath[path]}, w.wdByPath - {path})
    else w
  }

  /** The descriptors watching `path` or anything below it. */
  function WdsWithin(w: Watches, path: string): set<nat> {
    set wd | wd in w.pathByWd && AtOrUnder(w.pathByWd[wd], path)
  }

  function RemovedRecursively(w: Watches, path: string): Watches {
    Watches(
      map wd | wd in w.pathByWd && !AtOrUnder(w.pathByWd[wd], path) :: w.pathByWd[wd],
      map p | p in w.wdByPath && !AtOrUnder(p, path) :: w.wdByPath[p])
  }

  /** `add` keeps the maps inverse exactly when neither the descriptor nor the path
      is already paired with something else. */
  lemma AddedInverse(w: Watches, wd: nat, path: string)
    requires w.Inverse()
    ensures Added(w, wd, path).Inverse()
      <==> (wd in w.pathByWd ==> w.pathByWd[wd] == path) && (path in w.wdByPath ==> w.wdByPath[path] == wd)
  {
    var w' := Added(w, wd, path);
    if wd in w.pathByWd && w.pathByWd[wd] != path {
      var p := w.pathByWd[wd];
      assert p in w'.wdByPath && w'.wdByPath[p] == wd && w'.pathByWd[wd] != p;
    }
    if path in w.wdByPath && w.wdByPath[path] != wd {
      var d := w.wdByPath[path];
      assert d in w'.pathByWd && w'.pathByWd[d] == path && w'.wdByPath[path] != d;
    }
  }

  /** When nothing is watched at or under the new path, a rename keeps the maps inverse;
      when a rebased path is already watched elsewhere, it does not. */
  lemma RenamedInverse(w: Watches, from: string, to: string)
    requires w.Inverse() && Disjoint(from, to)
    ensures RenamedWatches(w, from, to).Inverse()
      <==> (forall p :: p in w.wdByPath && AtOrUnder(p, from) ==> Rebase(p, from, to) !in w.wdByPath)
  {
    var w' := RenamedWatches(w, from, to);
    forall p ensures p in w'.wdByPath <==> InRenamedKeys(w.wdByPath, p, from, to) {
      RenamedKeysAt(w.wdByPath, p, from, to);
    }
    if p :| p in w.wdByPath && AtOrUnder(p, from) && Rebase(p, from, to) in w.wdByPath {
      RenameCollides(w, p, from, to);
    } else {
      forall wd | wd in w'.pathByWd
        ensures w'.pathByWd[wd] in w'.wdByPath && w'.wdByPath[w'.pathByWd[wd]] == wd
      {
        RenamedWdRoundTrip(w, wd, from, to);
      }
      forall p | p in w'.wdByPath
        ensures w'.wdByPath[p] in w'.pathByWd && w'.pathByWd[w'.wdByPath[p]] == p
      {
        if AtOrUnder(p, to) && Rebase(p, to, from) in w.wdByPath {
          RebaseRoundTrip(p, to, from);
        }
      }
    }
  }

  lemma RenameCollides(w: Watches, p: string, from: string, to: string)
    requires w.Inverse() && Disjoint(from, to)
    requires p in w.wdByPath && AtOrUnder(p, from) && Rebase(p, from, to) in w.wdByPath
    ensures !RenamedWatches(w, from, to).Inverse()
  {
    var w' := RenamedWatches(w, from, to);
    var q := Rebase(p, from, to);
    RebaseRoundTrip(p, from, to);
    var moved, hidden := w.wdByPath[p], w.wdByPath[q];
    DisjointSubtrees(q, to, from);
    assert w'.pathByWd[hidden] == q;
    assert w'.pathByWd[moved] == q;
    assert moved != hidden by { DisjointSubtrees(p, from, to); }
  }

  lemma RenamedWdRoundTrip(w: Watches, wd: nat, from: string, to: string)
    requires w.Inverse() && Disjoint(from, to) && wd in w.pathByWd
    requires forall p :: p in w.wdByPath && AtOrUnder(p, from) ==> Rebase(p, from, to) !in w.wdByPath
    ensures var w' := RenamedWatches(w, from, to);
            w'.pathByWd[wd] in w'.wdByPath && w'.wdByPath[w'.pathByWd[wd]] == wd
  {
    var p := w.pathByWd[wd];
    var q := Renamed(p, from, to);
    RenamedKeysAt(w.wdByPath, q, from, to);
    if AtOrUnder(p, from) {
      RebaseRoundTrip(p, from, to);
    } else if AtOrUnder(q, to) && Rebase(q, to, from) in w.wdByPath {
      RebaseRoundTrip(q, to, from);
    }
  }

  lemma RenamePathsBack(m: map<nat, string>, from: string, to: string)
    requires forall wd :: wd in m ==> !AtOrUnder(m[wd], to)
    ensures RenamedPaths(RenamedPaths(m, from, to), to, from) == m
  {
    forall wd | wd in m ensures Renamed(Renamed(m[wd], from, to), to, from) == m[wd] {
      if AtOrUnder(m[wd], from) { RebaseRoundTrip(m[wd], from, to); }
    }
  }

  /** Renaming there and back restores the map when the target subtree was free. */
  lemma RenameBack(w: Watches, from: string, to: string)
    requires w.Inverse() && Disjoint(from, to)
    requires forall p :: p in w.wdByPath ==> !AtOrUnder(p, to)
    ensures RenamedWatches(RenamedWatches(w, from, to), to, from) == w
  {
    RenamePathsBack(w.pathByWd, from, to);
    RenamedKeysBack(w.wdByPath, from, to);
  }

  lemma TargetIsRebase(path: string, target: string, from: string, to: string)
    requires to != ""
    requires target == if path == from then to else if from + "/" <= path then to + path[|from|..] else ""
    ensures target != "" <==> AtOrUnder(path, from)
    ensures AtOrUnder(path, from) ==> target == Rebase(path, from, to)
  {
    if path == from { assert path[|from|..] == ""; }
  }

  lemma RemovedInverse(w: Watches, path: string)
    requires w.Inverse()
    ensures Removed(w, path).Inverse()
    ensures RemovedRecursively(w, path).Inverse()
    ensures WdsWithin(w, path) == w.pathByWd.Keys - RemovedRecursively(w, path).pathByWd.Keys
  {
  }

  /** The map itself. Iteration over a Go map visits the entries in an arbitrary order,
      here an arbitrary choice from the entries not visited yet. */
  class WatchMap {
    var pathByWd: map<nat, string>
    var wdByPath: map<string, nat>

    ghost function State(): Watches
      reads this
    {
      Watches(pathByWd, wdByPath)
    }

    constructor ()
      ensures State() == NO_WATCHES
    {
      pathByWd, wdByPath := map[], map[];
    }

    method Add(wd: nat, path: string)
      modifies this
      ensures State() == Added(old(State()), wd, path)
    {
      pathByWd := pathByWd[wd := path];
      wdByPath := wdByPath[path := wd];
    }

    method Path(wd: nat) returns (path: string, ok: bool)
      ensures ok <==> wd in pathByWd
      ensures ok ==> path == pathByWd[wd]
    {
      ok := wd in pathByWd;
      path := if ok then pathByWd[wd] else "";
    }

    method Rename(from: string, to: string)
      requires State().Inverse() && Disjoint(from, to) && to != ""
      modifies this
      ensures State() == RenamedWatches(old(State()), from, to)
    {
      ghost var w0 := State();
      var todo := pathByWd.Keys;
      while todo != {}
        invariant PartlyRenamed(w0, todo, State(), from, to)
      {
        var wd :| wd in todo;
        ghost var w := State();
        var path := pathByWd[wd];
        var target := "";
        if path == from {
          target := to;
        } else if from + "/" <= path {
          target := to + path[|from|..];
        }
        TargetIsRebase(path, target, from, to);
        if target != "" {
          wdByPath := wdByPath - {path};
          pathByWd := pathByWd[wd := target];
          wdByPath := wdByPath[target := wd];
        }
        PartStep(w0, todo, wd, w, State(), from, to);
        todo := todo - {wd};
      }
      AllRenamed(w0, State(), from, to);
    }

    method RmByPath(path: string)
      modifies this
      ensures State() == Removed(old(State()), path)
    {
      if path in wdByPath {
        var wd := wdByPath[path];
        pathByWd := pathByWd - {wd};
        wdByPath := wdByPath - {path};
      }
    }

    method RmByPathRecursive(path: string) returns (wds: seq<nat>)
      requires State().Inverse()
      modifies this
      ensures State() == RemovedRecursively(old(State()), path)
      ensures forall wd :: wd in wds <==> wd in WdsWithin(old(State()), path)
      ensures forall i, j :: 0 <= i < j < |wds| ==> wds[i] != wds[j]
    {
      ghost var w0 := State();
      wds := [];
      var todo := pathByWd.Keys;
      while todo != {}
        invariant PartlyRemoved(w0, todo, State(), wds, path)
      {
        var wd :| wd in todo;
        ghost var w, ds := State(), wds;
        var p := pathByWd[wd];
        if p == path || path + "/" <= p {
          pathByWd := pathByWd - {wd};
          wdByPath := wdByPath - {p};
          wds := wds + [wd];
        }
        RemoveStep(w0, todo, wd, w, ds, State(), wds, path);
        todo := todo - {wd};
      }
    }

    method Reset()
      modifies this
      ensures State() == NO_WATCHES
    {
      pathByWd := map[];
      wdByPath := map[];
    }
  }

  // The maps while the entries in `todo` are still to be visited.

  ghost predicate Visited(w0: Watches, todo: set<nat>, p: string) {
    p in w0.wdByPath && w0.wdByPath[p] !in todo
  }

  ghost predicate InPartlyRenamed(w0: Watches, todo: set<nat>, p: string, from: string, to: string) {
    || (p in w0.wdByPath && !(AtOrUnder(p, from) && Visited(w0, todo, p)))
    || (AtOrUnder(p, to) && Visited(w0, todo, Rebase(p, to, from)))
  }

  ghost function PartlyRenamedWd(w0: Watches, todo: set<nat>, p: string, from: string, to: string): nat
    requires InPartlyRenamed(w0, todo, p, from, to)
  {
    if AtOrUnder(p, to) && Visited(w0, todo, Rebase(p, to, from)) then w0.wdByPath[Rebase(p, to, from)]
    else w0.wdByPath[p]
  }

  ghost predicate PartlyRenamed(w0: Watches, todo: set<nat>, w: Watches, from: string, to: string) {
    && todo <= w.pathByWd.Keys == w0.pathByWd.Keys
    && (forall wd :: wd in w.pathByWd ==>
          w.pathByWd[wd] == if wd in todo then w0.pathByWd[wd] else Renamed(w0.pathByWd[wd], from, to))
    && (forall p :: p in w.wdByPath <==> InPartlyRenamed(w0, todo, p, from, to))
    && (forall p :: p in w.wdByPath ==> w.wdByPath[p] == PartlyRenamedWd(w0, todo, p, from, to))
  }

  lemma PartStep(w0: Watches, todo: set<nat>, wd: nat, w: Watches, w': Watches,
                                    from: string, to: string)
    requires w0.Inverse() && Disjoint(from, to)
    requires PartlyRenamed(w0, todo, w, from, to) && wd in todo
    requires var path := w.pathByWd[wd];
             w' == if AtOrUnder(path, from) then
                     var target := Rebase(path, from, to);
                     Watches(w.pathByWd[wd := target], (w.wdByPath - {path})[target := wd])
                   else w
    ensures PartlyRenamed(w0, todo - {wd}, w', from, to)
  {
    var path := w0.pathByWd[wd];
    forall p
      ensures p in w'.wdByPath <==> InPartlyRenamed(w0, todo - {wd}, p, from, to)
      ensures p in w'.wdByPath ==> w'.wdByPath[p] == PartlyRenamedWd(w0, todo - {wd}, p, from, to)
    {
      assert Visited(w0, todo - {wd}, p) <==> Visited(w0, todo, p) || p == path;
      if AtOrUnder(p, to) {
        var r := Rebase(p, to, from);
        assert Visited(w0, todo - {wd}, r) <==> Visited(w0, todo, r) || r == path;
        RebaseRoundTrip(p, to, from);
        DisjointSubtrees(p, to, from);
      }
      if AtOrUnder(path, from) {
        RebaseRoundTrip(path, from, to);
      }
    }
  }

  lemma AllRenamed(w0: Watches, w: Watches, from: string, to: string)
    requires w0.Inverse() && PartlyRenamed(w0, {}, w, from, to)
    ensures w == RenamedWatches(w0, from, to)
  {
    forall p ensures p in w.wdByPath <==> p in RenamedKeys(w0.wdByPath, from, to) {
      RenamedKeysAt(w0.wdByPath, p, from, to);
    }
    assert w.wdByPath == RenamedKeys(w0.wdByPath, from, to);
    assert w.pathByWd == RenamedPaths(w0.pathByWd, from, to);
  }

  ghost predicate PartlyRemoved(w0: Watches, todo: set<nat>, w: Watches, wds: seq<nat>, path: string) {
    && todo <= w.pathByWd.Keys <= w0.pathByWd.Keys
    && (forall wd :: wd in w0.pathByWd ==> (wd in w.pathByWd <==> wd in todo || !AtOrUnder(w0.pathByWd[wd], path)))
    && (forall wd :: wd in w.pathByWd ==> w.pathByWd[wd] == w0.pathByWd[wd])
    && (forall p :: p in w.wdByPath <==> p in w0.wdByPath && w0.wdByPath[p] in w.pathByWd)
    && (forall p :: p in w.wdByPath ==> w.wdByPath[p] == w0.wdByPath[p])
    && (forall wd :: wd in wds <==> wd in w0.pathByWd && wd !in w.pathByWd)
    && (forall i, j :: 0 <= i < j < |wds| ==> wds[i] != wds[j])
  }

  lemma RemoveStep(w0: Watches, todo: set<nat>, wd: nat, w: Watches, wds: seq<nat>,
                                      w': Watches, wds': seq<nat>, path: string)
    requires w0.Inverse() && PartlyRemoved(w0, todo, w, wds, path) && wd in todo
    requires if AtOrUnder(w.pathByWd[wd], path)
             then w' == Watches(w.pathByWd - {wd}, w.wdByPath - {w.pathByWd[wd]}) && wds' == wds + [wd]
             else w' == w && wds' == wds
    ensures PartlyRemoved(w0, todo - {wd}, w', wds', path)
  {
    forall d ensures d in wds' <==> d in w0.pathByWd && d !in w'.pathByWd {
      if AtOrUnder(w.pathByWd[wd], path) {
        assert d in wds' <==> d in wds || d == wd;
      }
    }
  }
}
