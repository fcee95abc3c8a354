/** Delivering coalesced deletes has the same effect on the index as deleting every path at once. */
module Coalescing {
  import opened Paths
  import opened Objects
  import opened DeleteEvents

  /** `index_delete` for each item in turn. */
  function DeletedAll(t: Table, items: seq<Item>): Table
    decreases |items|
  {
    if items == [] then t
    else DeletedAll(IndexDeleted(t, items[0].isDir, items[0].path), items[1..])
  }

  predicate HitBySome(items: seq<Item>, path: string) {
    exists x | x in items :: Hits(x.path, x.isDir, path)
  }

  /** A sequence of removals is one filter: order and repetition do not matter. */
  lemma {:induction false} DeletedAllIsFilter(t: Table, items: seq<Item>)
    ensures DeletedAll(t, items) ==
            Table(map id | id in t.rows && !HitBySome(items, t.rows[id].path) :: t.rows[id], t.nextId)
    decreases |items|
  {
    if items == [] {
      assert DeletedAll(t, items).rows == t.rows;
    } else {
      var t1 := IndexDeleted(t, items[0].isDir, items[0].path);
      DeletedAllIsFilter(t1, items[1..]);
      forall p ensures HitBySome(items, p) <==> Hits(items[0].path, items[0].isDir, p) || HitBySome(items[1..], p) {
        HitSplit(items, p);
      }
    }
  }

  lemma HitSplit(items: seq<Item>, p: string)
    requires items != []
    ensures HitBySome(items, p) <==> Hits(items[0].path, items[0].isDir, p) || HitBySome(items[1..], p)
  {
    if x :| x in items && Hits(x.path, x.isDir, p) {
      assert x == items[0] || x in items[1..];
    }
    assert forall x :: x in items[1..] ==> x in items;
  }

  lemma CoverHits(over: Item, x: Item, p: string)
    requires Covers(over, x) && Hits(x.path, x.isDir, p)
    ensures Hits(over.path, over.isDir, p)
  {
    if over != x {
      UnderTransitive(p, x.path, over.path);
    }
  }

  /** Two lists of removals that cover each other empty the same rows. */
  lemma CoverSameFilter(t: Table, xs: seq<Item>, ys: seq<Item>)
    requires forall y :: y in ys ==> y in xs
    requires forall x :: x in xs ==> exists over :: over in ys && Covers(over, x)
    ensures DeletedAll(t, xs) == DeletedAll(t, ys)
  {
    forall p ensures HitBySome(xs, p) <==> HitBySome(ys, p) {
      if HitBySome(xs, p) {
        var x :| x in xs && Hits(x.path, x.isDir, p);
        var over :| over in ys && Covers(over, x);
        CoverHits(over, x, p);
      }
    }
    DeletedAllIsFilter(t, xs);
    DeletedAllIsFilter(t, ys);
  }

  /** Whatever the batching, the cancellations, the duplicates and the order of delivery: once all
      delete goroutines are over, the table is the one that deleting each path immediately would give. */
  lemma CoalescingRefinesNaive(t: Table, s: DeleteEvents.State)
    requires Reachable(s) && Quiescent(s) && !s.stopped
    ensures DeletedAll(t, s.delivered) == DeletedAll(t, s.added)
  {
    var steps :| Run(INITIAL, steps, s);
    RunKeepsInvariant(INITIAL, steps, s);
    QuiescentDelivered(s);
    CoverSameFilter(t, s.added, s.delivered);
  }

  // What coalescing saves: as long as no timer expires.

  function AfterAdds(items: seq<Item>): (s: DeleteEvents.State)
    ensures EvInRange(s) && |s.gs| == |items|
  {
    if items == [] then INITIAL else AfterAdd(AfterAdds(items[..|items| - 1]), items[|items| - 1])
  }

  /** The goroutines that were not called off are the current entries. */
  ghost predicate Current(s: DeleteEvents.State) {
    && EvInRange(s)
    && (forall d :: d in s.ev ==> s.gs[s.ev[d]].parentDir == d)
    && forall i :: 0 <= i < |s.gs| ==>
         var g := s.gs[i];
         && g.phase == Waiting && g.items != []
         && (g.closes == 0 <==> g.parentDir in s.ev && s.ev[g.parentDir] == i)
         && forall x :: x in g.items ==> Clean(x.path) && Dir(x.path) == g.parentDir
  }

  lemma AddKeepsCurrent(s: DeleteEvents.State, item: Item)
    requires Current(s) && Clean(item.path)
    ensures Current(AfterAdd(s, item))
    ensures forall x :: LiveIn(AfterAdd(s, item).gs, x) <==>
      x == item || (LiveIn(s.gs, x) && !(item.isDir && Under(x.path, item.path)))
  {
    AddedIsCurrent(s, item);
    forall x ensures LiveIn(AfterAdd(s, item).gs, x) <==>
      x == item || (LiveIn(s.gs, x) && !(item.isDir && Under(x.path, item.path)))
    {
      AddedLive(s, item, x);
    }
  }

  lemma AddedIsCurrent(s: DeleteEvents.State, item: Item)
    requires Current(s) && Clean(item.path)
    ensures Current(AfterAdd(s, item))
  {
    var s' := AfterAdd(s, item);
    forall i | 0 <= i < |s'.gs|
      ensures var g := s'.gs[i];
              && g.phase == Waiting && g.items != []
              && (g.closes == 0 <==> g.parentDir in s'.ev && s'.ev[g.parentDir] == i)
              && forall x :: x in g.items ==> Clean(x.path) && Dir(x.path) == g.parentDir
    {
      if i < |s.gs| { assert s.gs[i].phase == Waiting; }
    }
  }

  lemma AddedLive(s: DeleteEvents.State, item: Item, x: Item)
    requires Current(s) && Clean(item.path)
    ensures LiveIn(AfterAdd(s, item).gs, x) <==>
      x == item || (LiveIn(s.gs, x) && !(item.isDir && Under(x.path, item.path)))
  {
    assert EvInRange(s);
    hide LiveIn, Current, AfterAdd, Under;
    NewIsLive(s, item);
    if LiveIn(AfterAdd(s, item).gs, x) && x != item { WasLive(s, item, x); }
    if LiveIn(s.gs, x) && !(item.isDir && Under(x.path, item.path)) { StaysLive(s, item, x); }
  }

  lemma NewIsLive(s: DeleteEvents.State, item: Item)
    requires Current(s)
    ensures LiveIn(AfterAdd(s, item).gs, item)
  {
    hide Dir;
    assert item in Remaining(AfterAdd(s, item).gs[|s.gs|]);
  }

  lemma WasLive(s: DeleteEvents.State, item: Item, x: Item)
    requires Current(s) && Clean(item.path) && LiveIn(AfterAdd(s, item).gs, x) && x != item
    ensures LiveIn(s.gs, x) && !(item.isDir && Under(x.path, item.path))
  {
    hide Clean, Dir, Under, AtOrUnder;
    var s' := AfterAdd(s, item);
    var i :| 0 <= i < |s'.gs| && x in Remaining(s'.gs[i]);
    var j := if i < |s.gs| then i else s.ev[Dir(item.path)];
    assert x in Remaining(s.gs[j]);
    UnderMeansClosed(item, x);
  }

  lemma StaysLive(s: DeleteEvents.State, item: Item, x: Item)
    requires Current(s) && Clean(item.path) && LiveIn(s.gs, x) && !(item.isDir && Under(x.path, item.path))
    ensures LiveIn(AfterAdd(s, item).gs, x)
  {
    hide Clean, Dir, Under, AtOrUnder;
    var s' := AfterAdd(s, item);
    var i :| 0 <= i < |s.gs| && x in Remaining(s.gs[i]);
    UnderMeansClosed(item, x);
    if Dir(x.path) == Dir(item.path) {
      assert x in Remaining(s'.gs[|s.gs|]);
    } else {
      assert x in Remaining(s'.gs[i]);
    }
  }

  lemma UnderMeansClosed(item: Item, x: Item)
    requires Clean(item.path) && Clean(x.path)
    ensures Under(x.path, item.path) <==> AtOrUnder(Dir(x.path), item.path)
    ensures Under(x.path, item.path) ==> Dir(x.path) != Dir(item.path)
  {
    CleanShape(x.path);
    CleanShape(item.path);
    UnderViaDir(x.path, item.path);
    DirNotWithin(item.path);
  }

  /** Item j is x, and no later directory takes it along. */
  predicate Kept(items: seq<Item>, j: nat, x: Item) {
    && j < |items| && items[j] == x
    && forall k | j < k < |items| :: !(items[k].isDir && Under(x.path, items[k].path))
  }

  ghost predicate Remains(items: seq<Item>, x: Item) {
    exists j :: Kept(items, j, x)
  }

  lemma RemainsAfter(init: seq<Item>, last: Item, x: Item)
    ensures Remains(init + [last], x) <==>
      x == last || (Remains(init, x) && !(last.isDir && Under(x.path, last.path)))
  {
    var items := init + [last];
    if x == last { assert Kept(items, |init|, x); }
    if j :| Kept(init, j, x) && !(last.isDir && Under(x.path, last.path)) { assert Kept(items, j, x); }
    if j :| Kept(items, j, x) && x != last {
      assert items[|init|] == last;
      assert forall k :: 0 <= k < |init| ==> items[k] == init[k];
      assert Kept(init, j, x);
    }
  }

  lemma OneMoreAdd(init: seq<Item>, last: Item)
    requires Clean(last.path) && Current(AfterAdds(init))
    requires forall x :: LiveIn(AfterAdds(init).gs, x) <==> Remains(init, x)
    ensures Current(AfterAdds(init + [last]))
    ensures forall x :: LiveIn(AfterAdds(init + [last]).gs, x) <==> Remains(init + [last], x)
  {
    hide AfterAdd, Current, LiveIn, Remains, Clean, Under;
    var items := init + [last];
    assert items[..|init|] == init;
    assert AfterAdds(items) == AfterAdd(AfterAdds(init), last);
    hide AfterAdds;
    AddKeepsCurrent(AfterAdds(init), last);
    forall x ensures LiveIn(AfterAdds(items).gs, x) <==> Remains(items, x) {
      RemainsAfter(init, last, x);
    }
  }

  /** While no timer expires, at most one goroutine per directory is left to run, and together they hold
      exactly the items that no later directory has taken along. */
  lemma {:induction false} AddsCoalesce(items: seq<Item>)
    requires forall x :: x in items ==> Clean(x.path)
    ensures Current(AfterAdds(items))
    ensures forall x :: LiveIn(AfterAdds(items).gs, x) <==> Remains(items, x)
    decreases |items|
  {
    if items == [] {
      NothingAdded();
    } else {
      hide AfterAdd, AfterAdds, Current, LiveIn, Remains, Clean;
      var init, last := items[..|items| - 1], items[|items| - 1];
      assert items == init + [last];
      AddsCoalesce(init);
      OneMoreAdd(init, last);
    }
  }

  lemma NothingAdded()
    ensures Current(AfterAdds([]))
    ensures forall x :: !LiveIn(AfterAdds([]).gs, x) && !Remains([], x)
  {
  }

  /** A goroutine that was not called off before the top is added waits in a directory below it. */
  lemma WaitsBelow(init: seq<Item>, top: Item, i: nat)
    requires Clean(top.path) && forall x :: x in init ==> Clean(x.path) && Under(x.path, top.path)
    requires i < |init| && AfterAdds(init).gs[i].closes == 0
    ensures var g := AfterAdds(init).gs[i];
            AtOrUnder(g.parentDir, top.path) && g.parentDir != Dir(top.path)
  {
    hide AfterAdds;
    AddsCoalesce(init);
    var g := AfterAdds(init).gs[i];
    var x := g.items[0];
    assert x in Remaining(g);
    assert LiveIn(AfterAdds(init).gs, x);
    var j :| Kept(init, j, x);
    UnderMeansClosed(top, x);
  }

  /** Deleting a whole tree from the bottom up within the delay comes down to one removal, that of its top. */
  lemma TreeIsOneRemoval(init: seq<Item>, top: Item)
    requires Clean(top.path) && top.isDir && forall x :: x in init ==> Clean(x.path) && Under(x.path, top.path)
    ensures var gs := AfterAdds(init + [top]).gs;
            |gs| == |init| + 1 && gs[|init|].items == [top] && gs[|init|].closes == 0
            && forall i :: 0 <= i < |init| ==> gs[i].closes > 0
  {
    assert (init + [top])[..|init|] == init;
    AddsCoalesce(init);
    var s := AfterAdds(init);
    assert AfterAdds(init + [top]) == AfterAdd(s, top);
    hide AfterAdds, Clean, Dir;
    assert Dir(top.path) !in s.ev by {
      if Dir(top.path) in s.ev { WaitsBelow(init, top, s.ev[Dir(top.path)]); }
    }
    forall i | 0 <= i < |init| ensures AfterAdd(s, top).gs[i].closes > 0 {
      if s.gs[i].closes == 0 { WaitsBelow(init, top, i); }
    }
  }
}
