/** The browse tree that is answered from the table: `Children` and `ParentId`. */
module Browse {
  import opened Ordering
  import opened Paths
  import opened Objects
  import opened SqlLike
  import opened Queries

  /** What a request names: the row id and path of an object, or the root container. */
  datatype Obj = Obj(id: int, path: string)

  const ROOT := Obj(0, "Video Root")

  /** None without roots: the answer is then empty. */
  function ChildrenFilter(roots: seq<string>, o: Obj, limit: int, offset: int): Option<Filter> {
    var f := NO_FILTER.(parentPath := o.path, limit := limit, offset := offset, withTotalMatches := true);
    if o.id > 0 then Some(f)
    else if |roots| == 0 then None
    else if |roots| == 1 then Some(f.(parentPath := roots[0]))
    else Some(f.(parentPath := "", ownPaths := roots))
  }

  /** Only public rows are shown, so the time does not matter. */
  predicate IsChild(t: Table, roots: seq<string>, o: Obj, id: nat) {
    var f := ChildrenFilter(roots, o, 0, 0);
    id in t.rows && f.Some? && Matches(f.value, id, t.rows[id], 0)
  }

  /** All children, each once, folders first and each type by path. */
  ghost predicate ListsChildren(t: Table, roots: seq<string>, o: Obj, ids: seq<nat>) {
    && (forall id :: id in ids <==> IsChild(t, roots, o, id))
    && (forall i, j :: 0 <= i < j < |ids| ==> ids[i] != ids[j])
    && FoldersFirst(t.rows, ids)
  }

  function ChildIds(t: Table, roots: seq<string>, o: Obj): set<nat> {
    set id | id in t.rows && IsChild(t, roots, o, id)
  }

  /** Public rows do not depend on the time, and the window does not decide who is a child. */
  lemma ListingIsChildren(t: Table, roots: seq<string>, o: Obj, limit: int, offset: int, now: int, ids: seq<nat>)
    requires ChildrenFilter(roots, o, limit, offset).Some?
    requires Listing(t, ChildrenFilter(roots, o, limit, offset).value, now, ids)
    ensures ListsChildren(t, roots, o, ids)
    ensures MatchingIds(t, ChildrenFilter(roots, o, limit, offset).value, now) == ChildIds(t, roots, o)
  {
    hide Selects;
    var f := ChildrenFilter(roots, o, limit, offset).value;
    forall id: nat ensures id in ids <==> IsChild(t, roots, o, id) {
      assert id in ids <==> id in MatchingIds(t, f, now);
    }
    PublicOrder(t.rows, ids, 0, 0, ids);
  }

  /** A page of children: those from `offset` on, at most `limit` of them if limit is positive, out of the
      list of all children, folders first and each type by path; total counts all of them. */
  method Children(t: Table, roots: seq<string>, o: Obj, limit: int, offset: int, now: int)
    returns (items: seq<nat>, total: nat)
    requires UniquePaths(t.rows)
    ensures exists ids ::
      && ListsChildren(t, roots, o, ids)
      && var from := if offset <= 0 then 0 else if offset < |ids| then offset else |ids|;
         && |items| == (if 0 < limit < |ids| - from then limit else |ids| - from)
         && forall k :: 0 <= k < |items| ==> items[k] == ids[from + k]
    ensures total == |ChildIds(t, roots, o)|
    ensures forall id :: id in items ==> IsChild(t, roots, o, id)
  {
    hide Matches, Listing, ListsChildren, FoldersFirst, IsChild, ChildIds, Selects;
    var f := ChildrenFilter(roots, o, limit, offset);
    if f.None? {
      NoChildren(t, roots, o);
      return [], 0;
    }
    items, total := GetObjects(t, f.value, now);
    ghost var ids :| Listing(t, f.value, now, ids) && IsWindow(ids, limit, offset, items);
    ListingIsChildren(t, roots, o, limit, offset, now, ids);
    ItemsAreChildren(t, roots, o, limit, offset, ids, items);
  }

  lemma NoChildren(t: Table, roots: seq<string>, o: Obj)
    requires ChildrenFilter(roots, o, 0, 0).None?
    ensures ListsChildren(t, roots, o, []) && ChildIds(t, roots, o) == {}
  {
  }

  lemma ItemsAreChildren(t: Table, roots: seq<string>, o: Obj, limit: int, offset: int, ids: seq<nat>, items: seq<nat>)
    requires ListsChildren(t, roots, o, ids) && IsWindow(ids, limit, offset, items)
    ensures forall id :: id in items ==> IsChild(t, roots, o, id)
  {
    hide IsChild, FoldersFirst;
    assert forall id :: id in items ==> id in ids;
  }

  lemma ChildrenUnique(t: Table, roots: seq<string>, o: Obj, ids: seq<nat>, ids': seq<nat>)
    requires UniquePaths(t.rows) && ListsChildren(t, roots, o, ids) && ListsChildren(t, roots, o, ids')
    ensures ids == ids'
  {
    var less := (i, j) => Shown(t.rows, i, j);
    forall i, j | 0 <= i < j < |ids| ensures less(ids[i], ids[j]) {
      assert ids[i] in ids && ids[j] in ids;
    }
    forall i, j | 0 <= i < j < |ids'| ensures less(ids'[i], ids'[j]) {
      assert ids'[i] in ids' && ids'[j] in ids';
    }
    ShownIsOrder(t.rows);
    SortedUnique(ids, ids', less);
  }

  /** Row i is shown before row j. */
  ghost predicate Shown(rows: map<nat, Row>, i: nat, j: nat) {
    && i in rows && j in rows
    && (rows[i].typ == Video ==> rows[j].typ == Video)
    && (rows[i].typ == rows[j].typ ==> ComesBefore(rows[i].path, rows[j].path))
  }

  lemma ShownIsOrder(rows: map<nat, Row>)
    ensures StrictOrder({}, (i, j) => Shown(rows, i, j))
  {
    forall i | i in rows ensures !Shown(rows, i, i) {
    }
    forall i, j, k | Shown(rows, i, j) && Shown(rows, j, k) ensures Shown(rows, i, k) {
      if rows[i].typ == rows[k].typ { ComesBeforeTransitive(rows[i].path, rows[j].path, rows[k].path); }
    }
  }

  lemma ComesBeforeTransitive(a: string, b: string, c: string)
    requires ComesBefore(a, b) && ComesBefore(b, c)
    ensures ComesBefore(a, c)
  {
    var k: nat :| k <= |a| && k <= |b| && a[..k] == b[..k] && k < |b| && (k == |a| || a[k] < b[k]);
    var m: nat :| m <= |b| && m <= |c| && b[..m] == c[..m] && m < |c| && (m == |b| || b[m] < c[m]);
    var n := if k < m then k else m;
    assert a[..n] == a[..k][..n] == b[..k][..n] == b[..n];
    assert b[..n] == b[..m][..n] == c[..m][..n] == c[..n];
    assert k < m ==> b[k] == b[..m][k] == c[..m][k] == c[k];
    assert m < k ==> a[m] == a[..k][m] == b[..k][m] == b[m];
  }

  lemma ListSize(t: Table, roots: seq<string>, o: Obj, ids: seq<nat>)
    requires ListsChildren(t, roots, o, ids)
    ensures |ids| == |ChildIds(t, roots, o)|
  {
    DistinctSize(ids, ChildIds(t, roots, o));
  }

  /** The window at `offset` continues what was shown up to there. */
  lemma NextWindow(ids: seq<nat>, limit: nat, offset: nat, all: seq<nat>, page: seq<nat>)
    requires limit > 0 && IsWindow(ids, limit, offset, page)
    requires offset <= |ids| && all == ids[..offset]
    ensures |all + page| <= |ids| && all + page == ids[..|all + page|]
    ensures |all + page| < |ids| ==> |all + page| == offset + limit
  {
    assert forall k :: 0 <= k < |page| ==> page[k] == ids[offset + k];
  }

  /** A player that asks for one page after the other gets all children in order, each once. */
  method AllPages(t: Table, roots: seq<string>, o: Obj, limit: nat, now: int) returns (all: seq<nat>)
    requires UniquePaths(t.rows) && limit > 0
    ensures ListsChildren(t, roots, o, all)
  {
    hide IsChild, FoldersFirst, ListsChildren;
    var total;
    all, total := Children(t, roots, o, limit, 0, now);
    ghost var ids :| ListsChildren(t, roots, o, ids) && IsWindow(ids, limit, 0, all);
    ListSize(t, roots, o, ids);
    NextWindow(ids, limit, 0, [], all);
    assert [] + all == all;
    var offset := limit;
    while |all| < total
      invariant |all| <= |ids| == total && all == ids[..|all|]
      invariant |all| < total ==> |all| == offset
      decreases total - |all|
    {
      var page, _ := Children(t, roots, o, limit, offset, now);
      ghost var same :| ListsChildren(t, roots, o, same) && IsWindow(same, limit, offset, page);
      ChildrenUnique(t, roots, o, ids, same);
      NextWindow(ids, limit, offset, all, page);
      all := all + page;
      offset := offset + limit;
    }
    assert all == ids;
  }

  /** `Object(id)`: the root container, or the public row with this id. */
  method Object(t: Table, id: int, now: int) returns (o: Option<Obj>)
    requires UniquePaths(t.rows)
    ensures id <= 0 ==> o == Some(ROOT)
    ensures id > 0 && id in t.rows && t.rows[id].reindexAt == None ==> o == Some(Obj(id, t.rows[id].path))
    ensures id > 0 && !(id in t.rows && t.rows[id].reindexAt == None) ==> o == None
  {
    if id <= 0 {
      return Some(ROOT);
    }
    var items, _ := GetObjects(t, NO_FILTER.(id := id, sort := SortNone), now);
    if |items| == 0 {
      return None;
    }
    return Some(Obj(items[0], t.rows[items[0]].path));
  }

  predicate PublicAt(t: Table, path: string, id: nat) {
    id in t.rows && t.rows[id].path == path && t.rows[id].reindexAt.None?
  }

  /** The id that `ParentId` reports for a row, None for `ErrNoRows`. */
  ghost function ParentOf(t: Table, roots: seq<string>, o: Obj): Option<int> {
    if o.id <= 0 then Some(-1)
    else if |roots| > 1 && o.path in roots then Some(0)
    else if exists id :: PublicAt(t, Dir(o.path), id) then
      if |roots| == 1 && Dir(o.path) == roots[0] then Some(0)
      else
        var id: nat :| PublicAt(t, Dir(o.path), id);
        var parent: int := id;
        Some(parent)
    else None
  }

  method ParentId(t: Table, roots: seq<string>, o: Obj, now: int) returns (parent: Option<int>)
    requires WellFormed(t)
    ensures parent == ParentOf(t, roots, o)
    ensures o.id <= 0 ==> parent == Some(-1)
    ensures o.id > 0 ==> (parent == Some(0) <==>
      || (|roots| > 1 && o.path in roots)
      || (|roots| == 1 && Dir(o.path) == roots[0] && exists id :: PublicAt(t, roots[0], id)))
    ensures o.id > 0 && parent.Some? && parent.value > 0 ==> PublicAt(t, Dir(o.path), parent.value)
    ensures o.id > 0 && parent.None? ==> forall id :: !PublicAt(t, Dir(o.path), id)
    ensures o.id > 0 && parent.Some? ==> parent.value >= 0
  {
    if o.id <= 0 {
      return Some(-1);
    }
    if |roots| > 1 {
      for i := 0 to |roots|
        invariant o.path !in roots[..i]
      {
        if o.path == roots[i] {
          return Some(0);
        }
      }
      assert roots[..|roots|] == roots;
    }
    var f := NO_FILTER.(ownPaths := [Dir(o.path)], sort := SortNone, limit := 1);
    var items, _ := GetObjects(t, f, now);
    ParentListed(t, f, now, items, Dir(o.path));
    if items == [] {
      return None;
    }
    if |roots| == 1 && t.rows[items[0]].path == roots[0] {
      return Some(0);
    }
    return Some(items[0]);
  }

  lemma ParentListed(t: Table, f: Filter, now: int, items: seq<nat>, path: string)
    requires f == NO_FILTER.(ownPaths := [path], sort := SortNone, limit := 1)
    requires exists ids :: Listing(t, f, now, ids) && IsWindow(ids, 1, 0, items)
    ensures items == [] <==> forall id :: !PublicAt(t, path, id)
    ensures items != [] ==> PublicAt(t, path, items[0])
  {
    var ids :| Listing(t, f, now, ids) && IsWindow(ids, 1, 0, items);
    forall id: nat ensures id in ids <==> PublicAt(t, path, id) {
      assert id in ids <==> id in MatchingIds(t, f, now);
    }
    assert ids == [] <==> items == [];
    if ids != [] { assert ids[0] in ids && items[0] == ids[0]; }
  }

  // Consistency

  /** What the indexer keeps: rows are closed under parents, folders are public, roots do not nest.
      And what it does not: no folder name may contain a character that LIKE interprets. */
  ghost predicate Browsable(t: Table, roots: seq<string>) {
    && WellFormed(t) && roots != []
    && (forall r :: r in roots ==> Clean(r) && NoMeta(r))
    && (forall i, j :: 0 <= i < j < |roots| ==> Disjoint(roots[i], roots[j]))
    && ParentClosed(t.rows, roots)
    && (forall id :: id in t.rows ==> RowBrowsable(t.rows[id], roots))
  }

  ghost predicate RowBrowsable(row: Row, roots: seq<string>) {
    && Clean(row.path)
    && (exists r :: r in roots && AtOrUnder(row.path, r))
    && (row.typ == Folder ==> row.reindexAt.None? && NoMeta(row.path))
  }

  /** The containers that can be opened: the root container, and folders other than the one it stands for. */
  ghost predicate Opens(t: Table, roots: seq<string>, o: Obj) {
    || o == ROOT
    || (o.id > 0 && o.id in t.rows && o.path == t.rows[o.id].path && t.rows[o.id].typ == Folder
        && !(|roots| == 1 && o.path == roots[0]))
  }

  function ObjOf(t: Table, id: nat): Obj
    requires id in t.rows
  {
    Obj(id, t.rows[id].path)
  }

  /** What the filter of a container asks of a row. */
  lemma IsChildMeans(t: Table, roots: seq<string>, o: Obj, id: nat)
    requires roots != [] && roots[0] != "" && (o.id > 0 ==> o.path != "") && id in t.rows
    ensures IsChild(t, roots, o, id) <==>
            t.rows[id].reindexAt.None? &&
            if o.id > 0 then Selects(o.path, t.rows[id].path)
            else if |roots| == 1 then Selects(roots[0], t.rows[id].path)
            else t.rows[id].path in roots
  {
    hide Selects;
  }

  /** The children of a container are the public rows whose directory it is. */
  lemma ChildDir(t: Table, roots: seq<string>, o: Obj, id: nat)
    requires Browsable(t, roots) && Opens(t, roots, o) && id in t.rows
    ensures IsChild(t, roots, o, id) <==>
            t.rows[id].reindexAt.None? &&
            if o.id > 0 then Dir(t.rows[id].path) == o.path
            else if |roots| == 1 then Dir(t.rows[id].path) == roots[0]
            else t.rows[id].path in roots
  {
    hide IsChild, Selects, NoMeta;
    var p := t.rows[id].path;
    assert RowBrowsable(t.rows[id], roots);
    CleanShape(roots[0]);
    if o.id > 0 {
      assert RowBrowsable(t.rows[o.id], roots);
      CleanShape(o.path);
      SelectsCleanChild(o.path, p);
    } else if |roots| == 1 {
      SelectsCleanChild(roots[0], p);
    }
    IsChildMeans(t, roots, o, id);
  }

  /** A root's directory holds no row: it would lie outside every root. */
  lemma NothingAboveRoots(t: Table, roots: seq<string>, r: string, id: nat)
    requires Browsable(t, roots) && r in roots && id in t.rows
    ensures t.rows[id].path != Dir(r)
  {
    hide NoMeta, ParentClosed;
    assert RowBrowsable(t.rows[id], roots);
    CleanShape(r);
    if t.rows[id].path == Dir(r) {
      CleanShape(Dir(r));
      var q :| q in roots && AtOrUnder(Dir(r), q);
      UnderTransitive(r, Dir(r), q);
      RootsApart(roots, r, q);
    }
  }

  lemma RootsApart(roots: seq<string>, r: string, q: string)
    requires forall i, j :: 0 <= i < j < |roots| ==> Disjoint(roots[i], roots[j])
    requires r in roots && q in roots
    ensures !Under(r, q)
  {
    var i :| 0 <= i < |roots| && roots[i] == r;
    var j :| 0 <= j < |roots| && roots[j] == q;
    if i == j { if Under(r, q) { UnderIrreflexive(r, q); } }
  }

  /** Whatever a container lists reports that container as its parent. */
  lemma ChildrenNameTheirParent(t: Table, roots: seq<string>, o: Obj, id: nat)
    requires Browsable(t, roots) && Opens(t, roots, o) && IsChild(t, roots, o, id)
    ensures ParentOf(t, roots, ObjOf(t, id)) == Some(o.id)
  {
    ChildDir(t, roots, o, id);
    var p := t.rows[id].path;
    if o.id > 0 {
      assert RowBrowsable(t.rows[o.id], roots);
      assert PublicAt(t, Dir(p), o.id);
      if p in roots { NothingAboveRoots(t, roots, p, o.id); }
    } else if |roots| == 1 {
      RootHasRow(t, roots, id);
    }
  }

  lemma RootHasRow(t: Table, roots: seq<string>, id: nat)
    requires Browsable(t, roots) && id in t.rows && |roots| == 1 && Dir(t.rows[id].path) == roots[0]
    ensures exists parent :: PublicAt(t, roots[0], parent)
  {
    var p := t.rows[id].path;
    assert RowBrowsable(t.rows[id], roots);
    CleanShape(p);
    assert p !in roots;
    var parent :| parent in t.rows && t.rows[parent].path == Dir(p) && t.rows[parent].typ == Folder;
    assert RowBrowsable(t.rows[parent], roots);
    assert PublicAt(t, roots[0], parent);
  }

  // Reaching an object from the root container, and climbing back.

  function ObjAt(t: Table, id: int): Obj {
    if id > 0 && id in t.rows then ObjOf(t, id) else ROOT
  }

  ghost predicate Reach(t: Table, roots: seq<string>, id: int, n: nat)
    decreases n
  {
    if n == 0 then id == 0
    else
      id > 0 && exists o ::
        Opens(t, roots, o) && IsChild(t, roots, o, id) && Reach(t, roots, o.id, n - 1)
  }

  ghost function Climb(t: Table, roots: seq<string>, id: int, n: nat): Option<int>
    decreases n
  {
    if n == 0 then Some(id)
    else
      match ParentOf(t, roots, ObjAt(t, id))
      case Some(parent) => Climb(t, roots, parent, n - 1)
      case None => None
  }

  /** From any object found n levels down, asking for the parent n times leads back to the root container. */
  lemma {:induction false} ClimbsBack(t: Table, roots: seq<string>, id: int, n: nat)
    requires Browsable(t, roots) && Reach(t, roots, id, n)
    ensures Climb(t, roots, id, n) == Some(0)
    decreases n
  {
    hide Browsable, Opens, ParentOf, Matches;
    if n > 0 {
      var o :| Opens(t, roots, o) && IsChild(t, roots, o, id) && Reach(t, roots, o.id, n - 1);
      ChildrenNameTheirParent(t, roots, o, id);
      ClimbsBack(t, roots, o.id, n - 1);
    }
  }

  /** The root container's parent is -1, and so is everything above it. */
  lemma {:induction false} AboveTheRoot(t: Table, roots: seq<string>, n: nat)
    ensures Climb(t, roots, 0, n) == Some(if n == 0 then 0 else -1)
    ensures Climb(t, roots, -1, n) == Some(-1)
    decreases n
  {
    if n > 0 { AboveTheRoot(t, roots, n - 1); }
  }

  /** The way up from an object n levels down meets the root container after n steps and at no other time;
      one step further is -1. */
  lemma {:induction false} ClimbsOnce(t: Table, roots: seq<string>, id: int, n: nat, m: nat)
    requires Browsable(t, roots) && Reach(t, roots, id, n)
    ensures Climb(t, roots, id, m) == Some(0) <==> m == n
    ensures Climb(t, roots, id, n + 1) == Some(-1)
    decreases n
  {
    hide Browsable, Opens, ParentOf, Matches;
    if n == 0 {
      AboveTheRoot(t, roots, m);
      AboveTheRoot(t, roots, 1);
    } else {
      var o :| Opens(t, roots, o) && IsChild(t, roots, o, id) && Reach(t, roots, o.id, n - 1);
      ChildrenNameTheirParent(t, roots, o, id);
      ClimbsOnce(t, roots, o.id, n - 1, if m > 0 then m - 1 else 0);
    }
  }

  /** No object is listed by two containers. */
  lemma OneParent(t: Table, roots: seq<string>, o: Obj, o': Obj, id: nat)
    requires Browsable(t, roots) && Opens(t, roots, o) && Opens(t, roots, o')
    requires IsChild(t, roots, o, id) && IsChild(t, roots, o', id)
    ensures o == o'
  {
    ChildrenNameTheirParent(t, roots, o, id);
    ChildrenNameTheirParent(t, roots, o', id);
  }

  lemma ParentRow(t: Table, roots: seq<string>, id: nat) returns (parent: nat)
    requires Browsable(t, roots) && id in t.rows && t.rows[id].path !in roots
    ensures parent in t.rows && t.rows[parent].path == Dir(t.rows[id].path) && t.rows[parent].typ == Folder
    ensures parent > 0 && t.rows[parent].reindexAt.None? && |t.rows[parent].path| < |t.rows[id].path|
  {
    hide NoMeta;
    assert RowBrowsable(t.rows[id], roots);
    CleanShape(t.rows[id].path);
    parent :| parent in t.rows && t.rows[parent].path == Dir(t.rows[id].path) && t.rows[parent].typ == Folder;
    assert RowBrowsable(t.rows[parent], roots);
  }

  /** The container that lists a row. */
  lemma ListedBy(t: Table, roots: seq<string>, id: nat) returns (o: Obj)
    requires Browsable(t, roots) && id in t.rows && t.rows[id].reindexAt.None?
    requires !(|roots| == 1 && t.rows[id].path == roots[0])
    ensures id > 0 && Opens(t, roots, o) && IsChild(t, roots, o, id)
    ensures o.id > 0 ==> |o.path| < |t.rows[id].path| && o.id in t.rows && t.rows[o.id].reindexAt.None?
  {
    hide RowBrowsable, ParentClosed, IsChild;
    var p := t.rows[id].path;
    if p in roots || (|roots| == 1 && Dir(p) == roots[0]) {
      o := ROOT;
    } else {
      var parent := ParentRow(t, roots, id);
      o := ObjOf(t, parent);
    }
    ChildDir(t, roots, o, id);
  }

  /** Every public row can be reached by browsing, except the row of a single root. */
  lemma {:induction false} EverythingPublicIsReached(t: Table, roots: seq<string>, id: nat) returns (n: nat)
    requires Browsable(t, roots) && id in t.rows && t.rows[id].reindexAt.None?
    requires !(|roots| == 1 && t.rows[id].path == roots[0])
    ensures Reach(t, roots, id, n)
    decreases |t.rows[id].path|
  {
    hide Browsable, IsChild;
    var o := ListedBy(t, roots, id);
    if o.id > 0 {
      var m := EverythingPublicIsReached(t, roots, o.id);
      n := m + 1;
    } else {
      n := 1;
    }
    assert Reach(t, roots, o.id, n - 1);
  }

  // A wildcard in a folder name.

  function MisleadingTable(r: string, n: string): Table {
    var folder := Row(r, Folder, NO_INFO, None, true, None);
    var p, q := r + "/" + n, r + "/" + Instance(n);
    Table(map[1 := folder, 2 := folder.(path := p), 3 := folder.(path := q),
              4 := folder.(path := q + "/c", typ := Video)], 5)
  }

  lemma {:induction false} LiteralInstance(r: string)
    requires NoMeta(r)
    ensures Instance(r) == r
    decreases |r|
  {
    if r != "" {
      assert r == [r[0]] + r[1..];
      LiteralInstance(r[1..]);
    }
  }

  lemma InstancePath(r: string, n: string)
    requires NoMeta(r) && '\\' !in n && !NoMeta(n)
    ensures Instance(r + "/" + n) == r + "/" + Instance(n) && Instance(n) != n
    ensures Selects(r + "/" + n, r + "/" + Instance(n) + "/c")
  {
    LiteralInstance(r);
    InstanceOfChild(r, n);
    InstanceDiffers(n);
    WrongChild(r + "/" + n);
  }

  lemma MisleadingPaths(r: string, n: string)
    requires Clean(r) && NoMeta(r) && ValidName(n) && '\\' !in n && !NoMeta(n)
    ensures var p, q := r + "/" + n, r + "/" + Instance(n);
            && Dir(p) == r && Dir(q) == r && Dir(q + "/c") == q && Clean(q)
            && p != q && p != q + "/c" && Selects(p, q + "/c")
  {
    hide Selects, Clean, Dir, Base, Instance, NoMeta;
    InstancePath(r, n);
    InstanceName(n);
    InstanceValid(n);
    ChildPath(r, n);
    ChildPath(r, Instance(n));
    ChildPath(r + "/" + Instance(n), "c");
    var p, q := r + "/" + n, r + "/" + Instance(n);
    assert q + "/" + "c" == q + "/c";
    assert p[|r| + 1..] == n && q[|r| + 1..] == Instance(n);
  }

  /** For any folder name with % or _ (and no backslash) there is a library in which that folder
      lists an object whose parent is another folder. */
  lemma WildcardFolderMisleads(r: string, n: string)
    requires Clean(r) && NoMeta(r) && ValidName(n) && '\\' !in n && !NoMeta(n)
    ensures var t := MisleadingTable(r, n);
            && WellFormed(t) && ParentClosed(t.rows, [r])
            && IsChild(t, [r], ObjOf(t, 2), 4)
            && ParentOf(t, [r], ObjOf(t, 4)) == Some(3)
  {
    hide Selects, NoMeta, ValidName, Dir, IsChild, Clean;
    var t := MisleadingTable(r, n);
    var p, q := r + "/" + n, r + "/" + Instance(n);
    MisleadingPaths(r, n);
    assert |r| < |q| < |q + "/c"|;
    assert t.rows[1].path == r && t.rows[2].path == p && t.rows[3].path == q && t.rows[4].path == q + "/c";
    CleanShape(r);
    IsChildMeans(t, [r], ObjOf(t, 2), 4);
    assert PublicAt(t, q, 3);
    assert HasFolder(t.rows, r);
    assert HasFolder(t.rows, q);
  }
}
