/** The SELECT that `GetObjects` builds and runs. */
module Queries {
  import opened Ordering
  import opened Objects
  import opened SqlLike

  datatype Status = StatusPublic | StatusDirty | StatusReindex | StatusAll

  datatype SortMode = SortPublic | SortById | SortNone

  datatype Filter = Filter(id: int, limit: int, offset: int, parentPath: string, ownPaths: seq<string>,
                           lastVisitedId: int, withTotalMatches: bool, status: Status, sort: SortMode)

  const NO_FILTER := Filter(0, 0, 0, "", [], 0, false, StatusPublic, SortPublic)

  // What a filter means.

  predicate StatusHolds(status: Status, reindexAt: Option<int>, now: int) {
    match status
    case StatusPublic => reindexAt.None?
    case StatusDirty => reindexAt.Some?
    case StatusReindex => reindexAt.Some? && reindexAt.value <= now
    case StatusAll => true
  }

  predicate Matches(f: Filter, id: nat, row: Row, now: int) {
    && (f.id > 0 ==> id == f.id)
    && (f.lastVisitedId > 0 ==> id > f.lastVisitedId)
    && (f.parentPath != "" ==> Selects(f.parentPath, row.path))
    && (f.ownPaths != [] ==> row.path in f.ownPaths)
    && StatusHolds(f.status, row.reindexAt, now)
  }

  // The WHERE clause as the code assembles it: conditions joined by AND, with $k for the k-th parameter.

  datatype Cond =
    | IdIs(n: int) | IdAbove(n: int)
    | PathLike(k: nat) | PathNotLike(k: nat) | PathIn(ks: seq<nat>)
    | ReindexNull | ReindexNotNull | ReindexDue

  predicate Bound(k: nat, n: nat) {
    1 <= k <= n
  }

  predicate Names(params: seq<string>, k: nat, path: string) {
    Bound(k, |params|) && params[k - 1] == path
  }

  predicate Holds(c: Cond, params: seq<string>, id: nat, row: Row, now: int) {
    match c
    case IdIs(n) => id == n
    case IdAbove(n) => id > n
    case PathLike(k) => Bound(k, |params|) && Like(row.path, params[k - 1])
    case PathNotLike(k) => Bound(k, |params|) && !Like(row.path, params[k - 1])
    case PathIn(ks) => exists i | 0 <= i < |ks| :: Names(params, ks[i], row.path)
    case ReindexNull => row.reindexAt.None?
    case ReindexNotNull => row.reindexAt.Some?
    case ReindexDue => row.reindexAt.Some? && row.reindexAt.value <= now
  }

  predicate AllHold(where: seq<Cond>, params: seq<string>, id: nat, row: Row, now: int) {
    forall i | 0 <= i < |where| :: Holds(where[i], params, id, row, now)
  }

  /** The placeholders of a clause, in order of appearance. */
  function Placeholders(where: seq<Cond>): seq<nat> {
    if where == [] then []
    else
      Placeholders(where[..|where| - 1]) +
      match where[|where| - 1]
      case PathLike(k) => [k]
      case PathNotLike(k) => [k]
      case PathIn(ks) => ks
      case _ => []
  }

  function From(first: nat, n: nat): seq<nat> {
    seq(n, i requires 0 <= i => first + i)
  }

  /** The placeholders are $1, $2, ..., one for each parameter, in order. */
  ghost predicate Numbered(where: seq<Cond>, params: seq<string>) {
    Placeholders(where) == From(1, |params|)
  }

  /** The first n of the filter's five parts. */
  predicate MatchesFirst(n: nat, f: Filter, id: nat, row: Row, now: int) {
    && (n >= 1 && f.id > 0 ==> id == f.id)
    && (n >= 2 && f.lastVisitedId > 0 ==> id > f.lastVisitedId)
    && (n >= 3 && f.parentPath != "" ==> Selects(f.parentPath, row.path))
    && (n >= 4 && f.ownPaths != [] ==> row.path in f.ownPaths)
    && (n >= 5 ==> StatusHolds(f.status, row.reindexAt, now))
  }

  /** What has been built so far says the first n parts, about every row at every time. */
  ghost predicate Stage(n: nat, f: Filter, where: seq<Cond>, params: seq<string>) {
    && Numbered(where, params)
    && forall id, row, now :: AllHold(where, params, id, row, now) <==> MatchesFirst(n, f, id, row, now)
  }

  lemma PlaceholdersPush(where: seq<Cond>, c: Cond)
    ensures Placeholders(where + [c]) == Placeholders(where) + Placeholders([c])
  {
    assert (where + [c])[..|where|] == where;
    assert [c][..0] == [];
  }

  predicate OwnParams(c: Cond, n: nat) {
    match c
    case PathLike(k) => Bound(k, n)
    case PathNotLike(k) => Bound(k, n)
    case PathIn(ks) => forall i | 0 <= i < |ks| :: Bound(ks[i], n)
    case _ => true
  }

  lemma MoreParamsOne(c: Cond, params: seq<string>, extra: seq<string>, id: nat, row: Row, now: int)
    requires OwnParams(c, |params|)
    ensures Holds(c, params + extra, id, row, now) <==> Holds(c, params, id, row, now)
  {
    if c.PathIn? {
      assert forall i | 0 <= i < |c.ks| :: Names(params + extra, c.ks[i], row.path) <==>
          Names(params, c.ks[i], row.path);
    }
  }

  lemma {:induction false} PlaceholdersOwn(where: seq<Cond>, n: nat, i: nat)
    requires forall k :: k in Placeholders(where) ==> Bound(k, n)
    requires i < |where|
    ensures OwnParams(where[i], n)
    decreases |where|
  {
    var init, last := where[..|where| - 1], where[|where| - 1];
    assert where == init + [last];
    PlaceholdersPush(init, last);
    OnePlaceholder(last);
    if i < |init| {
      PlaceholdersOwn(init, n, i);
    } else if last.PathIn? {
      assert forall j | 0 <= j < |last.ks| :: last.ks[j] in Placeholders(where);
    }
  }

  /** Numbered conditions only look at their own parameters. */
  lemma MoreParams(where: seq<Cond>, params: seq<string>, extra: seq<string>, id: nat, row: Row, now: int)
    requires forall k :: k in Placeholders(where) ==> Bound(k, |params|)
    ensures AllHold(where, params + extra, id, row, now) <==> AllHold(where, params, id, row, now)
  {
    forall i | 0 <= i < |where|
      ensures Holds(where[i], params + extra, id, row, now) <==> Holds(where[i], params, id, row, now)
    {
      PlaceholdersOwn(where, |params|, i);
      MoreParamsOne(where[i], params, extra, id, row, now);
    }
  }

  lemma AllHoldPush(where: seq<Cond>, params: seq<string>, c: Cond, id: nat, row: Row, now: int)
    ensures AllHold(where + [c], params, id, row, now) <==>
            AllHold(where, params, id, row, now) && Holds(c, params, id, row, now)
  {
    var all := where + [c];
    assert all[|where|] == c;
    assert forall i | 0 <= i < |where| :: all[i] == where[i];
  }

  lemma PushHolds(where: seq<Cond>, params: seq<string>, c: Cond, extra: seq<string>, id: nat, row: Row, now: int)
    requires Numbered(where, params)
    ensures AllHold(where + [c], params + extra, id, row, now) <==>
            AllHold(where, params, id, row, now) && Holds(c, params + extra, id, row, now)
  {
    MoreParams(where, params, extra, id, row, now);
    AllHoldPush(where, params + extra, c, id, row, now);
  }

  lemma PushNumbered(where: seq<Cond>, params: seq<string>, c: Cond, extra: seq<string>)
    requires Numbered(where, params) && Placeholders([c]) == From(|params| + 1, |extra|)
    ensures Numbered(where + [c], params + extra)
  {
    PlaceholdersPush(where, c);
  }

  /** One more condition says one more part of the filter. */
  lemma StagePush(n: nat, f: Filter, where: seq<Cond>, params: seq<string>, c: Cond, extra: seq<string>)
    requires Stage(n, f, where, params) && Placeholders([c]) == From(|params| + 1, |extra|)
    requires forall id, row, now ::
      MatchesFirst(n + 1, f, id, row, now) <==>
      MatchesFirst(n, f, id, row, now) && Holds(c, params + extra, id, row, now)
    ensures Stage(n + 1, f, where + [c], params + extra)
  {
    PushNumbered(where, params, c, extra);
    forall id, row, now
      ensures AllHold(where + [c], params + extra, id, row, now) <==> MatchesFirst(n + 1, f, id, row, now)
    {
      PushHolds(where, params, c, extra, id, row, now);
    }
  }

  lemma NamesOwn(params: seq<string>, own: seq<string>, i: nat, path: string)
    requires i < |own|
    ensures Names(params + own, From(|params| + 1, |own|)[i], path) <==> own[i] == path
  {
    assert From(|params| + 1, |own|)[i] == |params| + 1 + i;
    assert (params + own)[|params| + i] == own[i];
  }

  /** The placeholders for a list of paths select exactly these. */
  lemma InMeans(params: seq<string>, own: seq<string>, id: nat, row: Row, now: int)
    ensures Holds(PathIn(From(|params| + 1, |own|)), params + own, id, row, now) <==> row.path in own
  {
    var path := row.path;
    forall i | 0 <= i < |own|
      ensures Names(params + own, From(|params| + 1, |own|)[i], path) <==> own[i] == path
    {
      NamesOwn(params, own, i, path);
    }
    assert path in own <==> exists i | 0 <= i < |own| :: own[i] == path;
  }

  lemma LikePart(f: Filter, where: seq<Cond>, params: seq<string>)
    requires Stage(2, f, where, params) && f.parentPath != ""
    ensures Stage(3, f, (where + [PathLike(|params| + 1)]) + [PathNotLike(|params| + 2)],
                  (params + [f.parentPath + "/%"]) + [f.parentPath + "/%/%"])
  {
    var one, two := [f.parentPath + "/%"], [f.parentPath + "/%/%"];
    var like, notLike := PathLike(|params| + 1), PathNotLike(|params| + 2);
    OnePlaceholder(like);
    OnePlaceholder(notLike);
    PushNumbered(where, params, like, one);
    PushNumbered(where + [like], params + one, notLike, two);
    forall id, row, now
      ensures AllHold(where + [like] + [notLike], params + one + two, id, row, now) <==>
              MatchesFirst(3, f, id, row, now)
    {
      PushHolds(where, params, like, one, id, row, now);
      PushHolds(where + [like], params + one, notLike, two, id, row, now);
      assert (params + one)[|params|] == one[0] && (params + one + two)[|params| + 1] == two[0];
    }
  }

  lemma OnePlaceholder(c: Cond)
    ensures Placeholders([c]) ==
            match c case PathLike(k) => From(k, 1) case PathNotLike(k) => From(k, 1) case PathIn(ks) => ks case _ => []
  {
    assert [c][..0] == [];
  }

  lemma OwnPart(f: Filter, where: seq<Cond>, params: seq<string>)
    requires Stage(3, f, where, params) && f.ownPaths != []
    ensures Stage(4, f, where + [PathIn(From(|params| + 1, |f.ownPaths|))], params + f.ownPaths)
  {
    var c := PathIn(From(|params| + 1, |f.ownPaths|));
    OnePlaceholder(c);
    forall id, row, now
      ensures MatchesFirst(4, f, id, row, now) <==>
              MatchesFirst(3, f, id, row, now) && Holds(c, params + f.ownPaths, id, row, now)
    {
      InMeans(params, f.ownPaths, id, row, now);
    }
    StagePush(3, f, where, params, c, f.ownPaths);
  }

  /** A part without parameters. */
  lemma PlainPart(n: nat, f: Filter, where: seq<Cond>, params: seq<string>, c: Cond)
    requires Stage(n, f, where, params) && !c.PathLike? && !c.PathNotLike? && !c.PathIn?
    requires forall id, row, now ::
      MatchesFirst(n + 1, f, id, row, now) <==> MatchesFirst(n, f, id, row, now) && Holds(c, params, id, row, now)
    ensures Stage(n + 1, f, where + [c], params)
  {
    OnePlaceholder(c);
    assert params + [] == params;
    StagePush(n, f, where, params, c, []);
  }

  lemma IdPart(f: Filter, where: seq<Cond>, params: seq<string>)
    requires Stage(0, f, where, params) && f.id > 0
    ensures Stage(1, f, where + [IdIs(f.id)], params)
  {
    PlainPart(0, f, where, params, IdIs(f.id));
  }

  lemma VisitedPart(f: Filter, where: seq<Cond>, params: seq<string>)
    requires Stage(1, f, where, params) && f.lastVisitedId > 0
    ensures Stage(2, f, where + [IdAbove(f.lastVisitedId)], params)
  {
    PlainPart(1, f, where, params, IdAbove(f.lastVisitedId));
  }

  lemma StatusPart(f: Filter, where: seq<Cond>, params: seq<string>, c: Cond)
    requires Stage(4, f, where, params)
    requires (f.status == StatusPublic && c == ReindexNull) || (f.status == StatusDirty && c == ReindexNotNull)
          || (f.status == StatusReindex && c == ReindexDue)
    ensures Stage(5, f, where + [c], params)
  {
    PlainPart(4, f, where, params, c);
  }

  /** A part that the filter leaves out. */
  lemma NoPart(n: nat, f: Filter, where: seq<Cond>, params: seq<string>)
    requires Stage(n, f, where, params)
    requires match n
             case 0 => f.id <= 0
             case 1 => f.lastVisitedId <= 0
             case 2 => f.parentPath == ""
             case 3 => f.ownPaths == []
             case 4 => f.status == StatusAll
             case _ => false
    ensures Stage(n + 1, f, where, params)
  {
    forall id, row, now ensures MatchesFirst(n + 1, f, id, row, now) <==> MatchesFirst(n, f, id, row, now) {
    }
  }

  lemma AllParts(f: Filter, where: seq<Cond>, params: seq<string>)
    requires Stage(5, f, where, params)
    ensures Numbered(where, params) && Means(f, where, params)
  {
  }

  /** The clause says what the filter means, about every row at every time. */
  ghost predicate Means(f: Filter, where: seq<Cond>, params: seq<string>) {
    forall id, row, now :: AllHold(where, params, id, row, now) <==> Matches(f, id, row, now)
  }

  lemma StageZero(f: Filter)
    ensures Stage(0, f, [], [])
  {
  }

  /** The builder: the clause it assembles means the filter, for every row at every time, and its
      placeholders are numbered like its parameters. */
  method BuildWhere(f: Filter) returns (where: seq<Cond>, params: seq<string>)
    ensures Numbered(where, params) && Means(f, where, params)
  {
    hide Stage, Means, Numbered;
    var idx := 1;
    where, params := [], [];
    StageZero(f);
    if f.id > 0 {
      IdPart(f, where, params);
      where := where + [IdIs(f.id)];
    } else {
      NoPart(0, f, where, params);
    }
    if f.lastVisitedId > 0 {
      VisitedPart(f, where, params);
      where := where + [IdAbove(f.lastVisitedId)];
    } else {
      NoPart(1, f, where, params);
    }
    if f.parentPath != "" {
      LikePart(f, where, params);
      where := where + [PathLike(idx)];
      params := params + [f.parentPath + "/%"];
      idx := idx + 1;
      where := where + [PathNotLike(idx)];
      params := params + [f.parentPath + "/%/%"];
      idx := idx + 1;
    } else {
      NoPart(2, f, where, params);
    }
    if |f.ownPaths| > 0 {
      OwnPart(f, where, params);
      var q;
      q, params, idx := OwnPlaceholders(f.ownPaths, params, idx);
      where := where + [PathIn(q)];
    } else {
      NoPart(3, f, where, params);
    }
    match f.status {
      case StatusPublic =>
        StatusPart(f, where, params, ReindexNull);
        where := where + [ReindexNull];
      case StatusDirty =>
        StatusPart(f, where, params, ReindexNotNull);
        where := where + [ReindexNotNull];
      case StatusReindex =>
        StatusPart(f, where, params, ReindexDue);
        where := where + [ReindexDue];
      case StatusAll =>
        NoPart(4, f, where, params);
    }
    AllParts(f, where, params);
  }

  /** The loop over the own paths: one placeholder and one parameter each. */
  method OwnPlaceholders(ownPaths: seq<string>, params0: seq<string>, idx0: nat)
    returns (q: seq<nat>, params: seq<string>, idx: nat)
    requires idx0 == |params0| + 1
    ensures q == From(|params0| + 1, |ownPaths|) && params == params0 + ownPaths && idx == |params| + 1
  {
    q, params, idx := [], params0, idx0;
    for i := 0 to |ownPaths|
      invariant q == From(|params0| + 1, i)
      invariant params == params0 + ownPaths[..i]
      invariant idx == |params| + 1
    {
      q := q + [idx];
      params := params + [ownPaths[i]];
      idx := idx + 1;
    }
  }

  // Order, limit and offset.

  predicate TypLess(a: ObjectType, b: ObjectType) {
    a.Folder? && b.Video?
  }

  /** ORDER BY typ, path: folders first. */
  predicate PublicLess(a: Row, b: Row) {
    TypLess(a.typ, b.typ) || (a.typ == b.typ && StringLess(a.path, b.path))
  }

  ghost predicate InOrder(rows: map<nat, Row>, sort: SortMode, ids: seq<nat>)
    requires forall id | id in ids :: id in rows
  {
    forall i, j :: 0 <= i < j < |ids| ==>
      ids[i] != ids[j] &&
      match sort
      case SortPublic => PublicLess(rows[ids[i]], rows[ids[j]])
      case SortById => ids[i] < ids[j]
      case SortNone => true
  }

  function Slice(ids: seq<nat>, limit: int, offset: int): seq<nat> {
    var rest := if offset <= 0 then ids else if offset < |ids| then ids[offset..] else [];
    if limit <= 0 || limit >= |rest| then rest else rest[..limit]
  }

  function MatchingIds(t: Table, f: Filter, now: int): set<nat> {
    set id | id in t.rows && Matches(f, id, t.rows[id], now)
  }

  /** All matching rows, in the order asked for. */
  ghost predicate Listing(t: Table, f: Filter, now: int, ids: seq<nat>) {
    && (forall id :: id in ids <==> id in MatchingIds(t, f, now))
    && InOrder(t.rows, f.sort, ids)
  }

  /** What the caller is promised: a window of the listing, and the size of the whole if asked for. */
  ghost predicate Answers(t: Table, f: Filter, now: int, items: seq<nat>, total: nat) {
    && (exists ids :: Listing(t, f, now, ids) && IsWindow(ids, f.limit, f.offset, items))
    && total == if f.withTotalMatches then |MatchingIds(t, f, now)| else 0
  }

  ghost predicate Less(rows: map<nat, Row>, sort: SortMode, i: nat, j: nat) {
    && i in rows && j in rows
    && match sort
       case SortPublic => PublicLess(rows[i], rows[j])
       case SortById => i < j
       case SortNone => false
  }

  lemma LessIsOrder(rows: map<nat, Row>, sort: SortMode)
    ensures StrictOrder({}, (i, j) => Less(rows, sort, i, j))
  {
    if sort.SortPublic? {
      forall i | i in rows ensures !Less(rows, sort, i, i) { StringLessIrreflexive(rows[i].path); }
      forall i, j, k | Less(rows, sort, i, j) && Less(rows, sort, j, k) ensures Less(rows, sort, i, k) {
        if StringLess(rows[i].path, rows[j].path) && StringLess(rows[j].path, rows[k].path) {
          StringLessTransitive(rows[i].path, rows[j].path, rows[k].path);
        }
      }
    }
  }

  /** With an order asked for, there is only one right answer. */
  lemma AnswerUnique(t: Table, f: Filter, now: int, items: seq<nat>, total: nat, items': seq<nat>, total': nat)
    requires f.sort != SortNone
    requires Answers(t, f, now, items, total) && Answers(t, f, now, items', total')
    ensures items == items' && total == total'
  {
    var ids :| Listing(t, f, now, ids) && IsWindow(ids, f.limit, f.offset, items);
    var ids' :| Listing(t, f, now, ids') && IsWindow(ids', f.limit, f.offset, items');
    var less := (i, j) => Less(t.rows, f.sort, i, j);
    LessIsOrder(t.rows, f.sort);
    forall i, j | 0 <= i < j < |ids| ensures less(ids[i], ids[j]) {
      assert ids[i] in ids && ids[j] in ids;
    }
    forall i, j | 0 <= i < j < |ids'| ensures less(ids'[i], ids'[j]) {
      assert ids'[i] in ids' && ids'[j] in ids';
    }
    SortedUnique(ids, ids', less);
  }

  /** The pages of a listing, one after the other. */
  function Pages(ids: seq<nat>, limit: nat, n: nat): seq<nat> {
    if n == 0 then [] else Pages(ids, limit, n - 1) + Slice(ids, limit, (n - 1) * limit)
  }

  function UpTo(ids: seq<nat>, n: nat): seq<nat> {
    if n < |ids| then ids[..n] else ids
  }

  lemma NextPage(ids: seq<nat>, limit: nat, from: nat)
    requires limit > 0
    ensures UpTo(ids, from) + Slice(ids, limit, from) == UpTo(ids, from + limit)
  {
    if from < |ids| {
      assert ids == ids[..from] + ids[from..];
      if from + limit < |ids| {
        assert ids[from..][..limit] == ids[from..from + limit];
        assert ids[..from + limit] == ids[..from] + ids[from..from + limit];
      }
    } else if from == 0 {
      assert ids == [];
    }
  }

  /** Paging through a listing shows it once, in order, without gap or repetition. */
  lemma {:induction false} PagesTile(ids: seq<nat>, limit: nat, n: nat)
    requires limit > 0
    ensures Pages(ids, limit, n) == UpTo(ids, n * limit)
  {
    if n > 0 {
      PagesTile(ids, limit, n - 1);
      NextPage(ids, limit, (n - 1) * limit);
      assert n * limit == (n - 1) * limit + limit;
    } else {
      assert ids[..0] == [];
    }
  }

  /** The database: the rows that satisfy the clause, in the order asked for. */
  method Select(t: Table, where: seq<Cond>, params: seq<string>, sort: SortMode, now: int) returns (ids: seq<nat>)
    requires UniquePaths(t.rows)
    ensures forall id :: id in ids <==> id in t.rows && AllHold(where, params, id, t.rows[id], now)
    ensures InOrder(t.rows, sort, ids)
  {
    var todo := set id | id in t.rows && AllHold(where, params, id, t.rows[id], now);
    ids := [];
    ghost var all := todo;
    while todo != {}
      invariant todo <= all && forall id :: id in ids <==> id in all - todo
      invariant InOrder(t.rows, sort, ids)
      invariant forall i, j :: i in ids && j in todo ==> Before(t.rows, sort, i, j)
    {
      FirstExists(t.rows, sort, todo);
      var id :| id in todo && First(t.rows, sort, todo, id);
      forall i | 0 <= i < |ids| ensures ids[i] != id && Before(t.rows, sort, ids[i], id) {
        assert ids[i] in ids;
      }
      ids := ids + [id];
      todo := todo - {id};
    }
  }

  predicate Before(rows: map<nat, Row>, sort: SortMode, i: nat, j: nat) {
    && i in rows && j in rows
    && match sort
       case SortPublic => PublicLess(rows[i], rows[j])
       case SortById => i < j
       case SortNone => true
  }

  lemma BeforeTotal(rows: map<nat, Row>, sort: SortMode, i: nat, j: nat)
    requires UniquePaths(rows) && i in rows && j in rows && i != j
    ensures Before(rows, sort, i, j) || Before(rows, sort, j, i)
  {
    if sort.SortPublic? && rows[i].typ == rows[j].typ {
      StringLessTotal(rows[i].path, rows[j].path);
    }
  }

  lemma BeforeTransitive(rows: map<nat, Row>, sort: SortMode, i: nat, j: nat, k: nat)
    requires Before(rows, sort, i, j) && Before(rows, sort, j, k)
    ensures Before(rows, sort, i, k)
  {
    if sort.SortPublic? && StringLess(rows[i].path, rows[j].path) && StringLess(rows[j].path, rows[k].path) {
      StringLessTransitive(rows[i].path, rows[j].path, rows[k].path);
    }
  }

  predicate First(rows: map<nat, Row>, sort: SortMode, todo: set<nat>, id: nat) {
    id in todo && forall j | j in todo && j != id :: Before(rows, sort, id, j)
  }

  lemma FirstOfMore(rows: map<nat, Row>, sort: SortMode, rest: set<nat>, m: nat, x: nat) returns (first: nat)
    requires First(rows, sort, rest, m) && x !in rest
    requires Before(rows, sort, x, m) || Before(rows, sort, m, x)
    ensures First(rows, sort, rest + {x}, first)
  {
    if Before(rows, sort, m, x) {
      first := m;
    } else {
      first := x;
      forall j | j in rest && j != m ensures Before(rows, sort, x, j) { BeforeTransitive(rows, sort, x, m, j); }
    }
  }

  lemma {:induction false} FirstExists(rows: map<nat, Row>, sort: SortMode, todo: set<nat>)
    requires UniquePaths(rows) && todo != {} && todo <= rows.Keys
    ensures exists id :: First(rows, sort, todo, id)
    decreases |todo|
  {
    var x :| x in todo;
    var rest := todo - {x};
    assert rest + {x} == todo;
    if rest == {} {
      assert First(rows, sort, todo, x);
    } else {
      FirstExists(rows, sort, rest);
      var m :| First(rows, sort, rest, m);
      BeforeTotal(rows, sort, x, m);
      var first := FirstOfMore(rows, sort, rest, m, x);
    }
  }

  /** The entries of the list from `offset` on, at most `limit` of them if there is a limit. */
  ghost predicate IsWindow(ids: seq<nat>, limit: int, offset: int, items: seq<nat>) {
    var from := if offset <= 0 then 0 else if offset < |ids| then offset else |ids|;
    && |items| == (if 0 < limit < |ids| - from then limit else |ids| - from)
    && forall k :: 0 <= k < |items| ==> items[k] == ids[from + k]
  }

  lemma SliceIsWindow(ids: seq<nat>, limit: int, offset: int)
    ensures IsWindow(ids, limit, offset, Slice(ids, limit, offset))
  {
  }

  lemma ListingSize(t: Table, f: Filter, now: int, ids: seq<nat>)
    requires Listing(t, f, now, ids)
    ensures |ids| == |MatchingIds(t, f, now)|
  {
    forall i, j | 0 <= i < j < |ids| ensures ids[i] != ids[j] {
    }
    DistinctSize(ids, MatchingIds(t, f, now));
  }

  lemma {:induction false} DistinctSize(ids: seq<nat>, S: set<nat>)
    requires forall i, j :: 0 <= i < j < |ids| ==> ids[i] != ids[j]
    requires forall id :: id in ids <==> id in S
    ensures |ids| == |S|
    decreases |ids|
  {
    if ids == [] {
      assert S == {};
    } else {
      var init, last := ids[..|ids| - 1], ids[|ids| - 1];
      assert ids == init + [last];
      assert last in ids && last !in init;
      forall id ensures id in init <==> id in S - {last} {
        assert id in ids <==> id in init || id == last;
      }
      DistinctSize(init, S - {last});
    }
  }

  /** Path a comes before path b: at the first difference a has the smaller character, or a ends there. */
  ghost predicate ComesBefore(a: string, b: string) {
    exists k: nat :: k <= |a| && k <= |b| && a[..k] == b[..k]
      && k < |b| && (k == |a| || a[k] < b[k])
  }

  lemma {:induction false} StringLessMeans(a: string, b: string)
    requires StringLess(a, b)
    ensures ComesBefore(a, b)
    decreases |a|
  {
    if a == "" || a[0] < b[0] {
      assert a[..0] == b[..0];
    } else {
      StringLessMeans(a[1..], b[1..]);
      var k: nat :| k <= |a[1..]| && k <= |b[1..]| && a[1..][..k] == b[1..][..k]
        && k < |b[1..]| && (k == |a[1..]| || a[1..][k] < b[1..][k]);
      assert a[..k + 1] == [a[0]] + a[1..][..k] && b[..k + 1] == [b[0]] + b[1..][..k];
    }
  }

  /** In the default order no video stands before a folder, and paths of one type ascend by character. */
  ghost predicate FoldersFirst(rows: map<nat, Row>, items: seq<nat>) {
    forall i, j :: 0 <= i < j < |items| && items[i] in rows && items[j] in rows ==>
      var a, b := rows[items[i]], rows[items[j]];
      && (a.typ == Video ==> b.typ == Video)
      && (a.typ == b.typ ==> ComesBefore(a.path, b.path))
  }

  lemma PublicOrder(rows: map<nat, Row>, ids: seq<nat>, limit: int, offset: int, items: seq<nat>)
    requires forall id :: id in ids ==> id in rows
    requires InOrder(rows, SortPublic, ids) && IsWindow(ids, limit, offset, items)
    ensures FoldersFirst(rows, items)
  {
    forall i, j | 0 <= i < j < |items| && items[i] in rows && items[j] in rows
      ensures var a, b := rows[items[i]], rows[items[j]];
              (a.typ == Video ==> b.typ == Video) && (a.typ == b.typ ==> ComesBefore(a.path, b.path))
    {
      var from := if offset <= 0 then 0 else if offset < |ids| then offset else |ids|;
      assert items[i] == ids[from + i] && items[j] == ids[from + j];
      assert PublicLess(rows[items[i]], rows[items[j]]);
      if rows[items[i]].typ == rows[items[j]].typ { StringLessMeans(rows[items[i]].path, rows[items[j]].path); }
    }
  }

  lemma AnswerMeans(t: Table, f: Filter, now: int, ids: seq<nat>, items: seq<nat>)
    requires Listing(t, f, now, ids) && IsWindow(ids, f.limit, f.offset, items)
    ensures f.limit <= 0 && f.offset <= 0 ==>
      forall id: nat :: id in t.rows && Matches(f, id, t.rows[id], now) ==> id in items
    ensures f.limit <= 0 && f.offset > 0 ==> items == if f.offset < |ids| then ids[f.offset..] else []
    ensures f.limit > 0 ==>
      var left := |MatchingIds(t, f, now)| - (if f.offset > 0 then f.offset else 0);
      |items| == if left <= 0 then 0 else if left < f.limit then left else f.limit
    ensures forall i, j :: 0 <= i < j < |items| ==> items[i] != items[j]
    ensures f.sort == SortPublic ==> FoldersFirst(t.rows, items)
    ensures f.sort == SortById ==> forall i, j :: 0 <= i < j < |items| ==> items[i] < items[j]
  {
    ListingSize(t, f, now, ids);
    if f.sort == SortPublic { PublicOrder(t.rows, ids, f.limit, f.offset, items); }
    if f.limit <= 0 && f.offset <= 0 {
      assert items == ids;
      forall id: nat | id in t.rows && Matches(f, id, t.rows[id], now) ensures id in items {
        assert id in MatchingIds(t, f, now);
      }
    }
  }

  /** A query that does not fail answers its filter: what matches, in the order asked for, from the offset
      on, and no more than the limit if there is one. */
  method GetObjects(t: Table, f: Filter, now: int) returns (items: seq<nat>, total: nat)
    requires UniquePaths(t.rows)
    ensures Answers(t, f, now, items, total)
    ensures forall id :: id in items ==> id in t.rows && Matches(f, id, t.rows[id], now)
    ensures f.limit <= 0 && f.offset <= 0 ==>
      forall id: nat :: id in t.rows && Matches(f, id, t.rows[id], now) ==> id in items
    ensures f.limit <= 0 && f.offset > 0 ==>
      exists ids :: Listing(t, f, now, ids) && items == if f.offset < |ids| then ids[f.offset..] else []
    ensures f.limit > 0 ==>
      var left := |MatchingIds(t, f, now)| - (if f.offset > 0 then f.offset else 0);
      |items| == if left <= 0 then 0 else if left < f.limit then left else f.limit
    ensures forall i, j :: 0 <= i < j < |items| ==> items[i] != items[j]
    ensures f.sort == SortPublic ==> FoldersFirst(t.rows, items)
    ensures f.sort == SortById ==> forall i, j :: 0 <= i < j < |items| ==> items[i] < items[j]
  {
    hide FoldersFirst, IsWindow, InOrder, Matches, AllHold, Means, Numbered;
    items, total := [], 0;
    var where, params := BuildWhere(f);
    SelectedMatch(t, f, now, where, params);
    if f.withTotalMatches {
      var counted := set id | id in t.rows && AllHold(where, params, id, t.rows[id], now);
      total := |counted|;
      if total == 0 {
        EmptyListing(t, f, now);
        AnswerMeans(t, f, now, [], items);
        return;
      }
    }
    var ids := Select(t, where, params, f.sort, now);
    items := Slice(ids, f.limit, f.offset);
    SliceIsWindow(ids, f.limit, f.offset);
    WindowIn(ids, f.limit, f.offset, items);
    AnswerMeans(t, f, now, ids, items);
  }

  lemma SelectedMatch(t: Table, f: Filter, now: int, where: seq<Cond>, params: seq<string>)
    requires Means(f, where, params)
    ensures (set id | id in t.rows && AllHold(where, params, id, t.rows[id], now)) == MatchingIds(t, f, now)
  {
  }

  lemma EmptyListing(t: Table, f: Filter, now: int)
    requires MatchingIds(t, f, now) == {}
    ensures Listing(t, f, now, []) && IsWindow([], f.limit, f.offset, [])
  {
  }

  lemma WindowIn(ids: seq<nat>, limit: int, offset: int, items: seq<nat>)
    requires IsWindow(ids, limit, offset, items)
    ensures forall id :: id in items ==> id in ids
  {
  }
}
