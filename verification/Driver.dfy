/** The Linux watcher: what one inotify event does. */
module Driver {
  import opened Paths
  import opened Ignore
  import opened Walk
  import opened WatchMap
  import opened Objects
  import opened Pipeline
  import Dels = DeleteEvents
  import Moves = MoveEvents

  const IN_CLOSE_WRITE: bv32 := 0x8
  const IN_MOVED_FROM: bv32 := 0x40
  const IN_MOVED_TO: bv32 := 0x80
  const IN_CREATE: bv32 := 0x100
  const IN_DELETE: bv32 := 0x200
  const IN_IGNORED: bv32 := 0x8000
  const IN_ISDIR: bv32 := 0x4000_0000

  predicate Has(mask: bv32, bit: bv32) {
    mask & bit == bit
  }

  /** One decoded inotify record. */
  datatype Raw = Raw(wd: nat, mask: bv32, cookie: nat, name: string)

  datatype State = State(app: App, del: Dels.State, mv: Moves.State)

  /** `handleInotifyEvent`, for MOVED_TO up to the end of its region under the lock. */
  function ReadEvent(fs: Tree, s: State, e: Raw, now: int): State
    requires Closed(fs) && Dels.EvInRange(s.del)
  {
    var isDir := Has(e.mask, IN_ISDIR);
    if e.wd !in s.app.watch.pathByWd then s
    else
      var absPath := Join(s.app.watch.pathByWd[e.wd], e.name);
      if IgnoreFn(absPath, isDir) then s
      else if Has(e.mask, IN_CREATE) then
        if isDir then s.(app := WalkStartingAt(fs, s.app, absPath, now)) else s
      else if Has(e.mask, IN_IGNORED) then s
      else if Has(e.mask, IN_DELETE) then
        s.(del := Dels.AfterAdd(s.del, Dels.Item(absPath, isDir)),
           app := if isDir then s.app.(watch := Removed(s.app.watch, absPath)) else s.app)
      else if Has(e.mask, IN_MOVED_FROM) then s.(mv := Moves.AfterFrom(s.mv, e.cookie, absPath, isDir))
      else if Has(e.mask, IN_MOVED_TO) then s.(mv := Moves.AfterTo(s.mv, e.cookie, absPath, isDir))
      else if !isDir && Has(e.mask, IN_CLOSE_WRITE) then
        s.(app := OnWatcherEvent(s.app, Index(absPath, isDir), now))
      else s
  }

  /** The handler call that `addMvTo` ends with. */
  function HandleArrival(fs: Tree, s: State, c: nat, now: int): State
    requires Closed(fs) && c in s.mv.arrivals
  {
    var a := s.mv.arrivals[c];
    s.(app := HandleMoveEvent(fs, s.app, a.op, a.oldName, a.name, a.isDir, now),
       mv := s.mv.(arrivals := s.mv.arrivals[c := a.(sent := true)],
                   sent := s.mv.sent + [Moves.OutOfArrival(c, a)]))
  }

  lemma MaskBits(isDir: bool)
    ensures var d: bv32 := if isDir then IN_ISDIR else 0;
            && (Has(IN_CREATE | d, IN_ISDIR) <==> isDir) && Has(IN_CREATE | d, IN_CREATE)
            && (Has(IN_DELETE | d, IN_ISDIR) <==> isDir) && Has(IN_DELETE | d, IN_DELETE)
            && !Has(IN_DELETE | d, IN_CREATE) && !Has(IN_DELETE | d, IN_IGNORED)
            && (Has(IN_MOVED_FROM | d, IN_ISDIR) <==> isDir) && Has(IN_MOVED_FROM | d, IN_MOVED_FROM)
            && !Has(IN_MOVED_FROM | d, IN_CREATE) && !Has(IN_MOVED_FROM | d, IN_IGNORED)
            && !Has(IN_MOVED_FROM | d, IN_DELETE)
            && (Has(IN_MOVED_TO | d, IN_ISDIR) <==> isDir) && Has(IN_MOVED_TO | d, IN_MOVED_TO)
            && !Has(IN_MOVED_TO | d, IN_CREATE) && !Has(IN_MOVED_TO | d, IN_IGNORED) && !Has(IN_MOVED_TO | d, IN_DELETE)
            && !Has(IN_MOVED_TO | d, IN_MOVED_FROM)
  {
  }

  lemma WriteBits()
    ensures !Has(IN_CLOSE_WRITE, IN_ISDIR) && !Has(IN_CLOSE_WRITE, IN_CREATE) && !Has(IN_CLOSE_WRITE, IN_IGNORED)
    ensures !Has(IN_CLOSE_WRITE, IN_DELETE) && !Has(IN_CLOSE_WRITE, IN_MOVED_FROM) && !Has(IN_CLOSE_WRITE, IN_MOVED_TO)
    ensures Has(IN_CLOSE_WRITE, IN_CLOSE_WRITE)
    ensures !Has(IN_IGNORED, IN_ISDIR) && !Has(IN_IGNORED, IN_CREATE) && Has(IN_IGNORED, IN_IGNORED)
  {
  }

  // What reading each kind of event comes to, once its path is known.

  /** The event e, read with this watch map, is about `path`. */
  predicate IsAbout(w: Watches, e: Raw, path: string) {
    e.wd in w.pathByWd && Join(w.pathByWd[e.wd], e.name) == path
  }

  function DirBit(isDir: bool): bv32 {
    if isDir then IN_ISDIR else 0
  }

  lemma ReadFrom(fs: Tree, s: State, e: Raw, path: string, isDir: bool, now: int)
    requires Closed(fs) && Dels.EvInRange(s.del)
    requires IsAbout(s.app.watch, e, path) && e.mask == IN_MOVED_FROM | DirBit(isDir)
    ensures ReadEvent(fs, s, e, now) ==
            if IgnoreFn(path, isDir) then s else s.(mv := Moves.AfterFrom(s.mv, e.cookie, path, isDir))
  {
    MaskBits(isDir);
  }

  lemma ReadTo(fs: Tree, s: State, e: Raw, path: string, isDir: bool, now: int)
    requires Closed(fs) && Dels.EvInRange(s.del)
    requires IsAbout(s.app.watch, e, path) && e.mask == IN_MOVED_TO | DirBit(isDir)
    ensures ReadEvent(fs, s, e, now) ==
            if IgnoreFn(path, isDir) then s else s.(mv := Moves.AfterTo(s.mv, e.cookie, path, isDir))
  {
    MaskBits(isDir);
  }

  lemma ReadCreate(fs: Tree, s: State, e: Raw, path: string, isDir: bool, now: int)
    requires Closed(fs) && Dels.EvInRange(s.del)
    requires IsAbout(s.app.watch, e, path) && e.mask == IN_CREATE | DirBit(isDir)
    ensures ReadEvent(fs, s, e, now) ==
            if IgnoreFn(path, isDir) || !isDir then s else s.(app := WalkStartingAt(fs, s.app, path, now))
  {
    MaskBits(isDir);
  }

  lemma ReadDelete(fs: Tree, s: State, e: Raw, path: string, isDir: bool, now: int)
    requires Closed(fs) && Dels.EvInRange(s.del)
    requires IsAbout(s.app.watch, e, path) && e.mask == IN_DELETE | DirBit(isDir)
    ensures ReadEvent(fs, s, e, now) ==
            if IgnoreFn(path, isDir) then s
            else s.(del := Dels.AfterAdd(s.del, Dels.Item(path, isDir)),
                    app := if isDir then s.app.(watch := Removed(s.app.watch, path)) else s.app)
  {
    MaskBits(isDir);
  }

  lemma ReadWrite(fs: Tree, s: State, e: Raw, path: string, now: int)
    requires Closed(fs) && Dels.EvInRange(s.del)
    requires IsAbout(s.app.watch, e, path) && e.mask == IN_CLOSE_WRITE
    ensures ReadEvent(fs, s, e, now) ==
            if IgnoreFn(path, false) then s else s.(app := OnWatcherEvent(s.app, Index(path, false), now))
  {
    WriteBits();
  }

  /** The kernel's notice that a watch is gone has no effect, whether or not it is still known. */
  lemma ReadIgnored(fs: Tree, s: State, e: Raw, now: int)
    requires Closed(fs) && Dels.EvInRange(s.del) && e.mask == IN_IGNORED
    ensures ReadEvent(fs, s, e, now) == s
  {
    WriteBits();
  }
}
