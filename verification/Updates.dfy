/** The UPDATE that `UpdateObject` builds from the differences between an object in memory and
    what was found in its file. */
module Updates {
  import opened Objects

  /** `sql.NullInt64`: compared as a struct, so two NULLs may differ. */
  datatype NullInt64 = NullInt64(value: int, valid: bool)

  function Nullable(n: NullInt64): Option<int> {
    if n.valid then Some(n.value) else None
  }

  datatype Column =
    | Format | FileSize | VideoCodec | AudioCodec | Width | Height | Channels
    | Bitrate | Frequency | Duration | Date | ReindexAt | Bookmark

  /** One item of the SET list: a parameter $k, a number written into the text, or NULL. */
  datatype Assign = SetParam(col: Column, k: nat) | SetNumber(col: Column, n: int) | SetNull(col: Column)

  function WithText(row: Row, col: Column, s: string): Row {
    match col
    case Format => row.(info := row.info.(format := s))
    case VideoCodec => row.(info := row.info.(videoCodec := s))
    case AudioCodec => row.(info := row.info.(audioCodec := s))
    case _ => row
  }

  function WithNumber(row: Row, col: Column, n: int): Row {
    match col
    case FileSize => row.(info := row.info.(fileSize := n))
    case Width => row.(info := row.info.(width := n))
    case Height => row.(info := row.info.(height := n))
    case Channels => row.(info := row.info.(channels := n))
    case Bitrate => row.(info := row.info.(bitrate := n))
    case Frequency => row.(info := row.info.(frequency := n))
    case Duration => row.(info := row.info.(duration := n))
    case Date => row.(info := row.info.(date := n))
    case Bookmark => row.(bookmark := Some(n))
    case _ => row
  }

  function WithNull(row: Row, col: Column): Row {
    match col
    case Bookmark => row.(bookmark := None)
    case ReindexAt => row.(reindexAt := None)
    case _ => row
  }

  function Apply(row: Row, a: Assign, params: seq<string>): Row {
    match a
    case SetParam(col, k) => if 1 <= k <= |params| then WithText(row, col, params[k - 1]) else row
    case SetNumber(col, n) => WithNumber(row, col, n)
    case SetNull(col) => WithNull(row, col)
  }

  /** The database executing the SET list on one row. */
  function Exec(row: Row, updates: seq<Assign>, params: seq<string>): Row {
    if updates == [] then row
    else Apply(Exec(row, updates[..|updates| - 1], params), updates[|updates| - 1], params)
  }

  predicate OwnParams(updates: seq<Assign>, n: nat) {
    forall i | 0 <= i < |updates| && updates[i].SetParam? :: 1 <= updates[i].k <= n
  }

  lemma {:induction false} ExecMoreParams(row: Row, updates: seq<Assign>, params: seq<string>, extra: seq<string>)
    requires OwnParams(updates, |params|)
    ensures Exec(row, updates, params + extra) == Exec(row, updates, params)
    decreases |updates|
  {
    if updates != [] {
      ExecMoreParams(row, updates[..|updates| - 1], params, extra);
    }
  }

  /** The list so far, and the row it makes of `row`. */
  ghost predicate Builds(row: Row, updates: seq<Assign>, params: seq<string>, idx: nat, to: Row) {
    idx == |params| + 1 && OwnParams(updates, |params|) && Exec(row, updates, params) == to
  }

  lemma PushText(row: Row, updates: seq<Assign>, params: seq<string>, idx: nat, to: Row, col: Column, s: string)
    requires Builds(row, updates, params, idx, to)
    ensures Builds(row, updates + [SetParam(col, idx)], params + [s], idx + 1, WithText(to, col, s))
  {
    ExecMoreParams(row, updates, params, [s]);
    assert (updates + [SetParam(col, idx)])[..|updates|] == updates;
    assert (params + [s])[idx - 1] == s;
  }

  lemma PushNumber(row: Row, updates: seq<Assign>, params: seq<string>, idx: nat, to: Row, col: Column, n: int)
    requires Builds(row, updates, params, idx, to)
    ensures Builds(row, updates + [SetNumber(col, n)], params, idx, WithNumber(to, col, n))
  {
    assert (updates + [SetNumber(col, n)])[..|updates|] == updates;
  }

  lemma PushNull(row: Row, updates: seq<Assign>, params: seq<string>, idx: nat, to: Row, col: Column)
    requires Builds(row, updates, params, idx, to)
    ensures Builds(row, updates + [SetNull(col)], params, idx, WithNull(to, col))
  {
    assert (updates + [SetNull(col)])[..|updates|] == updates;
  }

  // What the whole call makes of a row.

  /** Per column: the file's value where it differs from the one in memory, else what the row has. */
  function Merged(row: VideoInfo, mem: VideoInfo, v: VideoInfo): VideoInfo {
    VideoInfo(
      if v.format != mem.format then v.format else row.format,
      if v.fileSize != mem.fileSize then v.fileSize else row.fileSize,
      if v.videoCodec != mem.videoCodec then v.videoCodec else row.videoCodec,
      if v.audioCodec != mem.audioCodec then v.audioCodec else row.audioCodec,
      if v.width != mem.width then v.width else row.width,
      if v.height != mem.height then v.height else row.height,
      if v.channels != mem.channels then v.channels else row.channels,
      if v.bitrate != mem.bitrate then v.bitrate else row.bitrate,
      if v.frequency != mem.frequency then v.frequency else row.frequency,
      if v.duration != mem.duration then v.duration else row.duration,
      if v.date != mem.date then v.date else row.date)
  }

  /** The object as `GetObjects` read it some time ago. */
  datatype Memory = Memory(info: VideoInfo, bookmark: NullInt64, reindexAt: Option<int>)

  function UpdatedRow(row: Row, mem: Memory, v: Option<VideoInfo>, b: Option<NullInt64>): Row {
    row.(info := if v.Some? then Merged(row.info, mem.info, v.value) else row.info,
         reindexAt := if v.Some? && mem.reindexAt.Some? then None else row.reindexAt,
         bookmark := if b.Some? && mem.bookmark != b.value then Nullable(b.value) else row.bookmark)
  }

  function UpdatedMemory(mem: Memory, v: Option<VideoInfo>, b: Option<NullInt64>): Memory {
    Memory(if v.Some? then v.value else mem.info,
           if b.Some? then b.value else mem.bookmark,
           if v.Some? then None else mem.reindexAt)
  }

  /** Writing everything that was found, whatever the row held. */
  function Overwritten(row: Row, v: Option<VideoInfo>, b: Option<NullInt64>): Row {
    row.(info := if v.Some? then v.value else row.info,
         reindexAt := if v.Some? then None else row.reindexAt,
         bookmark := if b.Some? then Nullable(b.value) else row.bookmark)
  }

  /** Where memory already holds what was found, so does the row. */
  predicate UpToDate(row: Row, mem: Memory, v: Option<VideoInfo>, b: Option<NullInt64>) {
    && (v.Some? ==> InfoUpToDate(row.info, mem.info, v.value) && (mem.reindexAt.None? ==> row.reindexAt.None?))
    && (b.Some? && mem.bookmark == b.value ==> row.bookmark == Nullable(b.value))
  }

  predicate InfoUpToDate(row: VideoInfo, mem: VideoInfo, v: VideoInfo) {
    && (v.format == mem.format ==> row.format == mem.format)
    && (v.fileSize == mem.fileSize ==> row.fileSize == mem.fileSize)
    && (v.videoCodec == mem.videoCodec ==> row.videoCodec == mem.videoCodec)
    && (v.audioCodec == mem.audioCodec ==> row.audioCodec == mem.audioCodec)
    && (v.width == mem.width ==> row.width == mem.width)
    && (v.height == mem.height ==> row.height == mem.height)
    && (v.channels == mem.channels ==> row.channels == mem.channels)
    && (v.bitrate == mem.bitrate ==> row.bitrate == mem.bitrate)
    && (v.frequency == mem.frequency ==> row.frequency == mem.frequency)
    && (v.duration == mem.duration ==> row.duration == mem.duration)
    && (v.date == mem.date ==> row.date == mem.date)
  }

  /** Updating by differences equals overwriting exactly when no column that is skipped is out of date. */
  lemma UpdateOverwrites(row: Row, mem: Memory, v: Option<VideoInfo>, b: Option<NullInt64>)
    ensures UpdatedRow(row, mem, v, b) == Overwritten(row, v, b) <==> UpToDate(row, mem, v, b)
  {
    if v.Some? { MergedOverwrites(row.info, mem.info, v.value); }
  }

  lemma MergedOverwrites(row: VideoInfo, mem: VideoInfo, v: VideoInfo)
    ensures Merged(row, mem, v) == v <==> InfoUpToDate(row, mem, v)
  {
    var m := Merged(row, mem, v);
    assert m == VideoInfo(m.format, m.fileSize, m.videoCodec, m.audioCodec, m.width, m.height,
                          m.channels, m.bitrate, m.frequency, m.duration, m.date);
  }

  /** The object was read from this row, and the row has not changed since. */
  predicate Mirrors(mem: Memory, row: Row) {
    mem.info == row.info && Nullable(mem.bookmark) == row.bookmark && mem.reindexAt == row.reindexAt
  }

  /** An object that still mirrors its row is updated by overwriting, and mirrors the new row. */
  lemma FreshObjectOverwrites(row: Row, mem: Memory, v: Option<VideoInfo>, b: Option<NullInt64>)
    requires Mirrors(mem, row)
    ensures UpdatedRow(row, mem, v, b) == Overwritten(row, v, b)
    ensures Mirrors(UpdatedMemory(mem, v, b), UpdatedRow(row, mem, v, b))
  {
    UpdateOverwrites(row, mem, v, b);
  }

  function SourceMerged(row: VideoInfo, mem: VideoInfo, v: VideoInfo): VideoInfo {
    row.(format := if v.format != mem.format then v.format else row.format,
             fileSize := if v.fileSize != mem.fileSize then v.fileSize else row.fileSize,
             videoCodec := if v.videoCodec != mem.videoCodec then v.videoCodec else row.videoCodec,
             audioCodec := if v.audioCodec != mem.audioCodec then v.audioCodec else row.audioCodec)
  }

  function PictureMerged(row: VideoInfo, mem: VideoInfo, v: VideoInfo): VideoInfo {
    row.(width := if v.width != mem.width then v.width else row.width,
             height := if v.height != mem.height then v.height else row.height,
             channels := if v.channels != mem.channels then v.channels else row.channels,
             bitrate := if v.bitrate != mem.bitrate then v.bitrate else row.bitrate)
  }

  function TimeMerged(row: VideoInfo, mem: VideoInfo, v: VideoInfo): VideoInfo {
    row.(frequency := if v.frequency != mem.frequency then v.frequency else row.frequency,
             duration := if v.duration != mem.duration then v.duration else row.duration,
             date := if v.date != mem.date then v.date else row.date)
  }

  lemma MergedInGroups(row: VideoInfo, mem: VideoInfo, v: VideoInfo)
    ensures var mem1 := mem.(format := v.format, fileSize := v.fileSize, videoCodec := v.videoCodec,
                             audioCodec := v.audioCodec);
            var mem2 := mem1.(width := v.width, height := v.height, channels := v.channels, bitrate := v.bitrate);
            TimeMerged(PictureMerged(SourceMerged(row, mem, v), mem1, v), mem2, v) == Merged(row, mem, v)
  {
  }

  class Object {
    var id: int
    var format: string
    var fileSize: int
    var videoCodec: string
    var audioCodec: string
    var width: int
    var height: int
    var channels: int
    var bitrate: int
    var frequency: int
    var duration: int
    var bookmark: NullInt64
    var date: int
    var reindexAt: Option<int>

    ghost function Info(): VideoInfo
      reads this
    {
      VideoInfo(format, fileSize, videoCodec, audioCodec, width, height, channels, bitrate, frequency, duration, date)
    }

    ghost function Mem(): Memory
      reads this
    {
      Memory(Info(), bookmark, reindexAt)
    }

    /** An object as scanned from a row. */
    constructor (id: int, row: Row)
      ensures this.id == id && Mirrors(Mem(), row)
    {
      this.id := id;
      format, fileSize := row.info.format, row.info.fileSize;
      videoCodec, audioCodec := row.info.videoCodec, row.info.audioCodec;
      width, height, channels, bitrate := row.info.width, row.info.height, row.info.channels, row.info.bitrate;
      frequency, duration, date := row.info.frequency, row.info.duration, row.info.date;
      bookmark := if row.bookmark.Some? then NullInt64(row.bookmark.value, true) else NullInt64(0, false);
      reindexAt := row.reindexAt;
    }

    /** Format, size and codecs. */
    method SourceUpdates(v: VideoInfo, updates0: seq<Assign>, params0: seq<string>, idx0: nat, ghost row: Row,
        ghost to0: Row)
      returns (updates: seq<Assign>, params: seq<string>, idx: nat, ghost to: Row)
      requires Builds(row, updates0, params0, idx0, to0)
      modifies `format, `fileSize, `videoCodec, `audioCodec
      ensures format == v.format
      ensures fileSize == v.fileSize
      ensures videoCodec == v.videoCodec
      ensures audioCodec == v.audioCodec
      ensures Builds(row, updates, params, idx, to)
      ensures |updates| >= |updates0|
      ensures |updates| == |updates0| <==>
        && old(format) == v.format && old(fileSize) == v.fileSize
        && old(videoCodec) == v.videoCodec && old(audioCodec) == v.audioCodec
      ensures to == to0.(info := SourceMerged(to0.info, old(Info()), v))
    {
      hide Builds;
      updates, params, idx, to := updates0, params0, idx0, to0;
      if v.format != format {
        PushText(row, updates, params, idx, to, Format, v.format);
        format := v.format;
        updates := updates + [SetParam(Format, idx)];
        params := params + [v.format];
        idx := idx + 1;
        to := WithText(to, Format, v.format);
      }
      if v.fileSize != fileSize {
        PushNumber(row, updates, params, idx, to, FileSize, v.fileSize);
        fileSize := v.fileSize;
        updates := updates + [SetNumber(FileSize, v.fileSize)];
        to := WithNumber(to, FileSize, v.fileSize);
      }
      if v.videoCodec != videoCodec {
        PushText(row, updates, params, idx, to, VideoCodec, v.videoCodec);
        videoCodec := v.videoCodec;
        updates := updates + [SetParam(VideoCodec, idx)];
        params := params + [v.videoCodec];
        idx := idx + 1;
        to := WithText(to, VideoCodec, v.videoCodec);
      }
      if v.audioCodec != audioCodec {
        PushText(row, updates, params, idx, to, AudioCodec, v.audioCodec);
        audioCodec := v.audioCodec;
        updates := updates + [SetParam(AudioCodec, idx)];
        params := params + [v.audioCodec];
        idx := idx + 1;
        to := WithText(to, AudioCodec, v.audioCodec);
      }
    }

    /** Dimensions, channels and bitrate. */
    method PictureUpdates(v: VideoInfo, updates0: seq<Assign>, params0: seq<string>, idx0: nat, ghost row: Row,
        ghost to0: Row)
      returns (updates: seq<Assign>, params: seq<string>, idx: nat, ghost to: Row)
      requires Builds(row, updates0, params0, idx0, to0)
      modifies `width, `height, `channels, `bitrate
      ensures width == v.width
      ensures height == v.height
      ensures channels == v.channels
      ensures bitrate == v.bitrate
      ensures Builds(row, updates, params, idx, to)
      ensures |updates| >= |updates0|
      ensures |updates| == |updates0| <==>
        && old(width) == v.width && old(height) == v.height && old(channels) == v.channels && old(bitrate) == v.bitrate
      ensures to == to0.(info := PictureMerged(to0.info, old(Info()), v))
    {
      hide Builds;
      updates, params, idx, to := updates0, params0, idx0, to0;
      if v.width != width {
        PushNumber(row, updates, params, idx, to, Width, v.width);
        width := v.width;
        updates := updates + [SetNumber(Width, v.width)];
        to := WithNumber(to, Width, v.width);
      }
      if v.height != height {
        PushNumber(row, updates, params, idx, to, Height, v.height);
        height := v.height;
        updates := updates + [SetNumber(Height, v.height)];
        to := WithNumber(to, Height, v.height);
      }
      if v.channels != channels {
        PushNumber(row, updates, params, idx, to, Channels, v.channels);
        channels := v.channels;
        updates := updates + [SetNumber(Channels, v.channels)];
        to := WithNumber(to, Channels, v.channels);
      }
      if v.bitrate != bitrate {
        PushNumber(row, updates, params, idx, to, Bitrate, v.bitrate);
        bitrate := v.bitrate;
        updates := updates + [SetNumber(Bitrate, v.bitrate)];
        to := WithNumber(to, Bitrate, v.bitrate);
      }
    }

    /** Frequency, duration, date, and the end of the pending state. */
    method TimeUpdates(v: VideoInfo, updates0: seq<Assign>, params0: seq<string>, idx0: nat, ghost row: Row,
        ghost to0: Row)
      returns (updates: seq<Assign>, params: seq<string>, idx: nat, ghost to: Row)
      requires Builds(row, updates0, params0, idx0, to0)
      modifies `frequency, `duration, `date, `reindexAt
      ensures frequency == v.frequency
      ensures duration == v.duration
      ensures date == v.date
      ensures reindexAt == None
      ensures Builds(row, updates, params, idx, to)
      ensures |updates| >= |updates0|
      ensures |updates| == |updates0| <==>
        && old(frequency) == v.frequency && old(duration) == v.duration && old(date) == v.date
        && old(reindexAt) == None
      ensures to == to0.(info := TimeMerged(to0.info, old(Info()), v),
                         reindexAt := if old(reindexAt).Some? then None else to0.reindexAt)
    {
      hide Builds;
      updates, params, idx, to := updates0, params0, idx0, to0;
      if v.frequency != frequency {
        PushNumber(row, updates, params, idx, to, Frequency, v.frequency);
        frequency := v.frequency;
        updates := updates + [SetNumber(Frequency, v.frequency)];
        to := WithNumber(to, Frequency, v.frequency);
      }
      if v.duration != duration {
        PushNumber(row, updates, params, idx, to, Duration, v.duration);
        duration := v.duration;
        updates := updates + [SetNumber(Duration, v.duration)];
        to := WithNumber(to, Duration, v.duration);
      }
      if v.date != date {
        PushNumber(row, updates, params, idx, to, Date, v.date);
        date := v.date;
        updates := updates + [SetNumber(Date, v.date)];
        to := WithNumber(to, Date, v.date);
      }
      if reindexAt.Some? {
        PushNull(row, updates, params, idx, to, ReindexAt);
        reindexAt := None;
        updates := updates + [SetNull(ReindexAt)];
        to := WithNull(to, ReindexAt);
      }
    }

    /** The SET list for everything that was probed. */
    method VideoUpdates(v: VideoInfo, ghost row: Row) returns (updates: seq<Assign>, params: seq<string>, idx: nat)
      modifies this
      ensures Mem() == old(Mem()).(info := v, reindexAt := None) && id == old(id)
      ensures Builds(row, updates, params, idx, UpdatedRow(row, old(Mem()), Some(v), None))
      ensures updates == [] <==> old(Info()) == v && old(reindexAt) == None
    {
      hide Builds;
      BuildsNothing(row);
      MergedInGroups(row.info, Info(), v);
      ghost var to;
      updates, params, idx, to := SourceUpdates(v, [], [], 1, row, row);
      updates, params, idx, to := PictureUpdates(v, updates, params, idx, row, to);
      updates, params, idx, to := TimeUpdates(v, updates, params, idx, row, to);
    }

    /** The SET list. Whatever row it is executed on, it writes what differed from memory; the object
        takes over every value that differs. */
    method BuildUpdates(v: Option<VideoInfo>, b: Option<NullInt64>, ghost row: Row)
      returns (updates: seq<Assign>, params: seq<string>)
      modifies this
      ensures Mem() == UpdatedMemory(old(Mem()), v, b) && id == old(id)
      ensures Builds(row, updates, params, |params| + 1, UpdatedRow(row, old(Mem()), v, b))
      ensures updates == [] <==>
        (v.Some? ==> old(Info()) == v.value && old(reindexAt) == None) && (b.Some? ==> old(bookmark) == b.value)
    {
      hide Builds;
      var idx := 1;
      updates, params := [], [];
      BuildsNothing(row);
      if v.Some? {
        updates, params, idx := VideoUpdates(v.value, row);
      }
      ghost var to := UpdatedRow(row, old(Mem()), v, None);
      if b.Some? && bookmark != b.value {
        bookmark := b.value;
        if b.value.valid {
          PushNumber(row, updates, params, idx, to, Bookmark, b.value.value);
          updates := updates + [SetNumber(Bookmark, b.value.value)];
        } else {
          PushNull(row, updates, params, idx, to, Bookmark);
          updates := updates + [SetNull(Bookmark)];
        }
      }
      NextIndex(row, updates, params, idx, UpdatedRow(row, old(Mem()), v, b));
    }
  }

  lemma NextIndex(row: Row, updates: seq<Assign>, params: seq<string>, idx: nat, to: Row)
    requires Builds(row, updates, params, idx, to)
    ensures idx == |params| + 1
  {
  }

  lemma BuildsNothing(row: Row)
    ensures Builds(row, [], [], 1, row)
  {
  }

  lemma NothingToDo(row: Row, params: seq<string>, idx: nat, to: Row)
    requires Builds(row, [], params, idx, to)
    ensures to == row
  {
  }

  lemma Executes(row: Row, updates: seq<Assign>, params: seq<string>, idx: nat, to: Row)
    requires Builds(row, updates, params, idx, to)
    ensures Exec(row, updates, params) == to
  {
  }

  datatype Outcome = Updated | NilObject | QueryFailed

  /** The rows after the update of one id. */
  function RowsUpdated(rows: map<nat, Row>, id: int, mem: Memory, v: Option<VideoInfo>,
      b: Option<NullInt64>): map<nat, Row> {
    map i | i in rows :: if i == id then UpdatedRow(rows[i], mem, v, b) else rows[i]
  }

  /** `UpdateObject`. When the query fails, the object in memory has nevertheless changed. */
  method UpdateObject(db: ObjectsTable, o: Object?, v: Option<VideoInfo>, b: Option<NullInt64>, queryOk: bool)
    returns (outcome: Outcome)
    modifies db, o
    ensures outcome == NilObject <==> o == null || old(o.id) == 0
    ensures outcome == NilObject ==> db.State() == old(db.State())
    ensures outcome == NilObject && o != null ==> o.Mem() == old(o.Mem())
    ensures outcome != NilObject ==> o.Mem() == UpdatedMemory(old(o.Mem()), v, b) && o.id == old(o.id)
    ensures outcome == Updated ==>
      db.State() == old(db.State()).(rows := RowsUpdated(old(db.rows), old(o.id), old(o.Mem()), v, b))
    ensures outcome == QueryFailed <==>
      && o != null && old(o.id) != 0 && !queryOk
      && ((v.Some? && (old(o.Info()) != v.value || old(o.reindexAt).Some?))
          || (b.Some? && old(o.bookmark) != b.value))
    ensures !queryOk ==> db.State() == old(db.State())
    ensures db.rows.Keys == old(db.rows).Keys && db.nextId == old(db.nextId)
    ensures forall i :: i in db.rows ==>
      var before, after := old(db.rows)[i], db.rows[i];
      && after.path == before.path && after.typ == before.typ && after.online == before.online
      && (o == null || i != old(o.id) ==> after == before)
      && (o == null || v.None? || old(o.Info()) == v.value ==> after.info == before.info)
      && (o == null || b.None? || old(o.bookmark) == b.value ==> after.bookmark == before.bookmark)
  {
    if o == null || o.id == 0 {
      return NilObject;
    }
    if v.None? && b.None? {
      assert RowsUpdated(db.rows, o.id, o.Mem(), v, b) == db.rows;
      return Updated;
    }
    ghost var mem0 := o.Mem();
    ghost var target := if o.id in db.rows then db.rows[o.id] else Row("", Video, NO_INFO, None, true, None);
    var updates, params := o.BuildUpdates(v, b, target);
    if |updates| == 0 {
      NothingToDo(target, params, |params| + 1, UpdatedRow(target, mem0, v, b));
      assert RowsUpdated(db.rows, o.id, mem0, v, b) == db.rows;
      return Updated;
    }
    if !queryOk {
      return QueryFailed;
    }
    Executes(target, updates, params, |params| + 1, UpdatedRow(target, mem0, v, b));
    db.rows := map i | i in db.rows :: if i == o.id then Exec(db.rows[i], updates, params) else db.rows[i];
    return Updated;
  }
}
