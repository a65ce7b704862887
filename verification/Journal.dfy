/** The undo journal: a file of tracks that is written forward and popped backward. */
module Journal {
  import opened Bytes
  import opened Values
  import opened Records

  const TIME_LEN := 23

  /** How to undo an operation: delete the record, put these fields back, or insert it again. */
  datatype Kind = Delete | Update | Insert

  datatype Track = Track(time: seq<byte>, kind: Kind, id: nat, fields: seq<Value>)

  ghost predicate TrackOk(t: Track) {
    && |t.time| == TIME_LEN && t.id < U32_LIMIT && AllFit(t.fields)
    && (if t.kind.Delete? then t.fields == [] else t.fields != [])
    && SizeOf(t.fields) + TIME_LEN + 13 < U32_LIMIT
  }

  function KindByte(k: Kind): byte {
    match k
    case Delete => 0
    case Update => 1
    case Insert => 2
  }

  function KindOf(b: byte): Kind
    requires b <= 2
  {
    if b == 0 then Delete else if b == 1 then Update else Insert
  }

  ghost function DataBytes(t: Track): seq<byte>
    requires TrackOk(t)
  {
    if t.kind.Delete? then [] else U32Bytes(SizeOf(t.fields)) + RecordBytes(t.fields)
  }

  function TrackSize(dataSize: nat): nat {
    TIME_LEN + 4 + 1 + 4 + if dataSize == 0 then 0 else 4 + dataSize
  }

  ghost function TrackBytes(t: Track): (b: seq<byte>)
    requires TrackOk(t)
    ensures |b| == TrackSize(SizeOf(t.fields))
  {
    NoFieldsNoBytes(t.fields);
    t.time + U32Bytes(t.id) + [KindByte(t.kind)] + DataBytes(t) + U32Bytes(TrackSize(SizeOf(t.fields)))
  }

  lemma NoFieldsNoBytes(fields: seq<Value>)
    ensures SizeOf(fields) == 0 <==> fields == []
  {
    SizeBounds(fields);
  }

  ghost predicate AllOk(tracks: seq<Track>) {
    forall i :: 0 <= i < |tracks| ==> TrackOk(tracks[i])
  }

  ghost function FileOf(tracks: seq<Track>): seq<byte>
    requires AllOk(tracks)
  {
    if tracks == [] then [] else FileOf(tracks[..|tracks| - 1]) + TrackBytes(tracks[|tracks| - 1])
  }

  /** Track `t` lies at `start`: its last word gives its size, and its parts lie at fixed places. */
  ghost predicate TrackAt(file: seq<byte>, start: nat, t: Track) {
    var n := SizeOf(t.fields);
    var end := start + TrackSize(n);
    && end <= |file| && U32(file[end - 4..end]) == TrackSize(n)
    && file[start..start + 23] == t.time
    && U32(file[start + 23..start + 27]) == t.id && file[start + 27] == KindByte(t.kind)
    && (!t.kind.Delete? ==> DataAt(file, start + 28, t.fields))
  }

  ghost predicate DataAt(file: seq<byte>, at: nat, fields: seq<Value>) {
    var n := SizeOf(fields);
    && at + 4 + n <= |file| && AllFit(fields)
    && U32(file[at..at + 4]) == n && file[at + 4..at + 4 + n] == RecordBytes(fields)
  }

  lemma SliceOfSlice(f: seq<byte>, p: nat, e: nat, i: nat, j: nat)
    requires p <= e <= |f| && i <= j <= e - p
    ensures f[p..e][i..j] == f[p + i..p + j]
  {
    assert forall k :: 0 <= k < j - i ==> f[p..e][i..j][k] == f[p + i..p + j][k];
  }

  lemma FiveParts(a: seq<byte>, b: seq<byte>, c: seq<byte>, d: seq<byte>, e: seq<byte>)
    ensures var s := a + b + c + d + e; var i := |a|; var j := i + |b|; var k := j + |c|; var l := k + |d|;
      && s[..i] == a && s[i..j] == b && s[j..k] == c && s[k..l] == d && s[l..] == e && |s| == l + |e|
  {
  }

  /** The parts of the bytes of a track. */
  lemma TrackSlices(t: Track)
    requires TrackOk(t)
    ensures var b, n := TrackBytes(t), SizeOf(t.fields); var k := |b| - 4;
      && |b| == TrackSize(n) && k == 28 + |DataBytes(t)|
      && b[..23] == t.time && b[23..27] == U32Bytes(t.id) && b[27..28] == [KindByte(t.kind)]
      && b[28..k] == DataBytes(t) && b[k..] == U32Bytes(TrackSize(n))
  {
    hide RecordBytes, SizeOf, U32Bytes, KindByte;
    NoFieldsNoBytes(t.fields);
    FiveParts(t.time, U32Bytes(t.id), [KindByte(t.kind)], DataBytes(t), U32Bytes(TrackSize(SizeOf(t.fields))));
  }

  lemma TrackParts(file: seq<byte>, start: nat, t: Track)
    requires TrackOk(t) && start + |TrackBytes(t)| <= |file| && file[start..start + |TrackBytes(t)|] == TrackBytes(t)
    ensures TrackAt(file, start, t)
  {
    hide RecordBytes, SizeOf, U32Bytes, TrackBytes, KindByte, DataAt, DataBytes, TrackSize;
    TrackSlices(t);
    var b, n := TrackBytes(t), SizeOf(t.fields);
    var end, k := start + |b|, |b| - 4;
    SliceOfSlice(file, start, end, 0, 23);
    SliceOfSlice(file, start, end, 23, 27);
    SliceOfSlice(file, start, end, 27, 28);
    SliceOfSlice(file, start, end, 28, k);
    SliceOfSlice(file, start, end, k, |b|);
    TrackSizeFits(t);
    U32Bijection(t.id, U32Bytes(t.id));
    U32Bijection(TrackSize(n), U32Bytes(TrackSize(n)));
    assert b[k..|b|] == b[k..];
    assert file[start + 27] == file[start + 27..start + 28][0];
    if !t.kind.Delete? { DataParts(file, start + 28, t); }
  }

  lemma TrackSizeFits(t: Track)
    requires TrackOk(t)
    ensures TrackSize(SizeOf(t.fields)) < U32_LIMIT
  {
  }

  lemma DataParts(file: seq<byte>, at: nat, t: Track)
    requires TrackOk(t) && !t.kind.Delete?
    requires at + |DataBytes(t)| <= |file| && file[at..at + |DataBytes(t)|] == DataBytes(t)
    ensures DataAt(file, at, t.fields)
  {
    hide RecordBytes, SizeOf, U32Bytes;
    var n, d := SizeOf(t.fields), DataBytes(t);
    assert d[..4] == U32Bytes(n) && d[4..] == RecordBytes(t.fields);
    SliceOfSlice(file, at, at + |d|, 0, 4);
    SliceOfSlice(file, at, at + |d|, 4, |d|);
    U32Bijection(n, U32Bytes(n));
  }

  lemma MoreTracks(tracks: seq<Track>, t: Track)
    requires AllOk(tracks) && TrackOk(t)
    ensures AllOk(tracks + [t]) && FileOf(tracks + [t]) == FileOf(tracks) + TrackBytes(t)
  {
    assert (tracks + [t])[..|tracks|] == tracks;
  }

  /** The last track of a file. */
  lemma LastTrack(file: seq<byte>, tracks: seq<Track>)
    requires AllOk(tracks) && file == FileOf(tracks)
    ensures file == [] <==> tracks == []
    ensures tracks != [] ==>
      var t := tracks[|tracks| - 1]; var start := |file| - TrackSize(SizeOf(t.fields));
      && start >= 0 && file[..start] == FileOf(tracks[..|tracks| - 1]) && TrackAt(file, start, t)
  {
    hide FileOf, TrackBytes, TrackAt, SizeOf, TrackOk;
    if tracks == [] {
      NoTracks();
    } else {
      var rest, t := tracks[..|tracks| - 1], tracks[|tracks| - 1];
      AllButLast(tracks);
      MoreTracks(rest, t);
      EndOfFile(file, FileOf(rest), t);
    }
  }

  lemma AllButLast(tracks: seq<Track>)
    requires tracks != []
    ensures tracks[..|tracks| - 1] + [tracks[|tracks| - 1]] == tracks
  {
  }

  lemma NoTracks()
    ensures FileOf([]) == []
  {
  }

  lemma EndOfFile(file: seq<byte>, init: seq<byte>, t: Track)
    requires TrackOk(t) && file == init + TrackBytes(t)
    ensures file != [] && |init| == |file| - TrackSize(SizeOf(t.fields)) && file[..|init|] == init
      && TrackAt(file, |init|, t)
  {
    hide TrackAt;
    var b := TrackBytes(t);
    hide TrackBytes;
    assert file[|init|..|init| + |b|] == b;
    TrackParts(file, |init|, t);
  }

  lemma Whole(f: seq<byte>)
    ensures f[..|f|] == f
  {
  }

  lemma AppendedTrack(before: seq<byte>, body: seq<byte>, file: seq<byte>, t: Track, data: seq<byte>)
    requires TrackOk(t) && data == RecordBytes(t.fields)
    requires var head := before + t.time + U32Bytes(t.id) + [KindByte(t.kind)];
      body == if data == [] then head else head + U32Bytes(|data|) + data
    requires file == body + U32Bytes(TrackSize(|data|))
    ensures file == before + TrackBytes(t)
  {
    hide RecordBytes, SizeOf, U32Bytes;
    NoFieldsNoBytes(t.fields);
    if t.kind.Delete? {
      Regroup(before, t.time, U32Bytes(t.id), [KindByte(t.kind)], [], [], U32Bytes(TrackSize(SizeOf(t.fields))));
    } else {
      Regroup(before, t.time, U32Bytes(t.id), [KindByte(t.kind)], U32Bytes(SizeOf(t.fields)), RecordBytes(t.fields),
              U32Bytes(TrackSize(SizeOf(t.fields))));
    }
  }

  lemma Regroup(x: seq<byte>, a: seq<byte>, b: seq<byte>, c: seq<byte>, d: seq<byte>, e: seq<byte>, f: seq<byte>)
    ensures x + a + b + c + d + e + f == x + (a + b + c + (d + e) + f)
    ensures d == [] && e == [] ==> x + a + b + c + f == x + (a + b + c + d + f)
  {
  }

  method ReadTrack(file: seq<byte>, start: nat, ghost t: Track, width: nat, known: set<nat>) returns (r: Track)
    requires TrackAt(file, start, t) && TrackOk(t)
    requires t.kind.Delete? || (|t.fields| == width && AllKnown(t.fields, known))
    ensures r == t
  {
    hide SizeOf, RecordBytes;
    var writtenTime := file[start..start + TIME_LEN];
    var id := U32(file[start + 23..start + 27]);
    var kind := KindOf(file[start + 27]);
    var fields: seq<Value> := [];
    if !kind.Delete? {
      var size := U32(file[start + 28..start + 32]);
      var got := FromBinary(file[start + 32..start + 32 + size], width, known);
      assert got.Some?;
      RoundTrip(got.value, t.fields);
      fields := got.value;
    }
    r := Track(writtenTime, kind, id, fields);
  }

  class Journal {
    var file: seq<byte>
    var pos: nat
    /** What is written up to `pos`. */
    ghost var tracks: seq<Track>

    ghost predicate Valid()
      reads this
    {
      AllOk(tracks) && pos <= |file| && file[..pos] == FileOf(tracks)
    }

    /** Opening a journal file that was closed before, or a new one. */
    constructor (file: seq<byte>, ghost tracks: seq<Track>)
      requires AllOk(tracks) && file == FileOf(tracks)
      ensures Valid() && this.tracks == tracks && pos == |file|
    {
      this.file, pos, this.tracks := file, |file|, tracks;
    }

    method TruncateToLast()
      requires Valid()
      modifies this
      ensures Valid() && pos == |file| == old(pos) && tracks == old(tracks)
    {
      file := file[..pos];
    }

    /** What is left in the file is what the next opening reads. */
    method Close()
      requires Valid()
      modifies this
      ensures Valid() && tracks == old(tracks) && file == FileOf(tracks)
    {
      if pos != |file| {
        TruncateToLast();
      }
      assert file[..pos] == file;
    }

    method SaveInsertion(now: seq<byte>, id: nat)
      requires Valid() && |now| == TIME_LEN && id < U32_LIMIT
      modifies this
      ensures Valid() && tracks == old(tracks) + [Track(now, Delete, id, [])] && pos == |file|
    {
      WriteTrack(Track(now, Delete, id, []), now, Delete, id, []);
    }

    method SaveUpdation(now: seq<byte>, id: nat, fields: seq<Value>)
      requires Valid() && TrackOk(Track(now, Update, id, fields))
      modifies this
      ensures Valid() && tracks == old(tracks) + [Track(now, Update, id, fields)] && pos == |file|
    {
      var data := Serialize(fields);
      WriteTrack(Track(now, Update, id, fields), now, Update, id, data);
    }

    method SaveDeletion(now: seq<byte>, id: nat, fields: seq<Value>)
      requires Valid() && TrackOk(Track(now, Insert, id, fields))
      modifies this
      ensures Valid() && tracks == old(tracks) + [Track(now, Insert, id, fields)] && pos == |file|
    {
      var data := Serialize(fields);
      WriteTrack(Track(now, Insert, id, fields), now, Insert, id, data);
    }

    method Write(b: seq<byte>)
      modifies `file
      ensures file == old(file) + b
    {
      file := file + b;
    }

    /** Tracks popped before are dropped from the file, and the new one goes behind the rest. */
    method WriteTrack(ghost t: Track, time: seq<byte>, kind: Kind, id: nat, data: seq<byte>)
      requires Valid() && TrackOk(t) && t.time == time && t.kind == kind && t.id == id && data == RecordBytes(t.fields)
      modifies this
      ensures Valid() && tracks == old(tracks) + [t] && pos == |file|
    {
      if pos != |file| {
        TruncateToLast();
      }
      hide FileOf, TrackBytes, RecordBytes, SizeOf, TrackOk, AllOk;
      Whole(file);
      WriteParts(t, time, kind, id, data);
      pos := |file|;
      Whole(file);
      MoreTracks(tracks, t);
      tracks := tracks + [t];
    }

    method WriteParts(ghost t: Track, time: seq<byte>, kind: Kind, id: nat, data: seq<byte>)
      requires TrackOk(t) && t.time == time && t.kind == kind && t.id == id && data == RecordBytes(t.fields)
      modifies `file
      ensures file == old(file) + TrackBytes(t)
    {
      hide TrackBytes, RecordBytes, SizeOf, U32Bytes;
      ghost var before := file;
      Write(time);
      Write(U32Bytes(id));
      Write([KindByte(kind)]);
      if data != [] {
        Write(U32Bytes(|data|));
        Write(data);
      }
      ghost var body := file;
      Write(U32Bytes(TrackSize(|data|)));
      AppendedTrack(before, body, file, t, data);
    }

    /** The last track, unless there is none or it is older than `time`. */
    method RevertLast(time: seq<byte>, width: nat, known: set<nat>) returns (r: Option<Track>)
      requires Valid()
      requires tracks != [] ==>
        var last := tracks[|tracks| - 1]; last.kind.Delete? || (|last.fields| == width && AllKnown(last.fields, known))
      modifies this
      ensures Valid() && file == old(file)
      ensures r.None? <==> old(tracks) == [] || LexLess(old(tracks)[|old(tracks)| - 1].time, time)
      ensures r.None? ==> tracks == old(tracks) && pos == old(pos)
      ensures r.Some? ==> old(tracks) == tracks + [r.value]
    {
      hide FileOf, SizeOf, RecordBytes, LexLess;
      PopLast();
      if pos == 0 {
        return None;
      }
      ghost var last := tracks[|tracks| - 1];
      var lastPos := pos;
      var trackSize := U32(file[pos - 4..pos]);
      pos := pos - trackSize;
      var writtenTime := file[pos..pos + TIME_LEN];
      if LexLess(writtenTime, time) {
        pos := lastPos;
        return None;
      }
      var t := ReadTrack(file, pos, last, width, known);
      tracks := tracks[..|tracks| - 1];
      r := Some(t);
    }

    lemma PopLast()
      requires Valid()
      ensures pos == 0 <==> tracks == []
      ensures tracks != [] ==>
        var last := tracks[|tracks| - 1]; var start := pos - TrackSize(SizeOf(last.fields));
        && start >= 0 && file[..start] == FileOf(tracks[..|tracks| - 1]) && TrackAt(file, start, last)
        && U32(file[pos - 4..pos]) == TrackSize(SizeOf(last.fields))
    {
      hide FileOf, TrackAt;
      LastTrack(file[..pos], tracks);
      if tracks != [] {
        var last := tracks[|tracks| - 1];
        var start := pos - TrackSize(SizeOf(last.fields));
        assert file[..pos][..start] == file[..start];
        AtInPrefix(file, pos, start, last);
      }
    }
  }

  lemma AtInPrefix(file: seq<byte>, pos: nat, start: nat, t: Track)
    requires pos <= |file| && TrackAt(file[..pos], start, t)
    ensures TrackAt(file, start, t)
    ensures start + TrackSize(SizeOf(t.fields)) == pos ==> U32(file[pos - 4..pos]) == TrackSize(SizeOf(t.fields))
  {
    hide SizeOf, RecordBytes;
    var n := SizeOf(t.fields);
    var end := start + TrackSize(n);
    SliceOfSlice(file, 0, pos, end - 4, end);
    SliceOfSlice(file, 0, pos, start, start + 23);
    SliceOfSlice(file, 0, pos, start + 23, start + 27);
    if !t.kind.Delete? {
      SliceOfSlice(file, 0, pos, start + 28, start + 32);
      SliceOfSlice(file, 0, pos, start + 32, start + 32 + n);
    }
    assert file[0..pos] == file[..pos];
  }

  /** The bytes of a journal determine its tracks. */
  lemma {:induction false} FileDetermines(a: seq<Track>, b: seq<Track>, width: nat)
    requires AllOk(a) && AllOk(b) && FileOf(a) == FileOf(b)
    requires forall t :: t in a || t in b ==> t.kind.Delete? || |t.fields| == width
    ensures a == b
    decreases |a|
  {
    hide FileOf, TrackAt, TrackOk, SizeOf;
    var file := FileOf(a);
    LastTrack(file, a);
    LastTrack(file, b);
    if a != [] {
      var s, t := a[|a| - 1], b[|b| - 1];
      assert s in a && t in b;
      SameTrack(file, s, t, width);
      AllButLast(a);
      AllButLast(b);
      FileDetermines(a[..|a| - 1], b[..|b| - 1], width);
    }
  }

  lemma SameTrack(file: seq<byte>, s: Track, t: Track, width: nat)
    requires TrackOk(s) && TrackOk(t)
    requires (s.kind.Delete? || |s.fields| == width) && (t.kind.Delete? || |t.fields| == width)
    requires TrackSize(SizeOf(s.fields)) <= |file| && TrackAt(file, |file| - TrackSize(SizeOf(s.fields)), s)
    requires TrackSize(SizeOf(t.fields)) <= |file| && TrackAt(file, |file| - TrackSize(SizeOf(t.fields)), t)
    ensures s == t
  {
    hide RecordBytes, SizeOf;
    if !s.kind.Delete? { RoundTrip(s.fields, t.fields); }
  }
}
