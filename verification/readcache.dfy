/** The decoded findings of the files read most recently, within a number of
    files and of bytes. */
module FindingsReadCache {
  import opened Common
  import opened FindingsStore
  import opened FindingsRecords

  // ---------------------------------------------------------------------
  // Sums over maps.

  ghost function Total(m: map<string, nat>): nat
    decreases |m|
  {
    if m == map[] then 0
    else
      var k :| k in m;
      m[k] + Total(m - {k})
  }

  /** The sum is that of any one value and the rest. */
  lemma {:induction false} TotalTakes(m: map<string, nat>, k: string)
    requires k in m
    ensures Total(m) == m[k] + Total(m - {k})
    decreases |m|
  {
    var j :| j in m && Total(m) == m[j] + Total(m - {j});
    if j != k {
      TotalTakes(m - {j}, k);
      TotalTakes(m - {k}, j);
      assert m - {j} - {k} == m - {k} - {j};
    }
  }

  lemma TotalOfUpdate(m: map<string, nat>, k: string, v: nat)
    ensures Total(m[k := v]) == Total(m - {k}) + v
    ensures k !in m ==> m - {k} == m
  {
    TotalTakes(m[k := v], k);
    assert m[k := v] - {k} == m - {k};
  }

  // ---------------------------------------------------------------------
  // Records.

  /** The record of a file, with its size and the time it was last read. */
  datatype DecodedFile = DecodedFile(identity: Identity, ranges: Option<DecodedRanges>,
                                     entries: map<string, DecodedEntry>, bytes: nat, used: nat)

  function ExcerptBytes(findings: seq<Finding>): nat {
    if |findings| == 0 then 0 else |findings[0].excerpt| + ExcerptBytes(findings[1..])
  }

  /** What an entry counts for, perFinding bytes a finding. */
  function EntryBytes(e: DecodedEntry, perFinding: nat): nat {
    |e.key| + |e.findings| * perFinding + ExcerptBytes(e.findings)
    + (if e.series.Some? then |e.series.value.counts| * 8 else 0)
  }

  function RangesBytes(r: Option<DecodedRanges>): nat {
    if r.None? then 0 else |r.value.key| + |r.value.text.ranges| * 16
  }

  /** An entry counts for its key, and each finding more for perFinding bytes
      and its excerpt, each bucket of a series more for 8; ranges for their
      key, and each range more for 16. */
  lemma {:induction false} BytesAreOfParts(key: string, findings: seq<Finding>, f: Finding, series: Option<Series>, last: int,
                                           bucketMs: int, startMs: int, counts: seq<int>, n: int, perFinding: nat,
                                           count: int, ranges: seq<(int, int)>, r: (int, int), lines: int, bytes: int)
    ensures EntryBytes(DecodedEntry(key, [], None, last), perFinding) == |key|
    ensures EntryBytes(DecodedEntry(key, findings + [f], series, last), perFinding)
            == EntryBytes(DecodedEntry(key, findings, series, last), perFinding) + perFinding + |f.excerpt|
    ensures EntryBytes(DecodedEntry(key, findings, Some(Series(bucketMs, startMs, [])), last), perFinding)
            == EntryBytes(DecodedEntry(key, findings, None, last), perFinding)
    ensures EntryBytes(DecodedEntry(key, findings, Some(Series(bucketMs, startMs, counts + [n])), last), perFinding)
            == EntryBytes(DecodedEntry(key, findings, Some(Series(bucketMs, startMs, counts)), last), perFinding) + 8
    ensures RangesBytes(None) == 0 && RangesBytes(Some(DecodedRanges(key, count, ScannedText([], lines, bytes)))) == |key|
    ensures RangesBytes(Some(DecodedRanges(key, count, ScannedText(ranges + [r], lines, bytes))))
            == RangesBytes(Some(DecodedRanges(key, count, ScannedText(ranges, lines, bytes)))) + 16
  {
    ExcerptsMore(findings, f);
    assert (|findings| + 1) * perFinding == |findings| * perFinding + perFinding;
    hide ExcerptBytes;
  }

  lemma {:induction false} ExcerptsMore(findings: seq<Finding>, f: Finding)
    ensures ExcerptBytes(findings + [f]) == ExcerptBytes(findings) + |f.excerpt| && ExcerptBytes([]) == 0
  {
    if findings != [] {
      ExcerptsMore(findings[1..], f);
      assert (findings + [f])[1..] == findings[1..] + [f];
    } else {
      assert (findings + [f])[1..] == [];
    }
  }

  ghost function EntrySizes(entries: map<string, DecodedEntry>, perFinding: nat): map<string, nat> {
    map id | id in entries :: EntryBytes(entries[id], perFinding)
  }

  ghost function EntriesBytes(entries: map<string, DecodedEntry>, perFinding: nat): nat {
    Total(EntrySizes(entries, perFinding))
  }

  /** The bytes of a file's record are those of its ranges and entries. */
  ghost predicate Counted(f: DecodedFile, perFinding: nat) {
    f.bytes == RangesBytes(f.ranges) + EntriesBytes(f.entries, perFinding)
  }

  // ---------------------------------------------------------------------
  // The cache.

  ghost function FileSizes(files: map<string, DecodedFile>): map<string, nat> {
    map dir | dir in files :: files[dir].bytes
  }

  /** The bytes of all the files held. */
  ghost function HeldBytes(files: map<string, DecodedFile>): nat {
    Total(FileSizes(files))
  }

  class ReadCache {
    const maxFiles: nat
    const maxBytes: nat
    const perFinding: nat
    var bytes: nat
    var clock: nat
    var files: map<string, DecodedFile>

    /** The bytes are those of the files, each those of what it holds, and no
        two files were read at the same time. */
    ghost predicate Accounted()
      reads this
    {
      && maxFiles > 0 && maxBytes > 0 && bytes == HeldBytes(files)
      && (forall dir :: dir in files ==> Counted(files[dir], perFinding) && files[dir].used <= clock)
      && (forall a, b :: a in files && b in files && files[a].used == files[b].used ==> a == b)
    }

    ghost predicate Valid()
      reads this
    {
      Accounted() && |files| <= maxFiles && bytes <= maxBytes
    }

    constructor (maxFiles: nat, maxBytes: nat, perFinding: nat)
      requires maxFiles > 0 && maxBytes > 0
      ensures Valid() && files == map[] && this.maxFiles == maxFiles && this.maxBytes == maxBytes
    {
      this.maxFiles, this.maxBytes, this.perFinding := maxFiles, maxBytes, perFinding;
      bytes, clock, files := 0, 0, map[];
    }

    /** The record of dir, if it is of this identity; it then counts as read
        last. */
    method Lookup(dir: string, identity: Identity) returns (held: Option<DecodedFile>)
      requires Valid()
      modifies this`clock, this`files
      ensures Valid()
      ensures held.Some? <==> dir in old(files) && old(files)[dir].identity == identity
      ensures if held.Some? then held.value == old(files)[dir].(used := clock) && files == old(files)[dir := held.value]
              else files == old(files)
      ensures held.Some? ==> forall d :: d in files && d != dir ==> files[d].used < files[dir].used
    {
      if dir !in files || !Equal(files[dir].identity, identity) {
        return None;
      }
      clock := clock + 1;
      var f := files[dir].(used := clock);
      assert FileSizes(files[dir := f]) == FileSizes(files);
      files := files[dir := f];
      held := Some(f);
    }

    /** The directory read least recently. */
    method Oldest() returns (oldest: string)
      requires Accounted() && files != map[]
      ensures oldest in files && forall d :: d in files && d != oldest ==> files[oldest].used < files[d].used
    {
      var dirs := files.Keys;
      assert dirs != {} by {
        var d :| d in files;
        assert d in dirs;
      }
      oldest :| oldest in dirs;
      while dirs != {}
        invariant dirs <= files.Keys && oldest in files
        invariant forall d :: d in files && d !in dirs ==> files[oldest].used <= files[d].used
        decreases dirs
      {
        var d :| d in dirs;
        dirs := dirs - {d};
        if files[d].used < files[oldest].used {
          oldest := d;
        }
      }
    }

    /** Drops the file read least recently. */
    method DropOldest() returns (ghost oldest: string)
      requires Accounted() && files != map[]
      modifies this`bytes, this`files
      ensures Accounted() && oldest in old(files) && files == old(files) - {oldest}
      ensures forall d :: d in old(files) && d != oldest ==> old(files)[oldest].used < old(files)[d].used
    {
      var dir := Oldest();
      oldest := dir;
      DropsOne(files, dir);
      hide Counted, HeldBytes;
      bytes := bytes - files[dir].bytes;
      files := files - {dir};
    }

    /** Drops the files read least recently until the bounds hold; newest,
        which was read last and is within them alone, stays. */
    method Evict(ghost newest: string)
      requires Accounted() && newest in files && files[newest].bytes <= maxBytes
      requires forall d :: d in files && d != newest ==> files[d].used < files[newest].used
      modifies this`bytes, this`files
      ensures Valid() && newest in files && KeepsLatest(old(files), files)
      ensures old(Valid()) ==> files == old(files)
    {
      ghost var was := files;
      while |files| > maxFiles || bytes > maxBytes
        invariant Accounted() && newest in files && KeepsLatest(was, files)
        invariant old(Valid()) ==> files == was && bytes == old(bytes)
        decreases |files|
      {
        DropNext(newest, was);
      }
    }

    /** One turn of the eviction: there is a file to drop beside newest. */
    method DropNext(ghost newest: string, ghost was: map<string, DecodedFile>)
      requires Accounted() && (|files| > maxFiles || bytes > maxBytes) && KeepsLatest(was, files)
      requires newest in files && files[newest].bytes <= maxBytes
      requires forall d :: d in files && d != newest ==> files[d].used < files[newest].used
      modifies this`bytes, this`files
      ensures Accounted() && newest in files && KeepsLatest(was, files) && |files| < |old(files)|
    {
      NotAlone(newest);
      ghost var before := files;
      hide *;
      ghost var oldest := DropOldest();
      LatestKept(was, before, oldest);
    }

    /** Past a bound, newest is not the only file. */
    lemma NotAlone(newest: string)
      requires Accounted() && (|files| > maxFiles || bytes > maxBytes)
      requires newest in files && files[newest].bytes <= maxBytes
      ensures exists d :: d in files && d != newest
    {
      if forall d :: d in files ==> d == newest {
        Alone(files, newest);
      }
    }

    /** dir's record in the state identity, or an empty one; a record of
        another state no longer counts. */
    method BaseOf(dir: string, identity: Identity) returns (f: DecodedFile)
      requires Accounted()
      modifies this`bytes
      ensures f == Base(files, dir, identity) && Counted(f, perFinding)
      ensures bytes == HeldBytes(files - {dir}) + f.bytes
    {
      DropsOne(files, dir);
      hide FileSizes, Total;
      NothingCounted(identity, perFinding);
      f := DecodedFile(identity, None, map[], 0, 0);
      if dir in files {
        if Equal(files[dir].identity, identity) {
          f := files[dir];
        } else {
          bytes := bytes - files[dir].bytes;
        }
      }
    }

    /** dir's record with what a read decoded, counted in the bytes, but not
        yet in the files. */
    method AddTo(dir: string, identity: Identity, ranges: Option<DecodedRanges>, entries: map<string, DecodedEntry>)
      returns (f: DecodedFile)
      requires Accounted()
      modifies this`bytes
      ensures f == Merged(files, dir, identity, ranges, entries, perFinding)
      ensures bytes == HeldBytes(files - {dir}) + f.bytes
    {
      f := BaseOf(dir, identity);
      hide FileSizes, EntrySizes, Base, RangesBytes, ReadCache.Accounted, Total;
      if ranges.Some? {
        var more := WithRanges(f, ranges);
        bytes := bytes - f.bytes + more.bytes;
        f := more;
      }
      var more := AddEntries(f, entries);
      bytes := bytes - f.bytes + more.bytes;
      f := more;
    }

    method WithRanges(f: DecodedFile, ranges: Option<DecodedRanges>) returns (more: DecodedFile)
      requires Counted(f, perFinding)
      ensures Counted(more, perFinding) && more == f.(ranges := ranges, bytes := more.bytes)
    {
      more := f.(ranges := ranges, bytes := f.bytes - RangesBytes(f.ranges) + RangesBytes(ranges));
    }

    /** A record with more entries, each counted in place of the one it
        replaces. */
    method AddEntries(f: DecodedFile, entries: map<string, DecodedEntry>) returns (more: DecodedFile)
      requires Counted(f, perFinding)
      ensures Counted(more, perFinding)
      ensures more == f.(entries := f.entries + entries, bytes := more.bytes)
    {
      more := f;
      var ids := entries.Keys;
      ghost var done: set<string> := {};
      NoneOf(f.entries, entries);
      hide *;
      while ids != {}
        invariant done + ids == entries.Keys && done !! ids && Counted(more, perFinding)
        invariant more == f.(entries := f.entries + Those(entries, done), bytes := more.bytes)
        decreases ids
      {
        var id :| id in ids;
        OneMore(f.entries, entries, done, id);
        ids, done := ids - {id}, done + {id};
        more := AddEntry(more, id, entries[id]);
      }
      AllOf(entries);
    }

    method AddEntry(f: DecodedFile, id: string, e: DecodedEntry) returns (more: DecodedFile)
      requires Counted(f, perFinding)
      ensures Counted(more, perFinding) && more == f.(entries := f.entries[id := e], bytes := more.bytes)
    {
      ghost var sizes := EntrySizes(f.entries, perFinding);
      TotalOfUpdate(sizes, id, EntryBytes(e, perFinding));
      assert EntrySizes(f.entries[id := e], perFinding) == sizes[id := EntryBytes(e, perFinding)];
      var bytes: int := f.bytes;
      if id in f.entries {
        TotalTakes(sizes, id);
        bytes := bytes - EntryBytes(f.entries[id], perFinding);
      }
      bytes := bytes + EntryBytes(e, perFinding);
      more := f.(entries := f.entries[id := e], bytes := bytes);
    }

    /** Merges what a read decoded into dir's record of this identity. */
    method Store(dir: string, identity: Identity, ranges: Option<DecodedRanges>, entries: map<string, DecodedEntry>)
      requires Valid()
      modifies this`bytes, this`clock, this`files
      ensures Valid()
      ensures if ranges.None? && entries == map[] then files == old(files)
              else Stored(old(files), files, dir, Merged(old(files), dir, identity, ranges, entries, perFinding), clock,
                          maxFiles, maxBytes)
    {
      if ranges.None? && entries == map[] {
        return;
      }
      StoreRecord(dir, identity, ranges, entries);
    }

    method StoreRecord(dir: string, identity: Identity, ranges: Option<DecodedRanges>, entries: map<string, DecodedEntry>)
      requires Valid()
      modifies this`bytes, this`clock, this`files
      ensures Valid()
      ensures Stored(old(files), files, dir, Merged(old(files), dir, identity, ranges, entries, perFinding), clock,
                     maxFiles, maxBytes)
    {
      hide *;
      ghost var was := files;
      MergedCounted(files, dir, identity, ranges, entries, perFinding);
      ValidParts();
      var f := AddTo(dir, identity, ranges, entries);
      if f.bytes > maxBytes {
        DropRecord(dir, f.bytes);
      } else {
        clock := clock + 1;
        Place(dir, f.(used := clock));
      }
      StoredIs(was, files, dir, f, clock, maxFiles, maxBytes);
    }

    /** The parts of a valid cache. */
    lemma ValidParts()
      requires Valid()
      ensures Accounted() && maxFiles > 0 && maxBytes > 0 && OthersCounted(clock + 1)
      ensures |files| <= maxFiles && HeldBytes(files) <= maxBytes
    {
    }

    /** Every file is counted, and was read before the time. */
    ghost predicate OthersCounted(time: nat)
      reads this`files
    {
      && (forall d :: d in files ==> Counted(files[d], perFinding) && files[d].used < time)
      && (forall a, b :: a in files && b in files && files[a].used == files[b].used ==> a == b)
    }

    /** Drops dir's record, size bytes of which are counted. */
    method DropRecord(dir: string, size: nat)
      requires maxFiles > 0 && maxBytes > 0 && OthersCounted(clock + 1)
      requires bytes == HeldBytes(files - {dir}) + size
      requires |files| <= maxFiles && HeldBytes(files) <= maxBytes
      modifies this`bytes, this`files
      ensures Valid() && files == old(files) - {dir}
    {
      hide Counted, HeldBytes;
      LessWithout(files, dir);
      bytes := bytes - size;
      files := files - {dir};
    }

    /** Puts dir's record in place, as read last. */
    method SetFile(dir: string, f: DecodedFile)
      requires maxFiles > 0 && maxBytes > 0 && Counted(f, perFinding) && f.used == clock
      requires bytes == HeldBytes(files - {dir}) + f.bytes && OthersCounted(clock)
      modifies this`files
      ensures Accounted() && files == old(files)[dir := f] && dir in files && files[dir] == f
      ensures forall d :: d in files && d != dir ==> files[d].used < files[dir].used
    {
      hide Counted, HeldBytes;
      AddsOne(files, dir, f);
      files := files[dir := f];
    }

    lemma WithinBounds()
      requires Accounted() && |files| <= maxFiles && HeldBytes(files) <= maxBytes
      ensures Valid()
    {
    }

    /** Puts dir's record in place, as read last, and evicts what does not fit
        beside it. */
    method Place(dir: string, f: DecodedFile)
      requires maxFiles > 0 && maxBytes > 0 && Counted(f, perFinding) && f.used == clock && f.bytes <= maxBytes
      requires bytes == HeldBytes(files - {dir}) + f.bytes
      requires OthersCounted(clock)
      modifies this`bytes, this`files
      ensures Valid() && dir in files && files[dir] == f
      ensures var all := old(files)[dir := f];
              KeepsLatest(all, files) && (|all| <= maxFiles && HeldBytes(all) <= maxBytes ==> files == all)
    {
      hide *;
      SetFile(dir, f);
      ghost var all := files;
      if |files| <= maxFiles && HeldBytes(files) <= maxBytes {
        WithinBounds();
      }
      Evict(dir);
      KeptIs(all, files, dir);
    }
  }

  /** Those of the entries whose id is in done. */
  ghost function Those(entries: map<string, DecodedEntry>, done: set<string>): map<string, DecodedEntry> {
    map id | id in entries && id in done :: entries[id]
  }

  lemma NoneOf(held: map<string, DecodedEntry>, entries: map<string, DecodedEntry>)
    ensures held + Those(entries, {}) == held
  {
  }

  lemma AllOf(entries: map<string, DecodedEntry>)
    ensures Those(entries, entries.Keys) == entries
  {
  }

  lemma OneMore(held: map<string, DecodedEntry>, entries: map<string, DecodedEntry>, done: set<string>, id: string)
    requires id in entries
    ensures held + Those(entries, done + {id}) == (held + Those(entries, done))[id := entries[id]]
  {
  }

  lemma StoredIs(was: map<string, DecodedFile>, files: map<string, DecodedFile>, dir: string, f: DecodedFile, clock: nat,
                 maxFiles: nat, maxBytes: nat)
    requires if f.bytes > maxBytes then files == was - {dir}
             else
               var all := was[dir := f.(used := clock)];
               && dir in files && files[dir] == f.(used := clock) && KeepsLatest(all, files)
               && (|all| <= maxFiles && HeldBytes(all) <= maxBytes ==> files == all)
    ensures Stored(was, files, dir, f, clock, maxFiles, maxBytes)
  {
  }

  lemma LessWithout(files: map<string, DecodedFile>, dir: string)
    ensures |files - {dir}| <= |files| && HeldBytes(files - {dir}) <= HeldBytes(files)
  {
    DropsOne(files, dir);
    assert (files - {dir}).Keys == files.Keys - {dir};
    assert |files| == |files.Keys| && |files - {dir}| == |(files - {dir}).Keys|;
  }

  lemma KeptIs(was: map<string, DecodedFile>, files: map<string, DecodedFile>, dir: string)
    requires KeepsLatest(was, files) && dir in files
    ensures dir in was && files[dir] == was[dir]
  {
  }

  /** dir's record in the state identity, or none yet. */
  function Base(files: map<string, DecodedFile>, dir: string, identity: Identity): DecodedFile {
    if dir in files && files[dir].identity == identity then files[dir] else DecodedFile(identity, None, map[], 0, 0)
  }

  /** dir's record with what a read decoded. */
  ghost function Merged(files: map<string, DecodedFile>, dir: string, identity: Identity, ranges: Option<DecodedRanges>,
                        entries: map<string, DecodedEntry>, perFinding: nat): DecodedFile
  {
    var base := Base(files, dir, identity);
    var all, text := base.entries + entries, if ranges.Some? then ranges else base.ranges;
    DecodedFile(base.identity, text, all, RangesBytes(text) + EntriesBytes(all, perFinding), base.used)
  }

  /** The files once a record is stored: without it, when it alone is past the
      most bytes; else with it, as read last, and without those files read
      least recently that do not fit beside it. */
  ghost predicate Stored(was: map<string, DecodedFile>, files: map<string, DecodedFile>, dir: string, record: DecodedFile,
                         clock: nat, maxFiles: nat, maxBytes: nat)
  {
    if record.bytes > maxBytes then files == was - {dir}
    else
      var all := was[dir := record.(used := clock)];
      && dir in files && files[dir] == all[dir] && KeepsLatest(all, files)
      && (|all| <= maxFiles && HeldBytes(all) <= maxBytes ==> files == all)
  }

  /** What the cache holds of dir, without the accounting. */
  function RecordIn(files: map<string, DecodedFile>, dir: string): Option<Record> {
    if dir in files then Some(Record(files[dir].identity, files[dir].ranges, files[dir].entries)) else None
  }

  /** To dir's readers, storing keeps what was decoded with what was held of
      the same state, or drops it all; every other file's record stays as it
      is, or is dropped. */
  lemma StoreKeepsOrDrops(was: map<string, DecodedFile>, files: map<string, DecodedFile>, dir: string, decoded: Record,
                          clock: nat, maxFiles: nat, maxBytes: nat, perFinding: nat)
    requires var m := Merged(was, dir, decoded.identity, decoded.ranges, decoded.entries, perFinding);
             Stored(was, files, dir, m, clock, maxFiles, maxBytes)
    ensures RecordIn(files, dir) in {None, Some(StoredInto(RecordIn(was, dir), decoded))}
    ensures forall d :: d != dir ==> RecordIn(files, d).None? || RecordIn(files, d) == RecordIn(was, d)
  {
    hide EntrySizes, Total, FileSizes, RangesBytes;
    assert decoded == Record(decoded.identity, decoded.ranges, decoded.entries);
    assert map[] + decoded.entries == decoded.entries;
  }

  lemma NothingCounted(identity: Identity, perFinding: nat)
    ensures Counted(DecodedFile(identity, None, map[], 0, 0), perFinding)
  {
    assert EntrySizes(map[], perFinding) == map[];
  }

  lemma Alone(files: map<string, DecodedFile>, dir: string)
    requires dir in files && forall d :: d in files ==> d == dir
    ensures |files| == 1 && HeldBytes(files) == files[dir].bytes
  {
    TotalTakes(FileSizes(files), dir);
    assert files.Keys == {dir} && |files.Keys| == 1;
    assert FileSizes(files) - {dir} == map[];
  }

  lemma LatestKept(was: map<string, DecodedFile>, files: map<string, DecodedFile>, oldest: string)
    requires KeepsLatest(was, files) && oldest in files
    requires forall d :: d in files && d != oldest ==> files[oldest].used < files[d].used
    ensures KeepsLatest(was, files - {oldest}) && |files - {oldest}| < |files|
  {
    assert (files - {oldest}).Keys == files.Keys - {oldest};
    assert |files| == |files.Keys|;
  }

  lemma MergedCounted(files: map<string, DecodedFile>, dir: string, identity: Identity, ranges: Option<DecodedRanges>,
                      entries: map<string, DecodedEntry>, perFinding: nat)
    ensures var m := Merged(files, dir, identity, ranges, entries, perFinding);
            Counted(m, perFinding) && forall used: nat :: Counted(m.(used := used), perFinding)
  {
  }

  lemma DropsOne(files: map<string, DecodedFile>, dir: string)
    ensures FileSizes(files - {dir}) == FileSizes(files) - {dir}
    ensures HeldBytes(files) == HeldBytes(files - {dir}) + (if dir in files then files[dir].bytes else 0)
  {
    assert FileSizes(files - {dir}) == FileSizes(files) - {dir};
    if dir in files {
      TotalTakes(FileSizes(files), dir);
    } else {
      assert files - {dir} == files;
    }
  }

  lemma AddsOne(files: map<string, DecodedFile>, dir: string, f: DecodedFile)
    ensures HeldBytes(files[dir := f]) == HeldBytes(files - {dir}) + f.bytes
  {
    DropsOne(files[dir := f], dir);
    assert files[dir := f] - {dir} == files - {dir};
  }

  /** What is kept of the files: those read after every one dropped. */
  ghost predicate KeepsLatest(was: map<string, DecodedFile>, files: map<string, DecodedFile>) {
    && (forall d :: d in files ==> d in was && files[d] == was[d])
    && (forall d, e :: d in was && d !in files && e in files ==> was[d].used < was[e].used)
  }
}
