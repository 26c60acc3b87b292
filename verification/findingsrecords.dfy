/** What a read of the findings cache keeps decoded, and what it takes from
    such a record instead of a file of the directory. */
module FindingsRecords {
  import opened Common
  import opened FindingsStore

  datatype DecodedRanges = DecodedRanges(key: string, count: int, text: ScannedText)
  datatype DecodedEntry = DecodedEntry(key: string, findings: seq<Finding>, series: Option<Series>, lastLine: int)

  /** The decoded files of a directory, all of one state of its file. */
  datatype Record = Record(identity: Identity, ranges: Option<DecodedRanges>, entries: map<string, DecodedEntry>)

  /** The last line of any finding, 0 without one. */
  function LastLine(findings: seq<Finding>): int {
    if findings == [] then 0
    else Max(LastLine(findings[..|findings| - 1]), findings[|findings| - 1].endLine)
  }

  /** The last line is past a text's end exactly when some finding is. */
  lemma {:induction false} LastLineDecides(findings: seq<Finding>, lines: int)
    requires lines >= 0
    ensures LastLine(findings) <= lines <==> !EndsPast(findings, lines)
  {
    if findings == [] {
    } else {
      var n := |findings| - 1;
      LastLineDecides(findings[..n], lines);
      if EndsPast(findings[..n], lines) {
        var i :| 0 <= i < n && findings[..n][i].endLine > lines;
        assert findings[i].endLine > lines;
      } else if EndsPast(findings, lines) {
        var i :| 0 <= i < |findings| && findings[i].endLine > lines;
        assert i < n ==> findings[..n][i].endLine > lines;
      }
    }
  }

  /** The record of a scan's result under a key. */
  function EntryRecord(key: string, r: ScanResult): DecodedEntry {
    DecodedEntry(key, r.findings, r.series, LastLine(r.findings))
  }

  /** The record of an entry file, its last line found in one pass. */
  method DecodedEntryOf(key: string, r: ScanResult) returns (e: DecodedEntry)
    ensures e == EntryRecord(key, r)
    ensures forall lines :: lines >= 0 ==> (e.lastLine <= lines <==> !EndsPast(r.findings, lines))
  {
    var last := 0;
    assert r.findings[..|r.findings|] == r.findings;
    for i := 0 to |r.findings|
      invariant last == LastLine(r.findings[..i])
    {
      assert r.findings[..i + 1][..i] == r.findings[..i];
      last := Max(last, r.findings[i].endLine);
    }
    forall lines | lines >= 0
      ensures last <= lines <==> !EndsPast(r.findings, lines)
    {
      LastLineDecides(r.findings, lines);
    }
    return DecodedEntry(key, r.findings, r.series, last);
  }

  /** The record's ranges, if both meta and the caller ask for their key. */
  function HeldRanges(held: Option<Record>, meta: MetaFile, rangesKey: string): Option<ScannedText> {
    if held.Some? && held.value.ranges.Some? && held.value.ranges.value.key == rangesKey
       && meta.ranges == Some(RangesMeta(rangesKey, held.value.ranges.value.count))
    then Some(held.value.ranges.value.text)
    else None
  }

  /** The ranges of a view: those held, or those of the ranges file. */
  function RangesFrom(dir: Directory, meta: MetaFile, rangesKey: string, held: Option<Record>): Option<ScannedText> {
    if HeldRanges(held, meta, rangesKey).Some? then HeldRanges(held, meta, rangesKey)
    else ReadRanges(dir, meta, rangesKey)
  }

  /** The ranges decoded from the file, for the record. */
  function FreshRanges(dir: Directory, meta: MetaFile, rangesKey: string, held: Option<Record>): Option<DecodedRanges> {
    var text := ReadRanges(dir, meta, rangesKey);
    if HeldRanges(held, meta, rangesKey).None? && text.Some?
    then Some(DecodedRanges(rangesKey, |text.value.ranges|, text.value))
    else None
  }

  /** The record's entry of id, if its key and its count of findings are those
      meta names and no finding lies past the text. */
  function HeldEntry(held: Option<Record>, meta: MetaFile, keys: map<string, string>, lines: int, id: string)
    : Option<ScanResult>
  {
    if held.None? || id !in held.value.entries || id !in meta.signatures || !ValidID(id) || id !in keys then None
    else
      var e, summary := held.value.entries[id], meta.signatures[id];
      if summary.key != keys[id] || e.key != summary.key || |e.findings| != summary.stored
         || summary.stored > summary.count || e.lastLine > lines
      then None
      else Some(ScanResult(e.findings, summary.count, e.series))
  }

  /** The entry of a view: the one held, or that of the entry file. */
  function EntryFrom(dir: Directory, meta: MetaFile, keys: map<string, string>, lines: int, id: string,
                     held: Option<Record>): Option<ScanResult>
  {
    if HeldEntry(held, meta, keys, lines, id).Some? then HeldEntry(held, meta, keys, lines, id)
    else ReadEntry(dir, meta, keys, lines, id)
  }

  /** The entry decoded from its file, for the record. */
  function FreshEntry(dir: Directory, meta: MetaFile, keys: map<string, string>, lines: int, id: string,
                      held: Option<Record>): Option<DecodedEntry>
  {
    var entry := ReadEntry(dir, meta, keys, lines, id);
    if HeldEntry(held, meta, keys, lines, id).None? && entry.Some? then Some(EntryRecord(keys[id], entry.value)) else None
  }

  function WithEntry(decoded: Record, id: string, e: Option<DecodedEntry>): Record {
    if e.Some? then decoded.(entries := decoded.entries[id := e.value]) else decoded
  }

  /** Whether a read took everything from what was held. */
  predicate NothingIn(decoded: Record) {
    decoded.ranges.None? && decoded.entries == map[]
  }

  /** A record once a read of the same state adds to it; one of another state
      is replaced. */
  function StoredInto(held: Option<Record>, decoded: Record): Record {
    if held.Some? && Equal(held.value.identity, decoded.identity)
    then Record(decoded.identity, if decoded.ranges.Some? then decoded.ranges else held.value.ranges,
                held.value.entries + decoded.entries)
    else decoded
  }
}
