/** The files of a findings cache directory: their names, their contents, and
    what a reader makes of them. */
module FindingsStore {
  import opened Common

  // ---------------------------------------------------------------------
  // Names.

  const META_NAME := "meta.json"
  const LOCK_NAME := ".lock"
  const TMP_PREFIX := ".tmp-"
  const ENTRY_SUFFIX := ".json"
  const META_ENTRY_NAME := "meta.signature.json"
  const RANGES_NAME := "meta.ranges.json"
  const MAX_ID_BYTES := 64

  predicate IsIDChar(c: char) {
    'a' <= c <= 'z' || '0' <= c <= '9' || c == '-'
  }

  /** A non-empty word of id characters, short enough. */
  predicate ValidID(id: string) {
    id != "" && |id| <= MAX_ID_BYTES && forall i :: 0 <= i < |id| ==> IsIDChar(id[i])
  }

  /** One word of the id's characters more, from none to 64, is still valid; no
      other character, and no more of them. */
  lemma {:induction false} IdsByLength(id: string, c: char)
    ensures !ValidID("") && (id == "" || ValidID(id) ==> (ValidID(id + [c]) <==> |id| < 64 && ('a' <= c <= 'z' || '0' <= c <= '9' || c == '-')))
    ensures ValidID(id + [c]) ==> id == "" || ValidID(id)
  {
    if ValidID(id + [c]) {
      assert (id + [c])[|id|] == c && forall i :: 0 <= i < |id| ==> (id + [c])[i] == id[i];
    }
  }

  /** Where the entry of id is kept: the id with a suffix, but for the one id
      whose name meta.json takes. */
  function EntryName(id: string): string {
    if id + ENTRY_SUFFIX == META_NAME then META_ENTRY_NAME else id + ENTRY_SUFFIX
  }

  predicate HasSuffix(s: string, suffix: string) {
    |suffix| <= |s| && s[|s| - |suffix|..] == suffix
  }

  predicate IsTemp(name: string) {
    TMP_PREFIX <= name
  }

  /** The first dot of an entry's plain name ends its id. */
  lemma DotEndsID(id: string)
    requires ValidID(id)
    ensures var name := id + ENTRY_SUFFIX;
            && |name| == |id| + 5 && name[|id|] == '.' && name[..|id|] == id
            && forall i :: 0 <= i < |id| ==> name[i] != '.'
  {
  }

  lemma NameOf(id: string)
    requires ValidID(id)
    ensures EntryName(id) == if id == "meta" then META_ENTRY_NAME else id + ENTRY_SUFFIX
    ensures EntryName(id) == META_ENTRY_NAME ==> id == "meta"
    ensures EntryName(id) != META_NAME && EntryName(id) != RANGES_NAME
    ensures EntryName(id)[0] != '.' && HasSuffix(EntryName(id), ENTRY_SUFFIX)
  {
    DotEndsID(id);
    assert META_NAME[..4] == "meta" && "meta" + ENTRY_SUFFIX == META_NAME;
    assert META_NAME[4] == META_ENTRY_NAME[4] == RANGES_NAME[4] == '.';
    assert |META_NAME| == 9 && |META_ENTRY_NAME| == 19 && |RANGES_NAME| == 16;
  }

  /** Two signatures never share an entry file, and no entry takes the name
      of meta.json, of the ranges, of the lock or of a temporary file. */
  lemma NamesAreApart(a: string, b: string)
    requires ValidID(a) && ValidID(b)
    ensures EntryName(a) == EntryName(b) <==> a == b
    ensures EntryName(a) != META_NAME && EntryName(a) != RANGES_NAME && EntryName(a) != LOCK_NAME
    ensures !IsTemp(EntryName(a))
  {
    NameOf(a);
    NameOf(b);
    DotEndsID(a);
    DotEndsID(b);
    SpecialNames();
    hide EntryName, ValidID;
  }

  lemma SpecialNames()
    ensures META_NAME != RANGES_NAME && !IsTemp(META_NAME) && !IsTemp(RANGES_NAME)
    ensures LOCK_NAME[0] == TMP_PREFIX[0] == '.'
    ensures HasSuffix(META_NAME, ENTRY_SUFFIX) && HasSuffix(RANGES_NAME, ENTRY_SUFFIX)
  {
    assert META_NAME[0] == RANGES_NAME[0] == 'm' && TMP_PREFIX[0] == '.';
    assert |META_NAME| == 9 && |RANGES_NAME| == 16;
  }

  // ---------------------------------------------------------------------
  // Contents.

  /** The state of a file, by the fields a check compares. */
  datatype Identity = Identity(size: int, modifiedNs: int, inode: Option<int>, device: Option<int>,
                               changedNs: Option<int>, fingerprint: Option<string>)

  /** Whether both fields are missing, or hold the same value. */
  predicate EqualPointees<T(==)>(a: Option<T>, b: Option<T>) {
    if a.None? || b.None? then a.None? && b.None? else a.value == b.value
  }

  /** Two identities compared field by field are the same identity. */
  predicate Equal(id: Identity, other: Identity): (same: bool)
    ensures same <==> id == other
  {
    && id.size == other.size && id.modifiedNs == other.modifiedNs
    && EqualPointees(id.inode, other.inode) && EqualPointees(id.device, other.device)
    && EqualPointees(id.changedNs, other.changedNs) && EqualPointees(id.fingerprint, other.fingerprint)
  }

  datatype Finding = Finding(startLine: int, endLine: int, startOffset: int, endOffset: int, excerpt: string)
  datatype Series = Series(bucketMs: int, startMs: int, counts: seq<int>)

  /** What a scan finds of one signature; count goes past the findings kept. */
  datatype ScanResult = ScanResult(findings: seq<Finding>, count: int, series: Option<Series>)

  /** The masked ranges of a text, first and last line each, and its end. */
  datatype ScannedText = ScannedText(ranges: seq<(int, int)>, lines: int, bytes: int)

  datatype Summary = Summary(key: string, count: int, stored: int)
  datatype RangesMeta = RangesMeta(key: string, count: int)
  datatype MetaFile = MetaFile(identity: Identity, signatures: map<string, Summary>, ranges: Option<RangesMeta>)

  datatype File =
    | Meta(meta: MetaFile)
    | Ranges(key: string, text: ScannedText)
    | Entry(entryKey: string, findings: seq<Finding>, series: Option<Series>)
    | Partial

  type Directory = map<string, File>

  function NewMeta(id: Identity): MetaFile {
    MetaFile(id, map[], None)
  }

  function EntryOf(key: string, r: ScanResult): File {
    Entry(key, r.findings, r.series)
  }

  function SummaryOf(key: string, r: ScanResult): Summary {
    Summary(key, r.count, |r.findings|)
  }

  function FileOf(key: string, text: ScannedText): File {
    Ranges(key, text)
  }

  /** The ranges ascend: each begins two lines or more after prev, the end of
      the one before it, and ends where it begins or later. */
  predicate ValidRanges(ranges: seq<(int, int)>, prev: int) {
    ranges == [] ||
    (&& 1 <= ranges[0].0 <= ranges[0].1 && prev + 1 < ranges[0].0
     && ValidRanges(ranges[1..], ranges[0].1))
  }

  /** Whether a ranges file records a text as a scan writes it. */
  predicate IsText(text: ScannedText) {
    && ValidRanges(text.ranges, -1) && 0 <= text.lines <= text.bytes
    && (text.ranges != [] ==> text.ranges[|text.ranges| - 1].1 <= text.lines)
  }

  predicate EndsPast(findings: seq<Finding>, lines: int) {
    exists i :: 0 <= i < |findings| && findings[i].endLine > lines
  }

  /** meta.json as a reader finds it. */
  function MetaIn(dir: Directory): Option<MetaFile> {
    if META_NAME in dir && dir[META_NAME].Meta? then Some(dir[META_NAME].meta) else None
  }

  /** The ids meta names whose key is the catalogue's, when its masked ranges
      have the scope's key. */
  function CurrentInMeta(meta: MetaFile, keys: map<string, string>, rangesKey: string): set<string> {
    if meta.ranges.None? || meta.ranges.value.key != rangesKey then {}
    else set id | id in meta.signatures && id in keys && meta.signatures[id].key == keys[id]
  }

  function ReadRanges(dir: Directory, meta: MetaFile, rangesKey: string): Option<ScannedText> {
    if RANGES_NAME !in dir || !dir[RANGES_NAME].Ranges? then None
    else
      var file := dir[RANGES_NAME];
      if file.key != rangesKey || meta.ranges.None? || file.key != meta.ranges.value.key
         || |file.text.ranges| != meta.ranges.value.count || !IsText(file.text)
      then None
      else Some(file.text)
  }

  /** The entry of id, when its file agrees with meta.json and ends within
      the text. */
  function ReadEntry(dir: Directory, meta: MetaFile, keys: map<string, string>, lines: int, id: string)
    : Option<ScanResult>
  {
    if id !in meta.signatures || !ValidID(id) || id !in keys || meta.signatures[id].key != keys[id] then None
    else if EntryName(id) !in dir || !dir[EntryName(id)].Entry? then None
    else
      var summary, file := meta.signatures[id], dir[EntryName(id)];
      if file.entryKey != summary.key || |file.findings| != summary.stored || summary.stored > summary.count
         || EndsPast(file.findings, lines)
      then None
      else Some(ScanResult(file.findings, summary.count, file.series))
  }

  /** meta with every entry of the meta.json found, when it describes the
      same state and the entry is not replaced. */
  function Merge(meta: MetaFile, other: Option<MetaFile>): MetaFile {
    if other.Some? && Equal(other.value.identity, meta.identity)
    then meta.(signatures := other.value.signatures + meta.signatures)
    else meta
  }

  /** The names a writer with the lock removes: temporary files, and entry
      files its meta.json does not name. */
  predicate IsUnnamed(name: string, meta: MetaFile) {
    IsTemp(name) ||
    (&& HasSuffix(name, ENTRY_SUFFIX) && name != META_NAME && name != RANGES_NAME && name != LOCK_NAME
     && forall id :: id in meta.signatures && ValidID(id) ==> name != EntryName(id))
  }
}
