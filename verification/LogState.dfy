/** The logger's numbered log files, the inventory cache beside them, and every step that changes either. */
module LogState {
  import opened Frames

  const MAX_LOG_FILES := 1000
  const MAX_LOG_FILE_SIZE := 10 * 1024 * 1024

  type Digest = nat
  type Md5 = seq<byte> -> Digest

  /** One packet in a log file: written when the file was started, requested by the first no-data packet,
      or handed to `Record`; the last with a mark when one of its fields holds no data. */
  datatype Entry = Header(frame: Frame) | Request(frame: Frame) | Data(frame: Frame, noData: bool)

  /** What became of a log: still on the card, erased by command, overwritten by a newer log, removed
      after its upload, or removed after an upload while it was still being written. */
  datatype Fate = Kept | Erased | Overwritten | Uploaded | CutShort

  datatype Log = Log(number: nat, entries: seq<Entry>, fate: Fate)

  datatype Store = Store(
    disk: map<nat, seq<Entry>>,
    sizes: seq<nat>, hashes: seq<Digest>,
    current: nat, isOpen: bool, output: seq<Entry>, emitted: bool,
    logs: seq<Log>, recorded: seq<Frame>)

  // ---- contents of a file ----

  function Bytes(es: seq<Entry>): seq<byte>
  {
    if es == [] then [] else Bytes(es[..|es| - 1]) + Encode(es[|es| - 1].frame)
  }

  function Ascii(s: string): (r: seq<byte>)
    requires forall i | 0 <= i < |s| :: s[i] < 128 as char
    ensures |r| == |s|
  {
    if s == "" then [] else [s[0] as int] + Ascii(s[1..])
  }

  function RequestName(): (r: seq<byte>)
    ensures |r| == 12
  {
    Ascii("nodatareject")
  }

  function RequestParameters(): (r: seq<byte>)
    ensures |r| == 9
  {
    Ascii("phase=raw")
  }

  /** The algorithm request that asks for packets without data to be rejected. */
  function NoDataReject(): (f: Frame)
    ensures |Encode(f)| == 37
  {
    Frame(13, LittleEndian(12, 4) + RequestName() + LittleEndian(9, 4) + RequestParameters())
  }

  function HeaderEntries(headers: seq<Frame>): (r: seq<Entry>)
    ensures |r| == |headers|
  {
    if headers == [] then [] else HeaderEntries(headers[..|headers| - 1]) + [Header(headers[|headers| - 1])]
  }

  function FileSize(disk: map<nat, seq<Entry>>, n: nat): nat
  {
    if n in disk then |Bytes(disk[n])| else 0
  }

  /** The digest of at most the first 2 * MAX_LOG_FILE_SIZE bytes; of no bytes when there is no file. */
  function FileHash(md5: Md5, disk: map<nat, seq<Entry>>, n: nat): Digest
  {
    md5(Hashed(if n in disk then Bytes(disk[n]) else []))
  }

  /** The bytes of a file the digest is taken over. */
  function Hashed(b: seq<byte>): (r: seq<byte>)
    ensures |r| == |b| ==> r == b
  {
    if |b| <= 2 * MAX_LOG_FILE_SIZE then b else b[..2 * MAX_LOG_FILE_SIZE]
  }

  // ---- the inventory ----

  function Updated(md5: Md5, s: Store, n: nat): (r: Store)
    requires |s.sizes| == |s.hashes| == MAX_LOG_FILES
    ensures |r.sizes| == |r.hashes| == MAX_LOG_FILES
  {
    if n >= MAX_LOG_FILES then s
    else s.(sizes := s.sizes[n := FileSize(s.disk, n)], hashes := s.hashes[n := FileHash(md5, s.disk, n)])
  }

  /** The first number from `n` on whose cached size is zero; zero when there is none. */
  function NextFree(sizes: seq<nat>, n: nat): nat
    decreases |sizes| - n
  {
    if n >= |sizes| then 0 else if sizes[n] == 0 then n else NextFree(sizes, n + 1)
  }

  /** The first number from `n` on without a file; zero when there is none. */
  function Walk(disk: map<nat, seq<Entry>>, n: nat): nat
    decreases MAX_LOG_FILES - n
  {
    if n >= MAX_LOG_FILES then 0 else if n in disk then Walk(disk, n + 1) else n
  }

  /** The numbers from `n` on with a cached size, ascending. */
  function Listed(sizes: seq<nat>, n: nat): seq<nat>
    decreases |sizes| - n
  {
    if n >= |sizes| then [] else (if sizes[n] != 0 then [n] else []) + Listed(sizes, n + 1)
  }

  // ---- the steps ----

  /** Every log still kept under number `n` meets `fate`. */
  function Marked(logs: seq<Log>, n: nat, fate: Fate): (r: seq<Log>)
    ensures |r| == |logs|
    ensures forall i | 0 <= i < |r| :: r[i] == Marking(logs[i], n, fate)
  {
    seq(|logs|, i requires 0 <= i < |logs| => Marking(logs[i], n, fate))
  }

  function Marking(log: Log, n: nat, fate: Fate): Log
  {
    if log.number == n && log.fate == Kept then log.(fate := fate) else log
  }

  function Closed(md5: Md5, s: Store): (r: Store)
    requires |s.sizes| == |s.hashes| == MAX_LOG_FILES
    ensures |r.sizes| == |r.hashes| == MAX_LOG_FILES
  {
    Updated(md5, s.(isOpen := false), s.current)
  }

  function Started(s: Store, headers: seq<Frame>): (r: Store)
    ensures r.sizes == s.sizes && r.hashes == s.hashes
  {
    var n, es := NextFree(s.sizes, 0), HeaderEntries(headers);
    s.(disk := s.disk[n := es], current := n, isOpen := true, output := es, emitted := false,
       logs := Marked(s.logs, n, Overwritten) + [Log(n, es, Kept)])
  }

  /** A packet goes to the open file. A file already removed from the card takes it out of sight. */
  function Written(s: Store, e: Entry): (r: Store)
    ensures r.sizes == s.sizes && r.hashes == s.hashes
  {
    var es := s.output + [e];
    s.(output := es,
       disk := if s.current in s.disk then s.disk[s.current := es] else s.disk,
       logs := if s.logs == [] then [] else s.logs[|s.logs| - 1 := s.logs[|s.logs| - 1].(entries := es)])
  }

  function Recorded(md5: Md5, s: Store, f: Frame, noData: bool, headers: seq<Frame>): (r: Store)
    requires |s.sizes| == |s.hashes| == MAX_LOG_FILES
    ensures |r.sizes| == |r.hashes| == MAX_LOG_FILES
  {
    var w := Written(s, Data(f, noData)).(recorded := s.recorded + [f]);
    if |Bytes(w.output)| > MAX_LOG_FILE_SIZE then Started(Closed(md5, w), headers) else w
  }

  function Requested(s: Store): (r: Store)
    ensures r.sizes == s.sizes && r.hashes == s.hashes
  {
    if s.emitted then s else Written(s, Request(NoDataReject())).(emitted := true)
  }

  /** A handler for NMEA2000: the request first when a field holds no data, then the packet. */
  function Handled(md5: Md5, s: Store, f: Frame, noData: bool, headers: seq<Frame>): (r: Store)
    requires |s.sizes| == |s.hashes| == MAX_LOG_FILES
    ensures |r.sizes| == |r.hashes| == MAX_LOG_FILES
  {
    Recorded(md5, if noData then Requested(s) else s, f, noData, headers)
  }

  /** File `n` is gone from the card and from the inventory. */
  function Removed(s: Store, n: nat, fate: Fate): (r: Store)
    requires |s.sizes| == |s.hashes| == MAX_LOG_FILES
    ensures |r.sizes| == |r.hashes| == MAX_LOG_FILES
  {
    var t := s.(disk := s.disk - {n}, logs := Marked(s.logs, n, fate));
    if n >= MAX_LOG_FILES then t else t.(sizes := s.sizes[n := 0], hashes := s.hashes[n := 0])
  }

  /** The file system removes a file only if it is there; `works` is its answer for one that is. */
  function EraseOne(s: Store, n: nat, works: bool): (r: Store)
    requires |s.sizes| == |s.hashes| == MAX_LOG_FILES
    ensures |r.sizes| == |r.hashes| == MAX_LOG_FILES
  {
    if n in s.disk && works then Removed(s, n, Erased) else s
  }

  function EraseEach(s: Store, numbers: seq<nat>, works: nat -> bool): (r: Store)
    requires |s.sizes| == |s.hashes| == MAX_LOG_FILES
    ensures |r.sizes| == |r.hashes| == MAX_LOG_FILES
    decreases |numbers|
  {
    if numbers == [] then s
    else EraseEach(EraseOne(s, numbers[0], works(numbers[0])), numbers[1..], works)
  }

  function ErasedAll(md5: Md5, s: Store, works: nat -> bool, headers: seq<Frame>): (r: Store)
    requires |s.sizes| == |s.hashes| == MAX_LOG_FILES
    ensures |r.sizes| == |r.hashes| == MAX_LOG_FILES
  {
    var c := Closed(md5, s);
    Started(EraseEach(c, Listed(c.sizes, 0), works), headers)
  }

  function Stepped(md5: Md5, s: Store, headers: seq<Frame>): (r: Store)
    requires |s.sizes| == |s.hashes| == MAX_LOG_FILES
    ensures |r.sizes| == |r.hashes| == MAX_LOG_FILES
  {
    Started(Closed(md5, s), headers)
  }

  // ---- boot ----

  function OldLogs(disk: map<nat, seq<Entry>>, n: nat): seq<Log>
  {
    if n == 0 then []
    else OldLogs(disk, n - 1) + (if n - 1 in disk then [Log(n - 1, disk[n - 1], Kept)] else [])
  }

  /** The store when the inventory has been built from the card and no log has been started. */
  function Booted(md5: Md5, disk: map<nat, seq<Entry>>): Store
  {
    Store(disk,
          seq(MAX_LOG_FILES, n requires 0 <= n => FileSize(disk, n)),
          seq(MAX_LOG_FILES, n requires 0 <= n => if n in disk then FileHash(md5, disk, n) else 0),
          0, false, [], false, OldLogs(disk, MAX_LOG_FILES), [])
  }

  // ---- what every reachable store satisfies ----

  predicate Coherent(md5: Md5, s: Store, n: nat)
    requires n < |s.sizes| == |s.hashes|
  {
    s.sizes[n] == FileSize(s.disk, n) && (n in s.disk ==> s.hashes[n] == FileHash(md5, s.disk, n))
  }

  /** Inventory coherence: everything but the open log is cached as it is on the card. */
  predicate CacheOk(md5: Md5, s: Store)
  {
    && |s.sizes| == |s.hashes| == MAX_LOG_FILES
    && forall n: nat | n < MAX_LOG_FILES && !(s.isOpen && n == s.current) :: Coherent(md5, s, n)
  }

  predicate DiskOk(s: Store)
  {
    forall n | n in s.disk :: n < MAX_LOG_FILES && s.disk[n] != []
  }

  /** The newest log is the open one, and its file, unless removed, holds what was written. */
  predicate OpenOk(s: Store)
  {
    s.isOpen ==>
      && s.current < MAX_LOG_FILES && s.output != [] && s.logs != []
      && var last := s.logs[|s.logs| - 1];
      && last.number == s.current && last.entries == s.output
      && (last.fate == Kept <==> s.current in s.disk) && last.fate != Uploaded
      && (s.current in s.disk ==> s.disk[s.current] == s.output)
  }

  predicate KeptOk(s: Store, log: Log)
  {
    log.fate == Kept ==> log.number in s.disk && s.disk[log.number] == log.entries
  }

  /** Every kept log is on the card whole, and no two kept logs share a number. */
  predicate LogsOk(s: Store)
  {
    && (forall i | 0 <= i < |s.logs| :: KeptOk(s, s.logs[i]))
    && (forall i, j | 0 <= i < j < |s.logs| && s.logs[i].fate == Kept && s.logs[j].fate == Kept ::
          s.logs[i].number != s.logs[j].number)
  }

  predicate Sound(md5: Md5, s: Store)
  {
    CacheOk(md5, s) && DiskOk(s) && OpenOk(s) && LogsOk(s)
  }
}
