/** Each step keeps the inventory coherent, the kept logs whole and the open log in step with its file. */
module LogSafety {
  import opened Frames
  import opened LogState

  lemma BytesNotEmpty(es: seq<Entry>)
    requires es != []
    ensures |Bytes(es)| >= 8
  {
  }

  lemma NextFreeInRange(sizes: seq<nat>, n: nat)
    requires sizes != []
    ensures NextFree(sizes, n) < |sizes|
    decreases |sizes| - n
  {
  }

  lemma {:induction false} OldLogsKept(disk: map<nat, seq<Entry>>, n: nat)
    ensures forall i | 0 <= i < |OldLogs(disk, n)| ::
              var log := OldLogs(disk, n)[i];
              log.number < n && log.number in disk && disk[log.number] == log.entries && log.fate == Kept
    ensures forall i, j | 0 <= i < j < |OldLogs(disk, n)| :: OldLogs(disk, n)[i].number != OldLogs(disk, n)[j].number
  {
    if n > 0 {
      OldLogsKept(disk, n - 1);
    }
  }

  /** A freshly built inventory is coherent with any card whose files are numbered and not empty. */
  lemma BootSound(md5: Md5, disk: map<nat, seq<Entry>>)
    requires forall n | n in disk :: n < MAX_LOG_FILES && disk[n] != []
    ensures Sound(md5, Booted(md5, disk))
  {
    OldLogsKept(disk, MAX_LOG_FILES);
    hide FileSize, FileHash, OldLogs;
  }

  lemma UpdatedSound(md5: Md5, s: Store, n: nat)
    requires Sound(md5, s)
    ensures Sound(md5, Updated(md5, s, n))
    ensures n < MAX_LOG_FILES ==> Coherent(md5, Updated(md5, s, n), n)
  {
    hide FileSize, FileHash;
    var t := Updated(md5, s, n);
    if n < MAX_LOG_FILES {
      CoherenceElsewhere(md5, s, t, n);
      assert Coherent(md5, t, n);
    }
  }

  /** Closing a log brings its number into the coherent cache. */
  lemma ClosedSound(md5: Md5, s: Store)
    requires Sound(md5, s) && s.current < MAX_LOG_FILES
    ensures Sound(md5, Closed(md5, s)) && !Closed(md5, s).isOpen
  {
    hide FileSize, FileHash;
    var t := Closed(md5, s);
    CoherenceElsewhere(md5, s, t, s.current);
    assert Coherent(md5, t, s.current);
  }

  lemma StartedSound(md5: Md5, s: Store, headers: seq<Frame>)
    requires Sound(md5, s) && !s.isOpen && headers != []
    ensures Sound(md5, Started(s, headers))
  {
    hide FileSize, NextFree, HeaderEntries, Marked;
    NextFreeInRange(s.sizes, 0);
    var t := Started(s, headers);
    assert CacheOk(md5, t) by { CoherenceElsewhere(md5, s, t, t.current); }
  }

  /** A step that touches only file `n` leaves every other number coherent. */
  lemma CoherenceElsewhere(md5: Md5, s: Store, t: Store, n: nat)
    requires |s.sizes| == |s.hashes| == |t.sizes| == |t.hashes| == MAX_LOG_FILES
    requires forall k: nat | k < MAX_LOG_FILES && k != n :: t.sizes[k] == s.sizes[k] && t.hashes[k] == s.hashes[k]
    requires forall k | k != n :: (k in t.disk <==> k in s.disk) && (k in s.disk ==> t.disk[k] == s.disk[k])
    ensures forall k: nat | k < MAX_LOG_FILES && k != n :: Coherent(md5, s, k) <==> Coherent(md5, t, k)
  {
  }

  lemma WrittenSound(md5: Md5, s: Store, e: Entry)
    requires Sound(md5, s) && s.isOpen
    ensures Sound(md5, Written(s, e)) && Written(s, e).isOpen && Written(s, e).current == s.current
  {
    hide FileSize, FileHash;
    var t := Written(s, e);
    assert CacheOk(md5, t) by { CoherenceElsewhere(md5, s, t, t.current); }
  }

  lemma RemovedSound(md5: Md5, s: Store, n: nat, fate: Fate)
    requires Sound(md5, s) && fate != Kept && (fate == Uploaded ==> !(s.isOpen && n == s.current))
    ensures Sound(md5, Removed(s, n, fate))
  {
    hide FileHash, Marked;
    var t := Removed(s, n, fate);
    assert CacheOk(md5, t) by { CoherenceElsewhere(md5, s, t, n); }
    hide CacheOk;
    RemovedLogs(s, n, fate);
    hide LogsOk;
  }

  lemma RemovedLogs(s: Store, n: nat, fate: Fate)
    requires LogsOk(s) && |s.sizes| == |s.hashes| == MAX_LOG_FILES && fate != Kept
    ensures LogsOk(Removed(s, n, fate))
  {
    hide Marked;
    var t := Removed(s, n, fate);
    forall i | 0 <= i < |t.logs| ensures KeptOk(t, t.logs[i]) {
      assert KeptOk(s, s.logs[i]);
    }
  }

  lemma EraseOneSound(md5: Md5, s: Store, n: nat, works: bool)
    requires Sound(md5, s)
    ensures |s.sizes| == |s.hashes| == MAX_LOG_FILES
    ensures Sound(md5, EraseOne(s, n, works)) && EraseOne(s, n, works).isOpen == s.isOpen
  {
    RemovedSound(md5, s, n, Erased);
  }

  lemma {:induction false} EraseEachSound(md5: Md5, s: Store, numbers: seq<nat>, works: nat -> bool)
    requires Sound(md5, s) && |s.sizes| == |s.hashes| == MAX_LOG_FILES
    ensures Sound(md5, EraseEach(s, numbers, works))
    ensures EraseEach(s, numbers, works).isOpen == s.isOpen
    decreases |numbers|
  {
    hide Sound, EraseOne;
    if numbers != [] {
      EraseOneSound(md5, s, numbers[0], works(numbers[0]));
      EraseOneSound(md5, EraseOne(s, numbers[0], works(numbers[0])), 0, false);
      EraseEachSound(md5, EraseOne(s, numbers[0], works(numbers[0])), numbers[1..], works);
    }
  }
}
