/** No acknowledged log is lost: what an upload removes from the card is in the bucket, whole. */
module UploadSafety {
  import opened Frames
  import opened LogState
  import opened LogSafety
  import opened UploadModel

  predicate StoredOk(bucket: seq<seq<byte>>, log: Log)
  {
    log.fate == Uploaded ==> Bytes(log.entries) in bucket
  }

  /** Every log removed after its upload is in the bucket. */
  predicate AllStored(w: World)
  {
    forall i | 0 <= i < |w.store.logs| :: StoredOk(w.bucket, w.store.logs[i])
  }

  // ---- what the server is handed ----

  /** One file offered to the server: the store then, the file's number, and what happens around it. */
  datatype Attempt = Attempt(store: Store, number: nat, exchange: Exchange)

  /** The one assumption on digests: if a body of the file's length has the digest of the file, it is the
      file's contents. It is asked of the bodies the server was handed, and of closed files. */
  predicate Genuine(md5: Md5, t: Attempt)
  {
    var (s, n, body) := (t.store, t.number, t.exchange.body);
    n in s.disk && !(s.isOpen && n == s.current) && body.Some?
    && |body.value| == |Bytes(s.disk[n])| && md5(body.value) == FileHash(md5, s.disk, n)
    ==> body.value == Bytes(s.disk[n])
  }

  predicate AllGenuine(md5: Md5, ts: seq<Attempt>)
  {
    forall i | 0 <= i < |ts| :: Genuine(md5, ts[i])
  }

  /** A connection that garbles nothing: the handler gets the bytes the logger sent, as many of the file's
      own as the inventory says, or nothing. */
  predicate OwnBody(t: Attempt)
  {
    var (s, n, body) := (t.store, t.number, t.exchange.body);
    body.Some? ==>
      n in s.disk && n < |s.sizes| && s.sizes[n] <= |Bytes(s.disk[n])| && body.value == Bytes(s.disk[n])[..s.sizes[n]]
  }

  predicate AllOwn(ts: seq<Attempt>)
  {
    forall i | 0 <= i < |ts| :: OwnBody(ts[i])
  }

  /** Over such a connection nothing has to be assumed of digests. */
  lemma OwnIsGenuine(md5: Md5, ts: seq<Attempt>)
    requires AllOwn(ts)
    ensures AllGenuine(md5, ts)
  {
    hide Bytes, FileHash;
    forall i | 0 <= i < |ts| ensures Genuine(md5, ts[i]) {
      assert OwnBody(ts[i]);
    }
  }

  /** The files a cycle's loop offers. */
  function Offered(md5: Md5, w: World, numbers: seq<nat>, xs: seq<Exchange>, start: nat, duration: nat): seq<Attempt>
    requires |w.store.sizes| == |w.store.hashes| == MAX_LOG_FILES
    requires forall i | 0 <= i < |numbers| :: numbers[i] < MAX_LOG_FILES
    decreases |numbers|
  {
    if numbers == [] || xs == [] then []
    else
      [Attempt(w.store, numbers[0], xs[0])]
      + (if Elapsed(xs[0].clock, start) > duration then []
         else Offered(md5, UploadOne(md5, w, numbers[0], xs[0]), numbers[1..], xs[1..], start, duration))
  }

  function CycleOffers(md5: Md5, w: World, c: Cycle): seq<Attempt>
    requires |w.store.sizes| == |w.store.hashes| == MAX_LOG_FILES
  {
    ListedInRange(w.store.sizes, 0);
    var numbers := Listed(w.store.sizes, 0);
    if Elapsed(c.now, w.lastCycle) < c.interval || numbers == [] || !c.statusOk then []
    else Offered(md5, w.(lastCycle := c.now), numbers, c.exchanges, c.now, c.duration)
  }

  // ---- one file ----

  /** A successful transfer of a coherent file leaves exactly its bytes in the bucket. */
  lemma TransferWhole(md5: Md5, w: World, n: nat, x: Exchange)
    requires n < |w.store.sizes| == |w.store.hashes| == MAX_LOG_FILES && Coherent(md5, w.store, n)
    requires !(w.store.isOpen && n == w.store.current) && Genuine(md5, Attempt(w.store, n, x))
    requires Transferred(md5, w, n, x).0
    ensures n in w.store.disk && Bytes(w.store.disk[n]) in Transferred(md5, w, n, x).1
  {
    hide Bytes;
    var bucket := Transferred(md5, w, n, x).1;
    assert bucket[|bucket| - 1] == x.body.value == Bytes(w.store.disk[n]);
  }

  lemma BucketGrows(md5: Md5, w: World, n: nat, x: Exchange)
    requires n < |w.store.sizes| == |w.store.hashes| == MAX_LOG_FILES
    ensures w.bucket <= UploadOne(md5, w, n, x).bucket
  {
  }

  lemma UploadOneSound(md5: Md5, w: World, n: nat, x: Exchange)
    requires Sound(md5, w.store) && n < MAX_LOG_FILES
    ensures |w.store.sizes| == |w.store.hashes| == MAX_LOG_FILES
    ensures Sound(md5, UploadOne(md5, w, n, x).store)
  {
    RemovedSound(md5, w.store, n, if w.store.isOpen && n == w.store.current then CutShort else Uploaded);
    hide Bytes, Served, Removed, Sound;
  }

  lemma UploadOneStored(md5: Md5, w: World, n: nat, x: Exchange)
    requires Sound(md5, w.store) && AllStored(w) && n < MAX_LOG_FILES && Genuine(md5, Attempt(w.store, n, x))
    ensures |w.store.sizes| == |w.store.hashes| == MAX_LOG_FILES
    ensures AllStored(UploadOne(md5, w, n, x))
  {
    hide Bytes, Served, Removed, Genuine;
    var u := UploadOne(md5, w, n, x);
    BucketGrows(md5, w, n, x);
    if u.store != w.store {
      var fate := if w.store.isOpen && n == w.store.current then CutShort else Uploaded;
      if fate == Uploaded {
        assert Coherent(md5, w.store, n);
        TransferWhole(md5, w, n, x);
      }
      assert u.store == Removed(w.store, n, fate);
      RemovedStored(w, n, fate, u.bucket);
    } else {
      forall i | 0 <= i < |u.store.logs| ensures StoredOk(u.bucket, u.store.logs[i]) {
        assert StoredOk(w.bucket, w.store.logs[i]);
      }
    }
  }

  lemma RemovedStored(w: World, n: nat, fate: Fate, bucket: seq<seq<byte>>)
    requires |w.store.sizes| == |w.store.hashes| == MAX_LOG_FILES
    requires AllStored(w) && LogsOk(w.store) && w.bucket <= bucket
    requires fate == Uploaded ==> n in w.store.disk && Bytes(w.store.disk[n]) in bucket
    ensures AllStored(w.(store := Removed(w.store, n, fate), bucket := bucket))
  {
    hide Bytes;
    var logs := Removed(w.store, n, fate).logs;
    forall i | 0 <= i < |logs| ensures StoredOk(bucket, logs[i]) {
      assert StoredOk(w.bucket, w.store.logs[i]) && KeptOk(w.store, w.store.logs[i]);
    }
  }

  // ---- a cycle ----

  lemma SizesOf(md5: Md5, s: Store)
    requires Sound(md5, s)
    ensures |s.sizes| == |s.hashes| == MAX_LOG_FILES
  {
  }

  lemma {:induction false} UploadEachSound(md5: Md5, w: World, numbers: seq<nat>, xs: seq<Exchange>,
                                           start: nat, duration: nat)
    requires Sound(md5, w.store) && forall i | 0 <= i < |numbers| :: numbers[i] < MAX_LOG_FILES
    ensures |w.store.sizes| == |w.store.hashes| == MAX_LOG_FILES
    ensures Sound(md5, UploadEach(md5, w, numbers, xs, start, duration).store)
    ensures UploadEach(md5, w, numbers, xs, start, duration).store.isOpen == w.store.isOpen
    decreases |numbers|
  {
    SizesOf(md5, w.store);
    if numbers != [] && xs != [] {
      var w1 := UploadOne(md5, w, numbers[0], xs[0]);
      UploadOneSound(md5, w, numbers[0], xs[0]);
      UploadKeepsOpen(md5, w, numbers[0], xs[0]);
      hide Sound, UploadOne, Elapsed;
      SizesOf(md5, w1.store);
      UploadEachSound(md5, w1, numbers[1..], xs[1..], start, duration);
    }
  }

  lemma UploadKeepsOpen(md5: Md5, w: World, n: nat, x: Exchange)
    requires n < |w.store.sizes| == |w.store.hashes| == MAX_LOG_FILES
    ensures UploadOne(md5, w, n, x).store.isOpen == w.store.isOpen
  {
    hide Served, Marked;
  }

  lemma {:induction false} UploadEachStored(md5: Md5, w: World, numbers: seq<nat>, xs: seq<Exchange>,
                                            start: nat, duration: nat)
    requires Sound(md5, w.store) && AllStored(w)
    requires |w.store.sizes| == |w.store.hashes| == MAX_LOG_FILES
    requires forall i | 0 <= i < |numbers| :: numbers[i] < MAX_LOG_FILES
    requires AllGenuine(md5, Offered(md5, w, numbers, xs, start, duration))
    ensures AllStored(UploadEach(md5, w, numbers, xs, start, duration))
    decreases |numbers|
  {
    if numbers != [] && xs != [] {
      var w1 := UploadOne(md5, w, numbers[0], xs[0]);
      var ts := Offered(md5, w, numbers, xs, start, duration);
      assert Genuine(md5, ts[0]);
      UploadOneStored(md5, w, numbers[0], xs[0]);
      UploadOneSound(md5, w, numbers[0], xs[0]);
      hide Sound, UploadOne, Elapsed, Genuine, AllStored;
      SizesOf(md5, w1.store);
      if Elapsed(xs[0].clock, start) <= duration {
        GenuineTail(md5, ts[0], Offered(md5, w1, numbers[1..], xs[1..], start, duration));
        UploadEachStored(md5, w1, numbers[1..], xs[1..], start, duration);
      }
    }
  }

  lemma GenuineTail(md5: Md5, t: Attempt, ts: seq<Attempt>)
    requires AllGenuine(md5, [t] + ts)
    ensures AllGenuine(md5, ts)
  {
    hide Genuine;
    forall i | 0 <= i < |ts| ensures Genuine(md5, ts[i]) {
      assert ([t] + ts)[i + 1] == ts[i];
    }
  }

  lemma CycleSound(md5: Md5, w: World, c: Cycle)
    requires Sound(md5, w.store)
    ensures |w.store.sizes| == |w.store.hashes| == MAX_LOG_FILES
    ensures Sound(md5, Cycled(md5, w, c).store) && Cycled(md5, w, c).store.isOpen == w.store.isOpen
  {
    SizesOf(md5, w.store);
    hide Sound, Elapsed, UploadEach, Listed;
    ListedInRange(w.store.sizes, 0);
    UploadEachSound(md5, w.(lastCycle := c.now), Listed(w.store.sizes, 0), c.exchanges, c.now, c.duration);
  }

  /** A whole cycle, whatever the network does: every log it removes is in the bucket. */
  lemma CycleStored(md5: Md5, w: World, c: Cycle)
    requires Sound(md5, w.store) && AllStored(w) && |w.store.sizes| == |w.store.hashes| == MAX_LOG_FILES
    requires AllGenuine(md5, CycleOffers(md5, w, c))
    ensures AllStored(Cycled(md5, w, c))
  {
    hide Sound, Elapsed, UploadEach, Listed, Offered, Genuine;
    ListedInRange(w.store.sizes, 0);
    var w1 := w.(lastCycle := c.now);
    assert AllStored(w1);
    hide AllStored, AllGenuine;
    if !(Elapsed(c.now, w.lastCycle) < c.interval) && Listed(w.store.sizes, 0) != [] && c.statusOk {
      UploadEachStored(md5, w1, Listed(w.store.sizes, 0), c.exchanges, c.now, c.duration);
    }
  }
}
