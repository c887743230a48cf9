/** The upload of log files: the server's handling of one file, the logger's transfer of it, and the
    cycle that removes what was acknowledged. The network and the server's services may fail anywhere. */
module UploadModel {
  import opened Options
  import opened Frames
  import opened LogState

  // ---- the server ----

  /** What each service call of the server answers. */
  datatype Services = Services(
    uuidMade: bool, providerKnown: bool, configured: bool, bucketFound: bool,
    uploaded: bool, notified: bool, marshalled: bool)

  /** An HTTP code, and the status field of the JSON body if there is one. */
  datatype Reply = Reply(code: nat, status: Option<string>)

  /** `file_transfer`: the reply and the bucket afterwards. No body stands for one that failed to arrive. */
  function Served(md5: Md5, bucket: seq<seq<byte>>, digest: Option<Digest>, body: Option<seq<byte>>, env: Services)
    : (Reply, seq<seq<byte>>)
  {
    if body.None? || digest.None? then (Reply(400, None), bucket)
    else if md5(body.value) != digest.value then
      (Reply(200, if env.marshalled then Some("failure") else None), bucket)
    else if !env.uuidMade then (Reply(400, None), bucket)
    else if !env.providerKnown || !env.configured || !env.bucketFound || !env.uploaded then (Reply(500, None), bucket)
    else if !env.notified then (Reply(500, None), bucket + [body.value])
    else (Reply(200, if env.marshalled then Some("success") else None), bucket + [body.value])
  }

  class Server {
    const md5: Md5
    var bucket: seq<seq<byte>>

    constructor (md5: Md5)
      ensures this.md5 == md5 && bucket == []
    {
      this.md5 := md5;
      bucket := [];
    }

    /** The handler, with its early returns: the digest is checked before anything is stored, and success
        is only reported for a body that is in the bucket. */
    method FileTransfer(digest: Option<Digest>, body: Option<seq<byte>>, env: Services) returns (reply: Reply)
      modifies this
      ensures (reply, bucket) == Served(md5, old(bucket), digest, body, env)
      ensures
        var stored := && body.Some? && digest == Some(md5(body.value)) && env.uuidMade
                      && env.providerKnown && env.configured && env.bucketFound && env.uploaded;
        && bucket == old(bucket) + (if stored then [body.value] else [])
        && (reply.status == Some("success") <==> stored && env.notified && env.marshalled)
        && (reply.status == Some("success") ==> reply.code == 200)
    {
      if body.None? {
        return Reply(400, None);
      }
      if digest.None? {
        return Reply(400, None);
      }
      var status := "";
      if md5(body.value) != digest.value {
        status := "failure";
      } else {
        status := "success";
        if !env.uuidMade {
          return Reply(400, None);
        }
        if !env.providerKnown {
          return Reply(500, None);
        }
        if !env.configured {
          return Reply(500, None);
        }
        if !env.bucketFound {
          return Reply(500, None);
        }
        if !env.uploaded {
          return Reply(500, None);
        }
        bucket := bucket + [body.value];
        if !env.notified {
          return Reply(500, None);
        }
      }
      if !env.marshalled {
        return Reply(200, None);
      }
      reply := Reply(200, Some(status));
    }
  }

  // ---- one transfer ----

  /** What happens around one file: whether the connection is made, what body the server is handed, what
      its services answer, whether the reply comes back, whether the local removal works, and the clock then. */
  datatype Exchange = Exchange(
    connects: bool, body: Option<seq<byte>>, env: Services, replyArrives: bool, removes: bool, clock: nat)

  datatype World = World(store: Store, bucket: seq<seq<byte>>, lastCycle: nat)

  /** The server hands its handler a body only when all announced bytes came. */
  function Arrived(body: Option<seq<byte>>, announced: nat): Option<seq<byte>>
  {
    if body.Some? && |body.value| == announced then body else None
  }

  /** `TransferFile` for a file the inventory lists: whether it reports success, and the bucket afterwards. */
  function Transferred(md5: Md5, w: World, n: nat, x: Exchange): (bool, seq<seq<byte>>)
    requires n < |w.store.sizes| == |w.store.hashes|
  {
    if n !in w.store.disk || !x.connects then (false, w.bucket)
    else
      var (reply, bucket) := Served(md5, w.bucket, Some(w.store.hashes[n]), Arrived(x.body, w.store.sizes[n]), x.env);
      (x.replyArrives && reply == Reply(200, Some("success")), bucket)
  }

  /** One round of the cycle's loop. */
  function UploadOne(md5: Md5, w: World, n: nat, x: Exchange): (r: World)
    requires n < |w.store.sizes| == |w.store.hashes| == MAX_LOG_FILES
    ensures |r.store.sizes| == |r.store.hashes| == MAX_LOG_FILES
  {
    var (ok, bucket) := Transferred(md5, w, n, x);
    var fate := if w.store.isOpen && n == w.store.current then CutShort else Uploaded;
    w.(bucket := bucket,
       store := if ok && n in w.store.disk && x.removes then Removed(w.store, n, fate) else w.store)
  }

  const CLOCK := 0x1_0000_0000

  /** Unsigned difference of two clock readings. */
  function Elapsed(now: nat, since: nat): nat { (now - since) % CLOCK }

  function UploadEach(md5: Md5, w: World, numbers: seq<nat>, xs: seq<Exchange>, start: nat, duration: nat): (r: World)
    requires |w.store.sizes| == |w.store.hashes| == MAX_LOG_FILES
    requires forall i | 0 <= i < |numbers| :: numbers[i] < MAX_LOG_FILES
    ensures |r.store.sizes| == |r.store.hashes| == MAX_LOG_FILES
    decreases |numbers|
  {
    if numbers == [] || xs == [] then w
    else
      var w1 := UploadOne(md5, w, numbers[0], xs[0]);
      if Elapsed(xs[0].clock, start) > duration then w1
      else UploadEach(md5, w1, numbers[1..], xs[1..], start, duration)
  }

  lemma {:induction false} ListedInRange(sizes: seq<nat>, n: nat)
    ensures forall i | 0 <= i < |Listed(sizes, n)| ::
              Listed(sizes, n)[i] < |sizes| && sizes[Listed(sizes, n)[i]] != 0
    decreases |sizes| - n
  {
    if n < |sizes| {
      ListedInRange(sizes, n + 1);
    }
  }

  predicate Ascending(numbers: seq<nat>)
  {
    forall i, j | 0 <= i < j < |numbers| :: numbers[i] < numbers[j]
  }

  lemma {:induction false} ListedAscends(sizes: seq<nat>, n: nat)
    ensures Ascending(Listed(sizes, n)) && forall i | 0 <= i < |Listed(sizes, n)| :: Listed(sizes, n)[i] >= n
    decreases |sizes| - n
  {
    if n < |sizes| {
      ListedAscends(sizes, n + 1);
    }
  }

  /** Listed are the numbers with a cached size. */
  lemma {:induction false} ListedExactly(sizes: seq<nat>, n: nat, k: nat)
    ensures k in Listed(sizes, n) <==> n <= k < |sizes| && sizes[k] != 0
    decreases |sizes| - n
  {
    if n < |sizes| {
      ListedExactly(sizes, n + 1, k);
    }
  }

  /** When and for how long a cycle may run, and whether the server answers the status report. */
  datatype Cycle = Cycle(now: nat, interval: nat, duration: nat, statusOk: bool, exchanges: seq<Exchange>)

  function Cycled(md5: Md5, w: World, c: Cycle): (r: World)
    requires |w.store.sizes| == |w.store.hashes| == MAX_LOG_FILES
    ensures |r.store.sizes| == |r.store.hashes| == MAX_LOG_FILES
  {
    if Elapsed(c.now, w.lastCycle) < c.interval then w
    else
      var w1 := w.(lastCycle := c.now);
      var numbers := Listed(w.store.sizes, 0);
      ListedInRange(w.store.sizes, 0);
      if numbers == [] || !c.statusOk then w1
      else UploadEach(md5, w1, numbers, c.exchanges, c.now, c.duration)
  }
}
