/** The log manager as it works: a card, the inventory cached beside it, and the open log, updated in place. */
module LogManager {
  import opened Options
  import opened Text
  import opened Frames
  import opened LogState
  import opened UploadModel

  // ---- file names ----

  predicate Contains(s: string, part: string)
  {
    part <= s || (s != "" && Contains(s[1..], part))
  }

  lemma {:induction false} PartIsContained(front: string, part: string, rest: string)
    ensures Contains(front + part + rest, part)
  {
    var s := front + part + rest;
    if front == "" {
      assert s[..|part|] == part;
    } else {
      assert s[1..] == front[1..] + part + rest;
      PartIsContained(front[1..], part, rest);
    }
  }

  function MakeLogName(n: nat): string { "/logs/wibl-raw." + Decimal(n) }

  /** The number at the front of `s`, behind blanks and a sign; zero when there is none. */
  function ToInt(s: string): int
  {
    if s == "" then 0
    else if IsBlank(s[0]) then ToInt(s[1..])
    else if s[0] == '-' then -(Value(s[1..][..DigitSpan(s[1..])]) as int)
    else if s[0] == '+' then Value(s[1..][..DigitSpan(s[1..])])
    else Value(s[..DigitSpan(s)])
  }

  function ExtractLogNumber(name: string): int
  {
    if !Contains(name, "wibl-raw") then -1
    else
      var dot := IndexFrom(name, '.', 0);
      ToInt(if dot == |name| then name else name[dot + 1..])
  }

  lemma FirstDot(front: string, rest: string)
    requires '.' !in front
    ensures IndexFrom(front + "." + rest, '.', 0) == |front| && (front + "." + rest)[|front| + 1..] == rest
  {
    var s := front + "." + rest;
    assert forall j | 0 <= j < |front| :: s[j] == front[j];
    assert s[|front|] == '.';
  }

  lemma ReadNumber(n: nat)
    ensures ToInt(Decimal(n)) == n
  {
    ReadDecimal(n, "");
    assert Decimal(n) + "" == Decimal(n);
  }

  /** A log's name gives back its number, with or without the directory in front. */
  lemma NameGivesNumber(dir: string, n: nat)
    requires '.' !in dir
    ensures ExtractLogNumber(dir + "wibl-raw." + Decimal(n)) == n
    ensures MakeLogName(n) == "/logs/" + "wibl-raw." + Decimal(n)
  {
    hide Contains, ToInt, Decimal, IndexFrom;
    var name, front := dir + "wibl-raw." + Decimal(n), dir + "wibl-raw";
    assert name == front + "." + Decimal(n) == dir + "wibl-raw" + ("." + Decimal(n));
    PartIsContained(dir, "wibl-raw", "." + Decimal(n));
    FirstDot(front, Decimal(n));
    ReadNumber(n);
  }

  /** The log numbers found in a directory, in the order of its entries; other files are passed over. */
  function LogNumbers(names: seq<string>): seq<nat>
  {
    if names == [] then []
    else
      var n := ExtractLogNumber(names[|names| - 1]);
      LogNumbers(names[..|names| - 1]) + (if n >= 0 then [n] else [])
  }

  /** The directory shows every log on the card and names nothing else like one. */
  ghost predicate Shows(names: seq<string>, files: map<nat, seq<Entry>>)
  {
    && (forall n | n in files :: "wibl-raw." + Decimal(n) in names)
    && forall name | name in names ::
         !Contains(name, "wibl-raw") || exists n :: n in files && name == "wibl-raw." + Decimal(n)
  }

  lemma {:induction false} NumberIsListed(names: seq<string>, n: nat)
    ensures n in LogNumbers(names) <==> exists i :: 0 <= i < |names| && ExtractLogNumber(names[i]) == n
  {
    hide ExtractLogNumber;
    if names != [] {
      NumberIsListed(names[..|names| - 1], n);
    }
  }

  /** Counting the directory finds exactly the logs, whatever else is stored beside them. */
  lemma DirectoryGivesLogs(names: seq<string>, files: map<nat, seq<Entry>>, n: nat)
    requires Shows(names, files)
    ensures n in LogNumbers(names) <==> n in files
  {
    hide Contains, ExtractLogNumber, Decimal, LogNumbers;
    NumberIsListed(names, n);
    if n in files {
      NameGivesNumber("", n);
      assert "" + "wibl-raw." + Decimal(n) == "wibl-raw." + Decimal(n);
    }
    forall i | 0 <= i < |names| && ExtractLogNumber(names[i]) == n ensures n in files {
      OnlyLogsHaveNumbers(names[i], n);
      var k :| k in files && names[i] == "wibl-raw." + Decimal(k);
      NameGivesNumber("", k);
      assert "" + "wibl-raw." + Decimal(k) == names[i];
    }
  }

  lemma OnlyLogsHaveNumbers(name: string, n: nat)
    requires ExtractLogNumber(name) == n
    ensures Contains(name, "wibl-raw")
  {
    hide ToInt;
  }

  // ---- the card ----

  class Card {
    var files: map<nat, seq<Entry>>

    constructor (files: map<nat, seq<Entry>>)
      ensures this.files == files
    {
      this.files := files;
    }

    method Remove(n: nat, works: bool) returns (ok: bool)
      modifies this
      ensures ok == (n in old(files) && works)
      ensures files == if ok then old(files) - {n} else old(files)
    {
      ok := n in files && works;
      if ok {
        files := files - {n};
      }
    }

    /** `count`: the numbers of the logs in the directory. */
    method Count(names: seq<string>, numbers: array<nat>) returns (count: nat)
      requires |LogNumbers(names)| <= numbers.Length
      modifies numbers
      ensures count == |LogNumbers(names)| && numbers[..count] == LogNumbers(names)
    {
      count := 0;
      for i := 0 to |names|
        invariant LogNumbersFit(names, i)
        invariant count == |LogNumbers(names[..i])| <= numbers.Length
        invariant numbers[..count] == LogNumbers(names[..i])
      {
        LogNumbersGrow(names, i);
        var n := ExtractLogNumber(names[i]);
        assert names[..i + 1][..i] == names[..i];
        if n >= 0 {
          numbers[count] := n;
          count := count + 1;
        }
      }
      assert names[..|names|] == names;
    }

    /** The walk through the directory for the first number without a file. */
    method WalkForNumber() returns (n: nat)
      ensures n == Walk(files, 0)
    {
      n := 0;
      while n < MAX_LOG_FILES
        invariant n <= MAX_LOG_FILES && Walk(files, 0) == Walk(files, n)
      {
        if n in files {
          n := n + 1;
        } else {
          break;
        }
      }
      if n == MAX_LOG_FILES {
        n := 0;
      }
    }
  }

  ghost predicate LogNumbersFit(names: seq<string>, i: nat)
  {
    i <= |names| && |LogNumbers(names[..i])| <= |LogNumbers(names)|
  }

  lemma {:induction false} LogNumbersGrow(names: seq<string>, i: nat)
    requires i < |names|
    ensures |LogNumbers(names[..i + 1])| <= |LogNumbers(names)| && LogNumbersFit(names, i + 1)
    decreases |names| - i
  {
    hide ExtractLogNumber;
    if i + 1 < |names| {
      LogNumbersGrow(names, i + 1);
      assert names[..i + 2][..i + 1] == names[..i + 1];
    } else {
      assert names[..i + 1] == names;
    }
  }

  // ---- the inventory ----

  lemma ListOneMore(sizes: seq<nat>, found: seq<nat>, n: nat)
    requires n < |sizes|
    ensures found + Listed(sizes, n) == (if sizes[n] != 0 then found + [n] else found) + Listed(sizes, n + 1)
  {
  }

  lemma AllIsListed(sizes: seq<nat>, found: seq<nat>)
    ensures found + Listed(sizes, |sizes|) == found
  {
  }

  class Inventory {
    const md5: Md5
    const card: Card
    var sizes: seq<nat>
    var hashes: seq<Digest>

    constructor (md5: Md5, card: Card, names: seq<string>)
      requires Shows(names, card.files) && |LogNumbers(names)| <= MAX_LOG_FILES
      ensures this.md5 == md5 && this.card == card
      ensures sizes == Booted(md5, card.files).sizes && hashes == Booted(md5, card.files).hashes
    {
      this.md5 := md5;
      this.card := card;
      sizes := seq(MAX_LOG_FILES, _ => 0);
      hashes := seq(MAX_LOG_FILES, _ => 0);
      new;
      Reinitialise(names);
    }

    ghost predicate Sized() reads this { |sizes| == |hashes| == MAX_LOG_FILES }

    /** Rebuilt from the directory, the inventory is what the card says, in whatever order it is read. */
    method Reinitialise(names: seq<string>)
      requires Sized() && Shows(names, card.files) && |LogNumbers(names)| <= MAX_LOG_FILES
      modifies this
      ensures sizes == Booted(md5, card.files).sizes && hashes == Booted(md5, card.files).hashes
    {
      var numbers := new nat[MAX_LOG_FILES];
      var count := card.Count(names, numbers);
      for entry := 0 to MAX_LOG_FILES
        invariant Sized()
        invariant forall k | 0 <= k < entry :: sizes[k] == 0 && hashes[k] == 0
        invariant numbers[..count] == LogNumbers(names)
      {
        sizes := sizes[entry := 0];
        hashes := hashes[entry := 0];
      }
      for f := 0 to count
        invariant Sized() && numbers[..count] == LogNumbers(names)
        invariant forall k | 0 <= k < MAX_LOG_FILES ::
                    if k in numbers[..f] then Fresh(k) else sizes[k] == 0 && hashes[k] == 0
      {
        var t := Update(numbers[f]);
        assert numbers[..f + 1] == numbers[..f] + [numbers[f]];
      }
      forall k | 0 <= k < MAX_LOG_FILES
        ensures sizes[k] == FileSize(card.files, k)
        ensures hashes[k] == if k in card.files then FileHash(md5, card.files, k) else 0
      {
        DirectoryGivesLogs(names, card.files, k);
      }
    }

    ghost predicate Fresh(k: nat)
      reads this, card
    {
      Sized() && k < MAX_LOG_FILES
      && sizes[k] == FileSize(card.files, k) && hashes[k] == FileHash(md5, card.files, k)
    }

    method Update(n: nat) returns (ok: bool)
      requires Sized()
      modifies this
      ensures Sized() && ok == (n < MAX_LOG_FILES)
      ensures ok ==> Fresh(n)
      ensures forall k | 0 <= k < MAX_LOG_FILES && k != n :: sizes[k] == old(sizes[k]) && hashes[k] == old(hashes[k])
    {
      if n >= MAX_LOG_FILES {
        return false;
      }
      sizes := sizes[n := FileSize(card.files, n)];
      hashes := hashes[n := FileHash(md5, card.files, n)];
      ok := true;
    }

    method Lookup(n: nat) returns (found: bool, size: nat, hash: Digest)
      requires Sized()
      ensures found <==> n < MAX_LOG_FILES && sizes[n] != 0
      ensures found ==> size == sizes[n] && hash == hashes[n]
    {
      if n >= MAX_LOG_FILES || sizes[n] == 0 {
        return false, 0, 0;
      }
      found, size, hash := true, sizes[n], hashes[n];
    }

    method RemoveLogFile(n: nat)
      requires Sized()
      modifies this
      ensures sizes == if n < MAX_LOG_FILES then old(sizes)[n := 0] else old(sizes)
      ensures hashes == if n < MAX_LOG_FILES then old(hashes)[n := 0] else old(hashes)
    {
      if n >= MAX_LOG_FILES {
        return;
      }
      sizes := sizes[n := 0];
      hashes := hashes[n := 0];
    }

    method CountLogFiles(numbers: array<nat>) returns (count: nat)
      requires Sized() && numbers.Length == MAX_LOG_FILES
      modifies numbers
      ensures count <= MAX_LOG_FILES && numbers[..count] == Listed(sizes, 0)
    {
      hide Listed;
      count := 0;
      for entry := 0 to MAX_LOG_FILES
        invariant count <= entry
        invariant Listed(sizes, 0) == numbers[..count] + Listed(sizes, entry)
      {
        ghost var found := numbers[..count];
        ListOneMore(sizes, found, entry);
        if sizes[entry] != 0 {
          numbers[count] := entry;
          count := count + 1;
          assert numbers[..count] == found + [entry];
        }
      }
      AllIsListed(sizes, numbers[..count]);
    }

    method GetNextLogNumber() returns (n: nat)
      requires Sized()
      ensures n == NextFree(sizes, 0)
    {
      for entry := 0 to MAX_LOG_FILES
        invariant NextFree(sizes, 0) == NextFree(sizes, entry)
      {
        if sizes[entry] == 0 {
          return entry;
        }
      }
      n := 0;
    }
  }

  // ---- the manager ----

  class Manager {
    const card: Card
    const inventory: Inventory
    var current: nat
    var isOpen: bool
    var output: seq<Entry>
    var emitted: bool
    ghost var logs: seq<Log>
    ghost var recorded: seq<Frame>

    constructor (inventory: Inventory)
      ensures this.inventory == inventory && this.card == inventory.card
      ensures !isOpen && !emitted && current == 0 && output == []
      ensures logs == OldLogs(card.files, MAX_LOG_FILES) && recorded == []
    {
      this.card := inventory.card;
      this.inventory := inventory;
      current, isOpen, output, emitted := 0, false, [], false;
      logs, recorded := OldLogs(inventory.card.files, MAX_LOG_FILES), [];
    }

    ghost predicate Valid()
      reads this, inventory
    {
      inventory.card == card && inventory.Sized()
    }

    /** The fields of the manager, its inventory and its card as one store. */
    ghost function Now(): (s: Store)
      reads this, inventory, card
    {
      Store(card.files, inventory.sizes, inventory.hashes, current, isOpen, output, emitted, logs, recorded)
    }

    method StartNewLog(headers: seq<Frame>)
      requires Valid()
      modifies this, card
      ensures Valid() && Now() == Started(old(Now()), headers)
    {
      current := inventory.GetNextLogNumber();
      var i, es := 0, [];
      while i < |headers|
        invariant i <= |headers| && es == HeaderEntries(headers[..i])
      {
        assert headers[..i + 1][..i] == headers[..i];
        es := es + [Header(headers[i])];
        i := i + 1;
      }
      assert headers[..i] == headers;
      card.files := card.files[current := es];
      output, isOpen := es, true;
      logs := Marked(logs, current, Overwritten) + [Log(current, es, Kept)];
      emitted := false;
    }

    method CloseLogfile()
      requires Valid()
      modifies this, inventory
      ensures Valid() && Now() == Closed(inventory.md5, old(Now()))
    {
      isOpen := false;
      var t := inventory.Update(current);
      assert inventory.sizes == Closed(inventory.md5, old(Now())).sizes;
      assert inventory.hashes == Closed(inventory.md5, old(Now())).hashes;
    }

    method RemoveLogFile(n: nat, works: bool, ghost fate: Fate) returns (ok: bool)
      requires Valid()
      modifies this, card, inventory
      ensures Valid() && ok == (n in old(card.files) && works)
      ensures Now() == if ok then Removed(old(Now()), n, fate) else old(Now())
    {
      ok := card.Remove(n, works);
      if ok {
        inventory.RemoveLogFile(n);
        logs := Marked(logs, n, fate);
      }
    }

    method RemoveAllLogfiles(works: nat -> bool, headers: seq<Frame>)
      requires Valid()
      modifies this, card, inventory
      ensures Valid() && Now() == ErasedAll(inventory.md5, old(Now()), works, headers)
    {
      CloseLogfile();
      ghost var closed := Now();
      var numbers := new nat[MAX_LOG_FILES];
      var count := inventory.CountLogFiles(numbers);
      ghost var listed := Listed(closed.sizes, 0);
      var f := 0;
      while f < count
        invariant f <= count && numbers[..count] == listed && Valid()
        invariant EraseEach(closed, listed, works) == EraseEach(Now(), listed[f..], works)
      {
        assert listed[f..][1..] == listed[f + 1..] && listed[f] == numbers[f];
        var ok := RemoveLogFile(numbers[f], works(numbers[f]), Erased);
        f := f + 1;
      }
      StartNewLog(headers);
    }

    /** A packet appended to the open file, which may be gone from the directory. */
    method Write(e: Entry)
      requires Valid()
      modifies this, card
      ensures Valid() && Now() == Written(old(Now()), e)
    {
      output := output + [e];
      if current in card.files {
        card.files := card.files[current := output];
      }
      if logs != [] {
        logs := logs[|logs| - 1 := logs[|logs| - 1].(entries := output)];
      }
    }

    method Record(f: Frame, noData: bool, headers: seq<Frame>)
      requires Valid()
      modifies this, card, inventory
      ensures Valid() && Now() == Recorded(inventory.md5, old(Now()), f, noData, headers)
    {
      Write(Data(f, noData));
      recorded := recorded + [f];
      if |Bytes(output)| > MAX_LOG_FILE_SIZE {
        CloseLogfile();
        StartNewLog(headers);
      }
    }

    method EmitNoDataReject()
      requires Valid()
      modifies this, card
      ensures Valid() && Now() == Requested(old(Now()))
    {
      hide NoDataReject;
      if emitted {
        return;
      }
      Write(Request(NoDataReject()));
      emitted := true;
    }

    /** Any of the NMEA2000 handlers, for a message that was decoded. */
    method HandleMessage(f: Frame, noData: bool, headers: seq<Frame>)
      requires Valid()
      modifies this, card, inventory
      ensures Valid() && Now() == Handled(inventory.md5, old(Now()), f, noData, headers)
    {
      if noData {
        EmitNoDataReject();
      }
      Record(f, noData, headers);
    }
  }

  // ---- the upload manager ----

  predicate StillToSend(sizes: seq<nat>, numbers: seq<nat>)
  {
    forall i | 0 <= i < |numbers| :: numbers[i] < |sizes| && sizes[numbers[i]] != 0
  }

  lemma NextFile(md5: Md5, w: World, numbers: seq<nat>, c: Cycle, n: nat)
    requires |w.store.sizes| == |w.store.hashes| == MAX_LOG_FILES
    requires n < |numbers| && n < |c.exchanges| && forall i | 0 <= i < |numbers| :: numbers[i] < MAX_LOG_FILES
    ensures
      var w1 := UploadOne(md5, w, numbers[n], c.exchanges[n]);
      UploadEach(md5, w, numbers[n..], c.exchanges[n..], c.now, c.duration)
      == if Elapsed(c.exchanges[n].clock, c.now) > c.duration then w1
         else UploadEach(md5, w1, numbers[n + 1..], c.exchanges[n + 1..], c.now, c.duration)
  {
    hide UploadOne, Elapsed;
    assert numbers[n..][1..] == numbers[n + 1..] && c.exchanges[n..][1..] == c.exchanges[n + 1..];
  }

  class UploadManager {
    const manager: Manager
    const server: Server
    var lastCycle: nat

    constructor (manager: Manager, server: Server)
      ensures this.manager == manager && this.server == server && lastCycle == 0
    {
      this.manager := manager;
      this.server := server;
      lastCycle := 0;
    }

    ghost predicate Valid()
      reads this, manager, manager.inventory
    {
      manager.Valid() && server.md5 == manager.inventory.md5
    }

    ghost function Now(): World
      reads this, manager, manager.inventory, manager.card, server
    {
      World(manager.Now(), server.bucket, lastCycle)
    }

    /** True only when the server answered 200 with the status "success". */
    method TransferFile(n: nat, x: Exchange) returns (ok: bool)
      requires Valid() && n < MAX_LOG_FILES && manager.inventory.sizes[n] != 0
      modifies server
      ensures Valid() && (ok, server.bucket) == Transferred(server.md5, old(Now()), n, x)
    {
      var found, size, hash := manager.inventory.Lookup(n);
      if n !in manager.card.files {
        return false;
      }
      ok := false;
      if x.connects {
        var reply := server.FileTransfer(Some(hash), Arrived(x.body, size), x.env);
        if x.replyArrives && reply.code == 200 {
          if reply.status.Some? {
            if reply.status.value == "success" {
              ok := true;
            } else {
              ok := false;
            }
          }
        }
      }
    }

    /** One file of the cycle: removed from the card when, and only when, the server acknowledged it. */
    method UploadFile(n: nat, x: Exchange)
      requires Valid() && n < MAX_LOG_FILES && manager.inventory.sizes[n] != 0
      modifies manager, manager.inventory, manager.card, server
      ensures Valid() && Now() == UploadOne(server.md5, old(Now()), n, x)
      ensures forall k | 0 <= k < MAX_LOG_FILES && k != n :: manager.inventory.sizes[k] == old(manager.inventory.sizes[k])
    {
      var ok := TransferFile(n, x);
      if ok {
        ghost var fate := if manager.isOpen && n == manager.current then CutShort else Uploaded;
        var gone := manager.RemoveLogFile(n, x.removes, fate);
      }
    }

    method UploadCycle(c: Cycle)
      requires Valid()
      modifies this, manager, manager.inventory, manager.card, server
      ensures Valid() && Now() == Cycled(server.md5, old(Now()), c)
    {
      if Elapsed(c.now, lastCycle) < c.interval {
        return;
      }
      lastCycle := c.now;
      ghost var world := Now();
      hide UploadEach, Elapsed, Listed;
      var numbers := new nat[MAX_LOG_FILES];
      var count := manager.inventory.CountLogFiles(numbers);
      if count == 0 {
        return;
      }
      if !c.statusOk {
        return;
      }
      ListedInRange(world.store.sizes, 0);
      ListedAscends(world.store.sizes, 0);
      SendEach(numbers[..count], c);
    }

    /** The files of one cycle, until time is up. */
    method SendEach(numbers: seq<nat>, c: Cycle)
      requires Valid() && Ascending(numbers) && StillToSend(manager.inventory.sizes, numbers)
      modifies manager, manager.inventory, manager.card, server
      ensures Valid() && lastCycle == old(lastCycle)
      ensures Now() == UploadEach(server.md5, old(Now()), numbers, c.exchanges, c.now, c.duration)
    {
      hide UploadOne, Elapsed;
      ghost var world := Now();
      var n := 0;
      while n < |numbers| && n < |c.exchanges|
        invariant n <= |numbers| && n <= |c.exchanges| && Valid()
        invariant StillToSend(manager.inventory.sizes, numbers[n..])
        invariant UploadEach(server.md5, world, numbers, c.exchanges, c.now, c.duration)
               == UploadEach(server.md5, Now(), numbers[n..], c.exchanges[n..], c.now, c.duration)
      {
        assert numbers[n..][0] == numbers[n];
        NextFile(server.md5, Now(), numbers, c, n);
        hide UploadEach;
        UploadFile(numbers[n], c.exchanges[n]);
        if Elapsed(c.exchanges[n].clock, c.now) > c.duration {
          return;
        }
        n := n + 1;
      }
    }
  }
}
