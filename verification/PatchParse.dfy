/** The parser for unified diffs: its mode flags and counters, line by line. */
module PatchParse {
  import opened Options
  import opened Text
  import opened PatchModel

  datatype Patch = Patch(source: string, target: string, header: seq<string>, hunks: seq<Hunk>)

  // ---- the line patterns ----

  datatype Range = Range(start: nat, count: nat, rest: string)

  /** Digits, then optionally a comma and digits; a missing count is one. */
  function ReadRange(s: string): Option<Range>
  {
    var k := DigitSpan(s);
    if k == 0 then None
    else
      var rest := s[k..];
      if rest != "" && rest[0] == ',' && DigitSpan(rest[1..]) > 0 then
        var m := DigitSpan(rest[1..]);
        Some(Range(Value(s[..k]), Value(rest[1..][..m]), rest[1..][m..]))
      else
        Some(Range(Value(s[..k]), 1, rest))
  }

  /** A hunk's first line: its two ranges and the text behind them. */
  function HunkHead(line: string): Option<Hunk>
  {
    if !StartsWith(line, "@@ -") then None
    else
      var a := ReadRange(line[4..]);
      if a.None? || !StartsWith(a.value.rest, " +") then None
      else
        var b := ReadRange(a.value.rest[2..]);
        if b.None? || !StartsWith(b.value.rest, " @@") then None
        else Some(Hunk(a.value.start, a.value.count, b.value.start, b.value.count,
                       Description(b.value.rest[3..]), false, []))
  }

  /** The rest of the line without its first character and without blanks at the end. */
  function Description(tail: string): string
  {
    var line := tail[..IndexFrom(tail, '\n', 0)];
    if line == "" then "" else StripRight(line[1..])
  }

  /** The name behind a four-character prefix: up to a tab, blanks stripped; none when a tab follows at once. */
  function FileName(line: string): Option<string>
    requires |line| >= 4
  {
    var rest := line[4..];
    var k := IndexFrom(rest, '\t', 0);
    if k == 0 then None else Some(Strip(rest[..k]))
  }

  predicate OnlyEol(line: string) { forall i | 0 <= i < |line| :: IsEol(line[i]) }

  // ---- one line, as a function on the parser's variables ----

  datatype State = State(
    items: seq<Patch>, errors: nat,
    started: bool, p: Patch, hunk: Hunk, actualsrc: nat, actualtgt: nat,
    header: seq<string>, srcname: Option<string>,
    headscan: bool, filenames: bool, hunkhead: bool, hunkbody: bool, hunkskip: bool, hunkparsed: bool,
    scanning: bool)

  const NoPatch := Patch("", "", [], [])
  const NoHunk := Hunk(0, 0, 0, 0, "", false, [])

  const Start := State([], 0, false, NoPatch, NoHunk, 0, 0, [], None,
                       true, false, false, false, false, false, false)

  /** Next: the line goes on to the next block. Done: the line is used up. */
  datatype Flow = Next(st: State, line: string) | Done(st: State)

  function Decide(st: State, line: string): (r: State)
    ensures !r.hunkparsed
  {
    if !st.hunkparsed then st
    else if HunkHead(line).Some? then st.(hunkparsed := false, hunkhead := true)
    else if StartsWith(line, "--- ") then st.(hunkparsed := false, filenames := true)
    else st.(hunkparsed := false, headscan := true)
  }

  function ScanHeader(st: State, line: string): Flow
  {
    if !st.headscan then Next(st.(scanning := false), line)
    else if StartsWith(line, "--- ") then Next(st.(headscan := false, filenames := true, scanning := false), line)
    else Done(st.(header := st.header + [line], scanning := true))
  }

  function AddHunk(p: Patch, h: Hunk): Patch { p.(hunks := p.hunks + [h]) }

  /** The current hunk is given up: recorded as invalid, and the parser skips to the next start. */
  function GiveUp(st: State): State
  {
    var bad := st.hunk.(invalid := true);
    st.(hunk := bad, p := AddHunk(st.p, bad), errors := st.errors + 1, hunkbody := false, hunkskip := true)
  }

  function TakeBodyLine(st: State, line: string): State
  {
    if line != "" && IsTag(line[0]) then
      st.(hunk := st.hunk.(text := st.hunk.text + [line]),
          actualsrc := st.actualsrc + (if line[0] == '-' || line[0] == ' ' then 1 else 0),
          actualtgt := st.actualtgt + (if line[0] == '+' || line[0] == ' ' then 1 else 0))
    else GiveUp(st)
  }

  function HunkBody(st: State, line0: string): Flow
  {
    if !st.hunkbody then Next(st, line0)
    else
      var line := if OnlyEol(line0) then " " + line0 else line0;
      var s := TakeBodyLine(st, line);
      if s.actualsrc > s.hunk.linessrc || s.actualtgt > s.hunk.linestgt then Next(GiveUp(s), line)
      else if s.actualsrc == s.hunk.linessrc && s.actualtgt == s.hunk.linestgt then
        Done(s.(p := AddHunk(s.p, s.hunk), hunkbody := false, hunkparsed := true))
      else Next(s, line)
  }

  function HunkSkip(st: State, line: string): State
  {
    if !st.hunkskip then st
    else if HunkHead(line).Some? then st.(hunkskip := false, hunkhead := true)
    else if StartsWith(line, "--- ") then st.(hunkskip := false, filenames := true)
    else st
  }

  function FileNames(st: State, line: string): Flow
  {
    if !st.filenames then Next(st, line)
    else if StartsWith(line, "--- ") then
      if FileName(line).Some? then Next(st.(srcname := FileName(line)), line)
      else Next(st.(srcname := None, errors := st.errors + 1, filenames := false, headscan := true), line)
    else if !StartsWith(line, "+++ ") then
      Next(st.(errors := st.errors + (if st.srcname.Some? then 1 else 0), srcname := None,
               filenames := false, headscan := true), line)
    else if FileName(line).None? then
      Next(st.(errors := st.errors + 1, srcname := None, filenames := false, headscan := true), line)
    else
      Done(Begun(st, FileName(line).value))
  }

  /** Both names are known: the patch before is filed and a new one begun. */
  function Begun(st: State, target: string): State
  {
    st.(items := if st.started then st.items + [st.p] else st.items, started := true,
        p := Patch(if st.srcname.Some? then st.srcname.value else "", target, st.header, []),
        srcname := None, header := [], filenames := false, hunkhead := true)
  }

  function HeadLine(st: State, line: string): State
  {
    if !st.hunkhead then st
    else if HunkHead(line).Some? then
      st.(hunk := HunkHead(line).value, actualsrc := 0, actualtgt := 0, hunkhead := false, hunkbody := true)
    else
      st.(errors := st.errors + (if st.p.hunks == [] then 1 else 0), hunkhead := false, headscan := true)
  }

  /** Everything the main loop does with one line. */
  function Step(st: State, line: string): State
  {
    var a := ScanHeader(Decide(st, line), line);
    if a.Done? then a.st else After(a.st, a.line)
  }

  /** What the blocks behind the header scan do with a line. */
  function After(st: State, line: string): State
  {
    var b := HunkBody(st, line);
    if b.Done? then b.st
    else
      var c := FileNames(HunkSkip(b.st, b.line), b.line);
      if c.Done? then c.st else HeadLine(c.st, c.line)
  }

  function Run(st: State, lines: seq<string>): State
    decreases |lines|
  {
    if lines == [] then st else Run(Step(st, lines[0]), lines[1..])
  }

  datatype Parsed = Parsed(items: seq<Patch>, errors: nat, ok: bool)

  /** The stream has ended while the header was being read: an error when no patch was begun. */
  function EndOfScan(st: State): State
  {
    if st.scanning && !st.started then st.(errors := st.errors + 1) else st
  }

  function Close(st: State): Parsed
  {
    var items := if st.started then st.items + [st.p] else st.items;
    if st.hunkparsed || st.hunkskip then Parsed(items, st.errors, st.errors == 0)
    else if st.headscan then Parsed(items, st.errors, items != [] && st.errors == 0)
    else Parsed(items, st.errors + 1, false)
  }

  function Parse(lines: seq<string>): Parsed
  {
    Close(EndOfScan(Run(Start, lines)))
  }

  // ---- the parser itself ----

  class PatchSet {
    var items: seq<Patch>
    var errors: nat
    // variables of the main loop
    var started: bool
    var p: Patch
    var hunk: Hunk
    var actualsrc: nat
    var actualtgt: nat
    var header: seq<string>
    var srcname: Option<string>
    var headscan: bool
    var filenames: bool
    var hunkhead: bool
    var hunkbody: bool
    var hunkskip: bool
    var hunkparsed: bool

    constructor ()
      ensures View(false) == Start
    {
      items, errors := [], 0;
      started, p, hunk, actualsrc, actualtgt := false, NoPatch, NoHunk, 0, 0;
      header, srcname := [], None;
      headscan, filenames, hunkhead, hunkbody, hunkskip, hunkparsed := true, false, false, false, false, false;
    }

    function View(scanning: bool): State
      reads this
    {
      State(items, errors, started, p, hunk, actualsrc, actualtgt, header, srcname,
            headscan, filenames, hunkhead, hunkbody, hunkskip, hunkparsed, scanning)
    }

    /** Who processes the line after a complete hunk. */
    method DecideLine(line: string)
      modifies this
      ensures View(false) == Decide(old(View(false)), line)
    {
      hide HunkHead, FileName, OnlyEol;
      if hunkparsed {
        hunkparsed := false;
        if HunkHead(line).Some? {
          hunkhead := true;
        } else if StartsWith(line, "--- ") {
          filenames := true;
        } else {
          headscan := true;
        }
      }
    }

    /** One line inside a hunk; `expanded` is the line as later blocks see it, `used` says they do not. */
    method TakeHunkLine(line: string) returns (expanded: string, used: bool)
      requires hunkbody
      modifies this
      ensures
        var flow := HunkBody(old(View(false)), line);
        View(false) == flow.st && used == flow.Done? && (!used ==> expanded == flow.line)
    {
      hide HunkHead, FileName, OnlyEol;
      expanded := line;
      used := false;
      if OnlyEol(line) {
        expanded := " " + line;
      }
      CountLine(expanded);
      hide TakeBodyLine;
      if actualsrc > hunk.linessrc || actualtgt > hunk.linestgt {
        RejectHunk();
      } else if hunk.linessrc == actualsrc && hunk.linestgt == actualtgt {
        p := p.(hunks := p.hunks + [hunk]);
        hunkbody := false;
        hunkparsed := true;
        used := true;
      }
    }

    method CountLine(line: string)
      modifies this
      ensures View(false) == TakeBodyLine(old(View(false)), line)
    {
      if line != "" && IsTag(line[0]) {
        if line[0] == '-' {
          actualsrc := actualsrc + 1;
        } else if line[0] == '+' {
          actualtgt := actualtgt + 1;
        } else if line[0] != '\\' {
          actualsrc := actualsrc + 1;
          actualtgt := actualtgt + 1;
        }
        hunk := hunk.(text := hunk.text + [line]);
      } else {
        RejectHunk();
      }
    }

    method RejectHunk()
      modifies this
      ensures View(false) == GiveUp(old(View(false)))
    {
      hunk := hunk.(invalid := true);
      p := p.(hunks := p.hunks + [hunk]);
      errors := errors + 1;
      hunkbody := false;
      hunkskip := true;
    }

    /** The two lines that name the files of a patch. */
    method TakeFileName(line: string) returns (used: bool)
      requires filenames
      modifies this
      ensures
        var flow := FileNames(old(View(false)), line);
        View(false) == flow.st && used == flow.Done? && (!used ==> flow.line == line)
    {
      hide FileName, Begun;
      used := false;
      if StartsWith(line, "--- ") {
        srcname := None;
        var name := FileName(line);
        if name.Some? {
          srcname := name;
        } else {
          errors := errors + 1;
          filenames := false;
          headscan := true;
        }
      } else if !StartsWith(line, "+++ ") {
        if srcname.Some? {
          errors := errors + 1;
          srcname := None;
        }
        filenames := false;
        headscan := true;
      } else {
        var name := FileName(line);
        if name.None? {
          errors := errors + 1;
          srcname := None;
          filenames := false;
          headscan := true;
        } else {
          BeginPatch(name.value);
          used := true;
        }
      }
    }

    method BeginPatch(target: string)
      modifies this
      ensures View(false) == Begun(old(View(false)), target)
    {
      if started {
        FileCurrent();
      }
      StartPatch(target);
    }

    /** The patch before is complete. */
    method FileCurrent()
      modifies `items
      ensures items == old(items) + [p]
    {
      items := items + [p];
    }

    /** A new patch, with the header collected so far. */
    method StartPatch(target: string)
      modifies `started, `p, `srcname, `header, `filenames, `hunkhead
      ensures started && !filenames && hunkhead && srcname == None && header == []
      ensures p == Patch(if old(srcname).Some? then old(srcname).value else "", target, old(header), [])
    {
      started := true;
      p := Patch(if srcname.Some? then srcname.value else "", target, header, []);
      srcname := None;
      header := [];
      filenames := false;
      hunkhead := true;
    }

    method TakeHunkHead(line: string)
      requires hunkhead
      modifies this
      ensures View(false) == HeadLine(old(View(false)), line)
    {
      hide HunkHead, FileName, OnlyEol;
      var head := HunkHead(line);
      if head.None? {
        if p.hunks == [] {
          errors := errors + 1;
        }
        hunkhead := false;
        headscan := true;
      } else {
        OpenHunk(head.value);
      }
    }

    method OpenHunk(h: Hunk)
      modifies `hunk, `actualsrc, `actualtgt, `hunkhead, `hunkbody
      ensures hunk == h && actualsrc == actualtgt == 0 && !hunkhead && hunkbody
    {
      hunk := h;
      actualsrc, actualtgt := 0, 0;
      hunkhead := false;
      hunkbody := true;
    }

    /** Behind a hunk that was given up, up to the next hunk or file. */
    method SkipLine(line: string)
      requires hunkskip
      modifies `hunkskip, `hunkhead, `filenames
      ensures View(false) == HunkSkip(old(View(false)), line)
    {
      if HunkHead(line).Some? {
        hunkskip := false;
        hunkhead := true;
      } else if StartsWith(line, "--- ") {
        hunkskip := false;
        filenames := true;
      }
    }

    /** The blocks behind the header scan, in the order of the source. */
    method TakeLine(line0: string)
      modifies this
      ensures View(false) == After(old(View(false)), line0)
    {
      hide HunkHead, FileName, OnlyEol;
      var line, used := line0, false;
      if hunkbody {
        line, used := TakeHunkLine(line);
        if used {
          return;
        }
      }
      if hunkskip {
        SkipLine(line);
      }
      if filenames {
        used := TakeFileName(line);
        if used {
          return;
        }
      }
      if hunkhead {
        TakeHunkHead(line);
      }
    }

    /** The header scan: lines are kept until one names the source file or the stream ends. `i` counts
        the lines fetched so far, and `line` is the last of them. */
    method ScanToNames(lines: seq<string>, i0: nat, line0: string) returns (i: nat, line: string, exhausted: bool)
      requires headscan && !hunkparsed && 0 < i0 <= |lines| && line0 == lines[i0 - 1]
      modifies this
      ensures i0 <= i <= |lines| && line == lines[i - 1]
      ensures headscan && !hunkparsed && started == old(started)
      ensures exhausted ==> Run(old(View(false)), lines[i0 - 1..]) == View(true)
      ensures !exhausted ==> StartsWith(line, "--- ")
      ensures !exhausted ==> Run(old(View(false)), lines[i0 - 1..]) == Run(View(false), lines[i - 1..])
    {
      hide Run, Step, StartsWith;
      i, line, exhausted := i0, line0, false;
      while !exhausted && !StartsWith(line, "--- ")
        invariant i0 <= i <= |lines| && line == lines[i - 1]
        invariant headscan && !hunkparsed && started == old(started)
        invariant Run(old(View(false)), lines[i0 - 1..]) == if exhausted then View(true) else Run(View(false), lines[i - 1..])
        decreases |lines| - i, !exhausted
      {
        ScanStep(View(false), lines, i - 1);
        header := header + [line];
        if i < |lines| {
          line := lines[i];
          i := i + 1;
        } else {
          RunNone(View(true), lines, i);
          exhausted := true;
        }
      }
    }

    /** Parses a patch given as its lines, and tells whether it is free of errors. */
    method ParseLines(lines: seq<string>) returns (ok: bool)
      requires View(false) == Start
      modifies this
      ensures items == Parse(lines).items && errors == Parse(lines).errors && ok == Parse(lines).ok
    {
      hide HunkHead, After, Decide, ScanHeader, Step, Run, Close, StartsWith;
      var i: nat := 0;
      ghost var scanning := false;
      assert lines[0..] == lines;
      while i < |lines|
        invariant i <= |lines| && !scanning
        invariant Run(Start, lines) == Run(View(false), lines[i..])
        decreases |lines| - i
      {
        var line := lines[i];
        i := i + 1;
        ghost var before := View(false);
        DecideLine(line);
        DecideOnce(before, lines, i - 1);
        if headscan {
          var exhausted;
          i, line, exhausted := ScanToNames(lines, i, line);
          if exhausted {
            scanning := true;
            assert Run(Start, lines) == View(true);
            if !started {
              errors := errors + 1;
            }
            break;
          }
          ScanEnds(View(false), lines, i - 1);
          headscan := false;
          filenames := true;
        } else {
          NoScan(View(false), lines, i - 1);
        }
        TakeLine(line);
      }
      if !scanning {
        RunNone(View(false), lines, i);
      }
      assert View(scanning) == EndOfScan(Run(Start, lines));
      ok := CloseParse(scanning);
    }

    /** The end of the parse: the last patch is filed, and an unfinished one is an error. */
    method CloseParse(ghost scanning: bool) returns (ok: bool)
      modifies this
      ensures
        var r := Close(old(View(scanning)));
        items == r.items && errors == r.errors && ok == r.ok
    {
      if started {
        FileCurrent();
      }
      if !hunkparsed {
        if hunkskip {
        } else if headscan {
          if |items| == 0 {
            return false;
          }
        } else {
          errors := errors + 1;
          if |items| == 0 {
            return false;
          }
        }
      }
      ok := errors == 0;
    }
  }

  lemma RunOne(st: State, lines: seq<string>, i: nat)
    requires i < |lines|
    ensures Run(st, lines[i..]) == Run(Step(st, lines[i]), lines[i + 1..])
  {
    hide Step;
    assert lines[i..][0] == lines[i] && lines[i..][1..] == lines[i + 1..];
  }

  lemma NoDecision(st: State, line: string)
    requires !st.hunkparsed
    ensures Decide(st, line) == st
  {
    hide HunkHead, StartsWith;
  }

  lemma RunNone(st: State, lines: seq<string>, i: nat)
    requires i == |lines|
    ensures Run(st, lines[i..]) == st
  {
  }

  lemma DecideOnce(st: State, lines: seq<string>, i: nat)
    requires i < |lines|
    ensures Run(st, lines[i..]) == Run(Decide(st, lines[i]), lines[i..]) && !Decide(st, lines[i]).hunkparsed
  {
    hide Decide, ScanHeader, After, Run;
    NoDecision(Decide(st, lines[i]), lines[i]);
    RunOne(st, lines, i);
    RunOne(Decide(st, lines[i]), lines, i);
  }

  lemma ScanStep(st: State, lines: seq<string>, i: nat)
    requires i < |lines| && st.headscan && !st.hunkparsed && !StartsWith(lines[i], "--- ")
    ensures Run(st, lines[i..]) == Run(st.(header := st.header + [lines[i]], scanning := true), lines[i + 1..])
    ensures forall b :: i + 1 < |lines| ==>
      Run(st.(header := st.header + [lines[i]], scanning := true), lines[i + 1..])
      == Run(st.(header := st.header + [lines[i]], scanning := b), lines[i + 1..])
  {
    hide HunkHead, HunkBody, HunkSkip, FileNames, HeadLine;
    RunOne(st, lines, i);
    if i + 1 < |lines| {
      var next := st.(header := st.header + [lines[i]], scanning := true);
      forall b ensures Run(next, lines[i + 1..]) == Run(next.(scanning := b), lines[i + 1..]) {
        RunOne(next, lines, i + 1);
        RunOne(next.(scanning := b), lines, i + 1);
      }
    }
  }

  lemma ScanEnds(st: State, lines: seq<string>, i: nat)
    requires i < |lines| && st.headscan && !st.hunkparsed && StartsWith(lines[i], "--- ")
    ensures Run(st, lines[i..])
         == Run(After(st.(headscan := false, filenames := true, scanning := false), lines[i]), lines[i + 1..])
  {
    hide HunkHead, HunkBody, HunkSkip, FileNames, HeadLine;
    RunOne(st, lines, i);
  }

  lemma NoScan(st: State, lines: seq<string>, i: nat)
    requires i < |lines| && !st.headscan && !st.hunkparsed
    ensures Run(st, lines[i..]) == Run(After(st.(scanning := false), lines[i]), lines[i + 1..])
  {
    hide HunkHead, HunkBody, HunkSkip, FileNames, HeadLine;
    RunOne(st, lines, i);
  }
}
