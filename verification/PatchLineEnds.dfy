/** Which line ends `patch_stream` writes: those of the source lines read so far, when these are all alike. */
module PatchLineEnds {
  import opened Text
  import opened Splicing
  import opened PatchModel

  // ---- what is written, by what was read ----

  /** The target lines of a body, as they are written when `lines` have been read. */
  function Put(text: seq<string>, lines: seq<string>): (r: seq<string>)
    ensures |r| == |Pick(text, Target)|
  {
    if text == [] then []
    else if OnSide(text[0], Target) then [Emit(lines, |lines|, text[0][1..])] + Put(text[1..], lines)
    else Put(text[1..], lines)
  }

  predicate IsAdded(line: string) { line != "" && line[0] == '+' }

  /** The lines a body adds before it reads any. */
  function LeadRun(text: seq<string>): (r: seq<string>)
    ensures |r| <= |text| && |r| <= |Pick(text, Target)|
  {
    if text != [] && IsAdded(text[0]) then [text[0][1..]] + LeadRun(text[1..]) else []
  }

  /** The same for a body that is reached when exactly `lines` have been read: the rest of it is written after
      at least one line more, which ends in `nl`. */
  function PutFirst(text: seq<string>, lines: seq<string>, nl: string): (r: seq<string>)
    ensures |r| == |Pick(text, Target)|
  {
    if text != [] && IsAdded(text[0]) then [Emit(lines, |lines|, text[0][1..])] + PutFirst(text[1..], lines, nl)
    else Put(text, lines + [nl])
  }

  /** From line `k` on the file ends its lines in `nl`; before, in whatever way. */
  predicate EndsInFrom(src: seq<string>, k: nat, nl: Ending) { k <= |src| && EndsIn(src[k..], nl) }

  // ---- the choice of a line end ----

  /** One of the first `n` lines ends in `e`. */
  predicate Seen(src: seq<string>, n: nat, e: Ending)
  {
    exists i | 0 <= i < n :: i < |src| && EndingOf(src[i]) == e
  }

  lemma {:induction false} CountedIsSeen(src: seq<string>, n: nat, e: Ending)
    ensures CountEnding(src, n, e) > 0 <==> Seen(src, n, e)
  {
    hide EndingOf;
    if n > 0 {
      CountedIsSeen(src, n - 1, e);
      if CountEnding(src, n, e) > 0 && CountEnding(src, n - 1, e) == 0 {
        assert n - 1 < |src| && EndingOf(src[n - 1]) == e;
      }
    }
  }

  /** The one kind of line end seen so far, if there is exactly one. */
  predicate OnlyEnding(src: seq<string>, n: nat, e: Ending)
  {
    e != NoEnding && Seen(src, n, e) && forall d: Ending | d != NoEnding && Seen(src, n, d) :: d == e
  }

  /** A hunk's line is written with the line end that all lines read so far have; as it stands in the patch,
      when none was read or they differ. */
  lemma EmitExactly(src: seq<string>, n: nat, s: string)
    ensures forall e: Ending | OnlyEnding(src, n, e) :: Emit(src, n, s) == Rstrip(s) + Chars(e)
    ensures (forall e: Ending :: !OnlyEnding(src, n, e)) ==> Emit(src, n, s) == s
  {
    CountedIsSeen(src, n, LF);
    CountedIsSeen(src, n, CRLF);
    CountedIsSeen(src, n, CR);
    hide Seen, CountEnding, Rstrip;
    if Emit(src, n, s) != s {
      assert OnlyEnding(src, n, LF) || OnlyEnding(src, n, CRLF) || OnlyEnding(src, n, CR);
    }
  }

  // ---- the tallies ----

  lemma {:induction false} CountPrefix(src: seq<string>, k: nat, n: nat, e: Ending)
    requires n <= k <= |src|
    ensures CountEnding(src, n, e) == CountEnding(src[..k], n, e)
  {
    if n > 0 {
      CountPrefix(src, k, n - 1, e);
      assert src[..k][n - 1] == src[n - 1];
    }
  }

  lemma EndingFrom(src: seq<string>, k: nat, n: nat, nl: Ending)
    requires EndsInFrom(src, k, nl) && k <= n < |src|
    ensures EndingOf(src[n]) == nl
  {
    UniformAt(src[k..], n - k, Chars(nl));
    EndingOfUniform(src[n], nl);
  }

  /** Behind line `k`, what was seen is what was seen up to it, and `nl`. */
  lemma {:induction false} CountLater(src: seq<string>, k: nat, n: nat, e: Ending, nl: Ending)
    requires EndsInFrom(src, k, nl) && k < |src| && k < n
    ensures CountEnding(src, n, e) > 0 <==> CountEnding(src, k, e) > 0 || e == nl
    decreases n
  {
    hide EndsInFrom, EndingOf;
    if n <= |src| {
      EndingFrom(src, k, n - 1, nl);
    }
    if n > k + 1 {
      CountLater(src, k, n - 1, e, nl);
    }
  }

  lemma CountOneMore(lines: seq<string>, e: Ending, nl: Ending)
    requires nl == LF || nl == CRLF
    ensures CountEnding(lines + [Chars(nl)], |lines| + 1, e) > 0 <==> CountEnding(lines, |lines|, e) > 0 || e == nl
  {
    var t := lines + [Chars(nl)];
    assert t[|lines|] == Chars(nl);
    CountPrefix(t, |lines|, |lines|, e);
    assert t[..|lines|] == lines;
  }

  /** Only which ends were seen counts. */
  lemma EmitBySeen(a: seq<string>, m: nat, b: seq<string>, n: nat, s: string)
    requires forall e :: CountEnding(a, m, e) > 0 <==> CountEnding(b, n, e) > 0
    ensures Emit(a, m, s) == Emit(b, n, s)
  {
    hide CountEnding, Rstrip;
  }

  lemma EmitAt(src: seq<string>, k: nat, s: string)
    requires k <= |src|
    ensures Emit(src, k, s) == Emit(src[..k], k, s)
  {
    forall e ensures CountEnding(src, k, e) == CountEnding(src[..k], k, e) {
      CountPrefix(src, k, k, e);
    }
    hide CountEnding, Emit;
    EmitBySeen(src, k, src[..k], k, s);
  }

  lemma EmitLater(src: seq<string>, k: nat, n: nat, s: string, nl: Ending)
    requires EndsInFrom(src, k, nl) && k < |src| && k < n
    ensures Emit(src, n, s) == Emit(src[..k] + [Chars(nl)], k + 1, s)
  {
    var lines := src[..k];
    forall e ensures CountEnding(src, n, e) > 0 <==> CountEnding(lines + [Chars(nl)], k + 1, e) > 0 {
      CountLater(src, k, n, e, nl);
      CountOneMore(lines, e, nl);
      CountPrefix(src, k, k, e);
    }
    hide CountEnding, Emit, EndsInFrom;
    EmitBySeen(src, n, lines + [Chars(nl)], k + 1, s);
  }

  /** Of a file with one line end, and before anything is read. */
  lemma EmitOne(s: string, nl: Ending)
    requires nl == LF || nl == CRLF
    ensures Emit([Chars(nl)], 1, s) == Rstrip(s) + Chars(nl) && Emit([], 0, s) == s
  {
    forall e ensures CountEnding([Chars(nl)], 1, e) > 0 <==> e == nl {
      CountOneMore([], e, nl);
      assert [] + [Chars(nl)] == [Chars(nl)];
    }
  }

  // ---- the bodies ----

  /** A body reached behind line `k` writes its target lines by the ends seen up to `k` and `nl`. */
  lemma {:induction false} BodyLater(src: seq<string>, k: nat, text: seq<string>, pos: nat, nl: Ending)
    requires Tagged(text) && Pick(text, Marker) == [] && EndsInFrom(src, k, nl) && k < |src| && k < pos
    ensures Body(src, text, pos) == Progress(Put(text, src[..k] + [Chars(nl)]), pos + |Pick(text, Source)|)
  {
    hide Emit, EndsInFrom;
    if text != [] {
      var next := if text[0][0] == '+' then pos else pos + 1;
      BodyLater(src, k, text[1..], next, nl);
      EmitLater(src, k, next, text[0][1..], nl);
    }
  }

  /** A body reached with exactly `k` lines read. */
  lemma {:induction false} BodyFirst(src: seq<string>, k: nat, text: seq<string>, nl: Ending)
    requires Tagged(text) && Pick(text, Marker) == [] && EndsInFrom(src, k, nl) && k + |Pick(text, Source)| <= |src|
    ensures Body(src, text, k) == Progress(PutFirst(text, src[..k], Chars(nl)), k + |Pick(text, Source)|)
  {
    hide Emit, EndsInFrom;
    if text == [] {
    } else if IsAdded(text[0]) {
      BodyFirst(src, k, text[1..], nl);
      EmitAt(src, k, text[0][1..]);
    } else {
      BodyLater(src, k, text[1..], k + 1, nl);
      EmitLater(src, k, k + 1, text[0][1..], nl);
    }
  }

  lemma {:induction false} PutOne(text: seq<string>, nl: Ending)
    requires nl == LF || nl == CRLF
    ensures Put(text, [Chars(nl)]) == Terminated(Pick(text, Target), Chars(nl))
  {
    hide Emit, Rstrip;
    if text != [] {
      PutOne(text[1..], nl);
      if text[0] != "" {
        EmitOne(text[0][1..], nl);
      }
    }
  }

  /** Of a body in front of which nothing was read, the leading added lines are written as they stand in the
      patch, and the rest in the line end of the file. */
  lemma {:induction false} PutFirstNone(text: seq<string>, nl: Ending)
    requires nl == LF || nl == CRLF
    ensures PutFirst(text, [], Chars(nl))
         == LeadRun(text) + Terminated(Pick(text, Target), Chars(nl))[|LeadRun(text)|..]
  {
    hide Emit, Rstrip;
    if text != [] && IsAdded(text[0]) {
      PutFirstNone(text[1..], nl);
      EmitOne(text[0][1..], nl);
      var t := Terminated(Pick(text, Target), Chars(nl));
      assert t[1..] == Terminated(Pick(text[1..], Target), Chars(nl));
      assert t[|LeadRun(text)|..] == t[1..][|LeadRun(text[1..])|..];
    } else {
      PutOne(text, nl);
      assert [] + [Chars(nl)] == [Chars(nl)];
    }
  }

  /** What a body writes into a file with one line end, whatever ends its own lines have, and how many lines it
      passes over: its target lines in the file's line end; but what it adds before any line was read, as it
      stands in the patch. */
  lemma BodyMeaning(src: seq<string>, text: seq<string>, pos: nat, nl: Ending)
    requires Tagged(text) && Pick(text, Marker) == [] && EndsIn(src, nl) && pos + |Pick(text, Source)| <= |src|
    ensures
      var (body, lead, all) := (Body(src, text, pos), LeadRun(text), Terminated(Pick(text, Target), Chars(nl)));
      && body.pos == pos + |Pick(text, Source)|
      && body.out == if pos == 0 then lead + all[|lead|..] else all
  {
    assert src[0..] == src && src[..0] == [] && [] + [Chars(nl)] == [Chars(nl)];
    hide EndsIn, Body, Put, PutFirst, Emit, Terminated, Pick;
    if pos == 0 {
      BodyFirst(src, 0, text, nl);
      PutFirstNone(text, nl);
    } else {
      BodyLater(src, 0, text, pos, nl);
      PutOne(text, nl);
    }
  }

  // ---- when that is right ----

  /** Every target line of the body is written in `nl`, when `lines` have been read. */
  predicate WritesWell(text: seq<string>, lines: seq<string>, nl: string)
  {
    text == [] ||
    (&& (OnSide(text[0], Target) ==> Emit(lines, |lines|, text[0][1..]) == Rstrip(text[0][1..]) + nl)
     && WritesWell(text[1..], lines, nl))
  }

  predicate FirstWritesWell(text: seq<string>, lines: seq<string>, nl: string)
  {
    if text != [] && IsAdded(text[0])
    then Emit(lines, |lines|, text[0][1..]) == Rstrip(text[0][1..]) + nl && FirstWritesWell(text[1..], lines, nl)
    else WritesWell(text, lines + [nl], nl)
  }

  lemma {:induction false} PutIsTerminated(text: seq<string>, lines: seq<string>, nl: string)
    ensures Put(text, lines) == Terminated(Pick(text, Target), nl) <==> WritesWell(text, lines, nl)
  {
    hide Emit, Rstrip;
    if text != [] {
      PutIsTerminated(text[1..], lines, nl);
      if OnSide(text[0], Target) {
        var (a, b) := (Emit(lines, |lines|, text[0][1..]), Rstrip(text[0][1..]) + nl);
        HeadAndTail(a, Put(text[1..], lines), b, Terminated(Pick(text[1..], Target), nl));
      }
    }
  }

  lemma HeadAndTail<T>(a: T, x: seq<T>, b: T, y: seq<T>)
    ensures [a] + x == [b] + y <==> a == b && x == y
  {
    assert ([a] + x)[0] == a && ([a] + x)[1..] == x && ([b] + y)[0] == b && ([b] + y)[1..] == y;
  }

  lemma {:induction false} PutFirstIsTerminated(text: seq<string>, lines: seq<string>, nl: string)
    ensures PutFirst(text, lines, nl) == Terminated(Pick(text, Target), nl) <==> FirstWritesWell(text, lines, nl)
  {
    hide Emit, Rstrip, Put, WritesWell;
    if text != [] && IsAdded(text[0]) {
      PutFirstIsTerminated(text[1..], lines, nl);
      var (a, b) := (Emit(lines, |lines|, text[0][1..]), Rstrip(text[0][1..]) + nl);
      HeadAndTail(a, PutFirst(text[1..], lines, nl), b, Terminated(Pick(text[1..], Target), nl));
    } else {
      PutIsTerminated(text, lines + [nl], nl);
    }
  }

  /** When every line seen ends in `nl`, what is written does. */
  lemma {:induction false} AlikeWritesWell(text: seq<string>, lines: seq<string>, nl: Ending)
    requires EndsIn(lines, nl) && lines != []
    ensures WritesWell(text, lines, Chars(nl))
  {
    hide Rstrip, Uniform;
    if text != [] {
      AlikeWritesWell(text[1..], lines, nl);
      if text[0] != "" {
        EmitAlike(lines, text[0][1..], nl);
      }
    }
  }

  lemma EmitAlike(lines: seq<string>, s: string, nl: Ending)
    requires EndsIn(lines, nl) && lines != []
    ensures Emit(lines, |lines|, s) == Rstrip(s) + Chars(nl)
  {
    assert lines[0..] == lines && lines[..0] == [] && [] + [Chars(nl)] == [Chars(nl)];
    hide Emit, EndsIn, Rstrip;
    EmitLater(lines, 0, |lines|, s, nl);
    EmitOne(s, nl);
  }

  // ---- the edits as they are written, and as they are written back ----

  /** What `revert` writes for a hunk behind the first: `lead` is what the patch put in front of the file. */
  function PutBack(h: Hunk, lead: seq<string>, nl: string): (r: seq<string>)
    ensures |r| == |Pick(ReversedText(h.text), Target)|
  {
    if h.starttgt == |lead| + 1 then PutFirst(ReversedText(h.text), lead, nl)
    else Put(ReversedText(h.text), lead + [nl])
  }

  /** A hunk reached behind the first lines. */
  function LaterEdit(h: Hunk, lead: seq<string>, nl: string): Edit<string>
  {
    Edit(if h.startsrc == 0 then 0 else h.startsrc - 1, PutBack(h, lead, nl), Put(h.text, [nl]))
  }

  function LaterEdits(hunks: seq<Hunk>, lead: seq<string>, nl: string): (r: seq<Edit<string>>)
    ensures |r| == |hunks|
  {
    if hunks == [] then [] else [LaterEdit(hunks[0], lead, nl)] + LaterEdits(hunks[1..], lead, nl)
  }

  /** A hunk at the top of the file: it is written with nothing read, and written back with its own leading
      lines read. */
  function TopEdit(h: Hunk, nl: string): Edit<string>
  {
    ReversedLength(h.text);
    var lead := LeadRun(h.text);
    Edit(0, PutFirst(ReversedText(h.text)[|lead|..], lead, nl), PutFirst(h.text, [], nl))
  }

  lemma ReversedLength(text: seq<string>)
    ensures |LeadRun(text)| <= |ReversedText(text)|
  {
  }

  predicate AtTheTop(hunks: seq<Hunk>) { hunks != [] && hunks[0].startsrc == 1 }

  /** What the hunks add in front of everything they read. */
  function Lead(hunks: seq<Hunk>): seq<string> { if AtTheTop(hunks) then LeadRun(hunks[0].text) else [] }

  /** Added: what `apply` writes for each hunk. Removed: what `revert` then writes for it. */
  function Written(hunks: seq<Hunk>, nl: string): (r: seq<Edit<string>>)
    ensures |r| == |hunks|
  {
    if AtTheTop(hunks) then [TopEdit(hunks[0], nl)] + LaterEdits(hunks[1..], Lead(hunks), nl)
    else LaterEdits(hunks, [], nl)
  }

  /** The lines `apply` writes first end as the file does. */
  predicate LeadEnds(hunks: seq<Hunk>, nl: string) { Uniform(Lead(hunks), nl) }

  /** Every line `revert` writes ends as the file did: what it writes before it reads a line of the file, and,
      if the patch put lines with another end in front, all the rest. */
  predicate RevertEnds(hunks: seq<Hunk>, nl: string)
  {
    AtTheTop(hunks) ==>
      TopEnds(hunks[0].text, nl) && forall i | 1 <= i < |hunks| :: BackEnds(hunks[i], Lead(hunks), nl)
  }

  predicate TopEnds(text: seq<string>, nl: string)
  {
    ReversedLength(text);
    FirstWritesWell(ReversedText(text)[|LeadRun(text)|..], LeadRun(text), nl)
  }

  predicate BackEnds(h: Hunk, lead: seq<string>, nl: string)
  {
    if h.starttgt == |lead| + 1 then FirstWritesWell(ReversedText(h.text), lead, nl)
    else WritesWell(ReversedText(h.text), lead + [nl], nl)
  }
}
