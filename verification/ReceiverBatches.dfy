/** Batches of characters: what one call of the receiver logs, from an empty ring. */
module ReceiverBatches {
  import opened Checksum
  import opened IdFilter
  import opened Nmea0183
  import opened ReceiverTheorems

  lemma {:induction false} FramedGrows(input: seq<In>, xs: seq<In>)
    ensures Framed(input) <= Framed(input + xs)
  {
    if xs == [] {
      assert input + xs == input;
    } else {
      var n := |xs| - 1;
      FramedGrows(input, xs[..n]);
      LastApart(input, xs);
      OneMore(input + xs[..n], xs[n]);
      hide Framed, Open, Capturing, Live, Stamped, Stripped;
    }
  }

  /** From a ring read empty, a batch that completes `k` sentences has exactly its last k % 10 logged, in
      their order: all of them up to nine, none of ten. */
  lemma BatchLogsLast(input: seq<In>, taken: nat, all: seq<In>, filter: set<Word>)
    requires input <= all && taken <= |Framed(input)| && Outstanding(|Framed(input)|, taken) == 0
    ensures LogsLast(Framed(input), Framed(all), Live(all), filter, taken)
  {
    hide Framed, Live, Outstanding;
    assert all == input + all[|input|..];
    FramedGrows(input, all[|input|..]);
    FramedFit(all);
    RestIsLast(Framed(input), Framed(all), Live(all), filter, taken);
  }

  ghost predicate LogsLast(before: seq<Sentence>, after: seq<Sentence>, live: seq<Char>, filter: set<Word>, taken: nat)
  {
    && AllFit(after) && |live| < BUFFER && taken <= |before| && before <= after
    && LoggedRest(after, live, filter, taken)
       == LoggedFrom(after, live, filter, |after| - (|after| - |before|) % RING)
  }

  lemma RestIsLast(before: seq<Sentence>, after: seq<Sentence>, live: seq<Char>, filter: set<Word>, taken: nat)
    requires AllFit(after) && |live| < BUFFER && taken <= |before| && before <= after
    requires Outstanding(|before|, taken) == 0
    ensures LogsLast(before, after, live, filter, taken)
  {
    hide LoggedFrom, Outstanding;
    SameRemainder(|after|, |before|, taken);
  }

  lemma SameRemainder(pushed: nat, before: nat, taken: nat)
    requires taken <= before <= pushed && Outstanding(before, taken) == 0
    ensures Outstanding(pushed, taken) == (pushed - before) % RING
  {
    var q := (before - taken) / RING;
    assert before - taken == RING * q;
  }

  // ---- whose text ----

  predicate NoDollar(xs: seq<In>)
  {
    forall i | 0 <= i < |xs| :: xs[i].c != DOLLAR
  }

  /** After a sentence is complete, and until the next '$', the buffer keeps its text. */
  lemma {:induction false} TextStays(input: seq<In>, x: In, xs: seq<In>)
    requires Capturing(input) && x.c == LF && NoDollar(xs)
    ensures
      var all := input + [x] + xs;
      && Framed(all) == Framed(input) + [Sentence(Stamped(input), Live(input))]
      && Live(all) == Live(input) && !Capturing(all)
  {
    if xs == [] {
      assert input + [x] + xs == input + [x];
      CaptureStep(input, x);
    } else {
      var n := |xs| - 1;
      TextStays(input, x, xs[..n]);
      LastApart(input + [x], xs);
      hide Framed, Capturing, Live, Stamped;
      SearchStep(input + [x] + xs[..n], xs[n]);
    }
  }

  lemma {:induction false} PaddedText(t: seq<Char>, n: nat)
    requires NUL !in t
    ensures CString(t + seq(n, _ => NUL)) == t
  {
    var zeros := seq(n, _ => NUL);
    if t == [] {
      assert t + zeros == zeros;
    } else {
      assert (t + zeros)[1..] == t[1..] + zeros;
      PaddedText(t[1..], n);
    }
  }

  lemma StringOfPadded(t: seq<Char>)
    requires NUL !in t && |t| < BUFFER
    ensures CString(Padded(t)) == t
  {
    PaddedText(t, BUFFER - |t|);
  }

  /** The sentence is accepted with its own text in the buffer. */
  predicate Passes(t: seq<Char>, filter: set<Word>)
    requires |t| < BUFFER
  {
    !Filtered(filter, Padded(t)) && IsValid(Padded(t), |t|)
  }

  /** What is logged for a sentence has its time and the text of the buffer; the sentence gives the length by
      which that text is judged. */
  lemma LoggedText(s: Sentence, live: seq<Char>, filter: set<Word>)
    requires 1 <= |s.text| < BUFFER && |live| < BUFFER && NUL !in live
    ensures LoggedOne(s, live, filter)
         == if Filtered(filter, live) || !CheckedBy(live, |s.text|) then [] else [Sentence(s.stamp, live)]
  {
    StringOfPadded(live);
    FilteredString(filter, live);
    ValidAtLength(live, |s.text|);
    hide IsValid, CheckedBy, CString, Padded, Filtered;
  }

  lemma FilteredString(filter: set<Word>, live: seq<Char>)
    requires |live| < BUFFER && NUL !in live
    ensures Filtered(filter, Padded(live)) == Filtered(filter, live)
  {
    StringOfPadded(live);
    PaddedText(live, 0);
    assert live + seq(0, _ => NUL) == live;
    hide CString, Padded;
  }

  /** A sentence is logged with its own text exactly when the buffer still holds that text and it passes. */
  lemma OwnTextIff(s: Sentence, live: seq<Char>, filter: set<Word>)
    requires |s.text| < BUFFER && |live| < BUFFER && NUL !in live
    ensures LoggedOne(s, live, filter) == [s] <==> s.text == live && Passes(s.text, filter)
  {
    StringOfPadded(live);
    hide IsValid, CString, Padded, Filtered;
  }

  /** The time of the one, with the text of the other. */
  function LoggedAs(s: Sentence, live: seq<Char>, filter: set<Word>): seq<Sentence>
  {
    if Filtered(filter, live) || !CheckedBy(live, |s.text|) then [] else [Sentence(s.stamp, live)]
  }

  /** Of the sentences from `i` on: which are logged, with which text, and which with their own. */
  ghost predicate TextsOfLive(pushed: seq<Sentence>, live: seq<Char>, filter: set<Word>, i: int)
  {
    && AllFit(pushed) && |live| < BUFFER
    && (forall j | 0 <= j < |pushed| && i <= j ::
          LoggedOne(pushed[j], live, filter) == LoggedAs(pushed[j], live, filter))
    && (forall j | 0 <= j < |pushed| && i <= j ::
          LoggedOne(pushed[j], live, filter) == [pushed[j]] <==> pushed[j].text == live && Passes(live, filter))
  }

  /** Any batch, from a ring read empty: what is logged, in order, is its last k % 10 sentences, each judged by
      the text the buffer holds at the end, and with that text; so a sentence is logged with its own text exactly
      when that is what the buffer holds, and it passes. */
  lemma BatchOwnTexts(input: seq<In>, taken: nat, all: seq<In>, filter: set<Word>)
    requires input <= all && taken <= |Framed(input)| && Outstanding(|Framed(input)|, taken) == 0
    requires NUL !in Live(all)
    ensures LogsLast(Framed(input), Framed(all), Live(all), filter, taken)
    ensures TextsOfLive(Framed(all), Live(all), filter, |Framed(input)|)
  {
    BatchLogsLast(input, taken, all, filter);
    FramedFit(all);
    TextsNotEmpty(all);
    hide Framed, Live, Outstanding, LogsLast;
    AllTextsOfLive(Framed(all), Live(all), filter, |Framed(input)|);
  }

  lemma AllTextsOfLive(pushed: seq<Sentence>, live: seq<Char>, filter: set<Word>, i: int)
    requires AllFit(pushed) && |live| < BUFFER && NUL !in live && NoneEmpty(pushed)
    ensures TextsOfLive(pushed, live, filter, i)
  {
    hide LoggedOne, Filtered, CheckedBy, IsValid, Padded, Passes;
    forall j | 0 <= j < |pushed| && i <= j
      ensures LoggedOne(pushed[j], live, filter) == LoggedAs(pushed[j], live, filter)
      ensures LoggedOne(pushed[j], live, filter) == [pushed[j]] <==> pushed[j].text == live && Passes(live, filter)
    {
      LoggedText(pushed[j], live, filter);
      OwnTextIff(pushed[j], live, filter);
    }
  }

  /** Read before the next '$', the buffer holds the text of the very last sentence. */
  lemma LiveIsLast(front: seq<In>, x: In, xs: seq<In>)
    requires Capturing(front) && x.c == LF && NoDollar(xs)
    ensures
      var all := front + [x] + xs;
      Framed(all) != [] && Live(all) == Framed(all)[|Framed(all)| - 1].text
  {
    TextStays(front, x, xs);
    hide Framed, Live, Capturing, Stamped;
  }

  /** Read inside the next sentence, before its '*': nothing is logged, all sentences of the batch are lost. */
  lemma BatchLost(input: seq<In>, taken: nat, all: seq<In>, filter: set<Word>)
    requires input <= all && taken <= |Framed(input)| && Outstanding(|Framed(input)|, taken) == 0
    requires NUL !in Live(all) && STAR !in Live(all)
    ensures LogsOnly(Framed(all), Live(all), filter, taken, [])
  {
    hide *;
    BatchOwnTexts(input, taken, all, filter);
    AllLost(Framed(input), Framed(all), Live(all), filter, taken);
  }

  lemma AllLost(before: seq<Sentence>, after: seq<Sentence>, live: seq<Char>, filter: set<Word>, taken: nat)
    requires LogsLast(before, after, live, filter, taken) && TextsOfLive(after, live, filter, |before|)
    requires STAR !in live
    ensures LogsOnly(after, live, filter, taken, [])
  {
    hide LoggedRest, LoggedFrom, TextsOfLive;
    NoMoreThan(|after| - |before|);
    NoStarNoLog(after, live, filter, |after| - (|after| - |before|) % RING, |before|);
  }

  lemma NoMoreThan(n: nat)
    ensures n % RING <= n
  {
  }

  lemma {:induction false} NoStarNoLog(pushed: seq<Sentence>, live: seq<Char>, filter: set<Word>, i: nat, from: nat)
    requires TextsOfLive(pushed, live, filter, from) && STAR !in live && from <= i
    ensures LoggedFrom(pushed, live, filter, i) == []
    decreases |pushed| - i
  {
    hide LoggedOne, Filtered, Passes;
    if i < |pushed| {
      NoStarNoLog(pushed, live, filter, i + 1, from);
      assert LoggedAs(pushed[i], live, filter) == [];
    }
  }

  predicate NoneEmpty(pushed: seq<Sentence>)
  {
    forall i | 0 <= i < |pushed| :: pushed[i].text != []
  }

  lemma {:induction false} TextsNotEmpty(input: seq<In>)
    ensures NoneEmpty(Framed(input))
  {
    if input != [] {
      hide Stripped, Open, Framed, Capturing, Live, Stamped;
      var (front, x) := (input[..|input| - 1], input[|input| - 1]);
      assert input == front + [x];
      TextsNotEmpty(front);
      NextNotEmpty(front, x);
    }
  }

  lemma NextNotEmpty(front: seq<In>, x: In)
    requires NoneEmpty(Framed(front))
    ensures NoneEmpty(Framed(front + [x]))
  {
    hide Stripped, Open, Framed, Capturing, Live, Stamped;
    OneMore(front, x);
    if Capturing(front) {
      OpenNotEmpty(front);
    }
  }

  lemma OpenNotEmpty(front: seq<In>)
    requires Capturing(front)
    ensures Stripped(Open(front)) != []
  {
    OpenStarts(front);
    hide Stripped, Pending, FromDollar;
    StrippedNotEmpty(Open(front));
  }

  lemma {:induction false} StrippedNotEmpty(line: seq<In>)
    requires line != [] && line[0].c == DOLLAR
    ensures Stripped(line) != []
  {
    if |line| > 1 {
      StrippedNotEmpty(line[..|line| - 1]);
    }
  }

  // ---- from the generator to the log ----

  /** The batch is the message, character by character, at whatever times. */
  predicate Carries(xs: seq<In>, msg: seq<Char>)
  {
    |xs| == |msg| && forall i | 0 <= i < |xs| :: xs[i].c == msg[i]
  }

  predicate Plain(payload: seq<Char>)
  {
    AllPrintable(payload) && STAR !in payload && DOLLAR !in payload && |payload| + 4 < BUFFER
  }

  /** Characters that neither start nor end a sentence are added to the one being captured. */
  lemma {:induction false} BodyIsTaken(input: seq<In>, xs: seq<In>, msg: seq<Char>)
    requires Capturing(input) && Carries(xs, msg) && |Live(input)| + |msg| <= MAX_TEXT
    requires forall i | 0 <= i < |msg| :: msg[i] != DOLLAR && msg[i] != CR && msg[i] != LF
    ensures
      var all := input + xs;
      && Capturing(all) && Live(all) == Live(input) + msg
      && Framed(all) == Framed(input) && Stamped(all) == Stamped(input)
  {
    hide Framed, Capturing, Live, Stamped;
    if xs == [] {
      NothingAdded(input, xs);
      NothingAdded(Live(input), msg);
    } else {
      var n := |xs| - 1;
      BodyIsTaken(input, xs[..n], msg[..n]);
      CaptureStep(input + xs[..n], xs[n]);
      LastApart(input, xs);
      LastApart(Live(input), msg);
    }
  }

  lemma NothingAdded<T>(a: seq<T>, b: seq<T>)
    requires b == []
    ensures a + b == a
  {
  }

  lemma BuiltBody(payload: seq<Char>)
    requires Plain(payload)
    ensures
      var (t, body) := (Built(payload), Built(payload)[1..]);
      && t == [DOLLAR] + body && |body| == |payload| + 3
      && (forall i | 0 <= i < |body| :: body[i] != DOLLAR && body[i] != CR && body[i] != LF)
      && NUL !in t
  {
    var (t, n) := (Built(payload), |payload|);
    BuiltParts(payload);
    TailNotNul(payload);
    hide Built, Xor;
    assert t[0] == DOLLAR by { BuiltStarts(payload); }
    forall i | 1 <= i < n + 4 ensures t[i] != DOLLAR && t[i] != CR && t[i] != LF {
      if i <= n {
        assert t[i] == t[1..n + 1][i - 1] == payload[i - 1];
      } else if i > n + 1 {
        assert t[i] == t[n + 2..n + 4][i - n - 2];
      }
    }
  }

  lemma BuiltStarts(payload: seq<Char>)
    ensures Built(payload)[0] == DOLLAR
  {
    hide Xor, Hex;
  }

  /** A message from the generator, behind any input, is captured as one sentence. */
  lemma MessageIsFramed(input: seq<In>, xs: seq<In>, payload: seq<Char>)
    requires Plain(payload) && Carries(xs, Built(payload) + [CR, LF])
    ensures
      var all := input + xs;
      && Framed(all) == Framed(input) + [Sentence(xs[0].at, Built(payload))]
      && Live(all) == Built(payload) && !Capturing(all)
  {
    BuiltBody(payload);
    var (t, n) := (Built(payload), |payload| + 4);
    hide Built, Framed, Capturing, Live, Stamped;
    Pieces(xs, t);
    StartIsTaken(input, xs[0]);
    var a := input + [xs[0]];
    BodyIsTaken(a, xs[1..n], t[1..]);
    var b := a + xs[1..n];
    EndIsTaken(b, xs[n], xs[n + 1]);
    JoinPieces(input, xs, n);
  }

  lemma Pieces(xs: seq<In>, t: seq<Char>)
    requires Carries(xs, t + [CR, LF]) && t != [] && t[0] == DOLLAR
    ensures |xs| == |t| + 2 && Carries(xs[1..|t|], t[1..])
    ensures xs[0].c == DOLLAR && xs[|t|].c == CR && xs[|t| + 1].c == LF
  {
  }

  lemma JoinPieces(input: seq<In>, xs: seq<In>, n: nat)
    requires |xs| == n + 2 && n >= 1
    ensures input + [xs[0]] + xs[1..n] + [xs[n]] + [xs[n + 1]] == input + xs
  {
  }

  lemma StartIsTaken(input: seq<In>, x: In)
    requires x.c == DOLLAR
    ensures
      var all := input + [x];
      Capturing(all) && Live(all) == [DOLLAR] && Framed(all) == Framed(input) && Stamped(all) == x.at
  {
    if Capturing(input) {
      CaptureStep(input, x);
    } else {
      SearchStep(input, x);
    }
  }

  lemma EndIsTaken(input: seq<In>, cr: In, lf: In)
    requires Capturing(input) && cr.c == CR && lf.c == LF
    ensures
      var all := input + [cr] + [lf];
      && Framed(all) == Framed(input) + [Sentence(Stamped(input), Live(input))]
      && Live(all) == Live(input) && !Capturing(all)
  {
    hide Framed, Capturing, Live, Stamped;
    CaptureStep(input, cr);
    CaptureStep(input + [cr], lf);
  }

  /** What the log gets for a message that was captured and read before the next one started. */
  function Delivered(stamp: nat, t: seq<Char>, filter: set<Word>): seq<Sentence>
  {
    if filter != {} && MessageID(t) !in filter then [] else [Sentence(stamp, t)]
  }

  lemma DeliveredOne(stamp: nat, payload: seq<Char>, filter: set<Word>)
    requires Plain(payload)
    ensures LoggedOne(Sentence(stamp, Built(payload)), Built(payload), filter) == Delivered(stamp, Built(payload), filter)
  {
    var t := Built(payload);
    BuiltIsValid(payload);
    BuiltBody(payload);
    StringOfPadded(t);
    assert CString(t) == t by { PaddedText(t, 0); assert t + seq(0, _ => NUL) == t; }
    hide Built, IsValid, CString, Padded;
  }

  ghost predicate LogsOnly(pushed: seq<Sentence>, live: seq<Char>, filter: set<Word>, taken: nat, logged: seq<Sentence>)
  {
    && AllFit(pushed) && |live| < BUFFER && taken <= |pushed|
    && LoggedRest(pushed, live, filter, taken) == logged
  }

  /** End to end: a message built by the generator and received in a batch of its own, behind whatever came
      before, is logged once, with its text and the time of its '$', unless it is filtered out. */
  lemma EndToEnd(input: seq<In>, taken: nat, xs: seq<In>, payload: seq<Char>, filter: set<Word>)
    requires taken <= |Framed(input)| && Outstanding(|Framed(input)|, taken) == 0
    requires Plain(payload) && Carries(xs, Built(payload) + [CR, LF])
    ensures LogsOnly(Framed(input + xs), Live(input + xs), filter, taken, Delivered(xs[0].at, Built(payload), filter))
  {
    MessageIsFramed(input, xs, payload);
    BatchLogsLast(input, taken, input + xs, filter);
    DeliveredOne(xs[0].at, payload, filter);
    hide Framed, Live, Built, Outstanding, Delivered;
    LastLogged(Framed(input), Sentence(xs[0].at, Built(payload)), Built(payload), filter, taken);
  }

  lemma LastLogged(before: seq<Sentence>, s: Sentence, live: seq<Char>, filter: set<Word>, taken: nat)
    requires LogsLast(before, before + [s], live, filter, taken)
    ensures |s.text| < BUFFER && LogsOnly(before + [s], live, filter, taken, LoggedOne(s, live, filter))
  {
    hide LoggedOne, LoggedRest;
    var after := before + [s];
    assert after[|before|] == s;
    LoggedStep(after, live, filter, |before|);
    assert LoggedFrom(after, live, filter, |after|) == [];
    assert LoggedOne(s, live, filter) + [] == LoggedOne(s, live, filter);
  }

  lemma LastTwoLogged(before: seq<Sentence>, r: Sentence, s: Sentence, live: seq<Char>, filter: set<Word>, taken: nat)
    requires LogsLast(before, before + [r] + [s], live, filter, taken)
    ensures |r.text| < BUFFER && |s.text| < BUFFER
    ensures LogsOnly(before + [r] + [s], live, filter, taken, LoggedOne(r, live, filter) + LoggedOne(s, live, filter))
  {
    hide LoggedOne, LoggedRest;
    var after := before + [r] + [s];
    assert after[|before|] == r && after[|before| + 1] == s;
    LoggedStep(after, live, filter, |before|);
    LoggedStep(after, live, filter, |before| + 1);
    assert LoggedFrom(after, live, filter, |after|) == [];
    assert LoggedOne(s, live, filter) + [] == LoggedOne(s, live, filter);
  }

  /** A built sentence has one '*' only, behind its payload. */
  lemma BuiltCheckedBy(payload: seq<Char>, n: nat)
    requires Plain(payload)
    ensures CheckedBy(Built(payload), n) <==> |payload| + 1 < n
  {
    var (t, k) := (Built(payload), |payload| + 1);
    BuiltParts(payload);
    HexExactly(Hex(Xor(payload)), Xor(payload));
    hide Built, Xor, Hex, Denotes;
    assert CheckedAt(t, k);
    assert forall i | 1 <= i < k :: t[i] == t[1..k][i - 1] == payload[i - 1];
    assert forall j | 0 <= j < |t| && j != k :: !CheckedAt(t, j);
  }

  /** Two messages in one batch: the first's text is nowhere. The second is logged with its own time, and also
      with the first's time exactly when the first is long enough to reach the second's '*'. */
  lemma SecondLoggedTwice(input: seq<In>, taken: nat, xs: seq<In>, ys: seq<In>, first: seq<Char>, second: seq<Char>,
                          filter: set<Word>)
    requires taken <= |Framed(input)| && Outstanding(|Framed(input)|, taken) == 0
    requires Plain(first) && Carries(xs, Built(first) + [CR, LF])
    requires Plain(second) && Carries(ys, Built(second) + [CR, LF])
    ensures LogsOnly(Framed(input + xs + ys), Live(input + xs + ys), filter, taken,
                     (if |first| + 4 > |second| + 1 then Delivered(xs[0].at, Built(second), filter) else [])
                     + Delivered(ys[0].at, Built(second), filter))
  {
    assert |xs| == |first| + 6 && |ys| == |second| + 6;
    hide Framed, Live, Built, Outstanding, LogsLast, LogsOnly, Capturing, Carries, Plain, Delivered;
    MessageIsFramed(input, xs, first);
    MessageIsFramed(input + xs, ys, second);
    assert input <= input + xs + ys;
    BatchLogsLast(input, taken, input + xs + ys, filter);
    TwoMessages(Framed(input), xs[0].at, ys[0].at, first, second, filter, taken);
  }

  lemma TwoMessages(before: seq<Sentence>, at1: nat, at2: nat, first: seq<Char>, second: seq<Char>,
                    filter: set<Word>, taken: nat)
    requires Plain(first) && Plain(second)
    requires LogsLast(before, before + [Sentence(at1, Built(first))] + [Sentence(at2, Built(second))], Built(second),
                      filter, taken)
    ensures LogsOnly(before + [Sentence(at1, Built(first))] + [Sentence(at2, Built(second))], Built(second), filter, taken,
                     (if |first| + 4 > |second| + 1 then Delivered(at1, Built(second), filter) else [])
                     + Delivered(at2, Built(second), filter))
  {
    var r, s := Sentence(at1, Built(first)), Sentence(at2, Built(second));
    DeliveredOne(at2, second, filter);
    FirstOfTwo(at1, first, second, filter);
    hide Built, LogsLast, LogsOnly, Delivered, LoggedOne;
    LastTwoLogged(before, r, s, Built(second), filter, taken);
  }

  lemma FirstOfTwo(at: nat, first: seq<Char>, second: seq<Char>, filter: set<Word>)
    requires Plain(first) && Plain(second)
    ensures LoggedOne(Sentence(at, Built(first)), Built(second), filter)
         == if |first| + 4 > |second| + 1 then Delivered(at, Built(second), filter) else []
  {
    BuiltBody(second);
    BuiltCheckedBy(second, |first| + 4);
    hide Built, LoggedOne, CheckedBy;
    LoggedText(Sentence(at, Built(first)), Built(second), filter);
  }
}
