/** The NMEA0183 receiver: a sentence assembler over one bounded buffer, a ring of ten sentences that share
    that buffer, and what is logged from it. */
module Nmea0183 {
  import opened Checksum

  /** A character, and the time at which it is taken from the channel. */
  datatype In = In(c: Char, at: nat)

  /** A captured sentence, with the time of its '$'. */
  datatype Sentence = Sentence(stamp: nat, text: seq<Char>)

  const RING := 10
  const MAX_TEXT := BUFFER - 1

  // ---- which stretches of the input are sentences ----

  /** What has come in since the last line feed. */
  function Pending(input: seq<In>): (r: seq<In>)
    ensures |r| <= |input| && r == input[|input| - |r|..]
    ensures forall i | 0 <= i < |r| :: r[i].c != LF
    ensures |r| < |input| ==> input[|input| - |r| - 1].c == LF
  {
    if input == [] || input[|input| - 1].c == LF then []
    else Pending(input[..|input| - 1]) + [input[|input| - 1]]
  }

  /** The line from its last '$' on; nothing if it has none. */
  function FromDollar(line: seq<In>): (r: seq<In>)
    ensures |r| <= |line| && r == line[|line| - |r|..]
    ensures r != [] ==> r[0].c == DOLLAR && forall i | 0 < i < |r| :: r[i].c != DOLLAR
    ensures r == [] ==> forall i | 0 <= i < |line| :: line[i].c != DOLLAR
  {
    if line == [] then []
    else
      var n := |line| - 1;
      if line[n].c == DOLLAR then [line[n]]
      else var f := FromDollar(line[..n]); if f == [] then [] else f + [line[n]]
  }

  /** The characters of a line without its carriage returns. */
  function Stripped(line: seq<In>): (t: seq<Char>)
    ensures |t| <= |line|
  {
    if line == [] then []
    else
      var last := line[|line| - 1].c;
      Stripped(line[..|line| - 1]) + (if last == CR then [] else [last])
  }

  function Open(input: seq<In>): seq<In> { FromDollar(Pending(input)) }

  predicate Capturing(input: seq<In>) { Open(input) != [] && |Stripped(Open(input))| <= MAX_TEXT }

  /** The sentences captured: for each line feed, the line from its last '$' on, without carriage returns,
      if there is such a '$' and the text is no longer than the buffer allows. */
  function Framed(input: seq<In>): seq<Sentence>
  {
    if input == [] then []
    else
      var front := input[..|input| - 1];
      if input[|input| - 1].c == LF && Capturing(front)
      then Framed(front) + [Sentence(Open(front)[0].at, Stripped(Open(front)))]
      else Framed(front)
  }

  /** What the buffer holds: the last sentence started, as far as it came. */
  function Live(input: seq<In>): (t: seq<Char>)
    ensures |t| <= MAX_TEXT
  {
    if input == [] then []
    else
      var (front, c) := (input[..|input| - 1], input[|input| - 1].c);
      if c == DOLLAR then [DOLLAR]
      else if c != LF && c != CR && Capturing(front) && |Live(front)| < MAX_TEXT then Live(front) + [c]
      else Live(front)
  }

  function Stamped(input: seq<In>): nat
  {
    if input == [] then 0
    else if input[|input| - 1].c == DOLLAR then input[|input| - 1].at
    else Stamped(input[..|input| - 1])
  }

  /** One character more. */
  lemma OneMore(input: seq<In>, x: In)
    ensures Open(input + [x]) == if x.c == LF then [] else if x.c == DOLLAR then [x]
                                 else if Open(input) == [] then [] else Open(input) + [x]
    ensures Live(input + [x]) == if x.c == DOLLAR then [DOLLAR]
                                 else if x.c != LF && x.c != CR && Capturing(input) && |Live(input)| < MAX_TEXT
                                 then Live(input) + [x.c] else Live(input)
    ensures Stamped(input + [x]) == if x.c == DOLLAR then x.at else Stamped(input)
    ensures Framed(input + [x]) == if x.c == LF && Capturing(input)
                                   then Framed(input) + [Sentence(Open(input)[0].at, Stripped(Open(input)))]
                                   else Framed(input)
  {
    OpenMore(input, x);
    hide Stripped, Capturing, Open;
    assert (input + [x])[..|input|] == input;
  }

  lemma OpenMore(input: seq<In>, x: In)
    ensures Open(input + [x]) == if x.c == LF then [] else if x.c == DOLLAR then [x]
                                 else if Open(input) == [] then [] else Open(input) + [x]
  {
    PendingMore(input, x);
    FromDollarMore(Pending(input), x);
    assert FromDollar([]) == [];
    hide Pending, FromDollar;
  }

  lemma PendingMore(input: seq<In>, x: In)
    ensures Pending(input + [x]) == if x.c == LF then [] else Pending(input) + [x]
  {
    assert (input + [x])[..|input|] == input;
  }

  lemma FromDollarMore(line: seq<In>, x: In)
    ensures FromDollar(line + [x]) == if x.c == DOLLAR then [x]
                                      else if FromDollar(line) == [] then [] else FromDollar(line) + [x]
  {
    assert (line + [x])[..|line|] == line;
  }

  lemma StrippedMore(line: seq<In>, x: In)
    ensures Stripped(line + [x]) == Stripped(line) + if x.c == CR then [] else [x.c]
  {
    assert (line + [x])[..|line|] == line;
  }

  lemma CapturingMore(input: seq<In>, x: In)
    ensures Capturing(input + [x])
       <==> x.c == DOLLAR || (x.c != LF && Capturing(input) && (x.c == CR || |Stripped(Open(input))| < MAX_TEXT))
  {
    OneMore(input, x);
    hide Open, Stripped;
    StrippedMore(Open(input), x);
    StrippedMore([], x);
    assert [] + [x] == [x] && Stripped([]) == [] by { StrippedNone(); }
  }

  lemma StrippedNone()
    ensures Stripped([]) == []
  {
  }

  predicate LiveOk(input: seq<In>)
  {
    Capturing(input) ==>
      Open(input) != [] && Live(input) == Stripped(Open(input)) && Stamped(input) == Open(input)[0].at
  }

  /** While a sentence is being captured, the buffer holds what of it has come. */
  lemma {:induction false} LiveIsOpen(input: seq<In>)
    ensures LiveOk(input)
  {
    if input == [] {
      OpenNone();
    } else {
      var (front, x) := (input[..|input| - 1], input[|input| - 1]);
      LiveIsOpen(front);
      assert input == front + [x];
      hide LiveOk;
      if x.c == DOLLAR {
        LiveStarts(front, x);
      } else {
        LiveGoesOn(front, x);
      }
    }
  }

  lemma LiveStarts(front: seq<In>, x: In)
    requires x.c == DOLLAR
    ensures LiveOk(front + [x])
  {
    StrippedNone();
    StrippedMore([], x);
    assert [] + [x] == [x];
    hide Live, Stamped, Framed, Open, Capturing, Stripped;
    OneMore(front, x);
  }

  lemma LiveGoesOn(front: seq<In>, x: In)
    requires LiveOk(front) && x.c != DOLLAR
    ensures LiveOk(front + [x])
  {
    OpenFits(front);
    hide Live, Stamped, Framed, Open, Capturing, Stripped;
    OneMore(front, x);
    CapturingMore(front, x);
    StrippedMore(Open(front), x);
  }

  lemma OpenFits(input: seq<In>)
    ensures Capturing(input) <==> Open(input) != [] && |Stripped(Open(input))| <= MAX_TEXT
  {
  }

  lemma OpenNone()
    ensures Open([]) == []
  {
  }

  // ---- the framing, stated over positions ----

  /** From position `p` to the line feed at `q` the input reads as one sentence. */
  predicate FrameAt(input: seq<In>, p: int, q: int)
  {
    && 0 <= p < q < |input| && input[p].c == DOLLAR && input[q].c == LF
    && (forall i | p < i < q :: input[i].c != DOLLAR && input[i].c != LF)
    && |Stripped(input[p..q])| <= MAX_TEXT
  }

  function FrameText(input: seq<In>, p: int, q: int): Sentence
    requires 0 <= p < q < |input|
  {
    Sentence(input[p].at, Stripped(input[p..q]))
  }

  predicate StartsAt(input: seq<In>, p: int)
  {
    && 0 <= p < |input| && input[p].c == DOLLAR
    && forall i | p < i < |input| :: input[i].c != DOLLAR && input[i].c != LF
  }

  /** The open stretch is the one from a '$' to the end with neither '$' nor line feed after it. */
  lemma OpenStarts(input: seq<In>)
    requires Open(input) != []
    ensures StartsAt(input, |input| - |Open(input)|) && Open(input) == input[|input| - |Open(input)|..]
  {
    var line, r := Pending(input), Open(input);
    hide Pending, FromDollar;
    var p := |input| - |r|;
    assert r == line[|line| - |r|..] == input[p..];
    forall i | p < i < |input| ensures input[i].c != DOLLAR && input[i].c != LF {
      assert input[i] == r[i - p] == line[|line| - |r| + i - p];
    }
  }

  lemma StartIsOpen(input: seq<In>, p: int)
    requires StartsAt(input, p)
    ensures Open(input) == input[p..]
  {
    var line, r := Pending(input), Open(input);
    hide Pending, FromDollar;
    var a := |input| - |line|;
    assert a > 0 ==> input[a - 1].c == LF;
    assert a <= p;
    assert line[p - a] == input[p];
    OpenStarts(input);
  }

  /** From the '$' at `first` to the line feed at `last`. */
  datatype Span = Span(first: int, last: int)

  /** Where the sentences captured stand. */
  function Spans(input: seq<In>): seq<Span>
  {
    if input == [] then []
    else
      var (front, n) := (input[..|input| - 1], |input| - 1);
      if input[n].c == LF && Capturing(front) then Spans(front) + [Span(n - |Open(front)|, n)] else Spans(front)
  }

  predicate StandsAt(input: seq<In>, span: Span, s: Sentence)
  {
    FrameAt(input, span.first, span.last) && s == FrameText(input, span.first, span.last)
  }

  /** The spans, in the order of their line feeds, are all the stretches of the input that read as one
      sentence, and the sentences are what stands there. */
  ghost predicate InOrder(input: seq<In>, spans: seq<Span>, framed: seq<Sentence>)
  {
    && |spans| == |framed| && (forall i | 0 <= i < |spans| :: StandsAt(input, spans[i], framed[i]))
    && (forall i, j | 0 <= i < j < |spans| :: spans[i].last < spans[j].last)
    && (forall p, q | FrameAt(input, p, q) :: Span(p, q) in spans)
  }

  /** The sentences captured are all that stand in the input, each once, in the order in which they end. */
  lemma {:induction false} FramedInOrder(input: seq<In>)
    ensures InOrder(input, Spans(input), Framed(input))
  {
    if input == [] {
    } else {
      var n := |input| - 1;
      var (front, x) := (input[..n], input[n]);
      assert input == front + [x];
      FramedInOrder(front);
      OneMore(front, x);
      OneMoreEnd(front, x);
      hide InOrder, Open, Stripped, Capturing, Framed, Spans, Live, Stamped;
      if x.c == LF && Capturing(front) {
        NextSpan(front, x, Spans(front), Framed(front));
      } else {
        NoNextSpan(front, x, Spans(front), Framed(front));
      }
    }
  }

  lemma OneMoreEnd(front: seq<In>, x: In)
    ensures Spans(front + [x]) == if x.c == LF && Capturing(front)
                                  then Spans(front) + [Span(|front| - |Open(front)|, |front|)] else Spans(front)
  {
    hide Open, Capturing;
    var input := front + [x];
    assert input[..|input| - 1] == front && input[|front|] == x;
  }

  lemma FrameStays(front: seq<In>, x: In, p: int, q: int)
    requires 0 <= p < q < |front|
    ensures FrameAt(front, p, q) == FrameAt(front + [x], p, q)
    ensures FrameText(front, p, q) == FrameText(front + [x], p, q)
  {
    hide Stripped;
    assert forall i | p <= i <= q :: front[i] == (front + [x])[i];
    assert front[p..q] == (front + [x])[p..q];
  }

  lemma NoNextSpan(front: seq<In>, x: In, spans: seq<Span>, framed: seq<Sentence>)
    requires InOrder(front, spans, framed) && !(x.c == LF && Capturing(front))
    ensures InOrder(front + [x], spans, framed)
  {
    var (input, n) := (front + [x], |front|);
    forall p, q | FrameAt(input, p, q) ensures Span(p, q) in spans {
      if q == n {
        FrameAtEnd(front, x, p);
      } else {
        FrameStays(front, x, p, q);
      }
    }
    AllStandStill(front, x, spans, framed);
    hide FrameAt, StandsAt;
  }

  lemma StandsStill(front: seq<In>, x: In, span: Span, s: Sentence)
    requires StandsAt(front, span, s)
    ensures StandsAt(front + [x], span, s) && span.last < |front|
  {
    FrameStays(front, x, span.first, span.last);
    hide FrameText;
  }

  lemma NextSpan(front: seq<In>, x: In, spans: seq<Span>, framed: seq<Sentence>)
    requires InOrder(front, spans, framed) && x.c == LF && Capturing(front)
    ensures InOrder(front + [x], spans + [Span(|front| - |Open(front)|, |front|)],
                    framed + [Sentence(Open(front)[0].at, Stripped(Open(front)))])
  {
    FrameMade(front, x);
    AllListed(front, x, spans, framed);
    AllStandStill(front, x, spans, framed);
    var s := Sentence(Open(front)[0].at, Stripped(Open(front)));
    hide *;
    OneMoreSpan(front + [x], spans, framed, Span(|front| - |Open(front)|, |front|), s);
  }

  lemma AllListed(front: seq<In>, x: In, spans: seq<Span>, framed: seq<Sentence>)
    requires InOrder(front, spans, framed)
    ensures forall p, q | FrameAt(front + [x], p, q) ::
              Span(p, q) in spans || Span(p, q) == Span(|front| - |Open(front)|, |front|)
  {
    hide *;
    forall p, q | FrameAt(front + [x], p, q)
      ensures Span(p, q) in spans || Span(p, q) == Span(|front| - |Open(front)|, |front|)
    {
      NextListed(front, x, spans, framed, p, q);
    }
  }

  lemma AllStandStill(front: seq<In>, x: In, spans: seq<Span>, framed: seq<Sentence>)
    requires InOrder(front, spans, framed)
    ensures |spans| == |framed|
    ensures forall i | 0 <= i < |spans| :: StandsAt(front + [x], spans[i], framed[i]) && spans[i].last < |front|
    ensures forall i, j | 0 <= i < j < |spans| :: spans[i].last < spans[j].last
  {
    hide StandsAt, FrameAt;
    forall i | 0 <= i < |spans| ensures StandsAt(front + [x], spans[i], framed[i]) && spans[i].last < |front| {
      StandsStill(front, x, spans[i], framed[i]);
    }
  }

  lemma OneMoreSpan(input: seq<In>, spans: seq<Span>, framed: seq<Sentence>, span: Span, s: Sentence)
    requires |spans| == |framed| && StandsAt(input, span, s)
    requires forall i | 0 <= i < |spans| :: StandsAt(input, spans[i], framed[i]) && spans[i].last < span.last
    requires forall i, j | 0 <= i < j < |spans| :: spans[i].last < spans[j].last
    requires forall p, q | FrameAt(input, p, q) :: Span(p, q) in spans || Span(p, q) == span
    ensures InOrder(input, spans + [span], framed + [s])
  {
    hide StandsAt, FrameAt;
  }

  lemma NextListed(front: seq<In>, x: In, spans: seq<Span>, framed: seq<Sentence>, p: int, q: int)
    requires InOrder(front, spans, framed) && FrameAt(front + [x], p, q)
    ensures Span(p, q) in spans || Span(p, q) == Span(|front| - |Open(front)|, |front|)
  {
    assert 0 <= p < q <= |front|;
    if q == |front| {
      FrameAtEnd(front, x, p);
    } else {
      FrameStays(front, x, p, q);
    }
    hide FrameAt, StandsAt, Open;
  }

  lemma FrameMade(front: seq<In>, x: In)
    requires x.c == LF && Capturing(front)
    ensures
      var p := |front| - |Open(front)|;
      StandsAt(front + [x], Span(p, |front|), Sentence(Open(front)[0].at, Stripped(Open(front))))
  {
    var p := |front| - |Open(front)|;
    OpenStarts(front);
    hide Open;
    assert front[p..][0] == front[p];
    FrameCloses(front, x, p);
    hide *;
  }

  lemma FrameCloses(front: seq<In>, x: In, p: int)
    requires StartsAt(front, p) && x.c == LF && |Stripped(front[p..])| <= MAX_TEXT
    ensures StandsAt(front + [x], Span(p, |front|), Sentence(front[p].at, Stripped(front[p..])))
  {
    var (input, n) := (front + [x], |front|);
    hide Stripped;
    assert forall i | p <= i < n :: front[i] == input[i];
    assert input[p..n] == front[p..];
  }

  lemma FrameAtEnd(front: seq<In>, x: In, p: int)
    requires FrameAt(front + [x], p, |front|)
    ensures x.c == LF && Capturing(front) && p == |front| - |Open(front)|
  {
    var (input, n) := (front + [x], |front|);
    hide Open, Stripped;
    assert forall i | p <= i < n :: front[i] == input[i];
    StartIsOpen(front, p);
    assert input[p..n] == front[p..];
  }

  /** A sentence is captured exactly when it stands in the input from a '$' to a line feed, with no '$'
      and no line feed between, and is at most 127 characters long without carriage returns. */
  lemma FramedExactly(input: seq<In>, s: Sentence)
    ensures s in Framed(input) <==> exists p, q :: FrameAt(input, p, q) && FrameText(input, p, q) == s
  {
    FramedInOrder(input);
    hide Framed, Spans, FrameText;
    if s in Framed(input) {
      var i :| 0 <= i < |Framed(input)| && Framed(input)[i] == s;
      assert FrameAt(input, Spans(input)[i].first, Spans(input)[i].last);
    }
    if p, q :| FrameAt(input, p, q) && FrameText(input, p, q) == s {
      var i :| 0 <= i < |Spans(input)| && Spans(input)[i] == Span(p, q);
      assert Framed(input)[i] == s;
    }
  }
}
