/** Hunks of a unified diff and what `patch_stream` makes of them, as functions on line sequences. */
module PatchModel {
  import opened Splicing
  import opened Text

  datatype Hunk = Hunk(
    startsrc: nat, linessrc: nat, starttgt: nat, linestgt: nat,
    desc: string, invalid: bool, text: seq<string>)

  // ---- body lines ----

  /** What the parser guarantees of body lines: each starts with one of the four tags. */
  predicate Tagged(text: seq<string>)
  {
    text == [] || (|text[0]| > 0 && IsTag(text[0][0]) && Tagged(text[1..]))
  }

  predicate IsTag(c: char) { c == '-' || c == '+' || c == ' ' || c == '\\' }

  predicate AllTagged(hunks: seq<Hunk>)
  {
    hunks == [] || (Tagged(hunks[0].text) && AllTagged(hunks[1..]))
  }

  datatype Side = Source | Target | Marker

  predicate OnSide(line: string, side: Side)
  {
    line != "" &&
    match side
    case Source => line[0] == ' ' || line[0] == '-'
    case Target => line[0] == ' ' || line[0] == '+'
    case Marker => line[0] == '\\'
  }

  /** The stripped texts of the body lines that belong to `side`, in order. */
  function Pick(text: seq<string>, side: Side): seq<string>
  {
    if text == [] then []
    else if OnSide(text[0], side) then [Rstrip(text[0][1..])] + Pick(text[1..], side)
    else Pick(text[1..], side)
  }

  /** hunkfind and hunkreplace of `apply`. */
  function Old(h: Hunk): seq<string> { Pick(h.text, Source) }
  function New(h: Hunk): seq<string> { Pick(h.text, Target) }

  // ---- line ends ----

  datatype Ending = LF | CRLF | CR | NoEnding

  function EndingOf(line: string): Ending
  {
    if |line| >= 2 && line[|line| - 2] == '\r' && line[|line| - 1] == '\n' then CRLF
    else if |line| >= 1 && line[|line| - 1] == '\n' then LF
    else if |line| >= 1 && line[|line| - 1] == '\r' then CR
    else NoEnding
  }

  function Chars(e: Ending): string
  {
    match e case LF => "\n" case CRLF => "\r\n" case CR => "\r" case NoEnding => ""
  }

  /** How many of the first `n` lines of `src` end in `e`. */
  function CountEnding(src: seq<string>, n: nat, e: Ending): nat
  {
    if n == 0 then 0
    else CountEnding(src, n - 1, e) + (if n <= |src| && EndingOf(src[n - 1]) == e then 1 else 0)
  }

  function LineAt(src: seq<string>, i: nat): string { if i < |src| then src[i] else "" }

  /** What is written for a kept or added line once `n` source lines were read: the hunk's own bytes,
      or its text with the line end of the source when the source has used exactly one so far. */
  function Emit(src: seq<string>, n: nat, s: string): string
  {
    var lf, crlf, cr := CountEnding(src, n, LF) > 0, CountEnding(src, n, CRLF) > 0, CountEnding(src, n, CR) > 0;
    if lf && !crlf && !cr then Rstrip(s) + "\n"
    else if !lf && crlf && !cr then Rstrip(s) + "\r\n"
    else if !lf && !crlf && cr then Rstrip(s) + "\r"
    else s
  }

  // ---- the stream ----

  datatype Progress = Progress(out: seq<string>, pos: nat)

  /** The lines one hunk body yields when `pos` source lines were read before it, and how many are after. */
  function Body(src: seq<string>, text: seq<string>, pos: nat): Progress
    requires Tagged(text)
  {
    if text == [] then Progress([], pos)
    else
      var tag := text[0][0];
      var next := if tag == '+' then pos else pos + 1;
      var rest := Body(src, text[1..], next);
      if tag == '-' || tag == '\\' then rest
      else Progress([Emit(src, next, text[0][1..])] + rest.out, rest.pos)
  }

  /** The lines `patch_stream` yields when `pos` source lines are already read. */
  function Stream(src: seq<string>, hunks: seq<Hunk>, pos: nat): seq<string>
    requires AllTagged(hunks)
    decreases |hunks|, if hunks == [] then 0 else hunks[0].startsrc - pos
  {
    if hunks == [] then (if pos <= |src| then src[pos..] else [])
    else if pos + 1 < hunks[0].startsrc then [LineAt(src, pos)] + Stream(src, hunks, pos + 1)
    else
      var body := Body(src, hunks[0].text, pos);
      body.out + Stream(src, hunks[1..], body.pos)
  }

  // ---- the reference: splicing ----

  function Terminated(texts: seq<string>, nl: string): (r: seq<string>)
    ensures |r| == |texts|
  {
    if texts == [] then [] else [texts[0] + nl] + Terminated(texts[1..], nl)
  }

  /** Every line is a text and the line end `nl`. */
  predicate Uniform(lines: seq<string>, nl: string)
  {
    lines == [] || (UniformLine(lines[0], nl) && Uniform(lines[1..], nl))
  }

  predicate UniformLine(line: string, nl: string) { Rstrip(line) + nl == line }

  /** A file in which every line ends in LF, or every line in CRLF. */
  predicate EndsIn(src: seq<string>, nl: Ending) { (nl == LF || nl == CRLF) && Uniform(src, Chars(nl)) }

  /** No backslash lines. */
  predicate Unmarked(hunks: seq<Hunk>)
  {
    hunks == [] || (Pick(hunks[0].text, Marker) == [] && Unmarked(hunks[1..]))
  }

  /** The edit a hunk stands for, in a file whose lines end in `nl`. */
  function EditOf(h: Hunk, nl: string): Edit<string>
  {
    Edit(if h.startsrc == 0 then 0 else h.startsrc - 1, Terminated(Old(h), nl), Terminated(New(h), nl))
  }

  function Edits(hunks: seq<Hunk>, nl: string): (r: seq<Edit<string>>)
    ensures |r| == |hunks|
  {
    if hunks == [] then [] else [EditOf(hunks[0], nl)] + Edits(hunks[1..], nl)
  }

  // ---- reversal ----

  function ReversedLine(line: string): string
  {
    if line != "" && line[0] == '+' then "-" + line[1..]
    else if line != "" && line[0] == '-' then "+" + line[1..]
    else line
  }

  function ReversedText(text: seq<string>): (r: seq<string>)
    ensures |r| == |text|
  {
    if text == [] then [] else [ReversedLine(text[0])] + ReversedText(text[1..])
  }

  function Reversed(h: Hunk): Hunk
  {
    h.(startsrc := h.starttgt, linessrc := h.linestgt,
       starttgt := h.startsrc, linestgt := h.linessrc, text := ReversedText(h.text))
  }

  function ReversedAll(hunks: seq<Hunk>): (r: seq<Hunk>)
    ensures |r| == |hunks|
  {
    if hunks == [] then [] else [Reversed(hunks[0])] + ReversedAll(hunks[1..])
  }

  /** Each hunk's target start is its source start moved by the size change of the hunks before it. */
  predicate TargetsFollow(hunks: seq<Hunk>, shift: int)
  {
    hunks == [] ||
    var h := hunks[0];
    h.starttgt == h.startsrc + shift && TargetsFollow(hunks[1..], shift + |New(h)| - |Old(h)|)
  }

  // ---- lemmas ----

  /** Reversal exchanges a body's sides and undoes itself. */
  lemma {:induction false} ReversalSwapsSides(text: seq<string>)
    requires Tagged(text)
    ensures Pick(ReversedText(text), Source) == Pick(text, Target)
    ensures Pick(ReversedText(text), Target) == Pick(text, Source)
    ensures Tagged(ReversedText(text))
    ensures ReversedText(ReversedText(text)) == text
  {
    if text != [] {
      var l, r := text[0], ReversedLine(text[0]);
      assert r[1..] == l[1..] && l == [l[0]] + l[1..];
      assert ReversedText(text)[1..] == ReversedText(text[1..]);
      ReversalSwapsSides(text[1..]);
    }
  }

  lemma EndingOfUniform(l: string, nl: Ending)
    requires nl == LF || nl == CRLF
    requires UniformLine(l, Chars(nl))
    ensures EndingOf(l) == nl
  {
    var r := Rstrip(l);
    assert l[|r|..] == Chars(nl);
    assert |r| > 0 ==> l[|r| - 1] == r[|r| - 1];
  }

  lemma {:induction false} UniformAt(lines: seq<string>, i: nat, nl: string)
    requires Uniform(lines, nl) && i < |lines|
    ensures UniformLine(lines[i], nl)
  {
    if i > 0 {
      UniformAt(lines[1..], i - 1, nl);
    }
  }

  /** Only the line end is ever changed. */
  lemma EmitText(lines: seq<string>, n: nat, s: string)
    ensures Rstrip(Emit(lines, n, s)) == Rstrip(s)
  {
    hide CountEnding;
    var r := Rstrip(s);
    RstripUnique(r + "\n", r, "\n");
    RstripUnique(r + "\r\n", r, "\r\n");
    RstripUnique(r + "\r", r, "\r");
  }

  /** A backslash marker line costs one source line that no side of the hunk accounts for. */
  lemma {:induction false} MarkersConsume(src: seq<string>, text: seq<string>, pos: nat)
    requires Tagged(text)
    ensures Body(src, text, pos).pos == pos + |Pick(text, Source)| + |Pick(text, Marker)|
    ensures |Body(src, text, pos).out| == |Pick(text, Target)|
  {
    if text != [] {
      MarkersConsume(src, text[1..], if text[0][0] == '+' then pos else pos + 1);
    }
  }

  /** Written where each hunk starts, the bodies are the edits: whatever the line ends. */
  predicate Follows(src: seq<string>, hunks: seq<Hunk>, es: seq<Edit<string>>)
    requires AllTagged(hunks)
  {
    && |es| == |hunks|
    && (hunks == [] ||
        (&& hunks[0].startsrc == es[0].start + 1
         && Body(src, hunks[0].text, es[0].start) == Progress(es[0].added, es[0].start + |es[0].removed|)
         && Follows(src, hunks[1..], es[1..])))
  }

  /** Then `patch_stream` makes these edits. */
  lemma {:induction false} StreamFollows(src: seq<string>, hunks: seq<Hunk>, es: seq<Edit<string>>, pos: nat)
    requires AllTagged(hunks) && Follows(src, hunks, es) && Fits(es, pos, |src|)
    ensures Stream(src, hunks, pos) == Weave(src, es, pos)
    decreases |hunks|, if hunks == [] then 0 else hunks[0].startsrc - pos
  {
    hide Body, Tagged, Stream, Weave;
    if hunks == [] {
      FollowEnd(src, hunks, es, pos);
    } else if pos < es[0].start {
      StreamFollows(src, hunks, es, pos + 1);
      FollowSkip(src, hunks, es, pos);
    } else {
      StreamFollows(src, hunks[1..], es[1..], pos + |es[0].removed|);
      FollowBody(src, hunks, es, pos);
    }
  }

  lemma FollowEnd(src: seq<string>, hunks: seq<Hunk>, es: seq<Edit<string>>, pos: nat)
    requires hunks == [] && es == [] && pos <= |src|
    ensures Stream(src, hunks, pos) == Weave(src, es, pos)
  {
  }

  lemma FollowSkip(src: seq<string>, hunks: seq<Hunk>, es: seq<Edit<string>>, pos: nat)
    requires AllTagged(hunks) && hunks != [] && pos + 1 < hunks[0].startsrc
    requires es != [] && pos < es[0].start && Fits(es, pos, |src|)
    ensures Fits(es, pos + 1, |src|)
    ensures Stream(src, hunks, pos) == [src[pos]] + Stream(src, hunks, pos + 1)
    ensures Weave(src, es, pos) == [src[pos]] + Weave(src, es, pos + 1)
  {
    hide Body, Tagged;
  }

  lemma FollowBody(src: seq<string>, hunks: seq<Hunk>, es: seq<Edit<string>>, pos: nat)
    requires AllTagged(hunks) && hunks != [] && es != [] && Fits(es, pos, |src|)
    requires pos == es[0].start && hunks[0].startsrc == pos + 1
    requires Body(src, hunks[0].text, pos) == Progress(es[0].added, pos + |es[0].removed|)
    ensures Stream(src, hunks, pos) == es[0].added + Stream(src, hunks[1..], pos + |es[0].removed|)
    ensures Weave(src, es, pos) == es[0].added + Weave(src, es[1..], pos + |es[0].removed|)
  {
    hide Body, Tagged;
  }
}
