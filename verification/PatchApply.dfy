/** Checking, applying and reverting a hunk list against one file. */
module PatchApply {
  import opened Text
  import opened Splicing
  import opened PatchModel

  // ---- patch_stream ----

  method GetLine(src: seq<string>, pos: nat, lf: nat, crlf: nat, cr: nat)
    returns (line: string, lf': nat, crlf': nat, cr': nat)
    requires lf == CountEnding(src, pos, LF) && crlf == CountEnding(src, pos, CRLF) && cr == CountEnding(src, pos, CR)
    ensures line == LineAt(src, pos)
    ensures lf' == CountEnding(src, pos + 1, LF)
    ensures crlf' == CountEnding(src, pos + 1, CRLF)
    ensures cr' == CountEnding(src, pos + 1, CR)
  {
    line, lf', crlf', cr' := LineAt(src, pos), lf, crlf, cr;
    if |line| >= 2 && line[|line| - 2..] == "\r\n" {
      crlf' := crlf' + 1;
    } else if |line| >= 1 && line[|line| - 1] == '\n' {
      lf' := lf' + 1;
    } else if |line| >= 1 && line[|line| - 1] == '\r' {
      cr' := cr' + 1;
    }
  }

  lemma StreamAt(src: seq<string>, hunks: seq<Hunk>, k: nat, pos: nat)
    requires k < |hunks| && AllTagged(hunks[k..])
    ensures Tagged(hunks[k].text) && AllTagged(hunks[k + 1..])
    ensures
      if pos + 1 < hunks[k].startsrc then
        Stream(src, hunks[k..], pos) == [LineAt(src, pos)] + Stream(src, hunks[k..], pos + 1)
      else
        var body := Body(src, hunks[k].text, pos);
        Stream(src, hunks[k..], pos) == body.out + Stream(src, hunks[k + 1..], body.pos)
  {
    hide Body, Tagged;
    assert hunks[k..][0] == hunks[k] && hunks[k..][1..] == hunks[k + 1..];
  }

  /** The skipping loop in front of hunk `k`: one line read and yielded each time round. */
  method CopyUpTo(src: seq<string>, hunks: seq<Hunk>, k: nat,
                  out0: seq<string>, pos0: nat, lf0: nat, crlf0: nat, cr0: nat)
    returns (out: seq<string>, pos: nat, lf: nat, crlf: nat, cr: nat)
    requires k < |hunks| && AllTagged(hunks[k..])
    requires lf0 == CountEnding(src, pos0, LF) && crlf0 == CountEnding(src, pos0, CRLF) && cr0 == CountEnding(src, pos0, CR)
    ensures pos == if pos0 + 1 < hunks[k].startsrc then hunks[k].startsrc - 1 else pos0
    ensures out + Stream(src, hunks[k..], pos) == out0 + Stream(src, hunks[k..], pos0)
    ensures lf == CountEnding(src, pos, LF) && crlf == CountEnding(src, pos, CRLF) && cr == CountEnding(src, pos, CR)
  {
    hide Body, EndingOf, Tagged, AllTagged, Stream;
    out, pos, lf, crlf, cr := out0, pos0, lf0, crlf0, cr0;
    while pos + 1 < hunks[k].startsrc
      invariant pos0 <= pos && (pos == pos0 || pos + 1 <= hunks[k].startsrc)
      invariant lf == CountEnding(src, pos, LF) && crlf == CountEnding(src, pos, CRLF) && cr == CountEnding(src, pos, CR)
      invariant out + Stream(src, hunks[k..], pos) == out0 + Stream(src, hunks[k..], pos0)
    {
      var line;
      line, lf, crlf, cr := GetLine(src, pos, lf, crlf, cr);
      StreamAt(src, hunks, k, pos);
      Regroup(out, [line], Stream(src, hunks[k..], pos + 1));
      out, pos := out + [line], pos + 1;
    }
  }

  /** The lines the generator yields, read off the source with one line counter and the line-end tallies. */
  method PatchStream(src: seq<string>, hunks: seq<Hunk>) returns (out: seq<string>)
    requires AllTagged(hunks)
    ensures out == Stream(src, hunks, 0)
  {
    out := [];
    var pos: nat, lf, crlf, cr, k := 0, 0, 0, 0, 0;
    assert hunks[0..] == hunks;
    hide Body, EndingOf, Tagged, AllTagged, Stream;
    while k < |hunks|
      invariant k <= |hunks| && AllTagged(hunks[k..])
      invariant lf == CountEnding(src, pos, LF) && crlf == CountEnding(src, pos, CRLF) && cr == CountEnding(src, pos, CR)
      invariant out + Stream(src, hunks[k..], pos) == Stream(src, hunks, 0)
    {
      var h := hunks[k];
      out, pos, lf, crlf, cr := CopyUpTo(src, hunks, k, out, pos, lf, crlf, cr);
      StreamAt(src, hunks, k, pos);
      out, pos, lf, crlf, cr := PatchBody(src, h.text, out, pos, lf, crlf, cr, Stream(src, hunks[k..], pos),
                                          Stream(src, hunks[k + 1..], Body(src, h.text, pos).pos));
      k := k + 1;
    }
    assert hunks[k..] == [];
    StreamEnd(src, pos);
    if pos <= |src| {
      out := out + src[pos..];
    }
  }

  lemma StreamEnd(src: seq<string>, pos: nat)
    ensures AllTagged([]) && Stream(src, [], pos) == if pos <= |src| then src[pos..] else []
  {
  }

  /** The inner loop over one hunk's lines. `whole` and `rest` say what is still to be yielded. */
  method PatchBody(src: seq<string>, text: seq<string>, out0: seq<string>, pos0: nat, lf0: nat, crlf0: nat, cr0: nat,
                   ghost whole: seq<string>, ghost rest: seq<string>)
    returns (out: seq<string>, pos: nat, lf: nat, crlf: nat, cr: nat)
    requires Tagged(text)
    requires lf0 == CountEnding(src, pos0, LF) && crlf0 == CountEnding(src, pos0, CRLF) && cr0 == CountEnding(src, pos0, CR)
    requires whole == Body(src, text, pos0).out + rest
    ensures out == out0 + Body(src, text, pos0).out && pos == Body(src, text, pos0).pos
    ensures out + rest == out0 + whole
    ensures lf == CountEnding(src, pos, LF) && crlf == CountEnding(src, pos, CRLF) && cr == CountEnding(src, pos, CR)
  {
    out, pos, lf, crlf, cr := out0, pos0, lf0, crlf0, cr0;
    var j := 0;
    while j < |text|
      invariant j <= |text| && Tagged(text[j..])
      invariant lf == CountEnding(src, pos, LF) && crlf == CountEnding(src, pos, CRLF) && cr == CountEnding(src, pos, CR)
      invariant out + Body(src, text[j..], pos).out == out0 + Body(src, text, pos0).out
      invariant Body(src, text[j..], pos).pos == Body(src, text, pos0).pos
    {
      var hline := text[j];
      assert text[j..][0] == hline && text[j..][1..] == text[j + 1..];
      var line;
      if hline[0] == '-' || hline[0] == '\\' {
        line, lf, crlf, cr := GetLine(src, pos, lf, crlf, cr);
        pos := pos + 1;
      } else {
        if hline[0] != '+' {
          line, lf, crlf, cr := GetLine(src, pos, lf, crlf, cr);
          pos := pos + 1;
        }
        var line2write := hline[1..];
        var kinds := (if lf > 0 then 1 else 0) + (if crlf > 0 then 1 else 0) + (if cr > 0 then 1 else 0);
        if kinds == 1 {
          var newline := if lf > 0 then "\n" else if crlf > 0 then "\r\n" else "\r";
          line2write := Rstrip(line2write) + newline;
        }
        Regroup(out, [line2write], Body(src, text[j + 1..], pos).out);
        out := out + [line2write];
      }
      j := j + 1;
    }
    Regroup(out0, Body(src, text, pos0).out, rest);
  }

  // ---- _match_file_hunks ----

  /** The body texts that must be in the file after patching: every line that is not a removal. */
  function Kept(text: seq<string>): seq<string>
  {
    if text == [] then []
    else if text[0] != "" && text[0][0] == '-' then Kept(text[1..])
    else [KeptText(text[0])] + Kept(text[1..])
  }

  function KeptText(line: string): string { Rstrip(if line == "" then "" else line[1..]) }

  predicate Agree(file: seq<string>, start: nat, texts: seq<string>)
  {
    start + |texts| <= |file| && forall j | 0 <= j < |texts| :: Rstrip(file[start + j]) == texts[j]
  }

  /** A target start, or the line after `behind` others if that is further down. */
  function PlaceFrom(behind: nat, start: nat): nat { if behind + 1 < start then start - 1 else behind }

  /** How far the search has come when `i` hunks have been found. */
  function Behind(hunks: seq<Hunk>, i: nat): nat
    requires i <= |hunks|
  {
    if i == 0 then 0 else PlaceFrom(Behind(hunks, i - 1), hunks[i - 1].starttgt) + |Kept(hunks[i - 1].text)|
  }

  /** Where hunk `i` is looked for: at its target start, or behind the hunk before it if that reaches further. */
  function Place(hunks: seq<Hunk>, i: nat): nat
    requires i < |hunks|
  {
    PlaceFrom(Behind(hunks, i), hunks[i].starttgt)
  }

  /** The file holds the hunk's kept texts there. */
  predicate KeptStands(file: seq<string>, hunks: seq<Hunk>, i: nat)
    requires i < |hunks|
  {
    Agree(file, Place(hunks, i), Kept(hunks[i].text))
  }

  predicate Patched(file: seq<string>, hunks: seq<Hunk>)
  {
    forall i | 0 <= i < |hunks| :: KeptStands(file, hunks, i)
  }

  method MatchFileHunks(file: seq<string>, hunks: seq<Hunk>) returns (matched: bool)
    requires forall i | 0 <= i < |file| :: file[i] != ""
    ensures matched == Patched(file, hunks)
  {
    hide Agree, Kept, PlaceFrom;
    var cur: nat := 0;
    for k := 0 to |hunks|
      invariant cur == Behind(hunks, k) <= |file|
      invariant forall i | 0 <= i < k :: KeptStands(file, hunks, i)
    {
      var holds;
      holds, cur := MatchHunk(file, hunks[k], cur);
      assert holds == KeptStands(file, hunks, k);
      if !holds {
        return false;
      }
    }
    matched := true;
  }

  /** One hunk: the lines before it are skipped, then its own are compared. */
  method MatchHunk(file: seq<string>, h: Hunk, at: nat) returns (holds: bool, cur: nat)
    requires at <= |file| && forall i | 0 <= i < |file| :: file[i] != ""
    ensures holds == Agree(file, PlaceFrom(at, h.starttgt), Kept(h.text))
    ensures holds ==> cur == PlaceFrom(at, h.starttgt) + |Kept(h.text)| <= |file|
  {
    hide Kept;
    cur := at;
    while cur + 1 < h.starttgt
      invariant at <= cur <= |file| && (cur == at || cur + 1 <= h.starttgt)
    {
      if LineAt(file, cur) == "" {
        NotReached(file, PlaceFrom(at, h.starttgt), Kept(h.text));
        return false, cur;
      }
      cur := cur + 1;
    }
    hide Agree;
    holds, cur := MatchBody(file, h.text, cur);
  }

  lemma NotReached(file: seq<string>, start: nat, texts: seq<string>)
    requires |file| < start
    ensures !Agree(file, start, texts)
  {
  }

  /** The comparison loop over one hunk's lines, from line `start` of the file. */
  method MatchBody(file: seq<string>, text: seq<string>, start: nat) returns (holds: bool, cur: nat)
    requires start <= |file| && forall i | 0 <= i < |file| :: file[i] != ""
    ensures holds == Agree(file, start, Kept(text))
    ensures holds ==> cur == start + |Kept(text)| <= |file|
  {
    KeptStepwise(file, start, text);
    cur := start;
    var j := 0;
    while j < |text|
      invariant j <= |text| && start <= cur <= |file|
      invariant BodyIn(file, cur, text[j..]) == BodyIn(file, start, text)
      invariant cur + |Kept(text[j..])| == start + |Kept(text)|
    {
      var hline := text[j];
      assert text[j..][0] == hline && text[j..][1..] == text[j + 1..];
      if hline == "" || hline[0] != '-' {
        var line := LineAt(file, cur);
        if line == "" {
          return false, cur;
        }
        if Rstrip(line) != KeptText(hline) {
          return false, cur;
        }
        cur := cur + 1;
      }
      j := j + 1;
    }
    holds := true;
  }

  /** Line by line, the kept lines of `text` are in the file from `cur` on. */
  predicate BodyIn(file: seq<string>, cur: nat, text: seq<string>)
    decreases |text|
  {
    text == [] ||
    if text[0] != "" && text[0][0] == '-' then BodyIn(file, cur, text[1..])
    else cur < |file| && Rstrip(file[cur]) == KeptText(text[0]) && BodyIn(file, cur + 1, text[1..])
  }

  lemma {:induction false} KeptStepwise(file: seq<string>, cur: nat, text: seq<string>)
    requires cur <= |file|
    ensures BodyIn(file, cur, text) == Agree(file, cur, Kept(text))
    decreases |text|
  {
    hide Rstrip, KeptText;
    if text == [] {
    } else if text[0] != "" && text[0][0] == '-' {
      KeptStepwise(file, cur, text[1..]);
    } else if cur < |file| {
      KeptStepwise(file, cur + 1, text[1..]);
      AgreeCons(file, cur, KeptText(text[0]), Kept(text[1..]));
    }
  }

  lemma AgreeCons(file: seq<string>, cur: nat, t: string, texts: seq<string>)
    requires cur < |file|
    ensures Agree(file, cur, [t] + texts) <==> Rstrip(file[cur]) == t && Agree(file, cur + 1, texts)
  {
    if Agree(file, cur, [t] + texts) {
      assert ([t] + texts)[0] == t;
      forall j | 0 <= j < |texts| ensures Rstrip(file[cur + 1 + j]) == texts[j] {
        assert ([t] + texts)[j + 1] == texts[j];
      }
    }
  }

  // ---- apply: validation ----

  /** Hunks in order and apart, by line number. */
  predicate Ordered(hunks: seq<Hunk>)
  {
    && (forall i | 0 <= i < |hunks| :: hunks[i].startsrc >= 1)
    && forall i | 0 < i < |hunks| :: hunks[i - 1].startsrc + |Old(hunks[i - 1])| <= hunks[i].startsrc
  }

  /** All source lines of `h` but its last are in the file, and the file reaches its last. */
  predicate HeadMatches(file: seq<string>, h: Hunk)
  {
    && |Old(h)| >= 1 && 1 <= h.startsrc && h.startsrc - 1 + |Old(h)| <= |file|
    && forall j | 0 <= j < |Old(h)| - 1 :: Rstrip(file[h.startsrc - 1 + j]) == Old(h)[j]
  }

  predicate DiffersAt(file: seq<string>, h: Hunk, j: nat)
  {
    && j + 1 < |Old(h)| && 1 <= h.startsrc && h.startsrc - 1 + j < |file|
    && Rstrip(file[h.startsrc - 1 + j]) != Old(h)[j]
  }

  ghost predicate Decided(file: seq<string>, h: Hunk)
  {
    HeadMatches(file, h) || exists j :: DiffersAt(file, h, j)
  }

  predicate CanPatch(file: seq<string>, hunks: seq<Hunk>)
  {
    forall i | 0 <= i < |hunks| :: HeadMatches(file, hunks[i])
  }

  /** What the validation loop knows before it looks at line `lineno` (counted from 0). */
  ghost predicate Tracking(file: seq<string>, hunks: seq<Hunk>, lineno: nat, hunkno: nat,
                           hunk: Hunk, hunkfind: seq<string>, hunklineno: nat, valid: nat)
  {
    && valid <= hunkno <= |hunks| && hunks != []
    && (forall i | 0 <= i < hunkno :: Decided(file, hunks[i]))
    && (valid == hunkno <==> forall i | 0 <= i < hunkno :: HeadMatches(file, hunks[i]))
    && (hunkno < |hunks| ==>
          && hunk == hunks[hunkno]
          && (lineno < hunk.startsrc || Inside(file, hunk, lineno, hunkfind, hunklineno)))
    && (hunkno == |hunks| ==>
          && hunk == hunks[|hunks| - 1] && hunkfind == Old(hunk) && valid < |hunks|)
  }

  ghost predicate Inside(file: seq<string>, hunk: Hunk, lineno: nat, hunkfind: seq<string>, hunklineno: nat)
  {
    && hunkfind == Old(hunk) && hunk.startsrc <= lineno <= |file|
    && (hunkfind != [] ==>
          && lineno + 1 < hunk.startsrc + |hunkfind|
          && hunklineno == lineno + 1 - hunk.startsrc
          && forall j | 0 <= j < hunklineno :: hunk.startsrc >= 1 && Rstrip(file[hunk.startsrc - 1 + j]) == hunkfind[j])
  }

  lemma UndecidedAtEnd(file: seq<string>, hunk: Hunk, hunkfind: seq<string>, hunklineno: nat)
    requires hunk.startsrc >= 1
    requires |file| < hunk.startsrc || Inside(file, hunk, |file|, hunkfind, hunklineno)
    ensures !Decided(file, hunk)
  {
    hide Old;
  }

  /** One hunk more is decided; the next starts further down. */
  lemma SettleNext(file: seq<string>, hunks: seq<Hunk>, lineno: nat, hunkno: nat,
                   hunkfind: seq<string>, hunklineno: nat, valid: nat)
    requires valid <= hunkno < |hunks| && (forall i | 0 <= i < hunkno :: Decided(file, hunks[i]))
    requires valid == hunkno <==> forall i | 0 <= i < hunkno :: HeadMatches(file, hunks[i])
    requires Decided(file, hunks[hunkno])
    requires hunkno + 1 < |hunks| ==> lineno < hunks[hunkno + 1].startsrc
    ensures Settled(file, hunks, lineno, hunkno + 1, hunkfind, hunklineno,
                    if HeadMatches(file, hunks[hunkno]) then valid + 1 else valid)
  {
    hide Decided, HeadMatches;
  }

  /** A line inside a hunk and before its last: it agrees and the hunk goes on, or it settles the hunk. */
  lemma TrackInner(file: seq<string>, hunks: seq<Hunk>, lineno: nat, hunkno: nat,
                   hunk: Hunk, hunkfind: seq<string>, hunklineno: nat, valid: nat)
    requires Ordered(hunks) && lineno < |file|
    requires Tracking(file, hunks, lineno, hunkno, hunk, hunkfind, hunklineno, valid) && hunkno < |hunks|
    requires hunkfind == Old(hunk) && hunk.startsrc <= lineno + 1 < hunk.startsrc + |hunkfind| - 1
    requires hunklineno == lineno + 1 - hunk.startsrc
    ensures
      if Rstrip(file[lineno]) == hunkfind[hunklineno] then
        Tracking(file, hunks, lineno + 1, hunkno, hunk, hunkfind, hunklineno + 1, valid)
      else
        Settled(file, hunks, lineno + 1, hunkno + 1, hunkfind, hunklineno, valid)
  {
    hide Old;
    if Rstrip(file[lineno]) != hunkfind[hunklineno] {
      assert DiffersAt(file, hunk, hunklineno);
      hide Settled;
      SettleNext(file, hunks, lineno + 1, hunkno, hunkfind, hunklineno, valid);
    } else {
      hide Decided, HeadMatches;
    }
  }

  /** The last line of a hunk, which is not compared, ends the hunk as valid. */
  lemma TrackLast(file: seq<string>, hunks: seq<Hunk>, lineno: nat, hunkno: nat,
                  hunk: Hunk, hunkfind: seq<string>, hunklineno: nat, valid: nat)
    requires Ordered(hunks) && lineno < |file|
    requires Tracking(file, hunks, lineno, hunkno, hunk, hunkfind, hunklineno, valid) && hunkno < |hunks|
    requires hunkfind == Old(hunk) && hunk.startsrc <= lineno + 1 == hunk.startsrc + |hunkfind| - 1
    ensures Settled(file, hunks, lineno + 1, hunkno + 1, hunkfind, hunklineno, valid + 1)
    ensures hunkno + 1 == |hunks| && valid + 1 < |hunks| ==>
              Tracking(file, hunks, lineno + 1, |hunks|, hunk, hunkfind, hunklineno, valid + 1)
  {
    hide Old;
    assert HeadMatches(file, hunk);
    SettleNext(file, hunks, lineno + 1, hunkno, hunkfind, hunklineno, valid);
    hide HeadMatches, Decided;
  }

  /** The hunk before `hunkno` is settled: the next is tracked, or there is none. */
  ghost predicate Passed(file: seq<string>, hunks: seq<Hunk>, lineno: nat, hunkno: nat,
                         hunkfind: seq<string>, hunklineno: nat, valid: nat)
  {
    && hunkno <= |hunks| && Settled(file, hunks, lineno, hunkno, hunkfind, hunklineno, valid)
    && (hunkno < |hunks| ==> Tracking(file, hunks, lineno, hunkno, hunks[hunkno], hunkfind, hunklineno, valid))
  }

  /** One line of the loop, once the hunk's texts are taken up at its first line. */
  lemma TrackLine(file: seq<string>, hunks: seq<Hunk>, lineno: nat, hunkno: nat, hunk: Hunk,
                  find0: seq<string>, at0: nat, hunkfind: seq<string>, hunklineno: nat, valid: nat)
    requires Ordered(hunks) && lineno < |file| && hunk.startsrc <= lineno + 1
    requires Tracking(file, hunks, lineno, hunkno, hunk, find0, at0, valid)
    requires hunkno == |hunks| ==> hunk.startsrc <= lineno && hunk.startsrc + |find0| - 1 <= lineno
    requires hunkfind == if lineno + 1 == hunk.startsrc then Old(hunk) else find0
    requires hunklineno == if lineno + 1 == hunk.startsrc then 0 else at0
    ensures lineno + 1 < hunk.startsrc + |hunkfind| - 1 ==>
      && hunkno < |hunks| && hunklineno < |hunkfind|
      && if Rstrip(file[lineno]) == hunkfind[hunklineno] then
           Tracking(file, hunks, lineno + 1, hunkno, hunk, hunkfind, hunklineno + 1, valid)
         else
           Passed(file, hunks, lineno + 1, hunkno + 1, hunkfind, hunklineno, valid)
    ensures lineno + 1 == hunk.startsrc + |hunkfind| - 1 ==>
      && Passed(file, hunks, lineno + 1, hunkno + 1, hunkfind, hunklineno, valid + 1)
      && (hunkno + 1 == |hunks| && valid + 1 < |hunks| ==>
            Tracking(file, hunks, lineno + 1, |hunks|, hunk, hunkfind, hunklineno, valid + 1))
    ensures lineno + 1 > hunk.startsrc + |hunkfind| - 1 ==>
      Tracking(file, hunks, lineno + 1, hunkno, hunk, hunkfind, hunklineno, valid)
  {
    hide Old, Decided, HeadMatches, Ordered;
    if hunkno < |hunks| {
      assert hunkfind == Old(hunk);
      if lineno + 1 < hunk.startsrc + |hunkfind| - 1 {
        TrackInner(file, hunks, lineno, hunkno, hunk, hunkfind, hunklineno, valid);
      } else if lineno + 1 == hunk.startsrc + |hunkfind| - 1 {
        TrackLast(file, hunks, lineno, hunkno, hunk, hunkfind, hunklineno, valid);
      }
    }
  }

  lemma TrackWait(file: seq<string>, hunks: seq<Hunk>, lineno: nat, hunkno: nat,
                  hunk: Hunk, hunkfind: seq<string>, hunklineno: nat, valid: nat)
    requires Tracking(file, hunks, lineno, hunkno, hunk, hunkfind, hunklineno, valid) && lineno + 1 < hunk.startsrc
    ensures Tracking(file, hunks, lineno + 1, hunkno, hunk, hunkfind, hunklineno, valid)
  {
    hide Old, Decided, HeadMatches;
  }

  /** The first `hunkno` hunks are decided, and tracking goes on with the next if there is one. */
  ghost predicate Settled(file: seq<string>, hunks: seq<Hunk>, lineno: nat, hunkno: nat,
                          hunkfind: seq<string>, hunklineno: nat, valid: nat)
  {
    && valid <= hunkno <= |hunks|
    && (forall i | 0 <= i < hunkno :: Decided(file, hunks[i]))
    && (valid == hunkno <==> forall i | 0 <= i < hunkno :: HeadMatches(file, hunks[i]))
    && (hunkno < |hunks| ==>
          Tracking(file, hunks, lineno, hunkno, hunks[hunkno], hunkfind, hunklineno, valid))
  }

  /** When the loop has ended, by running out of lines or by breaking off, the counters tell the verdict. */
  lemma TrackEnd(file: seq<string>, hunks: seq<Hunk>, hunkno: nat,
                 hunk: Hunk, hunkfind: seq<string>, hunklineno: nat, valid: nat)
    requires Ordered(hunks)
    requires
      || Tracking(file, hunks, |file|, hunkno, hunk, hunkfind, hunklineno, valid)
      || (hunkno == |hunks| && Settled(file, hunks, |file|, hunkno, hunkfind, hunklineno, valid))
    ensures Correct(file, hunks, Verdict(valid == |hunks|, valid, hunkno < |hunks|))
    ensures Tracking(file, hunks, |file|, hunkno, hunk, hunkfind, hunklineno, valid) ==> valid < |hunks|
  {
    hide Old;
    if hunkno < |hunks| {
      UndecidedAtEnd(file, hunk, hunkfind, hunklineno);
      assert !HeadMatches(file, hunks[hunkno]);
    }
  }

  datatype Verdict = Raised | Verdict(canPatch: bool, valid: nat, premature: bool)

  ghost predicate Correct(file: seq<string>, hunks: seq<Hunk>, v: Verdict)
    requires v.Verdict?
  {
    && v.canPatch == CanPatch(file, hunks)
    && v.canPatch == (v.valid == |hunks|)
    && v.premature == exists i :: 0 <= i < |hunks| && !Decided(file, hunks[i])
  }

  /** What the loop knows of any hunks: for ordered ones their state of decision, and for a first hunk
      without source lines at line zero that it is never left. */
  ghost predicate Following(file: seq<string>, hunks: seq<Hunk>, lineno: nat, hunkno: nat,
                            hunk: Hunk, hunkfind: seq<string>, hunklineno: nat, valid: nat)
  {
    && hunks != [] && valid <= hunkno <= |hunks|
    && (Ordered(hunks) ==> Tracking(file, hunks, lineno, hunkno, hunk, hunkfind, hunklineno, valid))
    && (AtTop(hunks) ==> hunk == hunks[0] && hunkfind == [] && hunkno == 0)
  }

  predicate AtTop(hunks: seq<Hunk>) { hunks != [] && hunks[0].startsrc == 0 && Old(hunks[0]) == [] }

  /** What it knows when a hunk has been dealt with; `hunkno` counts it. */
  ghost predicate Dealt(file: seq<string>, hunks: seq<Hunk>, lineno: nat, hunkno: nat,
                        hunkfind: seq<string>, hunklineno: nat, valid: nat)
  {
    && valid <= hunkno <= |hunks| && !AtTop(hunks)
    && (hunkno < |hunks| ==> Following(file, hunks, lineno, hunkno, hunks[hunkno], hunkfind, hunklineno, valid))
    && (hunkno == |hunks| && Ordered(hunks) ==> Settled(file, hunks, lineno, hunkno, hunkfind, hunklineno, valid))
  }

  lemma FollowLine(file: seq<string>, hunks: seq<Hunk>, lineno: nat, hunkno: nat, hunk: Hunk,
                   find0: seq<string>, at0: nat, hunkfind: seq<string>, hunklineno: nat, valid: nat)
    requires lineno < |file| && hunk.startsrc <= lineno + 1
    requires Following(file, hunks, lineno, hunkno, hunk, find0, at0, valid)
    requires hunkno == |hunks| ==> hunk.startsrc <= lineno && hunk.startsrc + |find0| - 1 <= lineno
    requires hunkfind == if lineno + 1 == hunk.startsrc then Old(hunk) else find0
    requires hunklineno == if lineno + 1 == hunk.startsrc then 0 else at0
    ensures lineno + 1 <= hunk.startsrc + |hunkfind| - 1 ==> hunkno < |hunks| && !AtTop(hunks)
    ensures lineno + 1 < hunk.startsrc + |hunkfind| - 1 ==>
      && (Ordered(hunks) ==> hunklineno < |hunkfind|)
      && (hunklineno < |hunkfind| ==>
            if Rstrip(file[lineno]) == hunkfind[hunklineno] then
              Following(file, hunks, lineno + 1, hunkno, hunk, hunkfind, hunklineno + 1, valid)
            else
              Dealt(file, hunks, lineno + 1, hunkno + 1, hunkfind, hunklineno, valid))
    ensures lineno + 1 == hunk.startsrc + |hunkfind| - 1 ==>
      && Dealt(file, hunks, lineno + 1, hunkno + 1, hunkfind, hunklineno, valid + 1)
      && (hunkno + 1 == |hunks| && valid + 1 < |hunks| ==>
            Following(file, hunks, lineno + 1, |hunks|, hunk, hunkfind, hunklineno, valid + 1))
    ensures lineno + 1 > hunk.startsrc + |hunkfind| - 1 ==>
      Following(file, hunks, lineno + 1, hunkno, hunk, hunkfind, hunklineno, valid)
  {
    hide Old, Ordered, Tracking, Settled, Rstrip;
    if Ordered(hunks) {
      TrackLine(file, hunks, lineno, hunkno, hunk, find0, at0, hunkfind, hunklineno, valid);
    }
  }

  lemma FollowWait(file: seq<string>, hunks: seq<Hunk>, lineno: nat, hunkno: nat,
                   hunk: Hunk, hunkfind: seq<string>, hunklineno: nat, valid: nat)
    requires Following(file, hunks, lineno, hunkno, hunk, hunkfind, hunklineno, valid) && lineno + 1 < hunk.startsrc
    ensures Following(file, hunks, lineno + 1, hunkno, hunk, hunkfind, hunklineno, valid)
  {
    hide Old, Ordered, Tracking;
    if Ordered(hunks) {
      TrackWait(file, hunks, lineno, hunkno, hunk, hunkfind, hunklineno, valid);
    }
  }

  lemma FollowStart(file: seq<string>, hunks: seq<Hunk>)
    requires hunks != []
    ensures Following(file, hunks, 0, 0, hunks[0], [], 0, 0)
  {
    hide Old;
  }

  /** The loop ended because the file did, or because the last hunk was dealt with. */
  lemma FollowEnd(file: seq<string>, hunks: seq<Hunk>, lineno: nat, hunkno: nat,
                  hunk: Hunk, hunkfind: seq<string>, hunklineno: nat, valid: nat)
    requires
      || (lineno == |file| && Following(file, hunks, lineno, hunkno, hunk, hunkfind, hunklineno, valid))
      || (hunkno == |hunks| && lineno < |file| && Dealt(file, hunks, lineno + 1, hunkno, hunkfind, hunklineno, valid))
    ensures Ordered(hunks) ==> Correct(file, hunks, Verdict(valid == |hunks|, valid, lineno >= |file| && hunkno < |hunks|))
    ensures Ordered(hunks) && lineno == |file| ==> valid < |hunks|
    ensures AtTop(hunks) ==> valid == hunkno == 0 && lineno == |file|
  {
    hide Old, Ordered, Tracking, Correct;
    if Ordered(hunks) {
      TrackEnd(file, hunks, hunkno, hunk, hunkfind, hunklineno, valid);
    }
  }

  /** The validation loop of `apply`. For ordered hunks it decides, hunk by hunk, whether all source
      lines but the last are in the file; `premature` says the file ended before that was decided. */
  method Validate(file: seq<string>, hunks: seq<Hunk>) returns (v: Verdict)
    ensures hunks == [] ==> v == Raised
    ensures v.Verdict? ==> v.valid <= |hunks|
    ensures hunks != [] && Ordered(hunks) ==> v.Verdict? && Correct(file, hunks, v)
    ensures AtTop(hunks) ==> v == Verdict(false, 0, true)
  {
    if hunks == [] {
      return Raised;
    }
    var hunkno: nat, hunk := 0, hunks[0];
    var hunkfind: seq<string>, hunklineno: nat, valid: nat, canPatch := [], 0, 0, false;
    var lineno: nat := 0;
    FollowStart(file, hunks);
    TopIsFirst(hunks);
    hide Old, HeadMatches, Decided, DiffersAt, CanPatch, Ordered, Tracking, Inside, Rstrip, Correct, Settled, AtTop;
    while lineno < |file|
      invariant lineno <= |file| && hunkno <= |hunks| && !canPatch
      invariant hunkno == |hunks| ==> hunk.startsrc <= lineno && hunk.startsrc + |hunkfind| - 1 <= lineno
      invariant Following(file, hunks, lineno, hunkno, hunk, hunkfind, hunklineno, valid)
    {
      var line := file[lineno];
      ghost var find0, at0 := hunkfind, hunklineno;
      if lineno + 1 < hunk.startsrc {
        FollowWait(file, hunks, lineno, hunkno, hunk, hunkfind, hunklineno, valid);
        lineno := lineno + 1;
        continue;
      } else if lineno + 1 == hunk.startsrc {
        hunkfind := Old(hunk);
        hunklineno := 0;
      }
      FollowLine(file, hunks, lineno, hunkno, hunk, find0, at0, hunkfind, hunklineno, valid);
      hide Following;
      if lineno + 1 < hunk.startsrc + |hunkfind| - 1 {
        if hunklineno >= |hunkfind| {
          return Raised;
        }
        if Rstrip(line) == hunkfind[hunklineno] {
          hunklineno := hunklineno + 1;
        } else {
          hunkno := hunkno + 1;
          if hunkno < |hunks| {
            hunk := hunks[hunkno];
            lineno := lineno + 1;
            continue;
          } else {
            break;
          }
        }
      } else if lineno + 1 == hunk.startsrc + |hunkfind| - 1 {
        hunkno := hunkno + 1;
        valid := valid + 1;
        if hunkno < |hunks| {
          hunk := hunks[hunkno];
        } else if valid == |hunks| {
          canPatch := true;
          break;
        }
      }
      lineno := lineno + 1;
    }
    FollowEnd(file, hunks, lineno, hunkno, hunk, hunkfind, hunklineno, valid);
    v := Verdict(canPatch, valid, lineno >= |file| && hunkno < |hunks|);
  }

  lemma TopIsFirst(hunks: seq<Hunk>)
    ensures AtTop(hunks) ==> hunks != [] && !Ordered(hunks)
  {
  }
}
