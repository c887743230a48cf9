/** What `apply` writes, whatever ends the lines of the patch have, and what `revert` makes of it. */
module PatchWritten {
  import opened Text
  import opened Splicing
  import opened PatchModel
  import opened PatchLineEnds
  import opened PatchApply
  import opened PatchRevert
  import opened PatchTexts

  // ---- what is written has the texts of the patch ----

  lemma {:induction false} PutTexts(text: seq<string>, lines: seq<string>)
    ensures Texts(Put(text, lines)) == Pick(text, Target)
  {
    hide Emit, Rstrip;
    if text != [] {
      PutTexts(text[1..], lines);
      if text[0] != "" {
        EmitText(lines, |lines|, text[0][1..]);
      }
    }
  }

  lemma {:induction false} PutFirstTexts(text: seq<string>, lines: seq<string>, nl: string)
    ensures Texts(PutFirst(text, lines, nl)) == Pick(text, Target)
  {
    hide Emit, Rstrip, Put;
    if text != [] && IsAdded(text[0]) {
      PutFirstTexts(text[1..], lines, nl);
      EmitText(lines, |lines|, text[0][1..]);
    } else {
      PutTexts(text, lines + [nl]);
    }
  }

  /** Reversed, the leading added lines are removed lines: they are passed over. */
  lemma {:induction false} PastLead(text: seq<string>)
    requires Tagged(text)
    ensures |LeadRun(text)| <= |ReversedText(text)|
    ensures
      var (k, rest) := (|LeadRun(text)|, ReversedText(text)[|LeadRun(text)|..]);
      && Tagged(rest) && Pick(rest, Marker) == Pick(text, Marker) && Pick(rest, Target) == Pick(text, Source)
      && |Pick(rest, Source)| + k == |Pick(text, Target)|
  {
    hide Rstrip;
    if text != [] && IsAdded(text[0]) {
      PastLead(text[1..]);
      var r := ReversedText(text);
      assert r[1..] == ReversedText(text[1..]);
      assert r[|LeadRun(text)|..] == r[1..][|LeadRun(text[1..])|..];
    } else {
      ReversalSwapsSides(text);
      ReversedMarkers(text);
      assert ReversedText(text)[0..] == ReversedText(text);
    }
  }

  lemma {:induction false} BodyPastLead(src: seq<string>, text: seq<string>, pos: nat)
    requires Tagged(text)
    ensures Tagged(ReversedText(text)) && |LeadRun(text)| <= |ReversedText(text)|
    ensures Tagged(ReversedText(text)[|LeadRun(text)|..])
    ensures Body(src, ReversedText(text), pos) == Body(src, ReversedText(text)[|LeadRun(text)|..], pos + |LeadRun(text)|)
  {
    hide Body, Pick;
    PastLead(text);
    ReversalSwapsSides(text);
    var r := ReversedText(text);
    if text != [] && IsAdded(text[0]) {
      BodyPastLead(src, text[1..], pos + 1);
      assert r[1..] == ReversedText(text[1..]) && r[0][0] == '-';
      assert r[|LeadRun(text)|..] == r[1..][|LeadRun(text[1..])|..];
      RemovedReads(src, r, pos);
    } else {
      assert r[0..] == r;
    }
  }

  lemma RemovedReads(src: seq<string>, text: seq<string>, pos: nat)
    requires Tagged(text) && text != [] && text[0][0] == '-'
    ensures Body(src, text, pos) == Body(src, text[1..], pos + 1)
  {
  }

  lemma PutBackTexts(h: Hunk, lead: seq<string>, nl: string)
    requires Tagged(h.text)
    ensures Texts(PutBack(h, lead, nl)) == Old(h)
  {
    hide Put, PutFirst, ReversedText, Tagged, Texts, Pick;
    ReversalSwapsSides(h.text);
    PutTexts(ReversedText(h.text), lead + [nl]);
    PutFirstTexts(ReversedText(h.text), lead, nl);
  }

  lemma {:induction false} LaterStand(hunks: seq<Hunk>, lead: seq<string>, nl: string)
    requires AllTagged(hunks) && forall i | 0 <= i < |hunks| :: hunks[i].startsrc >= 1
    ensures Stands(hunks, LaterEdits(hunks, lead, nl))
  {
    hide Put, PutBack, Tagged, Texts, Pick;
    if hunks != [] {
      PutBackTexts(hunks[0], lead, nl);
      PutTexts(hunks[0].text, [nl]);
      assert forall i | 0 <= i < |hunks[1..]| :: hunks[1..][i] == hunks[i + 1];
      LaterStand(hunks[1..], lead, nl);
    }
  }

  lemma TopTexts(h: Hunk, nl: string)
    requires Tagged(h.text)
    ensures Texts(TopEdit(h, nl).removed) == Old(h) && Texts(TopEdit(h, nl).added) == New(h)
  {
    hide PutFirst, ReversedText, Tagged, Texts, Pick, LeadRun;
    PastLead(h.text);
    PutFirstTexts(ReversedText(h.text)[|LeadRun(h.text)|..], LeadRun(h.text), nl);
    PutFirstTexts(h.text, [], nl);
  }

  lemma WrittenStands(hunks: seq<Hunk>, nl: string)
    requires AllTagged(hunks) && Ordered(hunks)
    ensures Stands(hunks, Written(hunks, nl))
  {
    hide Tagged, Texts, Pick, TopEdit, LaterEdits, Lead;
    if AtTheTop(hunks) {
      TopAtStart(hunks[0], nl);
      TopTexts(hunks[0], nl);
      assert forall i | 0 <= i < |hunks[1..]| :: hunks[1..][i] == hunks[i + 1];
      LaterStand(hunks[1..], Lead(hunks), nl);
    } else {
      LaterStand(hunks, [], nl);
    }
  }

  lemma TopAtStart(h: Hunk, nl: string)
    ensures TopEdit(h, nl).start == 0
  {
  }

  // ---- apply writes these edits ----

  lemma {:induction false} LaterFollows(src: seq<string>, hunks: seq<Hunk>, lead: seq<string>, nl: Ending)
    requires AllTagged(hunks) && Unmarked(hunks) && EndsIn(src, nl) && src != []
    requires forall i | 0 <= i < |hunks| :: hunks[i].startsrc > 1
    requires Stands(hunks, LaterEdits(hunks, lead, Chars(nl)))
    ensures Follows(src, hunks, LaterEdits(hunks, lead, Chars(nl)))
  {
    hide Body, Put, PutBack, Tagged, Texts, Pick, Uniform;
    if hunks != [] {
      var h := hunks[0];
      assert src[0..] == src && src[..0] == [] && [] + [Chars(nl)] == [Chars(nl)];
      BodyLater(src, 0, h.text, h.startsrc - 1, nl);
      assert forall i | 0 <= i < |hunks[1..]| :: hunks[1..][i] == hunks[i + 1];
      LaterFollows(src, hunks[1..], lead, nl);
    }
  }

  lemma WrittenFollows(src: seq<string>, hunks: seq<Hunk>, nl: Ending)
    requires Placed(hunks) && EndsIn(src, nl) && EndInside(hunks, |src|)
    ensures Stands(hunks, Written(hunks, Chars(nl))) && Follows(src, hunks, Written(hunks, Chars(nl)))
  {
    WrittenStands(hunks, Chars(nl));
    hide Body, PutFirst, Tagged, Texts, Pick, Uniform, LaterEdits;
    if hunks != [] {
      assert |Old(hunks[0])| >= 1 && hunks[0].startsrc - 1 + |Old(hunks[0])| <= |src|;
      LaterStarts(hunks);
      if AtTheTop(hunks) {
        assert src[0..] == src && src[..0] == [];
        BodyFirst(src, 0, hunks[0].text, nl);
        LaterFollows(src, hunks[1..], Lead(hunks), nl);
      } else {
        LaterFollows(src, hunks, [], nl);
      }
    }
  }

  lemma LaterStarts(hunks: seq<Hunk>)
    requires Ordered(hunks) && SomeOld(hunks)
    ensures forall i | 1 <= i < |hunks| :: hunks[i].startsrc > 1
    ensures hunks != [] && !AtTheTop(hunks) ==> hunks[0].startsrc > 1
  {
    hide Old, New;
    forall i | 1 <= i < |hunks| ensures hunks[i].startsrc > 1 {
      assert |Old(hunks[i - 1])| >= 1;
    }
  }

  /** Whatever ends the patch's lines have, `patch_stream` writes what `Written` says. */
  lemma StreamIsWritten(src: seq<string>, hunks: seq<Hunk>, nl: Ending)
    requires Placed(hunks) && EndsIn(src, nl) && EndInside(hunks, |src|)
    ensures Stands(hunks, Written(hunks, Chars(nl))) && Fits(Written(hunks, Chars(nl)), 0, |src|)
    ensures Stream(src, hunks, 0) == Weave(src, Written(hunks, Chars(nl)), 0)
  {
    WrittenFollows(src, hunks, nl);
    hide EndsIn, Unmarked, AllTagged, Stream, Weave, Old, New, Written, Stands, Follows;
    OrderedFits(hunks, Written(hunks, Chars(nl)), 0, |src|);
    StreamFollows(src, hunks, Written(hunks, Chars(nl)), 0);
  }

  /** The same for a patch that `apply` accepts. */
  lemma ApplyMakesEdits(src: seq<string>, hunks: seq<Hunk>, nl: Ending)
    requires Proper(hunks) && EndsIn(src, nl) && CanPatch(src, hunks)
    ensures Stands(hunks, Written(hunks, Chars(nl))) && Fits(Written(hunks, Chars(nl)), 0, |src|)
    ensures Stream(src, hunks, 0) == Weave(src, Written(hunks, Chars(nl)), 0)
  {
    assert EndInside(hunks, |src|);
    hide *;
    StreamIsWritten(src, hunks, nl);
  }

  // ---- when these are the edits the patch means ----

  lemma {:induction false} EditsStand(hunks: seq<Hunk>, nl: Ending)
    requires (nl == LF || nl == CRLF) && forall i | 0 <= i < |hunks| :: hunks[i].startsrc >= 1
    ensures Stands(hunks, Edits(hunks, Chars(nl)))
  {
    hide Pick, Texts, Terminated;
    if hunks != [] {
      var t := hunks[1..];
      assert forall i | 0 <= i < |t| :: t[i] == hunks[i + 1];
      TerminatedUniform(hunks[0].text, Source, nl);
      TerminatedUniform(hunks[0].text, Target, nl);
      EditsStand(t, nl);
    }
  }

  lemma {:induction false} LaterAlike(hunks: seq<Hunk>, lead: seq<string>, nl: Ending)
    requires (nl == LF || nl == CRLF) && AllTagged(hunks)
    ensures Alike(LaterEdits(hunks, lead, Chars(nl)), Edits(hunks, Chars(nl)))
  {
    hide Pick, Put, PutBack, Terminated, Tagged, ReversedText;
    if hunks != [] {
      ReversalSwapsSides(hunks[0].text);
      PutOne(hunks[0].text, nl);
      LaterAlike(hunks[1..], lead, nl);
    }
  }

  lemma {:induction false} LeadIsTerminated(text: seq<string>, nl: string)
    ensures |LeadRun(text)| <= |Pick(text, Target)|
    ensures LeadRun(text) == Terminated(Pick(text, Target), nl)[..|LeadRun(text)|] <==> Uniform(LeadRun(text), nl)
  {
    hide Rstrip;
    if text != [] && IsAdded(text[0]) {
      var (s, lead, t) := (text[0][1..], LeadRun(text[1..]), Terminated(Pick(text[1..], Target), nl));
      LeadIsTerminated(text[1..], nl);
      assert Terminated(Pick(text, Target), nl) == [Rstrip(s) + nl] + t;
      assert ([Rstrip(s) + nl] + t)[..|lead| + 1] == [Rstrip(s) + nl] + t[..|lead|];
      HeadAndTail(s, lead, Rstrip(s) + nl, t[..|lead|]);
      assert LeadRun(text)[1..] == lead;
    }
  }

  lemma TopIsTarget(h: Hunk, nl: Ending)
    requires nl == LF || nl == CRLF
    ensures TopEdit(h, Chars(nl)).added == Terminated(New(h), Chars(nl)) <==> Uniform(LeadRun(h.text), Chars(nl))
  {
    hide PutFirst, Pick, Terminated, LeadRun, Uniform, ReversedText;
    PutFirstNone(h.text, nl);
    LeadIsTerminated(h.text, Chars(nl));
    FrontDiffers(LeadRun(h.text), Terminated(New(h), Chars(nl)));
  }

  lemma FrontDiffers<T>(lead: seq<T>, t: seq<T>)
    requires |lead| <= |t|
    ensures lead + t[|lead|..] == t <==> lead == t[..|lead|]
  {
    assert (lead + t[|lead|..])[..|lead|] == lead;
    assert t == t[..|lead|] + t[|lead|..];
  }

  lemma TopWoven(src: seq<string>, hunks: seq<Hunk>, nl: string)
    requires AtTheTop(hunks) && Fits(Written(hunks, nl), 0, |src|)
    ensures
      var (e, rest) := (TopEdit(hunks[0], nl), LaterEdits(hunks[1..], Lead(hunks), nl));
      && Fits(rest, |e.removed|, |src|)
      && Weave(src, Written(hunks, nl), 0) == e.added + Weave(src, rest, |e.removed|)
  {
    hide PutFirst, LeadRun, LaterEdits;
    assert Written(hunks, nl)[1..] == LaterEdits(hunks[1..], Lead(hunks), nl);
  }

  /** `patch_stream` makes the edits the patch means, each stretch replaced by the new texts in the line end of
      the file, exactly when the lines it writes before it has read any end as the file does. */
  lemma StreamIsWeave(src: seq<string>, hunks: seq<Hunk>, nl: Ending)
    requires Placed(hunks) && EndsIn(src, nl) && EndInside(hunks, |src|)
    ensures Fits(Edits(hunks, Chars(nl)), 0, |src|)
    ensures Stream(src, hunks, 0) == Weave(src, Edits(hunks, Chars(nl)), 0) <==> LeadEnds(hunks, Chars(nl))
  {
    var (es, fs) := (Written(hunks, Chars(nl)), Edits(hunks, Chars(nl)));
    StreamIsWritten(src, hunks, nl);
    EditsStand(hunks, nl);
    OrderedFits(hunks, fs, 0, |src|);
    hide Stream, Weave, Fits, Stands, Pick, Tagged, LaterEdits, TopEdit, LeadRun, Terminated;
    if AtTheTop(hunks) {
      var rest := hunks[1..];
      TopWoven(src, hunks, Chars(nl));
      TopMeant(src, hunks, Chars(nl));
      LaterAlike(rest, Lead(hunks), nl);
      SameRemoved(hunks[0], Chars(nl));
      WeaveAlike(src, LaterEdits(rest, Lead(hunks), Chars(nl)), Edits(rest, Chars(nl)), |Old(hunks[0])|);
      TopIsTarget(hunks[0], nl);
      SameFront(es[0].added, fs[0].added, Weave(src, Edits(rest, Chars(nl)), |Old(hunks[0])|));
    } else {
      LaterAlike(hunks, [], nl);
      WeaveAlike(src, es, fs, 0);
    }
  }

  lemma SameFront<T>(a: seq<T>, b: seq<T>, c: seq<T>)
    requires |a| == |b|
    ensures a + c == b + c <==> a == b
  {
    assert (a + c)[..|a|] == a && (b + c)[..|b|] == b;
  }

  lemma SameRemoved(h: Hunk, nl: string)
    requires Tagged(h.text)
    ensures |TopEdit(h, nl).removed| == |Old(h)| && |TopEdit(h, nl).added| == |New(h)|
  {
    TopTexts(h, nl);
    hide PutFirst, ReversedText, LeadRun, Pick;
  }

  lemma TopMeant(src: seq<string>, hunks: seq<Hunk>, nl: string)
    requires AtTheTop(hunks) && Fits(Edits(hunks, nl), 0, |src|)
    ensures
      var (e, rest) := (EditOf(hunks[0], nl), Edits(hunks[1..], nl));
      && Fits(rest, |Old(hunks[0])|, |src|)
      && Weave(src, Edits(hunks, nl), 0) == e.added + Weave(src, rest, |Old(hunks[0])|)
  {
    hide Pick, Terminated;
    assert Edits(hunks, nl)[1..] == Edits(hunks[1..], nl);
  }

  // ---- the patched file: the lines put in front, and a file with one line end ----

  lemma {:induction false} LaterUniform(src: seq<string>, hunks: seq<Hunk>, lead: seq<string>, pos: nat, nl: Ending)
    requires EndsIn(src, nl) && Fits(LaterEdits(hunks, lead, Chars(nl)), pos, |src|)
    ensures Uniform(Weave(src, LaterEdits(hunks, lead, Chars(nl)), pos), Chars(nl))
    decreases |hunks|, |src| - pos
  {
    hide UniformLine, Pick, Terminated, Uniform, Put, PutBack;
    var es := LaterEdits(hunks, lead, Chars(nl));
    if hunks == [] {
      UniformSuffix(src, pos, Chars(nl));
    } else if pos < es[0].start {
      UniformAt(src, pos, Chars(nl));
      LaterUniform(src, hunks, lead, pos + 1, nl);
      UniformOne(src[pos], Chars(nl));
      UniformConcat([src[pos]], Weave(src, es, pos + 1), Chars(nl));
    } else {
      PutOne(hunks[0].text, nl);
      TerminatedUniform(hunks[0].text, Target, nl);
      LaterUniform(src, hunks[1..], lead, pos + |es[0].removed|, nl);
      UniformConcat(es[0].added, Weave(src, es[1..], pos + |es[0].removed|), Chars(nl));
    }
  }

  lemma TopAdded(h: Hunk, nl: Ending)
    requires nl == LF || nl == CRLF
    ensures
      var (lead, added) := (LeadRun(h.text), TopEdit(h, Chars(nl)).added);
      |lead| <= |added| && added[..|lead|] == lead && Uniform(added[|lead|..], Chars(nl))
  {
    hide PutFirst, LeadRun, Pick, Terminated, Uniform;
    PutFirstNone(h.text, nl);
    TerminatedUniform(h.text, Target, nl);
    UniformSuffix(Terminated(Pick(h.text, Target), Chars(nl)), |LeadRun(h.text)|, Chars(nl));
  }

  lemma Behind<T>(a: seq<T>, b: seq<T>, k: nat)
    requires k <= |a|
    ensures (a + b)[..k] == a[..k] && (a + b)[k..] == a[k..] + b
  {
  }

  lemma OutShape(src: seq<string>, hunks: seq<Hunk>, nl: Ending)
    requires EndsIn(src, nl) && Fits(Written(hunks, Chars(nl)), 0, |src|)
    ensures
      var (out, lead) := (Weave(src, Written(hunks, Chars(nl)), 0), Lead(hunks));
      && EndsInFrom(out, |lead|, nl) && out[..|lead|] == lead
      && (AtTheTop(hunks) ==> |Pick(hunks[0].text, Target)| <= |out|)
  {
    hide PutFirst, LeadRun, Pick, Uniform, LaterEdits, Weave, Fits;
    if AtTheTop(hunks) {
      TopWoven(src, hunks, Chars(nl));
      TopAdded(hunks[0], nl);
      var (e, rest) := (TopEdit(hunks[0], Chars(nl)), LaterEdits(hunks[1..], Lead(hunks), Chars(nl)));
      var w := Weave(src, rest, |e.removed|);
      LaterUniform(src, hunks[1..], Lead(hunks), |e.removed|, nl);
      Behind(e.added, w, |Lead(hunks)|);
      UniformConcat(e.added[|Lead(hunks)|..], w, Chars(nl));
    } else {
      LaterUniform(src, hunks, [], 0, nl);
      var out := Weave(src, Written(hunks, Chars(nl)), 0);
      assert out[0..] == out && out[..0] == [];
    }
  }

  // ---- revert writes them back ----

  lemma BackBody(out: seq<string>, h: Hunk, lead: seq<string>, nl: Ending)
    requires Tagged(h.text) && Pick(h.text, Marker) == [] && |New(h)| >= 1
    requires EndsInFrom(out, |lead|, nl) && out[..|lead|] == lead
    requires |lead| < h.starttgt && h.starttgt - 1 + |New(h)| <= |out|
    ensures Tagged(ReversedText(h.text))
    ensures Body(out, ReversedText(h.text), h.starttgt - 1)
         == Progress(PutBack(h, lead, Chars(nl)), h.starttgt - 1 + |New(h)|)
  {
    hide Body, Put, PutFirst, ReversedText, Tagged, Pick, EndsIn;
    ReversalSwapsSides(h.text);
    ReversedMarkers(h.text);
    if h.starttgt == |lead| + 1 {
      BodyFirst(out, |lead|, ReversedText(h.text), nl);
    } else {
      BodyLater(out, |lead|, ReversedText(h.text), h.starttgt - 1, nl);
    }
  }

  lemma {:induction false} BackFollows(out: seq<string>, hunks: seq<Hunk>, lead: seq<string>, shift: int, at: nat, nl: Ending)
    requires AllTagged(hunks) && AllTagged(ReversedAll(hunks)) && Unmarked(hunks) && SomeNew(hunks)
    requires EndsInFrom(out, |lead|, nl) && out[..|lead|] == lead && |lead| <= at
    requires
      var back := Mirror(LaterEdits(hunks, lead, Chars(nl)), shift);
      Stands(ReversedAll(hunks), back) && Fits(back, at, |out|)
    ensures Follows(out, ReversedAll(hunks), Mirror(LaterEdits(hunks, lead, Chars(nl)), shift))
    decreases |hunks|
  {
    hide Body, Put, PutBack, Tagged, Texts, Pick, EndsInFrom, ReversedText;
    if hunks != [] {
      var (h, es) := (hunks[0], LaterEdits(hunks, lead, Chars(nl)));
      var (b, rest) := (Mirror(es, shift)[0], Mirror(es, shift)[1..]);
      assert hunks[0] == h && |New(h)| >= 1;
      assert forall i | 0 <= i < |hunks[1..]| :: hunks[1..][i] == hunks[i + 1];
      assert ReversedAll(hunks)[1..] == ReversedAll(hunks[1..]);
      BackBody(out, h, lead, nl);
      BackFollows(out, hunks[1..], lead, shift + |es[0].added| - |es[0].removed|, b.start + |b.removed|, nl);
    }
  }

  lemma TopBack(out: seq<string>, h: Hunk, nl: Ending)
    requires Tagged(h.text) && Pick(h.text, Marker) == []
    requires EndsInFrom(out, |LeadRun(h.text)|, nl) && out[..|LeadRun(h.text)|] == LeadRun(h.text) && |New(h)| <= |out|
    ensures Tagged(ReversedText(h.text))
    ensures Body(out, ReversedText(h.text), 0) == Progress(TopEdit(h, Chars(nl)).removed, |New(h)|)
  {
    hide Body, PutFirst, ReversedText, Tagged, Pick, EndsIn, LeadRun;
    var k := |LeadRun(h.text)|;
    PastLead(h.text);
    BodyPastLead(out, h.text, 0);
    BodyFirst(out, k, ReversedText(h.text)[k..], nl);
  }

  lemma MirrorFollows(out: seq<string>, hunks: seq<Hunk>, nl: Ending)
    requires Proper(hunks) && EndsInFrom(out, |Lead(hunks)|, nl) && out[..|Lead(hunks)|] == Lead(hunks)
    requires AtTheTop(hunks) ==> |New(hunks[0])| <= |out|
    requires AllTagged(ReversedAll(hunks))
    requires
      var back := Mirror(Written(hunks, Chars(nl)), 0);
      Stands(ReversedAll(hunks), back) && Fits(back, 0, |out|)
    ensures Follows(out, ReversedAll(hunks), Mirror(Written(hunks, Chars(nl)), 0))
  {
    hide Body, PutFirst, Tagged, Texts, Pick, EndsInFrom, ReversedText, LaterEdits, LeadRun, Ordered;
    var (es, rev) := (Written(hunks, Chars(nl)), ReversedAll(hunks));
    if AtTheTop(hunks) {
      var (h, e, rest) := (hunks[0], es[0], LaterEdits(hunks[1..], Lead(hunks), Chars(nl)));
      assert es == [e] + rest && es[1..] == rest;
      var shift := |e.added| - |e.removed|;
      assert Mirror(es, 0)[1..] == Mirror(rest, 0 + |e.added| - |e.removed|);
      assert rev[1..] == ReversedAll(hunks[1..]);
      TopBack(out, h, nl);
      LeadIsShort(h.text);
      assert forall i | 0 <= i < |hunks[1..]| :: hunks[1..][i] == hunks[i + 1];
      BackFollows(out, hunks[1..], Lead(hunks), shift, |New(h)|, nl);
    } else {
      BackFollows(out, hunks, [], 0, 0, nl);
    }
  }

  lemma LeadIsShort(text: seq<string>)
    ensures |LeadRun(text)| <= |Pick(text, Target)|
  {
  }

  // ---- apply, then revert ----

  /** The edits of the way back: they fit, find their lines, and write what `revert` writes. */
  lemma BackEdits(src: seq<string>, hunks: seq<Hunk>, nl: Ending)
    requires Proper(hunks) && EndsIn(src, nl) && CanPatch(src, hunks)
    ensures Fits(Written(hunks, Chars(nl)), 0, |src|)
    ensures
      var (es, out) := (Written(hunks, Chars(nl)), Stream(src, hunks, 0));
      var back := Mirror(es, 0);
      && Stands(hunks, es) && Stands(ReversedAll(hunks), back) && HoldsAdded(out, back, 0)
      && Weave(out, back, 0) == Restored(src, es, 0)
      && EndsInFrom(out, |Lead(hunks)|, nl) && out[..|Lead(hunks)|] == Lead(hunks)
      && (AtTheTop(hunks) ==> |New(hunks[0])| <= |out|)
  {
    ApplyMakesEdits(src, hunks, nl);
    var es := Written(hunks, Chars(nl));
    hide Stream, Weave, Restored, InPlace, HeadMatches, Pick, ReversedAll, Fits, Written, Stands, Uniform, Lead, Mirror;
    MirrorStands(hunks, es, 0, 0, |src|);
    OutShape(src, hunks, nl);
    MirrorRestores(src, es, Stream(src, hunks, 0));
  }

  /** `revert` writes for each hunk what `Written` says it removes. */
  lemma WayBack(src: seq<string>, hunks: seq<Hunk>, nl: Ending)
    requires Proper(hunks) && EndsIn(src, nl) && CanPatch(src, hunks)
    ensures Fits(Written(hunks, Chars(nl)), 0, |src|) && AllTagged(ReversedAll(hunks))
    ensures Stream(Stream(src, hunks, 0), ReversedAll(hunks), 0) == Restored(src, Written(hunks, Chars(nl)), 0)
  {
    var (out, back, es) := (Stream(src, hunks, 0), ReversedAll(hunks), Written(hunks, Chars(nl)));
    BackEdits(src, hunks, nl);
    ReversedTagged(hunks);
    hide Stream, Weave, Restored, InPlace, HeadMatches, Pick, ReversedAll, Fits, Written, Stands, Uniform, Lead, Mirror;
    MirrorFollows(out, hunks, nl);
    StreamFollows(out, back, Mirror(es, 0), 0);
  }

  lemma PutBackIsTerminated(h: Hunk, lead: seq<string>, nl: string)
    requires Tagged(h.text)
    ensures PutBack(h, lead, nl) == Terminated(Old(h), nl) <==> BackEnds(h, lead, nl)
  {
    ReversalSwapsSides(h.text);
    hide Put, PutFirst, Pick, ReversedText, FirstWritesWell, WritesWell;
    PutFirstIsTerminated(ReversedText(h.text), lead, nl);
    PutIsTerminated(ReversedText(h.text), lead + [nl], nl);
  }

  lemma {:induction false} LaterEnds(hunks: seq<Hunk>, lead: seq<string>, nl: string)
    requires AllTagged(hunks)
    ensures RemovedEnds(hunks, LaterEdits(hunks, lead, nl), nl)
       <==> forall i | 0 <= i < |hunks| :: BackEnds(hunks[i], lead, nl)
  {
    hide PutBack, BackEnds, Tagged, Pick, Put;
    if hunks != [] {
      var t := hunks[1..];
      PutBackIsTerminated(hunks[0], lead, nl);
      LaterEnds(t, lead, nl);
      assert forall i | 0 <= i < |t| :: t[i] == hunks[i + 1];
      assert forall i | 1 <= i < |hunks| :: hunks[i] == t[i - 1];
    }
  }

  lemma TopIsTerminated(h: Hunk, nl: string)
    requires Tagged(h.text)
    ensures TopEdit(h, nl).removed == Terminated(Old(h), nl) <==> TopEnds(h.text, nl)
  {
    PastLead(h.text);
    hide PutFirst, Pick, ReversedText, FirstWritesWell, LeadRun;
    PutFirstIsTerminated(ReversedText(h.text)[|LeadRun(h.text)|..], LeadRun(h.text), nl);
  }

  lemma {:induction false} TargetsGrow(hunks: seq<Hunk>, shift: int, i: nat)
    requires Ordered(hunks) && SomeNew(hunks) && TargetsFollow(hunks, shift) && i < |hunks|
    ensures hunks[i].starttgt >= hunks[0].starttgt + i
    ensures hunks[0].starttgt == hunks[0].startsrc + shift
  {
    hide Old, New;
    if i > 0 {
      var t := hunks[1..];
      OrderedTail(hunks);
      assert |New(hunks[0])| >= 1;
      assert forall k | 0 <= k < |t| :: t[k] == hunks[k + 1];
      TargetsGrow(t, shift + |New(hunks[0])| - |Old(hunks[0])|, i - 1);
    }
  }

  lemma {:induction false} FirstFromNothing(text: seq<string>, nl: Ending)
    requires nl == LF || nl == CRLF
    ensures FirstWritesWell(text, [], Chars(nl)) <==> Uniform(LeadRun(text), Chars(nl))
  {
    hide Emit, Rstrip, WritesWell;
    if text != [] && IsAdded(text[0]) {
      FirstFromNothing(text[1..], nl);
      EmitOne(text[0][1..], nl);
      assert LeadRun(text)[1..] == LeadRun(text[1..]);
    } else {
      OneEndsIn(nl);
      assert [] + [Chars(nl)] == [Chars(nl)];
      AlikeWritesWell(text, [Chars(nl)], nl);
    }
  }

  lemma OneEndsIn(nl: Ending)
    requires nl == LF || nl == CRLF
    ensures EndsIn([Chars(nl)], nl)
  {
    hide Rstrip;
    var end := Chars(nl);
    assert "" + end == end;
    RstripUnique(end, "", end);
    var one := [end];
    assert one[0] == end && one[1..] == [] && UniformLine(end, end);
    assert Uniform(one[1..], end) && Uniform(one, end);
  }

  lemma {:induction false} FirstAlike(text: seq<string>, lines: seq<string>, nl: Ending)
    requires EndsIn(lines, nl) && lines != []
    ensures FirstWritesWell(text, lines, Chars(nl))
  {
    hide Rstrip, Uniform, WritesWell, Emit;
    if text != [] && IsAdded(text[0]) {
      FirstAlike(text[1..], lines, nl);
      EmitAlike(lines, text[0][1..], nl);
    } else {
      OneEndsIn(nl);
      UniformConcat(lines, [Chars(nl)], Chars(nl));
      AlikeWritesWell(text, lines + [Chars(nl)], nl);
    }
  }

  lemma BackUsual(h: Hunk, lead: seq<string>, nl: Ending)
    requires (nl == LF || nl == CRLF) && Uniform(lead, Chars(nl)) && h.starttgt > 1
    ensures BackEnds(h, lead, Chars(nl))
  {
    hide Uniform, WritesWell, FirstWritesWell, ReversedText;
    if h.starttgt == |lead| + 1 {
      FirstAlike(ReversedText(h.text), lead, nl);
    } else {
      OneEndsIn(nl);
      UniformConcat(lead, [Chars(nl)], Chars(nl));
      AlikeWritesWell(ReversedText(h.text), lead + [Chars(nl)], nl);
    }
  }

  lemma TopUsual(text: seq<string>, nl: Ending)
    requires (nl == LF || nl == CRLF) && Uniform(LeadRun(text), Chars(nl))
    ensures TopEnds(text, Chars(nl)) <==> Uniform(LeadRun(ReversedText(text)), Chars(nl))
  {
    ReversedLength(text);
    hide WritesWell, FirstWritesWell, Rstrip;
    if LeadRun(text) == [] {
      assert ReversedText(text)[0..] == ReversedText(text);
      FirstFromNothing(ReversedText(text), nl);
    } else {
      FirstAlike(ReversedText(text)[|LeadRun(text)|..], LeadRun(text), nl);
      assert text != [] && IsAdded(text[0]) && ReversedText(text)[0][0] == '-';
    }
  }

  lemma WrittenEnds(hunks: seq<Hunk>, nl: Ending)
    requires Proper(hunks) && (nl == LF || nl == CRLF)
    ensures RemovedEnds(hunks, Written(hunks, Chars(nl)), Chars(nl)) <==> RevertEnds(hunks, Chars(nl))
  {
    assert hunks != [] ==> hunks[0].startsrc >= 1;
    hide Tagged, Pick, TopEdit, LaterEdits, LeadRun, BackEnds, TopEnds, SomeOld, SomeNew, Ordered;
    if AtTheTop(hunks) {
      var t := hunks[1..];
      TopIsTerminated(hunks[0], Chars(nl));
      LaterEnds(t, Lead(hunks), Chars(nl));
      assert forall i | 0 <= i < |t| :: t[i] == hunks[i + 1];
      assert forall i | 1 <= i < |hunks| :: hunks[i] == t[i - 1];
    } else {
      LaterEnds(hunks, [], Chars(nl));
      forall i | 0 <= i < |hunks| ensures BackEnds(hunks[i], [], Chars(nl)) {
        TargetsGrow(hunks, 0, i);
        BackUsual(hunks[i], [], nl);
      }
    }
  }

  /** The lines `apply` wrote first end as the file does: then `revert` writes well exactly when its own first
      lines do. */
  lemma RevertEndsUsual(hunks: seq<Hunk>, nl: Ending)
    requires Proper(hunks) && (nl == LF || nl == CRLF) && LeadEnds(hunks, Chars(nl))
    ensures RevertEnds(hunks, Chars(nl)) <==> LeadEnds(ReversedAll(hunks), Chars(nl))
  {
    hide Pick, Tagged, Uniform, TopEnds, BackEnds, LeadRun, Ordered, SomeOld, SomeNew;
    if AtTheTop(hunks) {
      assert ReversedAll(hunks)[0] == Reversed(hunks[0]) && AtTheTop(ReversedAll(hunks));
      TopUsual(hunks[0].text, nl);
      forall i | 1 <= i < |hunks| ensures BackEnds(hunks[i], Lead(hunks), Chars(nl)) {
        TargetsGrow(hunks, 0, i);
        BackUsual(hunks[i], Lead(hunks), nl);
      }
    } else if hunks != [] {
      assert ReversedAll(hunks)[0] == Reversed(hunks[0]);
    }
  }

  /** Apply, then revert. Whenever `apply` accepts a proper patch, `revert` accepts the result; and the file is
      back to what it was exactly when each hunk's last source line, the one line `apply` does not compare, had
      been in the file, and what `revert` writes ends as the file did. */
  lemma ApplyThenRevert(src: seq<string>, hunks: seq<Hunk>, nl: Ending)
    requires Proper(hunks) && EndsIn(src, nl) && CanPatch(src, hunks)
    ensures
      var (out, back) := (Stream(src, hunks, 0), ReversedAll(hunks));
      && AllTagged(back) && Ordered(back) && CanPatch(out, back)
      && (Stream(out, back, 0) == src
          <==> (forall i | 0 <= i < |hunks| :: LastLineMatches(src, hunks[i])) && RevertEnds(hunks, Chars(nl)))
  {
    var es := Written(hunks, Chars(nl));
    hide Uniform, Stream, Weave, Restored, InPlace, Pick, Written, RevertEnds, RemovedEnds, Stands, Fits, Tagged;
    TextsComeBack(src, hunks);
    WayBack(src, hunks, nl);
    ApplyMakesEdits(src, hunks, nl);
    RestoredIffInPlace(src, es, 0);
    InPlaceIsAgreement(src, hunks, es, 0, Chars(nl));
    AllHeadsPlusLasts(src, hunks);
    WrittenEnds(hunks, nl);
    assert src[0..] == src;
  }
}
