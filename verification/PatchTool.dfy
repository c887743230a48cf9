/** The tool from end to end: a patch file is parsed and each of its patches applied to a file. */
module PatchTool {
  import opened PatchModel
  import opened PatchParse
  import opened PatchGrammar
  import opened PatchSound
  import opened PatchApply
  import opened PatchRevert
  import opened PatchLimits

  /** What the tool finds under a patch's file name: nothing it can patch, or a file, with a backup or without. */
  datatype Place = Missing | Present(file: seq<string>, backupExists: bool)

  predicate IsFile(p: Place) { p.Present? ==> forall i | 0 <= i < |p.file| :: p.file[i] != "" }

  /** What is left in the place by a patch whose hunks are in order. */
  function Left(p: Place, hunks: seq<Hunk>): Place
    requires AllTagged(hunks)
  {
    if p.Present? && CanPatch(p.file, hunks) && !p.backupExists then p.(file := Stream(p.file, hunks, 0)) else p
  }

  /** Whether the tool counts no error for it. */
  ghost predicate Accepted(p: Place, hunks: seq<Hunk>)
  {
    && p.Present?
    && (CanPatch(p.file, hunks)
        || (Patched(p.file, hunks) && forall i | 0 <= i < |hunks| :: Decided(p.file, hunks[i])))
  }

  /** That is, in a file in which every hunk can be applied, or every hunk's target texts stand already and no
      hunk's source was left undecided at its end. */
  lemma AcceptedExactly(p: Place, hunks: seq<Hunk>)
    requires AllTagged(hunks) && Unmarked(hunks) && TargetsOrdered(hunks)
    ensures
      Accepted(p, hunks) <==>
      && p.Present?
      && (CanPatch(p.file, hunks)
          || ((forall i | 0 <= i < |hunks| :: TargetStands(p.file, hunks[i]))
              && forall i | 0 <= i < |hunks| :: Decided(p.file, hunks[i])))
  {
    if p.Present? {
      PatchedExactly(p.file, hunks);
    }
    hide AllTagged, Unmarked, TargetsOrdered, CanPatch, TargetStands, Decided, Patched;
  }

  predicate AllOrdered(items: seq<Patch>)
  {
    forall i | 0 <= i < |items| :: Ordered(items[i].hunks)
  }

  datatype Report = NotParsed | Aborted | Done(places: seq<Place>, ok: bool)

  /** `fromfile`, and then `apply`: the patch file is parsed, and if that reports no error every patch is applied
      in turn. Here each patch has a place of its own. */
  method RunTool(lines: seq<string>, places: seq<Place>) returns (r: Report)
    requires |places| == |Parse(lines).items| && forall i | 0 <= i < |places| :: IsFile(places[i])
    ensures r == NotParsed <==> !Parse(lines).ok
    ensures
      var items := Parse(lines).items;
      Parse(lines).ok && AllOrdered(items) ==>
        && r.Done? && |r.places| == |places|
        && (forall i | 0 <= i < |places| ::
              AllTagged(items[i].hunks) && r.places[i] == Left(places[i], items[i].hunks))
        && (r.ok <==> forall i | 0 <= i < |places| :: Accepted(places[i], items[i].hunks))
  {
    hide Parse, AllTagged, CanPatch, Patched, Decided, Stream, Ordered;
    var patchSet := new PatchSet();
    var parsed := patchSet.ParseLines(lines);
    if !parsed {
      return NotParsed;
    }
    var items := patchSet.items;
    var after: seq<Place>, errors: nat := [], 0;
    for i := 0 to |items|
      invariant |after| == i
      invariant AllOrdered(items) ==> forall k | 0 <= k < i ::
                  AllTagged(items[k].hunks) && after[k] == Left(places[k], items[k].hunks)
      invariant AllOrdered(items) ==> (errors == 0 <==> forall k | 0 <= k < i :: Accepted(places[k], items[k].hunks))
    {
      SuccessCanBeApplied(lines, i);
      match places[i] {
        case Missing =>
          errors := errors + 1;
          after := after + [Missing];
        case Present(file, backupExists) =>
          var o := Apply(file, items[i].hunks, backupExists);
          if o.Crashed? {
            return Aborted;
          }
          errors := errors + if o.ok then 0 else 1;
          after := after + [Present(o.file, backupExists)];
      }
    }
    r := Report.Done(after, errors == 0);
  }

  // ---- what the headers of a patch say is what its hunks are ----

  /** The four numbers of each hunk fit those before, as `diff -u` prints them; `shift` is how far the target is
      ahead of the source. */
  predicate HeadersFit(hunks: seq<Hunk>, next: nat, shift: int)
  {
    hunks == [] ||
    var h := hunks[0];
    && 1 <= h.startsrc && next <= h.startsrc && h.linessrc >= 1 && h.linestgt >= 1
    && h.starttgt == h.startsrc + shift
    && HeadersFit(hunks[1..], h.startsrc + h.linessrc, shift + h.linestgt - h.linessrc)
  }

  /** A patch from an error-free parse, whose headers fit and which has no backslash lines, is proper: all that
      is proved of apply and revert holds of it. */
  lemma HeadersMakeProper(lines: seq<string>, i: nat)
    requires Parse(lines).ok && i < |Parse(lines).items|
    requires HeadersFit(Parse(lines).items[i].hunks, 1, 0) && Unmarked(Parse(lines).items[i].hunks)
    ensures Proper(Parse(lines).items[i].hunks)
  {
    var hunks := Parse(lines).items[i].hunks;
    hide Parse, AllCounted, HeadersFit, Tagged, Pick;
    SuccessIsUsable(lines);
    UsableAt(Parse(lines).items, i);
    CountedIsTagged(hunks);
    HeadersOrder(hunks, 1, 0);
  }

  lemma {:induction false} HeadersOrder(hunks: seq<Hunk>, next: nat, shift: int)
    requires AllCounted(hunks) && HeadersFit(hunks, next, shift)
    ensures Ordered(hunks) && SomeOld(hunks) && SomeNew(hunks) && TargetsFollow(hunks, shift)
    ensures hunks != [] ==> next <= hunks[0].startsrc
  {
    hide Pick, Tagged, SourceCount, TargetCount;
    if hunks != [] {
      var (h, t) := (hunks[0], hunks[1..]);
      CountsAreSides(h.text);
      HeadersOrder(t, h.startsrc + h.linessrc, shift + h.linestgt - h.linessrc);
      assert forall i | 1 <= i < |hunks| :: hunks[i] == t[i - 1];
      forall i | 0 < i < |hunks| ensures hunks[i - 1].startsrc + |Old(hunks[i - 1])| <= hunks[i].startsrc {
        if i > 1 {
          assert hunks[i - 1] == t[i - 2];
        }
      }
    }
  }
}
