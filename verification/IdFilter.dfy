/** The stored list of message identifiers to log: how commands fill it, and which sentences pass. */
module IdFilter {
  import opened Text
  import opened Checksum

  type Word = seq<Char>

  const SPACE: Char := 32

  // ---- words ----

  /** The stretches of `msg` between spaces, from `start` on; they may be empty. */
  function Words(msg: Word, start: nat): seq<Word>
    requires start <= |msg|
    decreases |msg| - start
  {
    var split := IndexFrom(msg, SPACE, start);
    if split == |msg| then [msg[start..]] else [msg[start..split]] + Words(msg, split + 1)
  }

  /** The word stands at msg[a..b], with a space or an end of the message on either side. */
  predicate WordAt(msg: Word, w: Word, a: int, b: int)
  {
    && 0 <= a <= b <= |msg| && msg[a..b] == w && SPACE !in w
    && (a == 0 || msg[a - 1] == SPACE) && (b == |msg| || msg[b] == SPACE)
  }

  ghost predicate HasWord(msg: Word, w: Word, start: int)
  {
    exists a, b :: start <= a && WordAt(msg, w, a, b)
  }

  lemma {:induction false} WordsExactly(msg: Word, w: Word, start: nat)
    requires start <= |msg| && (start == 0 || msg[start - 1] == SPACE)
    ensures w in Words(msg, start) <==> HasWord(msg, w, start)
    decreases |msg| - start
  {
    var split := IndexFrom(msg, SPACE, start);
    WordStands(msg, start, split);
    FirstWord(msg, w, start, split);
    hide WordAt, HasWord, IndexFrom;
    if split < |msg| {
      WordsExactly(msg, w, split + 1);
      NextWords(msg, start);
      hide Words;
    } else {
      assert msg[start..] == msg[start..split];
    }
  }

  lemma WordStands(msg: Word, start: nat, split: nat)
    requires start <= split <= |msg| && (start == 0 || msg[start - 1] == SPACE)
    requires split == IndexFrom(msg, SPACE, start)
    ensures WordAt(msg, msg[start..split], start, split)
  {
    hide IndexFrom;
    assert forall i | 0 <= i < split - start :: msg[start..split][i] == msg[start + i];
  }

  lemma NextWords(msg: Word, start: nat)
    requires start <= |msg| && IndexFrom(msg, SPACE, start) < |msg|
    ensures
      var split := IndexFrom(msg, SPACE, start);
      && Words(msg, start) == [msg[start..split]] + Words(msg, split + 1)
      && ThreeLetter(Words(msg, start)) == Kept(msg[start..split]) + ThreeLetter(Words(msg, split + 1))
  {
  }

  /** A word not before `start` is the first one or lies behind the first space. */
  lemma FirstWord(msg: Word, w: Word, start: nat, split: nat)
    requires start <= split <= |msg| && (forall i | start <= i < split :: msg[i] != SPACE)
    requires split < |msg| ==> msg[split] == SPACE
    requires WordAt(msg, msg[start..split], start, split)
    ensures HasWord(msg, w, start)
       <==> w == msg[start..split] || (split < |msg| && HasWord(msg, w, split + 1))
  {
    forall a, b | start <= a <= split < b <= |msg| ensures SPACE in msg[a..b] {
      assert msg[a..b][split - a] == SPACE;
    }
    forall a, b | start <= a && WordAt(msg, w, a, b)
      ensures (a == start && b == split) || (split < |msg| && a >= split + 1)
    {
    }
  }

  function Kept(w: Word): seq<Word> { if |w| == 3 then [w] else [] }

  function ThreeLetter(ws: seq<Word>): seq<Word>
  {
    if ws == [] then [] else Kept(ws[0]) + ThreeLetter(ws[1..])
  }

  lemma {:induction false} ThreeLetterExactly(ws: seq<Word>, w: Word)
    ensures w in ThreeLetter(ws) <==> w in ws && |w| == 3
  {
    if ws != [] {
      ThreeLetterExactly(ws[1..], w);
    }
  }

  // ---- the store ----

  class N0183IDStore {
    var ids: seq<Word>
    var count: nat

    ghost predicate Valid() reads this { count == |ids| }

    constructor ()
      ensures Valid() && ids == []
    {
      ids, count := [], 0;
    }

    method ClearIDList()
      modifies this
      ensures Valid() && ids == []
    {
      ids, count := [], 0;
    }

    /** Appends the three-character words of the message; nothing when the stored list cannot be read. */
    method AddIDs(msg: Word, readable: bool) returns (ok: bool)
      requires Valid()
      modifies this
      ensures Valid() && ok == readable
      ensures ids == if readable then old(ids) + ThreeLetter(Words(msg, 0)) else old(ids)
    {
      if !readable {
        return false;
      }
      hide *;
      var start := 0;
      var split := IndexFrom(msg, SPACE, start);
      while split < |msg|
        invariant start <= |msg| && split == IndexFrom(msg, SPACE, start)
        invariant count == |ids| && ids + ThreeLetter(Words(msg, start)) == old(ids) + ThreeLetter(Words(msg, 0))
        decreases |msg| - start
      {
        NextWords(msg, start);
        Regroup(ids, Kept(msg[start..split]), ThreeLetter(Words(msg, split + 1)));
        Store(msg[start..split]);
        start := split + 1;
        split := IndexFrom(msg, SPACE, start);
      }
      LastWord(msg, start);
      Store(msg[start..]);
      ok := true;
    }

    /** A word that does not have three characters is reported, not stored. */
    method Store(id: Word)
      requires count == |ids|
      modifies this
      ensures count == |ids| && ids == old(ids) + Kept(id)
    {
      if |id| == 3 {
        ids := ids + [id];
        count := count + 1;
      }
    }

    /** The set is emptied before the stored identifiers go in. */
    method BuildSet(s: set<Word>) returns (r: set<Word>)
      requires Valid()
      ensures r == set w | w in ids
    {
      r := {};
      for n := 0 to count
        invariant r == set w | w in ids[..n]
      {
        assert ids[..n + 1] == ids[..n] + [ids[n]];
        r := r + {ids[n]};
      }
      assert ids[..count] == ids;
    }
  }

  lemma LastWord(msg: Word, start: nat)
    requires start <= |msg| && IndexFrom(msg, SPACE, start) == |msg|
    ensures ThreeLetter(Words(msg, start)) == Kept(msg[start..])
  {
    assert Words(msg, start) == [msg[start..]];
    assert ThreeLetter([]) == [];
  }

  lemma Regroup<T>(a: seq<T>, b: seq<T>, c: seq<T>)
    ensures a + (b + c) == (a + b) + c
  {
  }

  // ---- what the list means ----

  /** The stored identifiers when the list has been cleared and then added to. */
  function IdsAfter(msgs: seq<Word>): seq<Word>
  {
    if msgs == [] then [] else IdsAfter(msgs[..|msgs| - 1]) + ThreeLetter(Words(msgs[|msgs| - 1], 0))
  }

  /** The three-character words the commands supplied, space-separated, are what is stored, and no other. */
  lemma {:induction false} StoredExactly(msgs: seq<Word>, w: Word)
    ensures w in IdsAfter(msgs) <==> |w| == 3 && Supplied(msgs, w)
  {
    if msgs != [] {
      var n := |msgs| - 1;
      StoredExactly(msgs[..n], w);
      WordsExactly(msgs[n], w, 0);
      ThreeLetterExactly(Words(msgs[n], 0), w);
      hide ThreeLetter;
      SuppliedMore(msgs, w);
      hide Supplied, HasWord, Words;
    }
  }

  /** Some command holds the word. */
  ghost predicate Supplied(msgs: seq<Word>, w: Word)
  {
    exists i :: 0 <= i < |msgs| && HasWord(msgs[i], w, 0)
  }

  lemma SuppliedMore(msgs: seq<Word>, w: Word)
    requires msgs != []
    ensures Supplied(msgs, w) <==> Supplied(msgs[..|msgs| - 1], w) || HasWord(msgs[|msgs| - 1], w, 0)
  {
    hide HasWord;
    var front := msgs[..|msgs| - 1];
    assert forall i | 0 <= i < |front| :: front[i] == msgs[i];
  }

  /** The commands in order, over the store and the set built from it. */
  method ClearAndAdd(store: N0183IDStore, msgs: seq<Word>) returns (filter: set<Word>)
    requires store.Valid()
    modifies store
    ensures store.Valid()
    ensures filter == set w | w in IdsAfter(msgs)
  {
    hide ThreeLetter, Words;
    store.ClearIDList();
    for i := 0 to |msgs|
      invariant store.Valid() && store.ids == IdsAfter(msgs[..i])
    {
      assert msgs[..i + 1][..i] == msgs[..i];
      var ok := store.AddIDs(msgs[i], true);
    }
    assert msgs[..|msgs|] == msgs;
    filter := store.BuildSet({});
  }

  // ---- filtering ----

  /** The three characters behind '$' and the talker, as far as the text goes. */
  function MessageID(text: seq<Char>): (id: Word)
    ensures |id| <= 3
  {
    var s := CString(text);
    if |s| <= 3 then [] else s[3..if |s| < 6 then |s| else 6]
  }

  /** `filterMessage`: true for a sentence to be dropped. */
  predicate Filtered(filter: set<Word>, text: seq<Char>)
  {
    if filter == {} then false else MessageID(text) !in filter
  }

  /** A sentence is dropped exactly when some identifier was supplied and its own was not. */
  lemma DroppedExactly(msgs: seq<Word>, text: seq<Char>)
    ensures
      var filter := set w | w in IdsAfter(msgs);
      Filtered(filter, text)
      <==> (exists w :: |w| == 3 && Supplied(msgs, w))
           && !(|MessageID(text)| == 3 && Supplied(msgs, MessageID(text)))
  {
    hide MessageID, Supplied;
    forall w: Word ensures w in IdsAfter(msgs) <==> |w| == 3 && Supplied(msgs, w) {
      StoredExactly(msgs, w);
    }
    hide IdsAfter;
    var filter := set w | w in IdsAfter(msgs);
    if filter != {} {
      var w :| w in filter;
      assert w in IdsAfter(msgs);
    }
    if w :| |w| == 3 && Supplied(msgs, w) {
      assert w in IdsAfter(msgs);
      assert w in filter;
    }
  }

  /** In a built message, the identifier is what stands behind the two characters of the talker. */
  lemma BuiltHasId(talker: Word, id: Word, rest: Word)
    requires |talker| == 2 && |id| == 3 && NUL !in talker + id
    ensures MessageID(Built(talker + id + rest)) == id
  {
    var payload := talker + id + rest;
    BuiltParts(payload);
    var t := Built(payload);
    assert t[0] == DOLLAR by { BuiltHasDollar(payload); }
    assert forall i | 1 <= i < 6 :: t[i] == t[1..|payload| + 1][i - 1] == (talker + id)[i - 1];
    hide Built;
    LongCString(t, 6);
    var s := CString(t);
    assert s[3..6] == id by { assert forall i | 0 <= i < 3 :: s[3 + i] == t[3 + i] == id[i]; }
  }

  lemma BuiltHasDollar(payload: Word)
    ensures Built(payload)[0] == DOLLAR
  {
    hide Xor, Hex;
  }

  lemma LongCString(t: Word, n: nat)
    requires n <= |t| && forall i | 0 <= i < n :: t[i] != NUL
    ensures |CString(t)| >= n
  {
    hide CString;
  }

  /** So a message of any talker is dropped exactly when some identifier was supplied and its own was not. */
  lemma BuiltDropped(msgs: seq<Word>, talker: Word, id: Word, rest: Word)
    requires |talker| == 2 && |id| == 3 && NUL !in talker + id
    ensures
      var filter := set w | w in IdsAfter(msgs);
      Filtered(filter, Built(talker + id + rest))
      <==> (exists w :: |w| == 3 && Supplied(msgs, w)) && !Supplied(msgs, id)
  {
    BuiltHasId(talker, id, rest);
    DroppedExactly(msgs, Built(talker + id + rest));
    hide Filtered, Supplied, IdsAfter, Built, MessageID;
  }
}
