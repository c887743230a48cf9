/** The receiver at work: one buffer that the assembler fills and every ring slot points to. */
module Receiver {
  import opened Options
  import opened Checksum
  import opened Nmea0183

  /** The bounded buffer: what is behind the insertion point is NUL. */
  class IncBuffer {
    var bufferLength: nat
    var sentence: array<Char>
    var insertPoint: nat

    ghost predicate Valid()
      reads this, sentence
    {
      && sentence.Length == bufferLength && insertPoint < bufferLength
      && forall i | insertPoint <= i < bufferLength :: sentence[i] == NUL
    }

    ghost function Contents(): (t: seq<Char>)
      requires Valid()
      reads this, sentence
    {
      sentence[..insertPoint]
    }

    constructor (maxLength: nat)
      requires maxLength > 0
      ensures Valid() && Contents() == [] && bufferLength == maxLength && fresh(sentence)
    {
      bufferLength := maxLength;
      sentence := new Char[maxLength](_ => NUL);
      insertPoint := 0;
    }

    /** Takes the character unless only the place for the final NUL is left. */
    method AddCharacter(a: Char) returns (ok: bool)
      requires Valid()
      modifies this, sentence
      ensures Valid() && sentence == old(sentence) && bufferLength == old(bufferLength)
      ensures ok == (|old(Contents())| < bufferLength - 1)
      ensures Contents() == if ok then old(Contents()) + [a] else old(Contents())
    {
      if insertPoint < bufferLength - 1 {
        sentence[insertPoint] := a;
        insertPoint := insertPoint + 1;
        return true;
      }
      ok := false;
    }

    method RemoveLastCharacter()
      requires Valid()
      modifies this, sentence
      ensures Valid() && sentence == old(sentence) && bufferLength == old(bufferLength)
      ensures Contents() == if old(Contents()) == [] then [] else old(Contents()[..insertPoint - 1])
    {
      if insertPoint > 0 {
        insertPoint := insertPoint - 1;
        sentence[insertPoint] := NUL;
      }
    }

    method Reset()
      requires sentence.Length == bufferLength > 0
      modifies this, sentence
      ensures Valid() && sentence == old(sentence) && bufferLength == old(bufferLength) && Contents() == []
    {
      for i := 0 to bufferLength
        invariant sentence == old(sentence) && bufferLength == old(bufferLength)
        invariant forall k | 0 <= k < i :: sentence[k] == NUL
      {
        sentence[i] := NUL;
      }
      insertPoint := 0;
    }

    method ResetLength(maxLength: nat)
      requires maxLength > 0
      modifies this
      ensures Valid() && fresh(sentence) && bufferLength == maxLength && Contents() == []
    {
      sentence := new Char[maxLength];
      bufferLength := maxLength;
      Reset();
    }
  }

  /** A sentence in the ring: its text is a reference, its length and time are its own. */
  datatype Slot = Slot(text: array<Char>, length: nat, stamp: nat)

  /** The assembler's fields; `buffer` is where the sentence under assembly, `text`, is kept. */
  datatype State = State(
    buffer: array<Char>, text: seq<Char>, stamp: nat, capturing: bool,
    slots: seq<Slot>, writePoint: nat, readPoint: nat)

  predicate InRange(s: State)
  {
    |s.text| <= MAX_TEXT && |s.slots| == RING && s.writePoint < RING && s.readPoint < RING
  }

  /** One character taken in. */
  function Took(s: State, x: In): (t: State)
    requires InRange(s)
    ensures InRange(t)
  {
    if x.c == DOLLAR then s.(text := [DOLLAR], stamp := x.at, capturing := true)
    else if !s.capturing || x.c == CR then s
    else if x.c == LF then
      s.(slots := s.slots[s.writePoint := Slot(s.buffer, |s.text|, s.stamp)],
         writePoint := (s.writePoint + 1) % RING, capturing := false)
    else if |s.text| < MAX_TEXT then s.(text := s.text + [x.c])
    else s.(capturing := false)
  }

  function TookAll(s: State, xs: seq<In>): (t: State)
    requires InRange(s)
    ensures InRange(t)
  {
    if xs == [] then s else Took(TookAll(s, xs[..|xs| - 1]), xs[|xs| - 1])
  }

  class MessageAssembler {
    const current: IncBuffer
    var stamp: nat
    var capturing: bool
    const ring: array<Slot>
    var readPoint: nat
    var writePoint: nat

    constructor ()
      ensures Valid() && fresh(current) && fresh(ring) && fresh(current.sentence)
      ensures Now().text == [] && !capturing && stamp == 0 && readPoint == writePoint == 0
    {
      current := new IncBuffer(BUFFER);
      var blank := new Char[BUFFER](_ => NUL);
      ring := new Slot[RING](_ => Slot(blank, 0, 0));
      stamp, capturing, readPoint, writePoint := 0, false, 0, 0;
    }

    ghost predicate Valid()
      reads this, current, current.sentence
    {
      && current.Valid() && current.bufferLength == BUFFER && Apart()
      && ring.Length == RING && readPoint < RING && writePoint < RING
    }

    ghost predicate Apart()
      reads this, current
    {
      var slots: object, text: object := ring, current.sentence;
      slots != text
    }

    ghost function Now(): (s: State)
      requires Valid()
      reads this, current, current.sentence, ring
      ensures InRange(s)
    {
      State(current.sentence, current.Contents(), stamp, capturing, ring[..], writePoint, readPoint)
    }

    /** One character from the channel. */
    method AddCharacter(c: Char, now: nat)
      requires Valid()
      modifies this, current, current.sentence, ring
      ensures Valid() && current.sentence == old(current.sentence)
      ensures Now() == Took(old(Now()), In(c, now))
    {
      if !capturing {
        if c == DOLLAR {
          Restart(c, now);
          capturing := true;
        }
      } else if c == LF {
        ring[writePoint] := Slot(current.sentence, current.insertPoint, stamp);
        writePoint := (writePoint + 1) % RING;
        capturing := false;
      } else if c == CR {
      } else if c == DOLLAR {
        Restart(c, now);
      } else {
        var ok := current.AddCharacter(c);
        if !ok {
          capturing := false;
        }
      }
    }

    /** A '$' starts the sentence anew, in the same buffer. */
    method Restart(c: Char, now: nat)
      requires Valid()
      modifies this, current, current.sentence
      ensures Valid() && current.sentence == old(current.sentence)
      ensures Now() == old(Now()).(text := [c], stamp := now)
    {
      current.Reset();
      stamp := now;
      var ok := current.AddCharacter(c);
    }

    /** The next sentence of the ring, unless the positions meet. */
    method NextSentence() returns (s: Option<Slot>)
      requires Valid()
      modifies this
      ensures Valid()
      ensures
        if old(readPoint) == writePoint then s.None? && Now() == old(Now())
        else s == Some(ring[old(readPoint)]) && Now() == old(Now()).(readPoint := (old(readPoint) + 1) % RING)
    {
      if readPoint == writePoint {
        return None;
      }
      s := Some(ring[readPoint]);
      readPoint := (readPoint + 1) % RING;
    }
  }
}
