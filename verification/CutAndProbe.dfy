/**
 A cut and the probe after it, put together: what the runner holds of the guest's room
 once the cut is forgotten and one probe went through (trim_with in
 packages/vm-runner/src/console.rs, forget_kernel_read and note_guest_room in
 packages/vm-runner/src/server.rs).
 */
module CutAndProbe {
  import opened Lines
  import opened RoomMarks
  import opened Wrappers
  import opened ConsoleTrim
  import Probe = ProbeProtocol

  // The cut is forgotten, and a probe begins, reads and publishes.
  function Forgotten(words: Words, s: Probe.Machine): Probe.Machine {
    Probe.Apply(words, s, Probe.CutIsForgotten)
  }

  function Begun(words: Words, s: Probe.Machine): Probe.Machine {
    Probe.Apply(words, Forgotten(words, s), Probe.ProbeBegins)
  }

  function HasRead(words: Words, s: Probe.Machine): Probe.Machine {
    Probe.Apply(words, Begun(words, s), Probe.ProbeReads)
  }

  function Published(words: Words, s: Probe.Machine): Probe.Machine {
    Probe.Apply(words, HasRead(words, s), Probe.ProbePublishes)
  }

  lemma WholeLogIsPublished(words: Words, s: Probe.Machine)
    requires Probe.Enabled(words, s, Probe.CutIsForgotten) && !s.booting && s.probe.None? && Whole(s.log)
    ensures Probe.Enabled(words, Forgotten(words, s), Probe.ProbeBegins)
    ensures Probe.Enabled(words, Begun(words, s), Probe.ProbeReads)
    ensures Probe.Enabled(words, HasRead(words, s), Probe.ProbePublishes)
    ensures var e, answer := Published(words, s), RoomFull(words, s.log);
            e.Settled() && e.log == s.log && e.read == |s.log|
                && e.full == if answer.Some? then answer.value else s.full
  {
    Probe.ReadOfAll(s.log);
  }

  /** After a cut and one probe the runner holds the fullness of the mark the cut file
      gives, or what it held before if that has none. The mark is the newest of the whole
      log, and its fullness what the runner holds, exactly when that mark survives the
      cut. */
  lemma ProbeAfterACut(words: Words, file: Bytes, size: nat, w: Writer, s: Probe.Machine, n: Mark)
    requires WholeLines(file, size, w)
    requires var all := MarksIn(words, Uncut(file, size, w));
             AllStamped(all) && StampsDecide(all) && Newest(all) == Some(n)
    requires s.rewriting && !s.booting && s.probe.None? && s.log == Trimmed(file, size, w)
    ensures n.at.Some?
    ensures var e, read := Published(words, s), Newest(MarksIn(words, Trimmed(file, size, w)));
            && e.Settled() && e.read == |e.log|
            && e.full == (if read.Some? then read.value.full else s.full)
            && (read == Some(n) <==> Survives(words, file, size, w, n))
            && (Survives(words, file, size, w, n) ==> e.full == n.full)
  {
    TrimmedIsWhole(file, size, w);
    WholeLogIsPublished(words, s);
    CutKeepsTheNewestMark(words, file, size, w, n);
  }

  lemma LaterLinesDecide(words: Words, left: Bytes, again: Bytes, s: Probe.Machine)
    requires Whole(left) && Whole(again) && RoomFull(words, again).Some? && Probe.NotOlder(words, left, again)
    requires s.rewriting && !s.booting && s.probe.None? && s.log == left + again
    ensures Published(words, s).Settled() && Published(words, s).read == |s.log|
    ensures Some(Published(words, s).full) == RoomFull(words, again)
  {
    WholeJoins(left, again);
    Probe.LaterStretchDecides(words, left, again);
    WholeLogIsPublished(words, s);
  }

  /** Whatever the cut did, what the guest says again after it decides: once lines with a
      mark, none older than what the cut left, are behind the cut file, one probe leaves
      the runner with the fullness they tell. */
  lemma RepeatedMarkIsHeld(words: Words, file: Bytes, size: nat, w: Writer, again: Bytes, s: Probe.Machine)
    requires WholeLines(file, size, w) && Whole(again) && RoomFull(words, again).Some?
    requires Probe.NotOlder(words, Trimmed(file, size, w), again)
    requires s.rewriting && !s.booting && s.probe.None? && s.log == Trimmed(file, size, w) + again
    ensures Published(words, s).Settled() && Published(words, s).read == |s.log|
    ensures Some(Published(words, s).full) == RoomFull(words, again)
  {
    TrimmedIsWhole(file, size, w);
    LaterLinesDecide(words, Trimmed(file, size, w), again, s);
  }
}
