/**
 The progress record of a finality provider (last voted and last processed height).
 It is held twice: an in-memory copy that every setter overwrites, and a stored copy that
 only grows.  This module states what the setters do to both copies and what any sequence of
 setter calls guarantees.
 */
module Progress {

  datatype Heights = Heights(voted: nat, processed: nat)

  /** The in-memory copy and the stored copy of one provider's progress. */
  datatype Copies = Copies(mem: Heights, disk: Heights)

  /** The two height setters. */
  datatype Write =
    | MarkProcessed(height: nat)
    | MarkVoted(height: nat)

  function Max(a: nat, b: nat): nat {
    if a < b then b else a
  }

  /** Effect of a setter on the stored copy: each height is raised, never lowered. */
  function Raise(d: Heights, w: Write): Heights {
    match w
    case MarkProcessed(h) => Heights(d.voted, Max(d.processed, h))
    case MarkVoted(h) => Heights(Max(d.voted, h), Max(d.processed, h))
  }

  /** Effect of a setter on the in-memory copy: plain assignment. */
  function Overwrite(m: Heights, w: Write): Heights {
    match w
    case MarkProcessed(h) => Heights(m.voted, h)
    case MarkVoted(h) => Heights(h, h)
  }

  function Put(c: Copies, w: Write): Copies {
    Copies(Overwrite(c.mem, w), Raise(c.disk, w))
  }

  function PutAll(c: Copies, ws: seq<Write>): Copies {
    if ws == [] then c else Put(PutAll(c, ws[..|ws| - 1]), ws[|ws| - 1])
  }

  /** The copy loaded by a new instance: memory is read back from the store. */
  function Reload(c: Copies): Copies {
    Copies(c.disk, c.disk)
  }

  ghost predicate AtMost(a: Heights, b: Heights) {
    a.voted <= b.voted && a.processed <= b.processed
  }

  // ---------------------------------------------------------------------------------------
  // The stored copy

  /** Under every sequence of setter calls the stored heights never decrease. */
  lemma {:induction false} StoredNeverDecreases(c: Copies, ws: seq<Write>, i: nat, j: nat)
    requires i <= j <= |ws|
    ensures AtMost(PutAll(c, ws[..i]).disk, PutAll(c, ws[..j]).disk)
    decreases j
  {
    if i < j {
      StoredNeverDecreases(c, ws, i, j - 1);
      assert ws[..j][..j - 1] == ws[..j - 1];
    }
  }

  /** The stored processed height is always at least the stored voted height. */
  lemma {:induction false} StoredProcessedCoversVoted(c: Copies, ws: seq<Write>)
    requires c.disk.voted <= c.disk.processed
    ensures PutAll(c, ws).disk.voted <= PutAll(c, ws).disk.processed
  {
    if ws != [] {
      StoredProcessedCoversVoted(c, ws[..|ws| - 1]);
    }
  }

  /** The stored heights are the maxima of the initial ones and of everything ever written. */
  lemma {:induction false} StoredIsHistoryMaximum(c: Copies, ws: seq<Write>)
    ensures var d := PutAll(c, ws).disk;
            && (forall w :: w in ws ==> w.height <= d.processed)
            && (forall w :: w in ws && w.MarkVoted? ==> w.height <= d.voted)
            && AtMost(c.disk, d)
            && (d.processed == c.disk.processed || exists w :: w in ws && w.height == d.processed)
            && (d.voted == c.disk.voted || exists w :: w in ws && w.MarkVoted? && w.height == d.voted)
  {
    if ws != [] {
      var front, last := ws[..|ws| - 1], ws[|ws| - 1];
      StoredIsHistoryMaximum(c, front);
      var d0 := PutAll(c, front).disk;
      assert ws == front + [last];
      if PutAll(c, ws).disk.processed != d0.processed {
        assert last in ws && last.height == PutAll(c, ws).disk.processed;
      }
      if PutAll(c, ws).disk.voted != d0.voted {
        assert last in ws && last.height == PutAll(c, ws).disk.voted;
      }
    }
  }

  // ---------------------------------------------------------------------------------------
  // Agreement of the two copies

  /** Every setter call writes a height at or above the in-memory processed height it finds. */
  ghost predicate NeverLowers(c: Copies, ws: seq<Write>) {
    forall i :: 0 <= i < |ws| ==> PutAll(c, ws[..i]).mem.processed <= ws[i].height
  }

  ghost predicate AgreeThroughout(c: Copies, ws: seq<Write>) {
    forall i :: 0 <= i <= |ws| ==> PutAll(c, ws[..i]).mem == PutAll(c, ws[..i]).disk
  }

  /** One call keeps agreeing copies equal exactly when it does not lower the processed height. */
  lemma PutAgreesIff(c: Copies, w: Write)
    requires c.mem == c.disk && c.disk.voted <= c.disk.processed
    ensures Put(c, w).mem == Put(c, w).disk <==> c.mem.processed <= w.height
  {
  }

  /** Two copies that agree at the start agree after every call if and only if no call
      writes a height below the current in-memory processed height. */
  lemma {:induction false} CopiesAgreeIffNeverLowered(c: Copies, ws: seq<Write>)
    requires c.mem == c.disk && c.disk.voted <= c.disk.processed
    ensures AgreeThroughout(c, ws) <==> NeverLowers(c, ws)
  {
    if AgreeThroughout(c, ws) {
      forall i | 0 <= i < |ws| ensures PutAll(c, ws[..i]).mem.processed <= ws[i].height {
        StepOf(c, ws, i);
        StoredProcessedCoversVoted(c, ws[..i]);
        PutAgreesIff(PutAll(c, ws[..i]), ws[i]);
        assert PutAll(c, ws[..i + 1]).mem == PutAll(c, ws[..i + 1]).disk;
      }
    }
    if NeverLowers(c, ws) {
      forall i | 0 <= i <= |ws| ensures PutAll(c, ws[..i]).mem == PutAll(c, ws[..i]).disk {
        NeverLoweredAgrees(c, ws, i);
      }
    }
  }

  lemma StepOf(c: Copies, ws: seq<Write>, i: nat)
    requires i < |ws|
    ensures PutAll(c, ws[..i + 1]) == Put(PutAll(c, ws[..i]), ws[i])
  {
    assert ws[..i + 1][..i] == ws[..i];
  }

  lemma {:induction false} NeverLoweredAgrees(c: Copies, ws: seq<Write>, i: nat)
    requires c.mem == c.disk && c.disk.voted <= c.disk.processed
    requires NeverLowers(c, ws) && i <= |ws|
    ensures PutAll(c, ws[..i]).mem == PutAll(c, ws[..i]).disk
  {
    if i > 0 {
      NeverLoweredAgrees(c, ws, i - 1);
      StepOf(c, ws, i - 1);
      StoredProcessedCoversVoted(c, ws[..i - 1]);
    }
  }

  /** The rule "last processed is at least last voted" of the in-memory copy survives a call
      exactly when the call writes a height at or above the in-memory voted height or is a vote. */
  lemma MemoryRuleKeptIff(c: Copies, w: Write)
    requires c.mem.voted <= c.mem.processed
    ensures Put(c, w).mem.voted <= Put(c, w).mem.processed <==> (w.MarkVoted? || c.mem.voted <= w.height)
  {
  }

  /** A fast sync that casts no vote writes height 0: the memory forgets, the store does not. */
  lemma VotelessSyncLowersMemoryOnly(h: nat)
    requires 0 < h
    ensures var c := Copies(Heights(h, h), Heights(h, h));
            var c' := Put(c, MarkProcessed(0));
            && c'.mem == Heights(h, 0)
            && c'.disk == c.disk
            && !(c'.mem.voted <= c'.mem.processed)
            && Reload(c').mem == c.mem
  {
  }
}
