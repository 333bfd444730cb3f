/**
 The ring's cursor algorithm as it is really computed, on 64-bit words that wrap: positions are masked to cells, claim
 compares by a wrapped signed difference, the helping loop and the compare-and-swaps by equality, dequeue by a plain
 unsigned comparison. It refines the machine on unbounded positions.
 */
module RingWords {
  import opened Bits
  import opened Slots
  import opened RingMachine
  import opened RingSafety
  import opened RingProgress

  /** A thread's point and its position words; fields of records are not looked at. */
  datatype WordPc =
    | LoadTail | LoadSeq(pos: nat) | Cas(pos: nat) | Full
    | Store(pos: nat) | HelpCommit | HelpTail(c: nat) | HelpSeq(c: nat) | HelpCas(c: nat) | HelpDone
    | TakeHead | TakeCommit(pos: nat) | TakeCas(pos: nat) | Confirm(pos: nat) | Empty | Fail(pos: nat) | Failed
    | Release(pos: nat) | Freed
    | Elsewhere

  /** The cursor and sequence words of a ring. */
  datatype WordRing = WordRing(mask: nat, tail: nat, commit: nat, head: nat, sequences: seq<nat>) {
    function Capacity(): nat { mask + 1 }

    predicate Has(pos: nat) { And(pos, mask) < |sequences| }

    function SequenceAt(pos: nat): nat
      requires Has(pos)
    {
      sequences[And(pos, mask)]
    }

    function Stored(pos: nat, value: nat): WordRing
      requires Has(pos)
    {
      this.(sequences := sequences[And(pos, mask) := Word64(value)])
    }
  }

  /** One step of claim. */
  function WordClaim(r: WordRing, pc: WordPc): (WordRing, WordPc)
    requires pc.LoadSeq? ==> r.Has(pc.pos)
  {
    match pc
    case LoadTail => (r, LoadSeq(r.tail))
    case LoadSeq(pos) =>
      var dif := SignedDifference(r.SequenceAt(pos), pos);
      (r, if dif == 0 then Cas(pos) else if dif < 0 then Full else LoadTail)
    case Cas(pos) => if r.tail == pos then (r.(tail := Word64(pos + 1)), Store(pos)) else (r, LoadTail)
    case _ => (r, pc)
  }

  /** The release store of publish, and one step of advanceCommit. */
  function WordAdvance(r: WordRing, pc: WordPc): (WordRing, WordPc)
    requires (pc.Store? ==> r.Has(pc.pos)) && (pc.HelpSeq? ==> r.Has(pc.c))
  {
    match pc
    case Store(pos) => (r.Stored(pos, pos + 1), HelpCommit)
    case HelpCommit => (r, HelpTail(r.commit))
    case HelpTail(c) => (r, if c == r.tail then HelpDone else HelpSeq(c))
    case HelpSeq(c) => (r, if r.SequenceAt(c) != Word64(c + 1) then HelpDone else HelpCas(c))
    case HelpCas(c) => (if r.commit == c then r.(commit := Word64(c + 1)) else r, HelpCommit)
    case _ => (r, pc)
  }

  /** One step of dequeue, and release. */
  function WordDequeue(r: WordRing, pc: WordPc): (WordRing, WordPc)
    requires pc.Confirm? || pc.Fail? || pc.Release? ==> r.Has(pc.pos)
  {
    match pc
    case TakeHead => (r, TakeCommit(r.head))
    case TakeCommit(pos) => (r, if pos >= r.commit then Empty else TakeCas(pos))
    case TakeCas(pos) => if r.head == pos then (r.(head := Word64(pos + 1)), Confirm(pos)) else (r, TakeHead)
    case Confirm(pos) => (r, if r.SequenceAt(pos) != Word64(pos + 1) then Fail(pos) else Release(pos))
    case Fail(pos) => (r.Stored(pos, pos + r.Capacity()), Failed)
    case Release(pos) => (r.Stored(pos, pos + r.Capacity()), Freed)
    case _ => (r, pc)
  }

  // ----------------------------------------------------------------- the words of a ring

  function WordsOf(s: Ring): (r: WordRing)
    requires 0 < s.capacity
    ensures |r.sequences| == |s.cells|
  {
    WordRing(s.capacity - 1, Word64(s.tail), Word64(s.commit), Word64(s.head),
             seq(|s.cells|, i requires 0 <= i < |s.cells| => Word64(s.cells[i].sequence)))
  }

  function WordPcOf(pc: Pc): WordPc {
    match pc
    case ClaimLoadTail(_) => LoadTail
    case ClaimLoadSeq(_, pos) => LoadSeq(Word64(pos))
    case ClaimCas(_, pos) => Cas(Word64(pos))
    case ClaimFull => Full
    case Writing(_, pos, _) => Store(Word64(pos))
    case AdvLoadCommit(_) => HelpCommit
    case AdvLoadTail(_, c) => HelpTail(Word64(c))
    case AdvLoadSeq(_, c) => HelpSeq(Word64(c))
    case AdvCas(_, c) => HelpCas(Word64(c))
    case Published(_) => HelpDone
    case DeqLoadHead => TakeHead
    case DeqLoadCommit(pos) => TakeCommit(Word64(pos))
    case DeqCas(pos) => TakeCas(Word64(pos))
    case DeqConfirm(pos) => Confirm(Word64(pos))
    case DeqEmpty => Empty
    case BrokenRelease(pos) => Fail(Word64(pos))
    case Broken => Failed
    case Reading(pos, _) => Release(Word64(pos))
    case Releasing(pos) => Release(Word64(pos))
    case Released(_) => Freed
    case _ => Elsewhere
  }

  /** Steps that write or read the fields of a record, and leave the cursor words alone. */
  predicate OnFields(pc: Pc) { (pc.Writing? && pc.done < pc.req.Words()) || pc.Reading? }

  /** What the thread remembers is less than 2^63 positions old. */
  predicate Recent(s: Ring, pos: nat) { s.tail + s.capacity < pos + TWO63 }

  predicate Near(s: Ring, pc: Pc) {
    match pc
    case ClaimLoadSeq(_, pos) => Recent(s, pos)
    case ClaimCas(_, pos) => Recent(s, pos)
    case AdvLoadTail(_, c) => Recent(s, c)
    case AdvLoadSeq(_, c) => Recent(s, c)
    case AdvCas(_, c) => Recent(s, c)
    case DeqLoadCommit(pos) => Recent(s, pos)
    case DeqCas(pos) => Recent(s, pos)
    case _ => true
  }

  /** No multiple of 2^64 separates what dequeue compares, or it is the same position. */
  predicate SameEra(s: Ring, pc: Pc) {
    pc.DeqLoadCommit? ==> pc.pos == s.commit || pc.pos / TWO64 == s.commit / TWO64
  }

  /** Words of positions less than 2^64 apart are equal only for equal positions. */
  lemma WordsDiffer(x: nat, y: nat)
    requires x < y + TWO64 && y < x + TWO64
    ensures Word64(x) == Word64(y) <==> x == y
  {
  }

  lemma WordAdd(x: nat, d: nat)
    ensures Word64(Word64(x) + d) == Word64(x + d)
  {
  }

  /** Masking the word of a position finds the cell of the position. */
  lemma FindsCell(s: Ring, pos: nat, k: nat)
    requires 0 < s.capacity == |s.cells| && s.capacity == Pow2(k) && k <= 63
    ensures And(Word64(pos), s.capacity - 1) == Slot(pos, s.capacity)
    ensures WordsOf(s).Has(Word64(pos)) && WordsOf(s).SequenceAt(Word64(pos)) == Word64(SeqOf(s, pos))
  {
    MaskSurvivesWrap(pos, k);
    hide And;
    hide Pow2;
  }

  /** A store to the sequence word of a position is one to the cell its word is masked to. */
  lemma StoresWord(s: Ring, t: nat, pc: Pc, pos: nat, value: nat, k: nat)
    requires 0 < s.capacity == |s.cells| && s.capacity == Pow2(k) && k <= 63 && t < |s.pcs|
    ensures WordsOf(s).Has(Word64(pos))
    ensures WordsOf(StoreSeq(Goto(s, t, pc), pos, value)) == WordsOf(s).Stored(Word64(pos), value)
  {
    FindsCell(s, pos, k);
    hide And;
    hide Slot;
    hide Pow2;
  }

  lemma SameWords(s: Ring, s': Ring)
    requires 0 < s.capacity == s'.capacity && |s'.cells| == |s.cells|
    requires forall i :: 0 <= i < |s.cells| ==> s'.cells[i].sequence == s.cells[i].sequence
    ensures WordsOf(s') == WordsOf(s).(
              tail := Word64(s'.tail), commit := Word64(s'.commit), head := Word64(s'.head))
  {
  }

  /** The sequence word of a position not beyond tail differs from it by less than 2^63. */
  lemma SmallGap(s: Ring, pos: nat)
    requires Inv(s) && pos <= s.tail && Recent(s, pos)
    ensures -(TWO63 as int) <= SeqOf(s, pos) - pos < TWO63
  {
    hide Slot;
    assert CellOk(s, Slot(pos, s.capacity));
    if SeqOf(s, pos) < pos {
      StaleClaim(s, pos);
    }
  }

  // ----------------------------------------------------------------- one operation at a time

  ghost predicate Binary(s: Ring, k: nat) { s.capacity == Pow2(k) && k <= 63 }

  lemma Bounds(s: Ring, t: nat)
    requires Inv(s) && t < |s.pcs|
    ensures Sized(s) && s.head <= s.commit <= s.tail <= s.head + s.capacity
    ensures var pc := s.pcs[t];
      && (pc.ClaimLoadSeq? || pc.ClaimCas? ==> pc.pos <= s.tail)
      && (pc.AdvLoadTail? || pc.AdvLoadSeq? || pc.AdvCas? ==> pc.c <= s.commit)
      && (pc.DeqLoadCommit? || pc.DeqCas? ==> pc.pos <= s.head)
      && (pc.DeqConfirm? ==> SeqOf(s, pc.pos) == pc.pos + 1)
      && !pc.BrokenRelease?
  {
    hide CellOk;
    hide Slot;
    assert ThreadOk(s, t);
  }

  /** The signed difference claim decides by. */
  lemma DifferenceRefines(s: Ring, pos: nat, k: nat)
    requires Inv(s) && Sized(s) && Binary(s, k) && pos <= s.tail && Recent(s, pos)
    ensures WordsOf(s).Has(Word64(pos))
    ensures SignedDifference(WordsOf(s).SequenceAt(Word64(pos)), Word64(pos)) == SeqOf(s, pos) - pos
  {
    hide Inv;
    hide And;
    hide Slot;
    hide Pow2;
    hide WordsOf;
    hide SignedDifference;
    SmallGap(s, pos);
    SignedDifferenceExact(SeqOf(s, pos), pos);
    FindsCell(s, pos, k);
    hide WordRing.SequenceAt;
    hide WordRing.Has;
    hide Word64;
  }

  lemma ClaimRefines(s: Ring, t: nat, k: nat)
    requires Inv(s) && Enabled(s, Step(t)) && InClaim(s.pcs[t]) && Binary(s, k) && Near(s, s.pcs[t])
    ensures var r, pc, s' := WordsOf(s), WordPcOf(s.pcs[t]), ClaimStep(s, t);
      && (pc.LoadSeq? ==> r.Has(pc.pos))
      && WordClaim(r, pc) == (WordsOf(s'), WordPcOf(s'.pcs[t]))
  {
    Bounds(s, t);
    hide Inv;
    hide And;
    hide Slot;
    hide Pow2;
    hide SignedDifference;
    var pc, s' := s.pcs[t], ClaimStep(s, t);
    SameWords(s, s');
    hide WordsOf;
    if pc.ClaimLoadSeq? {
      DifferenceRefines(s, pc.pos, k);
      hide WordRing.SequenceAt;
      hide WordRing.Has;
      hide Word64;
    } else if pc.ClaimCas? {
      WordsDiffer(s.tail, pc.pos);
      WordAdd(pc.pos, 1);
      hide Word64;
    }
  }

  lemma StoreRefines(s: Ring, t: nat, k: nat)
    requires Inv(s) && Enabled(s, Step(t)) && s.pcs[t].Writing? && !OnFields(s.pcs[t]) && Binary(s, k)
    ensures var r, pc, s' := WordsOf(s), WordPcOf(s.pcs[t]), WriteStep(s, t);
      r.Has(pc.pos) && WordAdvance(r, pc) == (WordsOf(s'), WordPcOf(s'.pcs[t]))
  {
    var Writing(req, pos, done) := s.pcs[t];
    StoresWord(s, t, AdvLoadCommit(pos), pos, pos + 1, k);
    WordAdd(pos, 1);
    hide Inv;
    hide And;
    hide Slot;
    hide Pow2;
    hide WordsOf;
    hide Word64;
  }

  /** The helping loop's look at a sequence word. */
  lemma LookRefines(s: Ring, c: nat, k: nat)
    requires Inv(s) && Sized(s) && Binary(s, k) && c <= s.tail && Recent(s, c)
    ensures WordsOf(s).Has(Word64(c))
    ensures WordsOf(s).SequenceAt(Word64(c)) == Word64(Word64(c) + 1) <==> SeqOf(s, c) == c + 1
  {
    hide Inv;
    hide And;
    hide Slot;
    hide Pow2;
    hide WordsOf;
    SmallGap(s, c);
    WordsDiffer(SeqOf(s, c), c + 1);
    FindsCell(s, c, k);
    WordAdd(c, 1);
    hide WordRing.SequenceAt;
    hide WordRing.Has;
  }

  lemma AdvanceRefines(s: Ring, t: nat, k: nat)
    requires Inv(s) && Enabled(s, Step(t)) && InAdvance(s.pcs[t]) && Binary(s, k) && Near(s, s.pcs[t])
    ensures var r, pc, s' := WordsOf(s), WordPcOf(s.pcs[t]), AdvanceStep(s, t);
      && (pc.HelpSeq? ==> r.Has(pc.c))
      && WordAdvance(r, pc) == (WordsOf(s'), WordPcOf(s'.pcs[t]))
  {
    Bounds(s, t);
    hide Inv;
    hide And;
    hide Slot;
    hide Pow2;
    var pc, s' := s.pcs[t], AdvanceStep(s, t);
    SameWords(s, s');
    hide WordsOf;
    if pc.AdvLoadTail? {
      WordsDiffer(pc.c, s.tail);
    } else if pc.AdvLoadSeq? {
      LookRefines(s, pc.c, k);
    } else if pc.AdvCas? {
      WordsDiffer(s.commit, pc.c);
      WordAdd(pc.c, 1);
    }
    hide WordRing.SequenceAt;
    hide Word64;
  }

  /** The comparison of dequeue, and the compare-and-swap after it. */
  lemma TakeRefines(s: Ring, t: nat)
    requires Inv(s) && Enabled(s, Step(t)) && (s.pcs[t].DeqLoadCommit? || s.pcs[t].DeqCas?)
    requires Near(s, s.pcs[t]) && SameEra(s, s.pcs[t])
    ensures var s' := DequeueStep(s, t);
      WordDequeue(WordsOf(s), WordPcOf(s.pcs[t])) == (WordsOf(s'), WordPcOf(s'.pcs[t]))
  {
    Bounds(s, t);
    hide Inv;
    hide Slot;
    hide Sized;
    var pc, s' := s.pcs[t], DequeueStep(s, t);
    SameWords(s, s');
    hide WordsOf;
    if pc.DeqLoadCommit? {
      UnsignedCompareExact(pc.pos, s.commit);
    } else {
      WordsDiffer(s.head, pc.pos);
      WordAdd(pc.pos, 1);
    }
    hide Word64;
  }

  lemma DequeueRefines(s: Ring, t: nat, k: nat)
    requires Inv(s) && Enabled(s, Step(t)) && InDequeue(s.pcs[t]) && Binary(s, k)
    requires Near(s, s.pcs[t]) && SameEra(s, s.pcs[t])
    ensures var r, pc, s' := WordsOf(s), WordPcOf(s.pcs[t]), DequeueStep(s, t);
      && (pc.Confirm? || pc.Fail? || pc.Release? ==> r.Has(pc.pos))
      && WordDequeue(r, pc) == (WordsOf(s'), WordPcOf(s'.pcs[t]))
  {
    if s.pcs[t].DeqLoadCommit? || s.pcs[t].DeqCas? {
      TakeRefines(s, t);
      return;
    }
    Bounds(s, t);
    hide Inv;
    hide And;
    hide Slot;
    hide Pow2;
    var pc, s' := s.pcs[t], DequeueStep(s, t);
    SameWords(s, s');
    hide WordsOf;
    if pc.DeqConfirm? {
      FindsCell(s, pc.pos, k);
      WordAdd(pc.pos, 1);
    }
    hide WordRing.SequenceAt;
    hide Word64;
  }

  lemma ReleaseRefines(s: Ring, t: nat, k: nat)
    requires Inv(s) && Enabled(s, Step(t)) && s.pcs[t].Releasing? && Binary(s, k)
    ensures var r, pc, s' := WordsOf(s), WordPcOf(s.pcs[t]), ReadStep(s, t);
      r.Has(pc.pos) && WordDequeue(r, pc) == (WordsOf(s'), WordPcOf(s'.pcs[t]))
  {
    var pos := s.pcs[t].pos;
    StoresWord(s, t, Released(pos), pos, pos + s.capacity, k);
    WordAdd(pos, s.capacity);
    assert WordsOf(s).Capacity() == s.capacity;
    hide Inv;
    hide And;
    hide Slot;
    hide Pow2;
    hide WordsOf;
    hide Word64;
  }

  lemma FieldsRefine(s: Ring, t: nat)
    requires Enabled(s, Step(t)) && OnFields(s.pcs[t])
    ensures var s' := StepOf(s, t);
      0 < s.capacity == s'.capacity && WordsOf(s') == WordsOf(s) && WordPcOf(s'.pcs[t]) == WordPcOf(s.pcs[t])
  {
    hide Slot;
    SameWords(s, StepOf(s, t));
    hide WordsOf;
  }

  /** The step the words take, by operation. */
  ghost predicate WordsStep(r: WordRing, pc: WordPc, r': WordRing, pc': WordPc) {
    if pc.LoadTail? || pc.LoadSeq? || pc.Cas? then
      (pc.LoadSeq? ==> r.Has(pc.pos)) && WordClaim(r, pc) == (r', pc')
    else if pc.Store? || pc.HelpCommit? || pc.HelpTail? || pc.HelpSeq? || pc.HelpCas? then
      (pc.Store? ==> r.Has(pc.pos)) && (pc.HelpSeq? ==> r.Has(pc.c)) && WordAdvance(r, pc) == (r', pc')
    else
      (pc.Confirm? || pc.Fail? || pc.Release? ==> r.Has(pc.pos)) && WordDequeue(r, pc) == (r', pc')
  }

  /**
   Each step of claim, publish, advanceCommit, dequeue and release on wrapped words does what the step on unbounded
   positions does: the same branch, the same cell, the same stored words; steps on the fields of a record leave the
   words alone. Capacity is a power of two, what the thread remembers is less than 2^63 positions old, and no multiple
   of 2^64 lies between what dequeue compares.
   */
  lemma WordStepRefines(s: Ring, t: nat, k: nat)
    requires Inv(s) && Enabled(s, Step(t)) && !s.pcs[t].PendLoadHead? && !s.pcs[t].PendLoadTail?
    requires Binary(s, k) && Near(s, s.pcs[t]) && SameEra(s, s.pcs[t])
    ensures var s' := StepOf(s, t);
      0 < s'.capacity &&
      var r, pc, r', pc' := WordsOf(s), WordPcOf(s.pcs[t]), WordsOf(s'), WordPcOf(s'.pcs[t]);
      if OnFields(s.pcs[t]) then r' == r && pc' == pc else WordsStep(r, pc, r', pc')
  {
    hide Inv;
    hide WordsOf;
    hide WordClaim;
    hide WordAdvance;
    hide WordDequeue;
    hide ClaimStep;
    hide WriteStep;
    hide AdvanceStep;
    hide DequeueStep;
    hide ReadStep;
    hide Near;
    hide Sized;
    var pc := s.pcs[t];
    if OnFields(pc) {
      FieldsRefine(s, t);
    } else if InClaim(pc) {
      ClaimRefines(s, t, k);
    } else if pc.Writing? {
      StoreRefines(s, t, k);
    } else if InAdvance(pc) {
      AdvanceRefines(s, t, k);
    } else if InDequeue(pc) {
      DequeueRefines(s, t, k);
    } else {
      ReleaseRefines(s, t, k);
    }
  }

  // ----------------------------------------------------------------- where the words go wrong

  /** Any `capacity` consecutive positions fall on that many distinct cells, wherever the words wrap. */
  lemma ConsecutiveCellsDistinct(first: nat, k: nat, i: nat, j: nat)
    requires k <= 63 && i < j < Pow2(k)
    ensures And(Word64(first + i), Pow2(k) - 1) < Pow2(k)
    ensures And(Word64(first + i), Pow2(k) - 1) != And(Word64(first + j), Pow2(k) - 1)
  {
    MaskSurvivesWrap(first + i, k);
    MaskSurvivesWrap(first + j, k);
    if Slot(first + i, Pow2(k)) == Slot(first + j, Pow2(k)) {
      SlotUnique(first + i, first + j, Pow2(k));
    }
  }

  /**
   dequeue compares wrapped words as plain unsigned numbers. For a head and a commit of a reachable ring
   smaller than 2^64 cells that is right exactly when they are equal or no multiple of 2^64 lies between them.
   */
  lemma DequeueComparisonExact(s: Ring)
    requires Inv(s) && s.capacity < TWO64
    ensures (Word64(s.head) >= Word64(s.commit) <==> s.head >= s.commit)
      <==> (s.head == s.commit || s.head / TWO64 == s.commit / TWO64)
  {
    UnsignedCompareExact(s.head, s.commit);
  }

  /** pending, on words. */
  function WordPending(head: nat, tail: nat): int { if tail < head then 0 else tail - head }

  /**
   pending on words gives what it gives on positions exactly when no multiple of 2^64 lies between its two loads, and
   zero otherwise.
   */
  lemma PendingWordsExact(s: Ring, t: nat)
    requires Inv(s) && Enabled(s, Step(t)) && s.pcs[t].PendLoadTail? && s.tail < s.pcs[t].h + TWO64
    ensures var h, n := s.pcs[t].h, StepOf(s, t).pcs[t].n;
      && (WordPending(Word64(h), Word64(s.tail)) == n <==> h == s.tail || h / TWO64 == s.tail / TWO64)
      && (WordPending(Word64(h), Word64(s.tail)) != n ==> WordPending(Word64(h), Word64(s.tail)) == 0)
  {
    hide CellOk;
    assert ThreadOk(s, t);
    assert s.pcs[t].h <= s.head <= s.tail;
    hide Inv;
    hide ThreadOk;
    WordPendingExact(s.pcs[t].h, s.tail);
    hide Word64;
  }

  lemma WordPendingExact(head: nat, tail: nat)
    requires head <= tail < head + TWO64
    ensures WordPending(Word64(head), Word64(tail)) == tail - head <==> head == tail || head / TWO64 == tail / TWO64
    ensures WordPending(Word64(head), Word64(tail)) != tail - head ==> WordPending(Word64(head), Word64(tail)) == 0
  {
  }
}
