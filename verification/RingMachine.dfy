/**
 The multi-producer multi-consumer sequence ring as an interleaved machine: any number of threads, and one
 atomic load, store or compare-and-swap per step. Every thread runs one of the ring's operations at a time:
 publishing (claim, field-by-field write, release store, helping loop), dequeuing (with the read-out of the
 record and the later release), or reading the occupancy.
 */
module RingMachine {
  import opened Records
  import opened Slots

  datatype Cell = Cell(sequence: nat, words: seq<Word>)

  /** Where a thread is inside a ring operation, with the operation's local variables. */
  datatype Pc =
    | Idle
    // claim
    | ClaimLoadTail(req: Request)
    | ClaimLoadSeq(req: Request, pos: nat)
    | ClaimCas(req: Request, pos: nat)
    | ClaimFull
    // publish: `done` words written so far, then the release store
    | Writing(req: Request, pos: nat, done: nat)
    // advanceCommit, on behalf of the record published at pos
    | AdvLoadCommit(pos: nat)
    | AdvLoadTail(pos: nat, c: nat)
    | AdvLoadSeq(pos: nat, c: nat)
    | AdvCas(pos: nat, c: nat)
    | Published(pos: nat)
    // dequeue
    | DeqLoadHead
    | DeqLoadCommit(pos: nat)
    | DeqCas(pos: nat)
    | DeqConfirm(pos: nat)
    | DeqEmpty
    | BrokenRelease(pos: nat)
    | Broken
    // the words read so far, first by dequeue and then by the handler; then release
    | Reading(pos: nat, buf: seq<Word>)
    | Releasing(pos: nat)
    | Released(pos: nat)
    // pending; history: `first` is the true occupancy at its first load, `upTo` is tail at its second
    | PendLoadHead
    | PendLoadTail(h: nat, first: int)
    | PendingIs(n: nat, first: int, upTo: nat)

  datatype Op = Publish(req: Request) | Dequeue | Pending

  datatype Action = Invoke(thread: nat, op: Op) | Step(thread: nat) | Return(thread: nat)

  /** A thread's won and lost compare-and-swaps (and stale reads) per cursor. */
  datatype Tally = Tally(claims: nat, claimRetries: nat, commits: nat, commitRetries: nat, takes: nat, takeRetries: nat)

  datatype Claimed = Claimed(thread: nat, req: Request)

  /**
   The ring and the threads inside it. The last five fields record history and influence no step:
   log[p] is the claim that won position p; takes[p] is the thread whose head compare-and-swap took position p;
   got[p] is the record that thread read out of its cell; owner[i] is the position last claimed in cell i
   (i - capacity before the first claim); tallies counts the compare-and-swap outcomes per thread.
   */
  datatype Ring = Ring(
    capacity: nat, payloadCap: nat, epoch: nat,
    tail: nat, commit: nat, head: nat,
    cells: seq<Cell>, pcs: seq<Pc>,
    log: seq<Claimed>, takes: seq<nat>, got: map<nat, Record>, owner: seq<int>, tallies: seq<Tally>)

  ghost predicate Sized(s: Ring) {
    && 0 < s.capacity == |s.cells| == |s.owner|
    && |s.tallies| == |s.pcs|
    && forall i :: 0 <= i < s.capacity ==> |s.cells[i].words| == HEADER_WORDS + s.payloadCap
  }

  /** A ring fresh from initRing, used by `threads` idle threads. */
  ghost predicate Init(s: Ring, threads: nat) {
    && Sized(s)
    && s.tail == s.commit == s.head == 0
    && |s.pcs| == threads
    && (forall i :: 0 <= i < s.capacity ==> s.cells[i].sequence == i && s.owner[i] == i - s.capacity)
    && (forall t :: 0 <= t < threads ==> s.pcs[t] == Idle && s.tallies[t] == Tally(0, 0, 0, 0, 0, 0))
    && s.log == [] && s.takes == [] && s.got == map[]
  }

  predicate Returned(pc: Pc) {
    pc.ClaimFull? || pc.Published? || pc.DeqEmpty? || pc.Broken? || pc.Released? || pc.PendingIs?
  }

  ghost predicate Enabled(s: Ring, a: Action) {
    && Sized(s)
    && a.thread < |s.pcs|
    && match a
       case Invoke(t, Publish(req)) => s.pcs[t].Idle? && |req.payload| <= s.payloadCap
       case Invoke(t, _) => s.pcs[t].Idle?
       case Step(t) => !s.pcs[t].Idle? && !Returned(s.pcs[t]) && WellTyped(s, s.pcs[t])
       case Return(t) => Returned(s.pcs[t])
  }

  /** The bounds on local variables under which a step is meaningful; they hold in every reachable state. */
  predicate WellTyped(s: Ring, pc: Pc) {
    && (pc.Writing? ==> pc.req.Words() <= HEADER_WORDS + s.payloadCap && pc.done <= pc.req.Words())
    && (pc.Reading? ==> |pc.buf| <= HEADER_WORDS + s.payloadCap)
    && (pc.Reading? && 0 < |pc.buf| ==> |pc.buf| <= HEADER_WORDS + pc.buf[0] <= HEADER_WORDS + s.payloadCap)
  }

  function Goto(s: Ring, t: nat, pc: Pc): Ring
    requires t < |s.pcs|
  {
    s.(pcs := s.pcs[t := pc])
  }

  function Count(s: Ring, t: nat, tally: Tally): Ring
    requires t < |s.tallies|
  {
    s.(tallies := s.tallies[t := tally])
  }

  function SeqOf(s: Ring, pos: nat): nat
    requires 0 < s.capacity == |s.cells|
  {
    s.cells[Slot(pos, s.capacity)].sequence
  }

  function StoreSeq(s: Ring, pos: nat, value: nat): Ring
    requires 0 < s.capacity == |s.cells|
  {
    var i := Slot(pos, s.capacity);
    s.(cells := s.cells[i := s.cells[i].(sequence := value)])
  }

  /** The effect of one action. */
  ghost function Apply(s: Ring, a: Action): (s': Ring)
    requires Enabled(s, a)
    ensures Framed(s, a.thread, s')
  {
    match a
    case Invoke(t, Publish(req)) => Goto(s, t, ClaimLoadTail(req))
    case Invoke(t, Dequeue) => Goto(s, t, DeqLoadHead)
    case Invoke(t, Pending) => Goto(s, t, PendLoadHead)
    case Return(t) => Goto(s, t, Idle)
    case Step(t) => StepOf(s, t)
  }

  predicate InClaim(pc: Pc) { pc.ClaimLoadTail? || pc.ClaimLoadSeq? || pc.ClaimCas? }

  predicate InAdvance(pc: Pc) { pc.AdvLoadCommit? || pc.AdvLoadTail? || pc.AdvLoadSeq? || pc.AdvCas? }

  predicate InDequeue(pc: Pc) {
    pc.DeqLoadHead? || pc.DeqLoadCommit? || pc.DeqCas? || pc.DeqConfirm? || pc.BrokenRelease?
  }

  predicate InRead(pc: Pc) { pc.Reading? || pc.Releasing? }

  /** What every step leaves alone, and that only the acting thread moves. */
  ghost predicate Framed(s: Ring, t: nat, s': Ring) {
    && t < |s.pcs| == |s'.pcs| && t < |s.tallies| == |s'.tallies|
    && s'.pcs == s.pcs[t := s'.pcs[t]] && s'.tallies == s.tallies[t := s'.tallies[t]]
    && s'.capacity == s.capacity && s'.payloadCap == s.payloadCap && s'.epoch == s.epoch
    && (s'.got == s.got || s.pcs[t].Reading?)
  }

  /** One atomic step of thread t. */
  ghost function StepOf(s: Ring, t: nat): (s': Ring)
    requires Enabled(s, Step(t))
    ensures Framed(s, t, s')
  {
    var pc := s.pcs[t];
    if InClaim(pc) then ClaimStep(s, t)
    else if pc.Writing? then WriteStep(s, t)
    else if InAdvance(pc) then AdvanceStep(s, t)
    else if InDequeue(pc) then DequeueStep(s, t)
    else if InRead(pc) then ReadStep(s, t)
    else PendingStep(s, t)
  }

  /** claim: load tail, load the sequence word and compare it with the position, compare-and-swap tail. */
  ghost function ClaimStep(s: Ring, t: nat): (s': Ring)
    requires Enabled(s, Step(t)) && InClaim(s.pcs[t])
    ensures Framed(s, t, s')
  {
    var y := s.tallies[t];
    match s.pcs[t]
    case ClaimLoadTail(req) => Goto(s, t, ClaimLoadSeq(req, s.tail))
    case ClaimLoadSeq(req, pos) =>
      var dif := SeqOf(s, pos) - pos;
      if dif == 0 then Goto(s, t, ClaimCas(req, pos))
      else if dif < 0 then Goto(s, t, ClaimFull)
      else Count(Goto(s, t, ClaimLoadTail(req)), t, y.(claimRetries := y.claimRetries + 1))
    case ClaimCas(req, pos) =>
      if s.tail == pos then
        Count(Goto(s, t, Writing(req, pos, 0)), t, y.(claims := y.claims + 1)).(
          tail := pos + 1,
          log := s.log + [Claimed(t, req)],
          owner := s.owner[Slot(pos, s.capacity) := pos])
      else Count(Goto(s, t, ClaimLoadTail(req)), t, y.(claimRetries := y.claimRetries + 1))
  }

  /** publish: one header word or payload byte at a time, and then the release store of the sequence word. */
  ghost function WriteStep(s: Ring, t: nat): (s': Ring)
    requires Enabled(s, Step(t)) && s.pcs[t].Writing?
    ensures Framed(s, t, s')
  {
    var Writing(req, pos, done) := s.pcs[t];
    if done < req.Words() then
      var i := Slot(pos, s.capacity);
      var j := WriteAt(|req.payload|, done);
      Goto(s, t, Writing(req, pos, done + 1)).(
        cells := s.cells[i := s.cells[i].(words := s.cells[i].words[j := ImageWord(req, s.epoch, j)])])
    else StoreSeq(Goto(s, t, AdvLoadCommit(pos)), pos, pos + 1)
  }

  /**
   advanceCommit: load commit, stop at tail or at an unpublished cell, otherwise compare-and-swap commit and go on.
   */
  ghost function AdvanceStep(s: Ring, t: nat): (s': Ring)
    requires Enabled(s, Step(t)) && InAdvance(s.pcs[t])
    ensures Framed(s, t, s')
  {
    var y := s.tallies[t];
    match s.pcs[t]
    case AdvLoadCommit(pos) => Goto(s, t, AdvLoadTail(pos, s.commit))
    case AdvLoadTail(pos, c) => Goto(s, t, if c == s.tail then Published(pos) else AdvLoadSeq(pos, c))
    case AdvLoadSeq(pos, c) => Goto(s, t, if SeqOf(s, c) != c + 1 then Published(pos) else AdvCas(pos, c))
    case AdvCas(pos, c) =>
      if s.commit == c then
        Count(Goto(s, t, AdvLoadCommit(pos)), t, y.(commits := y.commits + 1)).(commit := c + 1)
      else Count(Goto(s, t, AdvLoadCommit(pos)), t, y.(commitRetries := y.commitRetries + 1))
  }

  /** dequeue up to its confirmation that the taken cell is published; the other outcome releases and fails. */
  ghost function DequeueStep(s: Ring, t: nat): (s': Ring)
    requires Enabled(s, Step(t)) && InDequeue(s.pcs[t])
    ensures Framed(s, t, s')
  {
    var y := s.tallies[t];
    match s.pcs[t]
    case DeqLoadHead => Goto(s, t, DeqLoadCommit(s.head))
    case DeqLoadCommit(pos) => Goto(s, t, if pos >= s.commit then DeqEmpty else DeqCas(pos))
    case DeqCas(pos) =>
      if s.head == pos then
        Count(Goto(s, t, DeqConfirm(pos)), t, y.(takes := y.takes + 1)).(head := pos + 1, takes := s.takes + [t])
      else Count(Goto(s, t, DeqLoadHead), t, y.(takeRetries := y.takeRetries + 1))
    case DeqConfirm(pos) => Goto(s, t, if SeqOf(s, pos) != pos + 1 then BrokenRelease(pos) else Reading(pos, []))
    case BrokenRelease(pos) => StoreSeq(Goto(s, t, Broken), pos, pos + s.capacity)
  }

  /** The reads of the header words by dequeue and of the payload bytes by the handler, and then release. */
  ghost function ReadStep(s: Ring, t: nat): (s': Ring)
    requires Enabled(s, Step(t)) && InRead(s.pcs[t])
    ensures Framed(s, t, s')
  {
    match s.pcs[t]
    case Reading(pos, buf) =>
      if |buf| < HEADER_WORDS || |buf| < HEADER_WORDS + buf[0] then
        Goto(s, t, Reading(pos, buf + [s.cells[Slot(pos, s.capacity)].words[ReadAt(|buf|)]]))
      else Goto(s, t, Releasing(pos)).(got := s.got[pos := Assemble(buf, Slot(pos, s.capacity))])
    case Releasing(pos) => StoreSeq(Goto(s, t, Released(pos)), pos, pos + s.capacity)
  }

  /** pending: head first, then tail, clamped at zero. */
  ghost function PendingStep(s: Ring, t: nat): (s': Ring)
    requires Enabled(s, Step(t))
    requires s.pcs[t].PendLoadHead? || s.pcs[t].PendLoadTail?
    ensures Framed(s, t, s')
  {
    match s.pcs[t]
    case PendLoadHead => Goto(s, t, PendLoadTail(s.head, s.tail - s.head))
    case PendLoadTail(h, first) =>
      Goto(s, t, PendingIs(if s.tail < h then 0 else s.tail - h, first, s.tail))
  }

  /** A finite run: each action is enabled where it is taken. */
  ghost predicate Runs(s: Ring, actions: seq<Action>)
    decreases |actions|
  {
    |actions| == 0 || (Enabled(s, actions[0]) && Runs(Apply(s, actions[0]), actions[1..]))
  }

  ghost function Exec(s: Ring, actions: seq<Action>): Ring
    requires Runs(s, actions)
    decreases |actions|
  {
    if |actions| == 0 then s else Exec(Apply(s, actions[0]), actions[1..])
  }
}
