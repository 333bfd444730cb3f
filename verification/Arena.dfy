/**
 Arenas: over-allocating and trimming a mapping so that exactly a 2 MiB-aligned window of it stays mapped. The kernel is
 a set of mapped addresses; what it answers to each call is a parameter.
 */
module Arenas {
  import opened Bits
  import opened Errors
  import opened Layout

  predicate Covers(p: int, length: int, a: int) { p <= a < p + length }

  /** The addresses of a span. */
  function Range(p: int, length: int): (span: set<int>)
    ensures forall a :: a in span <==> Covers(p, length, a)
  {
    set a | p <= a < p + length && Covers(p, length, a)
  }

  /** Three adjacent spans partition the whole. */
  lemma ThreeSpans(p: int, a: nat, b: nat, c: nat)
    ensures Range(p, a + b + c) == Range(p, a) + Range(p + a, b) + Range(p + a + b, c)
    ensures Range(p, a) !! Range(p + a, b) !! Range(p + a + b, c)
  {
  }

  datatype Grant = Refused | Granted(address: nat)

  /** The kernel's answers, in the order NewArena may ask; cleanup is the answer to an unmap whose error is ignored. */
  datatype Answers = Answers(huge: Grant, anon: Grant, headTrim: bool, tailTrim: bool, advise: bool, pin: bool,
      cleanup: bool)

  /** munmap takes addresses on page boundaries only. */
  predicate OnPage(p: int, pageSize: nat) { 0 < pageSize && p % pageSize == 0 }

  class Kernel {
    const pageSize: nat
    ghost var mapped: set<int>

    constructor (pageSize: nat)
      requires IsPow2(pageSize) ==> pageSize <= HUGE_PAGE
      ensures this.pageSize == pageSize && mapped == {}
    {
      this.pageSize, mapped := pageSize, {};
    }

    /** A mapping is granted at unused, page-aligned addresses below 2^64, and never with length zero. */
    ghost predicate Grantable(g: Grant, length: nat)
      reads this
    {
      g.Granted? ==>
        && 0 < g.address && OnPage(g.address, pageSize) && 0 < length && g.address + length <= TWO64
        && Range(g.address, length) !! mapped
    }

    method Map(length: nat, answer: Grant) returns (ok: bool, p: nat)
      requires Grantable(answer, length)
      modifies this
      ensures ok == answer.Granted?
      ensures ok ==> p == answer.address && mapped == old(mapped) + Range(p, length)
      ensures !ok ==> mapped == old(mapped)
    {
      match answer
      case Refused => return false, 0;
      case Granted(address) =>
        mapped := mapped + Range(address, length);
        return true, address;
    }

    /** sysUnmap makes no call for an empty span. */
    method Unmap(p: nat, length: nat, answer: bool) returns (ok: bool)
      requires 0 < p && OnPage(p, pageSize)
      modifies this
      ensures ok <==> length == 0 || answer
      ensures mapped == if ok then old(mapped) - Range(p, length) else old(mapped)
    {
      if length == 0 {
        assert Range(p, 0) == {};
        return true;
      }
      if answer {
        mapped := mapped - Range(p, length);
      }
      return answer;
    }
  }

  /** Where the aligned window lies in a raw mapping, and what is left before and after it. */
  function HeadSlack(raw: nat): int { AlignUp(raw, HUGE_PAGE) - raw }

  function TailSlack(raw: nat): int { HUGE_PAGE - HeadSlack(raw) }

  /**
   For any raw address with room, the next boundary is less than a huge page away, so head slack, window and tail
   slack partition the raw mapping, and all of them begin on page boundaries.
   */
  lemma TrimPartition(raw: nat, size: nat, pageSize: nat)
    requires raw + size + HUGE_PAGE <= TWO64 && size % HUGE_PAGE == 0
    requires IsPow2(pageSize) && pageSize <= HUGE_PAGE && OnPage(raw, pageSize)
    ensures var h, t := HeadSlack(raw), TailSlack(raw);
      && 0 <= h < 0x20_0000 && 0 < t && (raw + h) % 0x20_0000 == 0
      && OnPage(raw + h, pageSize) && OnPage(raw + h + size, pageSize)
      && Range(raw, size + HUGE_PAGE) == Range(raw, h) + Range(raw + h, size) + Range(raw + h + size, t)
      && Range(raw, h) !! Range(raw + h, size) !! Range(raw + h + size, t)
  {
    hide Pow2;
    hide AlignUp;
    hide Range;
    hide IsPow2;
    Sizes();
    AlignUpLeast(raw, 21);
    var h := HeadSlack(raw);
    SumAligned(raw + h, size, HUGE_PAGE);
    PageDivides(pageSize, raw + h);
    PageDivides(pageSize, raw + h + size);
    ThreeSpans(raw, h, size, TailSlack(raw));
  }

  /** A page size that is a power of two up to 2 MiB divides every multiple of 2 MiB. */
  lemma PageDivides(pageSize: nat, x: nat)
    requires IsPow2(pageSize) && pageSize <= HUGE_PAGE && x % HUGE_PAGE == 0
    ensures OnPage(x, pageSize)
  {
    hide IsPow2;
    hide Pow2;
    Sizes();
    var k := IsPow2Sound(pageSize);
    if k > 21 {
      PowGrows(21, k);
    }
    PowSum(21 - k, k);
    ModOfMod(x, Pow2(21 - k), pageSize);
    ModIs(0, 0, 0, pageSize);
  }

  class Arena {
    var base: nat
    var size: nat
    var raw: nat
    var rawSize: nat
    const pageSize: nat
    const hugeNative: bool
    const hugeAdvised: bool
    var pinned: bool

    constructor (base: nat, size: nat, pageSize: nat, hugeNative: bool, hugeAdvised: bool)
      ensures this.base == raw == base && this.size == rawSize == size && this.pageSize == pageSize && !pinned
      ensures this.hugeNative == hugeNative && this.hugeAdvised == hugeAdvised
    {
      this.base, this.size, raw, rawSize, pinned := base, size, base, size, false;
      this.pageSize, this.hugeNative, this.hugeAdvised := pageSize, hugeNative, hugeAdvised;
    }

    /** A usable arena: its span, aligned and of the size asked for, is what it added to the mapping. */
    ghost predicate Holds(k: Kernel, before: set<int>, request: nat)
      reads this, k
    {
      && 0 < base && base % HUGE_PAGE == 0 && size == ArenaSize(request)
      && raw == base && rawSize == size && OnPage(base, k.pageSize)
      && k.mapped == before + Range(base, size) && Range(base, size) !! before
    }

    /** Close: the span is unmapped unless the kernel refuses; closing a closed arena does nothing. */
    method Close(k: Kernel, answer: bool) returns (ok: bool)
      requires base != 0 ==> 0 < raw && OnPage(raw, k.pageSize)
      modifies this, k
      ensures old(base) == 0 ==> ok && unchanged(this) && unchanged(k)
      ensures old(base) != 0 ==>
        && base == size == raw == rawSize == 0 && !pinned
        && (ok <==> old(rawSize) == 0 || answer)
        && k.mapped == if ok then old(k.mapped) - Range(old(raw), old(rawSize)) else old(k.mapped)
    {
      if base == 0 {
        return true;
      }
      pinned := false;
      ok := k.Unmap(raw, rawSize, answer);
      base, raw, size, rawSize := 0, 0, 0, 0;
    }
  }

  // ----------------------------------------------------------------- NewArena

  /** The raw length of the second tier. */
  function RawSize(request: nat): nat { Word64(ArenaSize(request) + HUGE_PAGE) }

  /** In the second tier, the kernel accepts what trimming asks of it. */
  predicate HeadTrimmed(answers: Answers, raw: nat) { HeadSlack(raw) <= 0 || answers.headTrim }

  /** One of the tiers yields a window. */
  predicate Obtained(answers: Answers, requireHuge: bool) {
    || answers.huge.Granted?
    || (!requireHuge && answers.anon.Granted? && HeadTrimmed(answers, answers.anon.address) && answers.tailTrim)
  }

  predicate Aligned(answers: Answers) { answers.huge.Granted? ==> answers.huge.address % HUGE_PAGE == 0 }

  function Unless(cleanup: bool, span: set<int>): set<int> { if cleanup then {} else span }

  /** What trimming a raw mapping leaves of it. */
  function Trimmed(answers: Answers, raw: nat, size: nat): set<int> {
    var window, tail := Range(raw + HeadSlack(raw), size), Range(raw + HeadSlack(raw) + size, TailSlack(raw));
    if !HeadTrimmed(answers, raw) then Unless(answers.cleanup, Range(raw, size + HUGE_PAGE))
    else if !answers.tailTrim then tail + Unless(answers.cleanup, window)
    else window
  }

  /**
   What a failed NewArena leaves mapped. With working clean-up unmaps it is nothing, except that a refused trim of the
   tail slack leaves the tail slack.
   */
  function Leftover(answers: Answers, requireHuge: bool, size: nat): set<int> {
    if answers.huge.Granted? then Unless(answers.cleanup, Range(answers.huge.address, size))
    else if requireHuge || answers.anon.Refused? then {}
    else if Obtained(answers, requireHuge) then
      Unless(answers.cleanup, Trimmed(answers, answers.anon.address, size))
    else Trimmed(answers, answers.anon.address, size)
  }

  /**
   With working clean-up unmaps nothing is left, unless the second tier was entered and the trim of its tail slack was
   refused; then exactly that slack is.
   */
  lemma LeftoverExact(answers: Answers, requireHuge: bool, size: nat)
    requires answers.cleanup
    ensures var raw := answers.anon;
      var slack := answers.huge.Refused? && !requireHuge && raw.Granted? && HeadTrimmed(answers, raw.address)
        && !answers.tailTrim;
      Leftover(answers, requireHuge, size)
      == if slack then Range(raw.address + HeadSlack(raw.address) + size, TailSlack(raw.address)) else {}
  {
    hide Range;
    hide HeadSlack;
    hide TailSlack;
    hide HeadTrimmed;
  }

  /** The error of a failed NewArena, in the order of the checks. */
  function Failure(request: nat, pageSize: nat, requireHuge: bool, answers: Answers): Error {
    if request == 0 || !IsPow2(pageSize) then ErrConfig
    else if !Obtained(answers, requireHuge) then ErrSystem
    else if !Aligned(answers) then ErrConfig
    else ErrPinFailed
  }

  lemma SizeOf(request: nat)
    requires request < TWO64
    ensures AlignUp(request, HUGE_PAGE) == ArenaSize(request) < TWO64 && ArenaSize(request) % HUGE_PAGE == 0
    ensures request <= TWO64 - HUGE_PAGE ==> request <= ArenaSize(request) < request + HUGE_PAGE
    ensures RawSize(request) == Word64(ArenaSize(request) + HUGE_PAGE)
  {
    hide AlignUp;
    ArenaHoldsRegion(request);
    assert Word64(request) == request;
  }

  /**
   NewArena: exactly when it succeeds, and with which error it fails otherwise. On success exactly the aligned window
   of the size computed for the request has been added to the mapping; on failure exactly the leftover.
   */
  method NewArena(k: Kernel, request: nat, requireHuge: bool, requirePinned: bool, answers: Answers)
    returns (res: Result<Arena>)
    requires request < TWO64 && (IsPow2(k.pageSize) ==> k.pageSize <= HUGE_PAGE)
    requires k.Grantable(answers.huge, ArenaSize(request)) && k.Grantable(answers.anon, RawSize(request))
    modifies k
    ensures res.Ok? <==>
      && request != 0 && IsPow2(k.pageSize) && Obtained(answers, requireHuge) && Aligned(answers)
      && (answers.pin || !requirePinned)
    ensures res.Ok? ==>
      && fresh(res.value) && res.value.Holds(k, old(k.mapped), request)
      && res.value.pinned == answers.pin && (requireHuge ==> res.value.hugeNative)
    ensures res.Ok? ==> var a := res.value;
      && a.base % 0x20_0000 == 0 && a.size % 0x20_0000 == 0
      && (request <= 0x1_0000_0000_0000_0000 - 0x20_0000 ==> request <= a.size < request + 0x20_0000)
      && k.mapped == old(k.mapped) + Range(a.base, a.size) && Range(a.base, a.size) !! old(k.mapped)
      && a.hugeNative == answers.huge.Granted? && a.hugeAdvised == (answers.huge.Refused? && answers.advise)
      && if answers.huge.Granted? then a.base == answers.huge.address
         else answers.anon.Granted? && answers.anon.address <= a.base < answers.anon.address + 0x20_0000
    ensures res.Err? ==> res.error == Failure(request, k.pageSize, requireHuge, answers)
    ensures request == 0 || !IsPow2(k.pageSize) ==> res == Err(ErrConfig)
    ensures request != 0 && IsPow2(k.pageSize) && !Obtained(answers, requireHuge) ==> res == Err(ErrSystem)
    ensures request != 0 && IsPow2(k.pageSize) && Obtained(answers, requireHuge) && res.Err? ==>
      res.error == if Aligned(answers) then ErrPinFailed else ErrConfig
    ensures res.Err? ==>
      k.mapped == if request == 0 || !IsPow2(k.pageSize) then old(k.mapped)
                  else old(k.mapped) + Leftover(answers, requireHuge, ArenaSize(request))
  {
    hide AlignUp;
    hide ArenaSize;
    hide IsPow2;
    hide Range;
    hide OnPage;
    hide HeadSlack;
    hide TailSlack;
    hide Word64;
    hide HeadTrimmed;
    hide Kernel.Grantable;
    if request == 0 || !IsPow2(k.pageSize) {
      return Err(ErrConfig);
    }
    SizeOf(request);
    var size := AlignUp(request, HUGE_PAGE);
    var ok, base, native, advised := Obtain(k, size, requireHuge, answers);
    if !ok {
      return Err(ErrSystem);
    }
    Removed(old(k.mapped), Range(base, size));
    res := Finish(k, base, size, native, advised, requirePinned, answers);
  }

  /** The two tiers: explicit huge pages, or else, unless they are required, an ordinary mapping trimmed to fit. */
  method Obtain(k: Kernel, size: nat, requireHuge: bool, answers: Answers)
    returns (ok: bool, base: nat, native: bool, advised: bool)
    requires IsPow2(k.pageSize) && k.pageSize <= HUGE_PAGE && size % HUGE_PAGE == 0 && size < TWO64
    requires k.Grantable(answers.huge, size) && k.Grantable(answers.anon, Word64(size + HUGE_PAGE))
    modifies k
    ensures ok <==> Obtained(answers, requireHuge)
    ensures native == answers.huge.Granted? && (native ==> base == answers.huge.address)
    ensures ok ==>
      && 0 < base && OnPage(base, k.pageSize)
      && k.mapped == old(k.mapped) + Range(base, size) && Range(base, size) !! old(k.mapped)
    ensures ok && !native ==>
      && base % HUGE_PAGE == 0 && Range(base, size) == Trimmed(answers, answers.anon.address, size)
      && answers.anon.address <= base < answers.anon.address + 0x20_0000
    ensures ok ==> advised == (!native && answers.advise)
    ensures !ok ==> k.mapped == old(k.mapped) + Leftover(answers, requireHuge, size)
  {
    hide IsPow2;
    hide Range;
    hide OnPage;
    hide HeadSlack;
    hide TailSlack;
    hide Word64;
    hide HeadTrimmed;
    var p;
    ok, p := k.Map(size, answers.huge);
    if ok {
      return true, p, true, false;
    }
    if requireHuge {
      return false, 0, false, false;
    }
    hide Kernel.Grantable;
    ok, base, advised := MapAndTrim(k, size, answers);
    native := false;
  }

  /** The alignment check, and pinning; a span that fails either is unmapped again. */
  method Finish(k: Kernel, base: nat, size: nat, native: bool, advised: bool, requirePinned: bool, answers: Answers)
    returns (res: Result<Arena>)
    requires 0 < base && OnPage(base, k.pageSize)
    modifies k
    ensures res.Ok? <==> base % HUGE_PAGE == 0 && (answers.pin || !requirePinned)
    ensures res.Ok? ==> var a := res.value;
      && fresh(a) && a.base == a.raw == base && a.size == a.rawSize == size && a.pinned == answers.pin
      && a.hugeNative == native && a.hugeAdvised == advised && k.mapped == old(k.mapped)
    ensures res.Err? ==> res.error == if base % HUGE_PAGE == 0 then ErrPinFailed else ErrConfig
    ensures res.Err? ==>
      k.mapped == if answers.cleanup then old(k.mapped) - Range(base, size) else old(k.mapped)
  {
    Sizes();
    AlignedIsMultiple(base, 21);
    NoSpan(base);
    hide Pow2;
    hide IsAligned;
    hide Range;
    hide OnPage;
    if !IsAligned(base, HUGE_PAGE) {
      var cleaned := k.Unmap(base, size, answers.cleanup);
      return Err(ErrConfig);
    }
    var a := new Arena(base, size, k.pageSize, native, advised);
    if answers.pin {
      a.pinned := true;
    } else if requirePinned {
      var cleaned := k.Unmap(base, size, answers.cleanup);
      return Err(ErrPinFailed);
    }
    return Ok(a);
  }

  /** Mapping an arena and closing it again leaves the kernel's mapping as it was. */
  method MapAndClose(k: Kernel, request: nat, requireHuge: bool, requirePinned: bool, answers: Answers, unmap: bool)
    returns (created: bool, closed: bool)
    requires request < TWO64 && (IsPow2(k.pageSize) ==> k.pageSize <= HUGE_PAGE)
    requires k.Grantable(answers.huge, ArenaSize(request)) && k.Grantable(answers.anon, RawSize(request))
    modifies k
    ensures created && closed ==> k.mapped == old(k.mapped)
    ensures created && unmap ==> closed
  {
    hide ArenaSize;
    hide RawSize;
    hide IsPow2;
    hide Range;
    hide OnPage;
    hide Leftover;
    hide Kernel.Grantable;
    var res := NewArena(k, request, requireHuge, requirePinned, answers);
    if res.Err? {
      return false, false;
    }
    created := true;
    Removed(old(k.mapped), Range(res.value.base, res.value.size));
    closed := res.value.Close(k, unmap);
  }

  // ----------------------------------------------------------------- trimming

  lemma NoSpan(p: int)
    ensures Range(p, 0) == {}
  {
  }

  lemma Removed(before: set<int>, span: set<int>)
    requires span !! before
    ensures before + span - span == before
  {
  }

  /** Removing the first part of what was added. */
  lemma FirstRemoved(before: set<int>, first: set<int>, rest: set<int>)
    requires first !! rest && first !! before
    ensures before + (first + rest) - first == before + rest
  {
  }

  /** Unmapping the head slack, if there is any; if that is refused, everything is unmapped. */
  method TrimHead(k: Kernel, raw: nat, rawSize: nat, headSlack: nat, answers: Answers, ghost before: set<int>,
      ghost rest: set<int>)
    returns (ok: bool)
    requires 0 < raw && OnPage(raw, k.pageSize)
    requires k.mapped == before + Range(raw, rawSize) && Range(raw, rawSize) == Range(raw, headSlack) + rest
    requires Range(raw, headSlack) !! rest && Range(raw, rawSize) !! before
    modifies k
    ensures ok <==> headSlack == 0 || answers.headTrim
    ensures k.mapped == before + if ok then rest else Unless(answers.cleanup, Range(raw, rawSize))
  {
    NoSpan(raw);
    FirstRemoved(before, Range(raw, headSlack), rest);
    Removed(before, Range(raw, rawSize));
    hide Range;
    hide OnPage;
    if headSlack > 0 {
      ok := k.Unmap(raw, headSlack, answers.headTrim);
      if !ok {
        var cleaned := k.Unmap(raw, rawSize, answers.cleanup);
        return false;
      }
    }
    return true;
  }

  /** Unmapping the tail slack, if there is any; if that is refused, the window is unmapped and the slack stays. */
  method TrimTail(k: Kernel, base: nat, size: nat, tailSlack: nat, answers: Answers, ghost before: set<int>)
    returns (ok: bool)
    requires 0 < base && OnPage(base, k.pageSize) && OnPage(base + size, k.pageSize) && 0 < tailSlack
    requires k.mapped == before + (Range(base, size) + Range(base + size, tailSlack))
    requires Range(base, size) !! Range(base + size, tailSlack)
    requires (Range(base, size) + Range(base + size, tailSlack)) !! before
    modifies k
    ensures ok == answers.tailTrim
    ensures k.mapped == before + if ok then Range(base, size)
                                 else Range(base + size, tailSlack) + Unless(answers.cleanup, Range(base, size))
  {
    NoSpan(base);
    hide Range;
    hide OnPage;
    var window, tail := Range(base, size), Range(base + size, tailSlack);
    FirstRemoved(before, window, tail);
    FirstRemoved(before, tail, window);
    assert window + tail == tail + window;
    ok := k.Unmap(base + size, tailSlack, answers.tailTrim);
    if !ok {
      var cleaned := k.Unmap(base, size, answers.cleanup);
    }
  }

  lemma RawFits(size: nat, raw: nat)
    requires size % HUGE_PAGE == 0 && size < TWO64 && raw + Word64(size + HUGE_PAGE) <= TWO64 && 0 < raw
    requires 0 < Word64(size + HUGE_PAGE)
    ensures Word64(size + HUGE_PAGE) == size + HUGE_PAGE
  {
  }

  /** The second tier: map one huge page more than needed, trim head and tail, ask for transparent huge pages. */
  method MapAndTrim(k: Kernel, size: nat, answers: Answers) returns (ok: bool, base: nat, advised: bool)
    requires IsPow2(k.pageSize) && k.pageSize <= HUGE_PAGE && size % HUGE_PAGE == 0 && size < TWO64
    requires k.Grantable(answers.anon, Word64(size + HUGE_PAGE))
    modifies k
    ensures ok <==> answers.anon.Granted? && HeadTrimmed(answers, answers.anon.address) && answers.tailTrim
    ensures !answers.anon.Granted? ==> k.mapped == old(k.mapped)
    ensures answers.anon.Granted? ==> k.mapped == old(k.mapped) + Trimmed(answers, answers.anon.address, size)
    ensures ok ==>
      && 0 < base && base % HUGE_PAGE == 0 && OnPage(base, k.pageSize)
      && Range(base, size) == Trimmed(answers, answers.anon.address, size) && Range(base, size) !! old(k.mapped)
      && advised == answers.advise && answers.anon.address <= base < answers.anon.address + 0x20_0000
  {
    hide AlignUp;
    hide IsPow2;
    hide Range;
    hide OnPage;
    hide Word64;
    ghost var before := k.mapped;
    var rawSize := Word64(size + HUGE_PAGE);
    var granted, raw := k.Map(rawSize, answers.anon);
    if !granted {
      return false, 0, false;
    }
    RawFits(size, raw);
    TrimPartition(raw, size, k.pageSize);
    base := AlignUp(raw, HUGE_PAGE);
    var headSlack := base - raw;
    var tailSlack := rawSize - headSlack - size;
    assert headSlack == HeadSlack(raw) && tailSlack == TailSlack(raw);
    hide HeadSlack;
    hide TailSlack;
    ghost var window, tail := Range(base, size), Range(base + size, tailSlack);
    assert Range(raw, headSlack) + window + tail == Range(raw, headSlack) + (window + tail);
    ok := TrimHead(k, raw, rawSize, headSlack, answers, before, window + tail);
    if ok {
      ok := TrimTail(k, base, size, tailSlack, answers, before);
    }
    advised := answers.advise;
  }
}
