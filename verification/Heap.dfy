/** The semihosting heap: bootstrap.c places the break above the library windows and serves a few
    early requests from a buffer; the `s_mmap` of jemalloc.c grows the break after that. */
module Heap {
  import opened Assembly

  const HEAP_START := 0x44000000
  const BUFFER_SIZE := 10240
  const TWO_TO_THE_31 := 0x8000_0000
  const TWO_TO_THE_32 := 0x1_0000_0000
  const TWO_TO_THE_64 := 0x1_0000_0000_0000_0000

  /** Conversion of an unsigned 64-bit value to C's 32-bit int. */
  function ToInt(x: nat): (i: int)
    ensures -TWO_TO_THE_31 <= i < TWO_TO_THE_31
  {
    var low := x % TWO_TO_THE_32;
    if low < TWO_TO_THE_31 then low else low - TWO_TO_THE_32
  }

  /** It is the value of the same low 32 bits in two's complement. */
  lemma ToIntIsTheLowHalf(x: nat)
    ensures (x - ToInt(x)) % 0x1_0000_0000 == 0 && -0x8000_0000 <= ToInt(x) < 0x8000_0000
  {}

  /** The conversion keeps a value exactly when it fits; otherwise it loses at least half. */
  lemma ToIntKeepsSmall(x: nat)
    ensures ToInt(x) == x <==> x < TWO_TO_THE_31
    ensures x >= TWO_TO_THE_31 ==> ToInt(x) < x
  {}

  /** What `_sbrk` returns when it fails: minus one, as an address. */
  const FAILED := TWO_TO_THE_64 - 1

  /** The break that `bootstrap` leaves; `first` and `second` say whether its moves succeed. */
  function Bootstrapped(brk: nat, first: bool, second: bool): int {
    if !first then brk
    else if second && brk < HEAP_START - 0x1000 then HEAP_START
    else brk + 0x1000
  }

  datatype Request = Request(len: nat, ok: bool)

  /** The break after one request: the length goes through an int. */
  function NextBreak(brk: int, r: Request): int { if r.ok then brk + ToInt(r.len) else brk }

  class Program {
    var brk: int

    /** `_sbrk`; `ok` says whether the system lets the break move. */
    method Sbrk(incr: int, ok: bool) returns (p: int)
      modifies this
      ensures p == if ok then old(brk) else FAILED
      ensures brk == if ok then old(brk) + incr else old(brk)
    {
      if !ok {
        return FAILED;
      }
      p := brk;
      brk := brk + incr;
    }

    /** The break arithmetic of `bootstrap`: when its moves succeed, the break ends at HEAP_START
        if there was room for it, and above otherwise. */
    method Bootstrap(first: bool, second: bool) returns (p: int)
      requires 0 <= brk < TWO_TO_THE_64
      modifies this
      ensures brk == Bootstrapped(old(brk), first, second)
      ensures brk >= 0x44000000 <==> (first && second) || old(brk) + (if first then 0x1000 else 0) >= 0x44000000
      ensures first && second ==> (brk == 0x44000000 <==> old(brk) <= 0x43fff000)
      ensures p == if !first then FAILED else if old(brk) < HEAP_START - 0x1000 then brk else old(brk)
    {
      p := Sbrk(0x1000, first);
      if p < HEAP_START - 0x1000 {
        p := Sbrk(ToInt(HEAP_START - 0x1000 - p), second);
        p := Sbrk(0, true);
      }
    }

    /** `s_mmap`. */
    method Mmap(len: nat, ok: bool) returns (p: int)
      requires len < TWO_TO_THE_64
      modifies this
      ensures p == if ok then old(brk) else FAILED
      ensures brk == NextBreak(old(brk), Request(len, ok))
    {
      p := Sbrk(ToInt(len), ok);
    }
  }

  // ---- Runs of requests ----

  /** The break after serving the requests in order; request `i` is granted the block that
      starts at the break after the requests before it. */
  function BreakAfter(brk: int, reqs: seq<Request>): int {
    if reqs == [] then brk else NextBreak(BreakAfter(brk, reqs[..|reqs| - 1]), reqs[|reqs| - 1])
  }

  function GrantStart(brk: int, reqs: seq<Request>, i: nat): int
    requires i < |reqs|
  {
    BreakAfter(brk, reqs[..i])
  }

  lemma BreakStep(brk: int, reqs: seq<Request>, i: nat)
    requires i < |reqs|
    ensures BreakAfter(brk, reqs[..i + 1]) == NextBreak(BreakAfter(brk, reqs[..i]), reqs[i])
  {
    assert reqs[..i + 1][..i] == reqs[..i];
  }

  predicate AllSmall(reqs: seq<Request>) {
    forall i :: 0 <= i < |reqs| && reqs[i].ok ==> reqs[i].len < TWO_TO_THE_31
  }

  /** Every granted block ends at or below the break it leaves behind. */
  predicate Covered(brk: int, reqs: seq<Request>) {
    forall i :: 0 <= i < |reqs| && reqs[i].ok ==> GrantStart(brk, reqs, i) + reqs[i].len <= BreakAfter(brk, reqs[..i + 1])
  }

  /** The grants of a run are covered by the break exactly when every granted length fits an int. */
  lemma CoveredExactlyWhenSmall(brk: int, reqs: seq<Request>)
    ensures Covered(brk, reqs) <==> AllSmall(reqs)
  {
    forall i | 0 <= i < |reqs| && reqs[i].ok
      ensures GrantStart(brk, reqs, i) + reqs[i].len <= BreakAfter(brk, reqs[..i + 1]) <==> reqs[i].len < TWO_TO_THE_31
    {
      BreakStep(brk, reqs, i);
      ToIntKeepsSmall(reqs[i].len);
    }
  }

  /** A request of two gigabytes is granted, and the break moves down by as much: the next grant
      begins below it. */
  lemma LargeRequestMovesBreakDown(brk: int, next: Request)
    ensures var reqs := [Request(TWO_TO_THE_31, true), next];
            && !Covered(brk, reqs)
            && GrantStart(brk, reqs, 0) == brk
            && GrantStart(brk, reqs, 1) == brk - TWO_TO_THE_31
  {
    var reqs := [Request(TWO_TO_THE_31, true), next];
    assert reqs[..0] == [];
    BreakStep(brk, reqs, 0);
    assert GrantStart(brk, reqs, 0) + reqs[0].len > BreakAfter(brk, reqs[..0 + 1]);
  }

  predicate Apart(start: int, len: int, start': int, len': int) {
    start + len <= start' || start' + len' <= start
  }

  /** A grant of `len` bytes does not overlap the grant that follows it, of `next` bytes. */
  predicate NextIsApart(brk: int, before: seq<Request>, len: nat, next: nat) {
    var reqs := before + [Request(len, true), Request(next, true)];
    Apart(GrantStart(brk, reqs, |before|), len, GrantStart(brk, reqs, |before| + 1), next)
  }

  lemma StartOfNext(brk: int, before: seq<Request>, len: nat, next: nat)
    ensures var reqs := before + [Request(len, true), Request(next, true)];
            && GrantStart(brk, reqs, |before|) == BreakAfter(brk, before)
            && GrantStart(brk, reqs, |before| + 1) == BreakAfter(brk, before) + ToInt(len)
  {
    var reqs := before + [Request(len, true), Request(next, true)];
    assert reqs[..|before|] == before;
    BreakStep(brk, reqs, |before|);
  }

  /** After any run, a grant is safe from whatever is granted next exactly when it is smaller than
      two gigabytes. */
  lemma ApartExactlyWhenSmall(brk: int, before: seq<Request>, len: nat)
    requires 0 < len < TWO_TO_THE_64
    ensures (forall next: nat :: 0 < next < TWO_TO_THE_64 ==> NextIsApart(brk, before, len, next)) <==> len < TWO_TO_THE_31
  {
    ToIntKeepsSmall(len);
    forall next: nat | 0 < next < TWO_TO_THE_64 && len < TWO_TO_THE_31 ensures NextIsApart(brk, before, len, next) {
      StartOfNext(brk, before, len, next);
    }
    if len >= TWO_TO_THE_31 {
      var next: nat := if ToInt(len) >= 0 then 1 else 1 - ToInt(len);
      StartOfNext(brk, before, len, next);
      assert !NextIsApart(brk, before, len, next);
    }
  }

  lemma {:induction false} BreakOnlyGrows(brk: int, reqs: seq<Request>, i: nat, j: nat)
    requires i <= j <= |reqs| && AllSmall(reqs)
    ensures BreakAfter(brk, reqs[..i]) <= BreakAfter(brk, reqs[..j])
    decreases j - i
  {
    if i < j {
      BreakStep(brk, reqs, j - 1);
      BreakOnlyGrows(brk, reqs, i, j - 1);
    }
  }

  /** The break ends up above the libraries exactly when both moves succeed, or when it was
      already so high that what did succeed is enough. */
  lemma PlacedExactly(brk: nat, first: bool, second: bool)
    ensures Bootstrapped(brk, first, second) >= HEAP_START <==>
            (first && second) || brk + (if first then 0x1000 else 0) >= HEAP_START
  {}

  /** The grants of a run of requests do not overlap. */
  lemma GrantsAreDisjoint(brk: int, reqs: seq<Request>, i: nat, j: nat)
    requires AllSmall(reqs) && i < j < |reqs| && reqs[i].ok && reqs[j].ok
    ensures Apart(GrantStart(brk, reqs, i), reqs[i].len, GrantStart(brk, reqs, j), reqs[j].len)
  {
    BreakStep(brk, reqs, i);
    ToIntKeepsSmall(reqs[i].len);
    BreakOnlyGrows(brk, reqs, i + 1, j);
  }

  /** And wherever the break was at the start, once `bootstrap` has placed it they are clear of
      the windows of both libraries: jemalloc's at 0x41000000 and that of stdlib at 0x42000000. */
  lemma GrantsAreClear(initial: nat, first: bool, second: bool, reqs: seq<Request>, i: nat)
    requires (first && second) || initial + (if first then 0x1000 else 0) >= HEAP_START
    requires AllSmall(reqs) && i < |reqs|
    ensures var start := GrantStart(Bootstrapped(initial, first, second), reqs, i);
            Apart(start, reqs[i].len, 0x41000000, 0x200000) && Apart(start, reqs[i].len, 0x42000000, 0x200000)
  {
    var brk := Bootstrapped(initial, first, second);
    PlacedExactly(initial, first, second);
    assert reqs[..0] == [];
    BreakOnlyGrows(brk, reqs, 0, i);
  }

  // ---- The bootstrap buffer ----

  class Buffer {
    var ptr: nat
    var remaining: nat

    constructor ()
      ensures ptr == 0 && remaining == BUFFER_SIZE
    {
      ptr, remaining := 0, BUFFER_SIZE;
    }

    /** `bootstrap_malloc`; None is the call to `abort`. */
    method Malloc(size: nat) returns (p: Option<nat>)
      modifies this
      ensures p == if size <= old(remaining) then Some(old(ptr)) else None
      ensures Serve(State(old(ptr), old(remaining)), size) == if p.Some? then Some(State(ptr, remaining)) else None
      ensures p.None? ==> ptr == old(ptr) && remaining == old(remaining)
    {
      if size > remaining {
        return None;
      }
      p := Some(ptr);
      ptr := ptr + size;
      remaining := remaining - size;
    }
  }

  datatype State = State(ptr: nat, remaining: nat)

  function Serve(s: State, size: nat): Option<State> {
    if size > s.remaining then None else Some(State(s.ptr + size, s.remaining - size))
  }

  function Sum(sizes: seq<nat>): nat {
    if sizes == [] then 0 else Sum(sizes[..|sizes| - 1]) + sizes[|sizes| - 1]
  }

  function ServeAll(sizes: seq<nat>): Option<State> {
    if sizes == [] then Some(State(0, BUFFER_SIZE))
    else
      match ServeAll(sizes[..|sizes| - 1])
      case Some(s) => Serve(s, sizes[|sizes| - 1])
      case None => None
  }

  /** The program aborts exactly when the running total passes 10240; until then the pointer is
      the total and used plus remaining is always 10240. */
  lemma {:induction false} AbortsExactlyOverBudget(sizes: seq<nat>)
    ensures ServeAll(sizes) == if Sum(sizes) <= 10240 then Some(State(Sum(sizes), 10240 - Sum(sizes))) else None
  {
    if sizes != [] {
      AbortsExactlyOverBudget(sizes[..|sizes| - 1]);
    }
  }

  lemma {:induction false} SumOfPrefix(sizes: seq<nat>, i: nat, j: nat)
    requires i <= j <= |sizes|
    ensures Sum(sizes[..i]) <= Sum(sizes[..j])
    ensures i < j ==> Sum(sizes[..i]) + sizes[i] <= Sum(sizes[..j])
    decreases j - i
  {
    if i < j {
      assert sizes[..j][..j - 1] == sizes[..j - 1];
      SumOfPrefix(sizes, i, j - 1);
    }
  }

  /** The blocks of a run that did not abort lie in the buffer and do not overlap: block `i` is
      granted at the pointer that the requests before it left. */
  lemma BlocksAreDisjoint(sizes: seq<nat>, i: nat, j: nat)
    requires ServeAll(sizes).Some? && i < j < |sizes|
    ensures var before, later := ServeAll(sizes[..i]), ServeAll(sizes[..j]);
            && before.Some? && later.Some?
            && before.value.ptr + sizes[i] <= later.value.ptr
            && later.value.ptr + sizes[j] <= 10240
  {
    assert sizes[..|sizes|] == sizes;
    SumOfPrefix(sizes, i, j);
    SumOfPrefix(sizes, j, |sizes|);
    AbortsExactlyOverBudget(sizes);
    AbortsExactlyOverBudget(sizes[..i]);
    AbortsExactlyOverBudget(sizes[..j]);
  }
}
