/** ututna/main.c: the three slots that remember what the gemm benchmarks allocate. */
module Gemm {
  const SLOTS := 3
  const NULL := 0

  /** The blocks of a run, as a bag; freeing a null pointer frees nothing. */
  function Blocks(ptrs: seq<nat>): multiset<nat> {
    multiset(ptrs)[NULL := 0]
  }

  datatype Step = Alloc(block: nat) | Cleanup

  /** What the steps of a run obtained from the allocator and gave back to it, in order. */
  datatype Log = Log(obtained: seq<nat>, released: seq<nat>)

  class Slots {
    const ptrs: array<nat>
    var idx: nat

    ghost predicate Valid()
      reads this, ptrs
    {
      ptrs.Length == SLOTS && idx <= SLOTS && forall i :: idx <= i < SLOTS ==> ptrs[i] == NULL
    }

    constructor ()
      ensures Valid() && fresh(ptrs) && idx == 0
    {
      ptrs := new nat[SLOTS](_ => NULL);
      idx := 0;
    }

    /** `block` is what `s_malloc` returns; the fourth allocation of a round ends the program. */
    method Malloc(block: nat) returns (ok: bool)
      requires Valid()
      modifies this, ptrs
      ensures Valid() && (ok <==> old(idx) < SLOTS)
      ensures idx == old(idx) + (if ok then 1 else 0)
      ensures ptrs[..] == if ok then old(ptrs[..])[old(idx) := block] else old(ptrs[..])
    {
      if idx >= SLOTS {
        return false;
      }
      ptrs[idx] := block;
      idx := idx + 1;
      ok := true;
    }

    /** `freed` lists the arguments of `s_free`. */
    method Cleanup() returns (freed: seq<nat>)
      requires Valid()
      modifies this, ptrs
      ensures Valid() && idx == 0 && freed == old(ptrs[..])
    {
      freed := [];
      for i := 0 to SLOTS
        invariant freed == old(ptrs[..])[..i]
        invariant forall j :: 0 <= j < SLOTS ==> ptrs[j] == if j < i then NULL else old(ptrs[j])
      {
        freed := freed + [ptrs[i]];
        ptrs[i] := NULL;
      }
      idx := 0;
    }

    /** Any interleaving of allocations and cleanups, from a fresh start: it goes through unless a
        round has a fourth allocation. Every cleanup gives back exactly what its round obtained;
        so each block is either released once or still held. */
    method Run(steps: seq<Step>) returns (ok: bool, taken: nat, ghost log: Log)
      requires Valid() && idx == 0
      modifies this, ptrs
      ensures Valid()
      ensures ok <==> forall k :: 0 <= k <= |steps| ==> |Round(steps[..k])| <= 3
      ensures if ok then taken == |steps| else taken < |steps| && |Round(steps[..taken + 1])| == 4
      ensures log == Log(Allocated(steps[..taken]), Released(steps[..taken]))
      ensures ptrs[..] == Padded(Round(steps[..taken])) && idx == |Round(steps[..taken])|
      ensures Blocks(log.obtained) == Blocks(log.released) + Blocks(ptrs[..])
    {
      log := Log([], []);
      ok := true;
      taken := 0;
      while taken < |steps|
        invariant ok && taken <= |steps|
        invariant Valid() && idx == |Round(steps[..taken])|
        invariant ptrs[..] == Padded(Round(steps[..taken]))
        invariant log == Log(Allocated(steps[..taken]), Released(steps[..taken]))
        invariant forall k :: 0 <= k <= taken ==> |Round(steps[..k])| <= SLOTS
      {
        OneMoreStep(steps, taken);
        PaddedSlot(Round(steps[..taken]));
        match steps[taken] {
          case Alloc(block) =>
            PaddedAfter(Round(steps[..taken]), block);
            ok := Malloc(block);
            if !ok {
              Conserved(steps[..taken]);
              return;
            }
            log := log.(obtained := log.obtained + [block]);
          case Cleanup =>
            var freed := Cleanup();
            AllSlotsNull(ptrs[..]);
            log := log.(released := log.released + freed);
        }
        taken := taken + 1;
      }
      assert steps[..|steps|] == steps;
      Conserved(steps);
    }
  }

  /** The blocks obtained since the last cleanup. */
  function Round(steps: seq<Step>): seq<nat> {
    if steps == [] then []
    else
      match steps[|steps| - 1]
      case Alloc(block) => Round(steps[..|steps| - 1]) + [block]
      case Cleanup => []
  }

  /** The contents of the slots: a round and null pointers behind it. */
  function Padded(round: seq<nat>): seq<nat> {
    round + seq(if |round| < SLOTS then SLOTS - |round| else 0, _ => NULL)
  }

  /** What the cleanups of a run give back. */
  function Released(steps: seq<Step>): seq<nat> {
    if steps == [] then []
    else
      var before := steps[..|steps| - 1];
      Released(before) + if steps[|steps| - 1].Cleanup? then Padded(Round(before)) else []
  }

  lemma OneMoreStep(steps: seq<Step>, k: nat)
    requires k < |steps|
    ensures var before, after := steps[..k], steps[..k + 1];
            match steps[k]
            case Alloc(block) =>
              Round(after) == Round(before) + [block] && Allocated(after) == Allocated(before) + [block] && Released(after) == Released(before)
            case Cleanup =>
              Round(after) == [] && Allocated(after) == Allocated(before) && Released(after) == Released(before) + Padded(Round(before))
  {
    assert steps[..k + 1][..k] == steps[..k];
  }

  lemma PaddedSlot(round: seq<nat>)
    requires |round| <= SLOTS
    ensures |Padded(round)| == SLOTS
  {}

  lemma PaddedAfter(round: seq<nat>, block: nat)
    ensures |round| < SLOTS ==> |Padded(round)| == SLOTS && Padded(round)[|round| := block] == Padded(round + [block])
  {}

  lemma AllSlotsNull(a: seq<nat>)
    requires |a| == SLOTS && forall i :: 0 <= i < SLOTS ==> a[i] == NULL
    ensures a == Padded([])
  {}

  /** Each block obtained is released once, or is still in the slots. */
  lemma {:induction false} Conserved(steps: seq<Step>)
    ensures Blocks(Allocated(steps)) == Blocks(Released(steps)) + Blocks(Padded(Round(steps)))
  {
    AllNull([]);
    PaddingIsNoBlock(Round(steps));
    if steps != [] {
      var before := steps[..|steps| - 1];
      Conserved(before);
      PaddingIsNoBlock(Round(before));
      StepConserves(before, steps[|steps| - 1]);
    }
  }

  lemma StepConserves(before: seq<Step>, last: Step)
    ensures match last
            case Alloc(block) =>
              Blocks(Allocated(before) + [block]) == Blocks(Allocated(before)) + Blocks([block]) &&
              Blocks(Round(before) + [block]) == Blocks(Round(before)) + Blocks([block])
            case Cleanup =>
              Blocks(Released(before) + Padded(Round(before))) == Blocks(Released(before)) + Blocks(Padded(Round(before)))
  {
    match last
    case Alloc(block) =>
      BlocksAppend(Allocated(before), [block]);
      BlocksAppend(Round(before), [block]);
    case Cleanup =>
      BlocksAppend(Released(before), Padded(Round(before)));
  }

  lemma PaddingIsNoBlock(round: seq<nat>)
    ensures Blocks(Padded(round)) == Blocks(round)
  {
    var nulls := seq(if |round| < SLOTS then SLOTS - |round| else 0, _ => NULL);
    BlocksAppend(round, nulls);
    AllNull(nulls);
  }

  function Allocated(steps: seq<Step>): seq<nat> {
    if steps == [] then []
    else
      var last := steps[|steps| - 1];
      Allocated(steps[..|steps| - 1]) + if last.Alloc? then [last.block] else []
  }

  lemma BlocksAppend(a: seq<nat>, b: seq<nat>)
    ensures Blocks(a + b) == Blocks(a) + Blocks(b)
  {}

  lemma AllNull(a: seq<nat>)
    requires forall i :: 0 <= i < |a| ==> a[i] == NULL
    ensures Blocks(a) == multiset{}
  {
    forall x | x != NULL ensures x !in multiset(a) {
      assert forall i :: 0 <= i < |a| ==> a[i] != x;
    }
  }
}
