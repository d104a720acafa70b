/** The parent-chain walker (`walk_parent_chain`, `is_valid_address`,
    `is_valid_function_address`). The debugger's memory becomes a map from
    readable addresses to the 8-byte word stored there; an address that is
    not a key faults, and the walk turns faults into an early end exactly as
    the script's two `catch` blocks do. */
module Walker {
  import opened Wrappers
  import opened Numbers

  /** One coroutine frame: its address (`None` is the NaN that `parseInt`
      gives for text without hex digits) and its function address as text. */
  datatype Frame = Frame(co: Option<int>, fn: string)

  /** Readable address |-> the word stored there. */
  type Memory = map<nat, nat>

  /** The walk's tunables: the minimum plausible address and the inclusive
      address range of the module whose coroutines are followed. */
  datatype Bounds = Bounds(threshold: nat, dllStart: int, dllEnd: int)

  /** `host.memory.readMemoryValues(a, 1, 8)`, `None` for a fault. */
  function Read(mem: Memory, a: nat): Option<nat>
  {
    if a in mem then Some(mem[a]) else None
  }

  /** Offset from a coroutine frame back to its heap header, and from the
      header to the field holding the parent coroutine's frame address. */
  const HeaderOffset: int := 0x40
  const ParentRefOffset: int := 0x10

  function ParentRefSlot(co: int): int
  {
    co - HeaderOffset + ParentRefOffset
  }

  /** `is_valid_address`: a coarse "looks like a user-space address" test. */
  predicate IsValidAddress(a: int, cfg: Bounds)
  {
    a > cfg.threshold
  }

  /** `is_valid_function_address`: inside the module, both ends included. */
  predicate IsValidFunctionAddress(a: int, cfg: Bounds)
  {
    cfg.dllStart <= a <= cfg.dllEnd
  }

  /** The frame's parent-reference slot is plausible and can be read. */
  predicate SlotReadable(child: Frame, cfg: Bounds, mem: Memory)
  {
    child.co.Some? && IsValidAddress(ParentRefSlot(child.co.value), cfg)
    && ParentRefSlot(child.co.value) in mem
  }

  /** What one level of the walk decides about `child`: stop and drop it
      (`Stop(false)`), stop and keep it (`Stop(true)`), or go up to `parent`. */
  datatype Step = Stop(keepChild: bool) | Up(parent: Frame)

  /** One level of `walk_parent_chain` with the depth check done: the slot
      test, the two reads and the tests on the parent, in the script's order.
      A NaN frame address makes a NaN slot, which fails the slot test. */
  function ParentStep(child: Frame, cfg: Bounds, mem: Memory): (step: Step)
    ensures step == Stop(false) <==> !SlotReadable(child, cfg, mem)
  {
    if child.co.None? then Stop(false)
    else
      var slot := ParentRefSlot(child.co.value);
      if !IsValidAddress(slot, cfg) then Stop(false)
      else match Read(mem, slot)
        case None => Stop(false)
        case Some(parentCo) =>
          match Read(mem, parentCo)
          case None => Stop(true)
          case Some(parentFn) =>
            if !IsValidAddress(parentCo, cfg) || !IsValidFunctionAddress(parentFn, cfg) then Stop(true)
            else Up(Frame(Some(parentCo), WordText(parentFn)))
  }

  /** `walk_parent_chain(child, depth, dll_base_start, dll_base_end)`: the
      chain oldest ancestor first, `child` last; each level spends one unit
      of depth and adds one frame. */
  function Walk(child: Frame, depth: int, cfg: Bounds, mem: Memory): (chain: seq<Frame>)
    ensures |chain| <= if depth <= 0 then 0 else depth
    ensures chain != [] ==> chain[|chain| - 1] == child
    decreases depth
  {
    if depth <= 0 then []
    else match ParentStep(child, cfg, mem)
      case Stop(keep) => if keep then [child] else []
      case Up(parent) => Walk(parent, depth - 1, cfg, mem) + [child]
  }

  /** `parent` is the frame the walk reaches from `child`: the word at
      `child`'s slot is `parent`'s address, both addresses are plausible, the
      word at `parent`'s address is a function inside the module, and
      `parent`'s function text is that word. */
  predicate Linked(parent: Frame, child: Frame, cfg: Bounds, mem: Memory)
  {
    child.co.Some? && parent.co.Some?
    && IsValidAddress(ParentRefSlot(child.co.value), cfg)
    && Read(mem, ParentRefSlot(child.co.value)) == Some(parent.co.value)
    && IsValidAddress(parent.co.value, cfg)
    && Read(mem, parent.co.value).Some?
    && IsValidFunctionAddress(Read(mem, parent.co.value).value, cfg)
    && parent.fn == WordText(Read(mem, parent.co.value).value)
  }

  /** Each frame of `chain` but the last is the parent of the next. */
  predicate ChainLinked(chain: seq<Frame>, cfg: Bounds, mem: Memory)
  {
    forall i :: 0 <= i < |chain| - 1 ==> Linked(chain[i], chain[i + 1], cfg, mem)
  }

  /** The walk returns nothing exactly when the depth is spent, or the
      child's slot is implausible or faults; in every other case the child
      is kept. */
  lemma WalkEmptyIff(child: Frame, depth: int, cfg: Bounds, mem: Memory)
    ensures Walk(child, depth, cfg, mem) == [] <==> depth <= 0 || !SlotReadable(child, cfg, mem)
  {
  }

  /** With a readable slot, a parent whose frame faults, is implausible or
      runs a function outside the module ends the chain at `child` alone;
      otherwise the chain is the parent's chain, one level shallower,
      followed by `child`. */
  lemma WalkFromReadableSlot(child: Frame, depth: int, cfg: Bounds, mem: Memory)
    requires depth > 0 && SlotReadable(child, cfg, mem)
    ensures var parentCo := mem[ParentRefSlot(child.co.value)];
      Walk(child, depth, cfg, mem) ==
        if parentCo !in mem || !IsValidAddress(parentCo, cfg) || !IsValidFunctionAddress(mem[parentCo], cfg)
        then [child]
        else Walk(Frame(Some(parentCo), WordText(mem[parentCo])), depth - 1, cfg, mem) + [child]
  {
  }

  /** An implausible slot ends the walk before any memory is read: the
      result is the same whatever the memory holds. */
  lemma ImplausibleSlotReadsNothing(child: Frame, depth: int, cfg: Bounds, mem1: Memory, mem2: Memory)
    requires child.co.Some? && !IsValidAddress(ParentRefSlot(child.co.value), cfg)
    ensures Walk(child, depth, cfg, mem1) == Walk(child, depth, cfg, mem2) == []
  {
  }

  /** Every frame but the last is linked to the next one: the chain follows
      the stored back-references and every ancestor runs a function inside
      the module. */
  lemma {:induction false} WalkLinked(child: Frame, depth: int, cfg: Bounds, mem: Memory)
    decreases depth
    ensures ChainLinked(Walk(child, depth, cfg, mem), cfg, mem)
  {
    if depth > 0 {
      match ParentStep(child, cfg, mem)
      case Stop(_) =>
      case Up(parent) =>
        var above := Walk(parent, depth - 1, cfg, mem);
        WalkLinked(parent, depth - 1, cfg, mem);
        var chain := above + [child];
        assert Walk(child, depth, cfg, mem) == chain;
        assert Linked(parent, child, cfg, mem);
        forall i | 0 <= i < |chain| - 1 ensures Linked(chain[i], chain[i + 1], cfg, mem) {
          if i < |above| - 1 {
            assert chain[i] == above[i] && chain[i + 1] == above[i + 1];
          } else {
            assert chain[i] == parent && chain[i + 1] == child;
          }
        }
    }
  }

  /** The walk stops only for a reason: at its oldest frame either the step
      keeps that frame and goes no further, or the depth is spent, or the
      next parent's own slot is implausible or faults. */
  lemma {:induction false} WalkStopsForAReason(child: Frame, depth: int, cfg: Bounds, mem: Memory)
    decreases depth
    ensures var chain := Walk(child, depth, cfg, mem);
      chain != [] ==>
        ParentStep(chain[0], cfg, mem) == Stop(true)
        || (ParentStep(chain[0], cfg, mem).Up?
            && (|chain| == depth || !SlotReadable(ParentStep(chain[0], cfg, mem).parent, cfg, mem)))
  {
    if depth > 0 {
      match ParentStep(child, cfg, mem)
      case Stop(_) =>
      case Up(parent) =>
        var above := Walk(parent, depth - 1, cfg, mem);
        if above == [] {
          WalkEmptyIff(parent, depth - 1, cfg, mem);
        } else {
          WalkStopsForAReason(parent, depth - 1, cfg, mem);
          assert (above + [child])[0] == above[0];
        }
    }
  }

  /** One more unit of depth can only add ancestors: the shallower chain is
      a suffix of the deeper one, which is at most one frame longer. */
  lemma {:induction false} WalkDeeper(child: Frame, depth: int, cfg: Bounds, mem: Memory)
    requires depth >= 0
    decreases depth
    ensures var shallow := Walk(child, depth, cfg, mem);
      var deep := Walk(child, depth + 1, cfg, mem);
      |shallow| <= |deep| <= |shallow| + 1 && deep[|deep| - |shallow|..] == shallow
  {
    var step := ParentStep(child, cfg, mem);
    if depth == 0 {
      var deep := Walk(child, 1, cfg, mem);
      assert deep[|deep|..] == [];
    } else if step.Up? {
      WalkDeeper(step.parent, depth - 1, cfg, mem);
      WalkUp(child, depth, cfg, mem);
      WalkUp(child, depth + 1, cfg, mem);
      SuffixSnoc(Walk(step.parent, depth, cfg, mem), Walk(step.parent, depth - 1, cfg, mem), child);
    } else {
      assert Walk(child, depth, cfg, mem) == Walk(child, depth + 1, cfg, mem);
    }
  }

  /** A level that goes up puts the child under its parent's chain. */
  lemma WalkUp(child: Frame, depth: int, cfg: Bounds, mem: Memory)
    requires depth > 0 && ParentStep(child, cfg, mem).Up?
    ensures Walk(child, depth, cfg, mem) == Walk(ParentStep(child, cfg, mem).parent, depth - 1, cfg, mem) + [child]
  {
  }

  lemma SuffixSnoc(long: seq<Frame>, short: seq<Frame>, x: Frame)
    requires |short| <= |long| && long[|long| - |short|..] == short
    ensures (long + [x])[|long| - |short|..] == short + [x]
  {
    assert (long + [x])[|long| - |short|..] == long[|long| - |short|..] + [x];
  }
}
