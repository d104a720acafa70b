/** The two scripts run the same engine with different constants:
    coroutines.js takes addresses above 0x7F000000 as plausible and keys a
    chain child first, each address followed by a comma. */
module Coroutines {
  import opened Wrappers
  import opened Text
  import opened Walker
  import opened Aggregator

  /** `is_valid_address`: the first 2 GB are taken as kernel memory. */
  const ValidAddressThreshold: nat := 0x7F000000

  const Style: KeyStyle := ReversedTrailing

  /** The engine's bounds for a module range. */
  function Config(dllStart: int, dllEnd: int): (cfg: Bounds)
    ensures forall a :: IsValidAddress(a, cfg) <==> a > 0x7F000000
    ensures forall a :: IsValidFunctionAddress(a, cfg) <==> dllStart <= a <= dllEnd
  {
    Bounds(ValidAddressThreshold, dllStart, dllEnd)
  }

  /** A frame at or below 0x7F000030 has an implausible parent-reference
      slot, so its walk is empty whatever the memory holds. */
  lemma LowFrameWalksNowhere(co: int, fn: string, depth: int, dllStart: int, dllEnd: int, mem: Memory)
    requires co <= 0x7F000030
    ensures Walk(Frame(Some(co), fn), depth, Config(dllStart, dllEnd), mem) == []
  {
  }

  /** The key of a non-empty chain starts with the child's function address
      and a comma: the requested function comes first. */
  lemma KeyStartsWithChild(chain: seq<Frame>)
    requires chain != []
    ensures var child := chain[|chain| - 1].fn;
      |child| < |StackKey(Style, chain)| && StackKey(Style, chain)[..|child| + 1] == child + ","
  {
    var child := chain[|chain| - 1].fn;
    var key := StackKey(Style, chain);
    assert key == child + "," + StackKey(Style, chain[..|chain| - 1]);
    assert key[..|child| + 1] == child + ",";
  }

  /** The documented run (functions 0x7ff62210b9f0 and 0x7ff623035ee0
      above a frame of 00007ff62318bf80): a three-frame chain with function
      addresses `root`, `mid` and `fn` has the key `fn,mid,root,`, and
      printing that key visits `fn`, `mid`, `root`. */
  lemma DocumentedKey(root: Frame, mid: Frame, child: Frame)
    requires root.fn != [] && mid.fn != [] && child.fn != []
    requires ',' !in root.fn && ',' !in mid.fn && ',' !in child.fn
    ensures var chain := [root, mid, child];
      StackKey(Style, chain) == child.fn + "," + mid.fn + "," + root.fn + ","
      && NonEmpty(Split(StackKey(Style, chain), ',')) == [child.fn, mid.fn, root.fn]
  {
    var chain := [root, mid, child];
    assert chain[..2] == [root, mid] && chain[..2][..1] == [root] && [root][..0] == [];
    assert StackKey(Style, [root]) == root.fn + ",";
    assert StackKey(Style, [root, mid]) == mid.fn + "," + (root.fn + ",");
    assert StackKey(Style, chain) == child.fn + "," + (mid.fn + "," + (root.fn + ","));
    KeyRoundTrip(Style, chain);
    assert Fns(chain) == [root.fn, mid.fn, child.fn];
  }
}

/** find_coro.js, the earlier script: addresses above 0x100000 are plausible
    and a chain's key lists it oldest ancestor first, each address preceded
    by a comma. */
module FindCoro {
  import opened Wrappers
  import opened Text
  import opened Walker
  import opened Aggregator

  /** `is_valid_address`: a low placeholder bound. */
  const ValidAddressThreshold: nat := 0x100000

  const Style: KeyStyle := ChainLeading

  /** The engine's bounds for a module range. */
  function Config(dllStart: int, dllEnd: int): (cfg: Bounds)
    ensures forall a :: IsValidAddress(a, cfg) <==> a > 0x100000
    ensures forall a :: IsValidFunctionAddress(a, cfg) <==> dllStart <= a <= dllEnd
  {
    Bounds(ValidAddressThreshold, dllStart, dllEnd)
  }

  /** A frame at or below 0x100030 has an implausible parent-reference slot,
      so its walk is empty whatever the memory holds. */
  lemma LowFrameWalksNowhere(co: int, fn: string, depth: int, dllStart: int, dllEnd: int, mem: Memory)
    requires co <= 0x100030
    ensures Walk(Frame(Some(co), fn), depth, Config(dllStart, dllEnd), mem) == []
  {
  }

  /** The key of a chain ends with a comma and the child's function address
      (the requested function comes last); the empty chain's key is "". */
  lemma KeyEndsWithChild(chain: seq<Frame>)
    ensures chain == [] ==> StackKey(Style, chain) == ""
    ensures chain != [] ==>
      var child := chain[|chain| - 1].fn;
      var key := StackKey(Style, chain);
      |child| < |key| && key[|key| - |child| - 1..] == "," + child
  {
    if chain != [] {
      var child := chain[|chain| - 1].fn;
      var key := StackKey(Style, chain);
      var acc := StackKey(Style, chain[..|chain| - 1]);
      assert key == acc + "," + child;
      assert key[|key| - |child| - 1..] == "," + child;
    }
  }

  /** The documented run: the same three-frame chain has the key
      `,root,mid,fn`, and splitting it gives the functions in chain order. */
  lemma DocumentedKey(root: Frame, mid: Frame, child: Frame)
    requires root.fn != [] && mid.fn != [] && child.fn != []
    requires ',' !in root.fn && ',' !in mid.fn && ',' !in child.fn
    ensures var chain := [root, mid, child];
      StackKey(Style, chain) == "," + root.fn + "," + mid.fn + "," + child.fn
      && NonEmpty(Split(StackKey(Style, chain), ',')) == [root.fn, mid.fn, child.fn]
  {
    var chain := [root, mid, child];
    assert chain[..2] == [root, mid] && chain[..2][..1] == [root] && [root][..0] == [];
    assert StackKey(Style, [root]) == "" + "," + root.fn;
    assert StackKey(Style, [root, mid]) == ("," + root.fn) + "," + mid.fn;
    assert StackKey(Style, chain) == (("," + root.fn) + "," + mid.fn) + "," + child.fn;
    KeyRoundTrip(Style, chain);
    assert Fns(chain) == [root.fn, mid.fn, child.fn];
  }
}
