/** The chain aggregator (`unique_coroutine_frames`): walks every located
    frame, turns each chain into a text key made of its function addresses
    and counts how often each key occurs. The two scripts build the key
    differently; `KeyStyle` says which way. */
module Aggregator {
  import opened Wrappers
  import opened Text
  import opened Walker
  import opened Locator

  /** `ReversedTrailing`: `s.fn_address + "," + acc` (coroutines.js), the
      chain's function addresses from the child up, each followed by a comma.
      `ChainLeading`: `acc + "," + s.fn_address` (find_coro.js), the addresses
      oldest ancestor first, each preceded by a comma. */
  datatype KeyStyle = ReversedTrailing | ChainLeading

  /** The function addresses of a chain, in chain order. */
  function Fns(chain: seq<Frame>): seq<string>
  {
    seq(|chain|, i requires 0 <= i < |chain| => chain[i].fn)
  }

  /** `stack.reduce(step, "")`: the fold runs over the chain in order, so
      the key of a chain extends the key of the chain without its last frame. */
  function StackKey(style: KeyStyle, chain: seq<Frame>): (key: string)
    ensures key == [] <==> chain == []
    ensures |key| >= |chain|
  {
    if chain == [] then ""
    else
      var acc := StackKey(style, chain[..|chain| - 1]);
      var fn := chain[|chain| - 1].fn;
      match style
      case ReversedTrailing => fn + "," + acc
      case ChainLeading => acc + "," + fn
  }

  /** The order in which a key lists the chain's function addresses. */
  function KeyOrder(style: KeyStyle, fns: seq<string>): seq<string>
  {
    match style
    case ReversedTrailing => Reverse(fns)
    case ChainLeading => fns
  }

  /** No function address holds the separator. */
  predicate CommaFree(chain: seq<Frame>)
  {
    forall i :: 0 <= i < |chain| ==> ',' !in chain[i].fn
  }

  /** The pieces a key joins with commas: the function addresses child first
      and an empty last piece (coroutines.js), or oldest first after an empty
      first piece (find_coro.js). */
  function KeyPieces(style: KeyStyle, fns: seq<string>): seq<string>
  {
    match style
    case ReversedTrailing => Reverse(fns) + [""]
    case ChainLeading => [""] + fns
  }

  /** The key is its pieces joined by commas; the empty chain gives "". */
  lemma StackKeyIsJoin(style: KeyStyle, chain: seq<Frame>)
    ensures StackKey(style, chain) == Join(KeyPieces(style, Fns(chain)), ',')
  {
    match style
    case ReversedTrailing => ReversedKeyIsJoin(chain);
    case ChainLeading => LeadingKeyIsJoin(chain);
  }

  /** The coroutines.js key: each address, child first, followed by a comma. */
  lemma {:induction false} ReversedKeyIsJoin(chain: seq<Frame>)
    ensures StackKey(ReversedTrailing, chain) == Join(Reverse(Fns(chain)) + [""], ',')
  {
    if chain != [] {
      var n := |chain| - 1;
      var prefix := chain[..n];
      ReversedKeyIsJoin(prefix);
      assert Fns(chain) == Fns(prefix) + [chain[n].fn];
      var pieces := Reverse(Fns(chain)) + [""];
      assert pieces == [chain[n].fn] + (Reverse(Fns(prefix)) + [""]);
      assert pieces[1..] == Reverse(Fns(prefix)) + [""];
    }
  }

  /** The find_coro.js key: each address, oldest first, preceded by a comma. */
  lemma {:induction false} LeadingKeyIsJoin(chain: seq<Frame>)
    ensures StackKey(ChainLeading, chain) == Join([""] + Fns(chain), ',')
  {
    if chain != [] {
      var n := |chain| - 1;
      var prefix := chain[..n];
      LeadingKeyIsJoin(prefix);
      assert Fns(chain) == Fns(prefix) + [chain[n].fn];
      JoinSnoc([""] + Fns(prefix), chain[n].fn, ',');
      assert [""] + Fns(chain) == ([""] + Fns(prefix)) + [chain[n].fn];
    }
  }

  /** The key depends on the function addresses alone. */
  lemma {:induction false} KeyOfFns(style: KeyStyle, a: seq<Frame>, b: seq<Frame>)
    requires Fns(a) == Fns(b)
    ensures StackKey(style, a) == StackKey(style, b)
  {
    if a != [] {
      var n := |a| - 1;
      assert |b| == |a| && a[n].fn == Fns(a)[n] == Fns(b)[n] == b[n].fn;
      assert Fns(a[..n]) == Fns(a)[..n] && Fns(b[..n]) == Fns(b)[..n];
      KeyOfFns(style, a[..n], b[..n]);
    }
  }

  /** Splitting a key on commas and dropping the empty pieces gives back
      the chain's function addresses in the key's order, as long as none of
      them is empty or holds a comma. */
  lemma KeyRoundTrip(style: KeyStyle, chain: seq<Frame>)
    requires CommaFree(chain)
    requires forall i :: 0 <= i < |chain| ==> chain[i].fn != ""
    ensures NonEmpty(Split(StackKey(style, chain), ',')) == KeyOrder(style, Fns(chain))
  {
    StackKeyIsJoin(style, chain);
    var fns := Fns(chain);
    match style
    case ReversedTrailing =>
      SplitJoin(KeyPieces(style, fns), ',');
      NonEmptyAppend(Reverse(fns), [""]);
      NonEmptyKeeps(Reverse(fns));
    case ChainLeading =>
      SplitJoin(KeyPieces(style, fns), ',');
      NonEmptyAppend([""], fns);
      NonEmptyKeeps(fns);
  }

  /** Two comma-free chains share a key exactly when they have the same
      function addresses in the same order. */
  lemma KeyInjective(style: KeyStyle, a: seq<Frame>, b: seq<Frame>)
    requires CommaFree(a) && CommaFree(b)
    ensures StackKey(style, a) == StackKey(style, b) <==> Fns(a) == Fns(b)
  {
    if StackKey(style, a) == StackKey(style, b) {
      match style
      case ReversedTrailing => ReversedKeyDeterminesFns(a, b);
      case ChainLeading => LeadingKeyDeterminesFns(a, b);
    }
    if Fns(a) == Fns(b) {
      KeyOfFns(style, a, b);
    }
  }

  lemma ReversedKeyDeterminesFns(a: seq<Frame>, b: seq<Frame>)
    requires CommaFree(a) && CommaFree(b)
    requires StackKey(ReversedTrailing, a) == StackKey(ReversedTrailing, b)
    ensures Fns(a) == Fns(b)
  {
    ReversedKeyIsJoin(a);
    ReversedKeyIsJoin(b);
    var pa, pb := Reverse(Fns(a)) + [""], Reverse(Fns(b)) + [""];
    SplitJoin(pa, ',');
    SplitJoin(pb, ',');
    assert pa[..|pa| - 1] == Reverse(Fns(a)) && pb[..|pb| - 1] == Reverse(Fns(b));
    ReverseInjective(Fns(a), Fns(b));
  }

  lemma LeadingKeyDeterminesFns(a: seq<Frame>, b: seq<Frame>)
    requires CommaFree(a) && CommaFree(b)
    requires StackKey(ChainLeading, a) == StackKey(ChainLeading, b)
    ensures Fns(a) == Fns(b)
  {
    LeadingKeyIsJoin(a);
    LeadingKeyIsJoin(b);
    var pa, pb := [""] + Fns(a), [""] + Fns(b);
    SplitJoin(pa, ',');
    SplitJoin(pb, ',');
    assert pa[1..] == Fns(a) && pb[1..] == Fns(b);
  }

  /** The `fn_stacks` map after the keys have been counted in order: a new
      key is set to 1, a known one to its count plus 1. */
  function CountKeys(keys: seq<string>): (counts: map<string, nat>)
    ensures counts == map[] <==> keys == []
  {
    if keys == [] then map[]
    else
      var counts := CountKeys(keys[..|keys| - 1]);
      var key := keys[|keys| - 1];
      if key in counts then counts[key := counts[key] + 1] else counts[key := 1]
  }

  /** Counting one more key updates that key's entry only. */
  lemma CountKeysSnoc(keys: seq<string>, i: nat)
    requires i < |keys|
    ensures var counts := CountKeys(keys[..i]);
      CountKeys(keys[..i + 1]) == if keys[i] in counts then counts[keys[i] := counts[keys[i]] + 1] else counts[keys[i] := 1]
  {
    assert keys[..i + 1][..i] == keys[..i];
  }

  /** The map holds one entry per distinct key, whose count is the number of
      times the key occurs. */
  lemma {:induction false} CountKeysMultiplicity(keys: seq<string>)
    ensures CountKeys(keys).Keys == set k | k in keys
    ensures forall k :: k in CountKeys(keys) ==> CountKeys(keys)[k] == multiset(keys)[k]
  {
    if keys != [] {
      var n := |keys| - 1;
      CountKeysMultiplicity(keys[..n]);
      assert keys == keys[..n] + [keys[n]];
      assert multiset(keys) == multiset(keys[..n]) + multiset{keys[n]};
    }
  }

  /** N chains with one and the same key give one entry, counted N times. */
  lemma SameKeyCountedOnce(keys: seq<string>, key: string)
    requires |keys| >= 1
    requires forall i :: 0 <= i < |keys| ==> keys[i] == key
    ensures CountKeys(keys) == map[key := |keys|]
  {
    CountKeysMultiplicity(keys);
    assert multiset(keys)[key] == |keys| by {
      assert multiset(keys) == multiset{} [key := |keys|] by {
        SameMultiset(keys, key);
      }
    }
  }

  lemma {:induction false} SameMultiset(keys: seq<string>, key: string)
    requires forall i :: 0 <= i < |keys| ==> keys[i] == key
    ensures multiset(keys) == multiset{} [key := |keys|]
  {
    if keys != [] {
      var n := |keys| - 1;
      SameMultiset(keys[..n], key);
      assert keys == keys[..n] + [key];
    }
  }

  /** The sum of the counts in a map. */
  ghost function Total(m: map<string, nat>): nat
    decreases |m|
  {
    if m == map[] then 0
    else
      var k :| k in m;
      assert |m - {k}| < |m| by { MapRemoveSize(m, k); }
      m[k] + Total(m - {k})
  }

  lemma MapRemoveSize(m: map<string, nat>, k: string)
    requires k in m
    ensures |m - {k}| == |m| - 1
  {
    assert (m - {k}).Keys == m.Keys - {k};
  }

  /** The sum does not depend on which key is taken out first. */
  lemma {:induction false} TotalRemove(m: map<string, nat>, k: string)
    requires k in m
    ensures Total(m) == m[k] + Total(m - {k})
    decreases |m|
  {
    var j :| j in m && Total(m) == m[j] + Total(m - {j});
    if j != k {
      MapRemoveSize(m, j);
      MapRemoveSize(m, k);
      TotalRemove(m - {j}, k);
      TotalRemove(m - {k}, j);
      assert (m - {j}) - {k} == (m - {k}) - {j};
    }
  }

  /** Counting adds exactly 1 per key: the counts sum to the number of keys,
      that is to the number of located frames. */
  lemma {:induction false} CountKeysTotal(keys: seq<string>)
    ensures Total(CountKeys(keys)) == |keys|
  {
    if keys != [] {
      var n := |keys| - 1;
      var counts := CountKeys(keys[..n]);
      var key := keys[n];
      CountKeysTotal(keys[..n]);
      var next := CountKeys(keys);
      TotalRemove(next, key);
      assert next - {key} == counts - {key};
      if key in counts {
        TotalRemove(counts, key);
      } else {
        assert counts - {key} == counts;
      }
    }
  }

  /** The key of each located frame's chain, in frame order. */
  function ChainKeys(frames: seq<Frame>, depth: int, cfg: Bounds, style: KeyStyle, mem: Memory): seq<string>
  {
    seq(|frames|, i requires 0 <= i < |frames| => StackKey(style, Walk(frames[i], depth, cfg, mem)))
  }

  /** The counting loop of `unique_coroutine_frames`: walk each located
      frame, build its key and count it in `fn_stacks`. */
  method CountStacks(parents: seq<Frame>, depth: int, cfg: Bounds, style: KeyStyle, mem: Memory)
    returns (fnStacks: map<string, nat>)
    ensures fnStacks == CountKeys(ChainKeys(parents, depth, cfg, style, mem))
  {
    ghost var keys := ChainKeys(parents, depth, cfg, style, mem);
    fnStacks := map[];
    for i := 0 to |parents|
      invariant fnStacks == CountKeys(keys[..i])
    {
      var stack := Walk(parents[i], depth, cfg, mem);
      var key := StackKey(style, stack);
      assert keys[i] == key;
      CountKeysSnoc(keys, i);
      if key in fnStacks {
        fnStacks := fnStacks[key := fnStacks[key] + 1];
      } else {
        fnStacks := fnStacks[key := 1];
      }
    }
    assert keys[..|parents|] == keys;
  }

  /** A frame whose parent handle points at `a`, whose own parent `r` is the
      root (its parent handle is null and reading address 0 faults), walks
      at depth 3 to `[r, a, child]`. */
  lemma ThreeLevelWalk(c: Frame, a: nat, r: nat, fa: nat, fr: nat, cfg: Bounds, mem: Memory)
    requires c.co.Some? && IsValidAddress(ParentRefSlot(c.co.value), cfg) && Read(mem, ParentRefSlot(c.co.value)) == Some(a)
    requires IsValidAddress(a, cfg) && Read(mem, a) == Some(fa) && IsValidFunctionAddress(fa, cfg)
    requires IsValidAddress(ParentRefSlot(a), cfg) && Read(mem, ParentRefSlot(a)) == Some(r)
    requires IsValidAddress(r, cfg) && Read(mem, r) == Some(fr) && IsValidFunctionAddress(fr, cfg)
    requires IsValidAddress(ParentRefSlot(r), cfg) && Read(mem, ParentRefSlot(r)) == Some(0) && Read(mem, 0) == None
    ensures Walk(c, 3, cfg, mem) == [Frame(Some(r), Numbers.WordText(fr)), Frame(Some(a), Numbers.WordText(fa)), c]
  {
    var root, mid := Frame(Some(r), Numbers.WordText(fr)), Frame(Some(a), Numbers.WordText(fa));
    assert ParentStep(root, cfg, mem) == Stop(true);
    assert Walk(root, 1, cfg, mem) == [root];
    assert ParentStep(mid, cfg, mem) == Up(root);
    assert Walk(mid, 2, cfg, mem) == [root, mid];
    assert ParentStep(c, cfg, mem) == Up(mid);
  }

  /** Two located frames of the same function whose parent handles both
      point at one ancestor `a`, whose own parent `r` is the root: with depth
      3 both chains are `[r, a, child]` and the map holds one key counted
      twice. */
  lemma SharedAncestryOneKey(c1: Frame, c2: Frame, a: nat, r: nat, fa: nat, fr: nat,
                             cfg: Bounds, style: KeyStyle, mem: Memory)
    requires c1.co.Some? && c2.co.Some? && c1.fn == c2.fn
    requires IsValidAddress(ParentRefSlot(c1.co.value), cfg) && Read(mem, ParentRefSlot(c1.co.value)) == Some(a)
    requires IsValidAddress(ParentRefSlot(c2.co.value), cfg) && Read(mem, ParentRefSlot(c2.co.value)) == Some(a)
    requires IsValidAddress(a, cfg) && Read(mem, a) == Some(fa) && IsValidFunctionAddress(fa, cfg)
    requires IsValidAddress(ParentRefSlot(a), cfg) && Read(mem, ParentRefSlot(a)) == Some(r)
    requires IsValidAddress(r, cfg) && Read(mem, r) == Some(fr) && IsValidFunctionAddress(fr, cfg)
    requires IsValidAddress(ParentRefSlot(r), cfg) && Read(mem, ParentRefSlot(r)) == Some(0) && Read(mem, 0) == None
    ensures var root, mid := Frame(Some(r), Numbers.WordText(fr)), Frame(Some(a), Numbers.WordText(fa));
      Walk(c1, 3, cfg, mem) == [root, mid, c1] && Walk(c2, 3, cfg, mem) == [root, mid, c2]
      && CountKeys(ChainKeys([c1, c2], 3, cfg, style, mem)) == map[StackKey(style, [root, mid, c1]) := 2]
  {
    var root, mid := Frame(Some(r), Numbers.WordText(fr)), Frame(Some(a), Numbers.WordText(fa));
    ThreeLevelWalk(c1, a, r, fa, fr, cfg, mem);
    ThreeLevelWalk(c2, a, r, fa, fr, cfg, mem);
    var chain1, chain2 := [root, mid, c1], [root, mid, c2];
    assert Fns(chain1) == Fns(chain2);
    KeyOfFns(style, chain1, chain2);
    var keys := ChainKeys([c1, c2], 3, cfg, style, mem);
    assert keys == [StackKey(style, chain1), StackKey(style, chain2)];
    SameKeyCountedOnce(keys, StackKey(style, chain1));
  }

  /** What `unique_coroutine_frames` returns for a requested function
      address: `None` when the frame search raised on a short line, else the
      count of every chain key. `heapSearch` gives the frame search's output
      for the address after the `0x` strip. */
  function UniqueStacks(target: string, heapSearch: string -> seq<string>, depth: int,
                        cfg: Bounds, style: KeyStyle, mem: Memory): (r: Option<map<string, nat>>)
    ensures var records := FrameRecords(heapSearch(StripHexPrefix(target)));
      r.None? <==> exists i :: 0 <= i < |records| && records[i].Short?
  {
    var fn := StripHexPrefix(target);
    MalformedIff(FrameRecords(heapSearch(fn)), fn);
    var located := LocateFrames(FrameRecords(heapSearch(fn)), fn);
    if located.Malformed? then None
    else Some(CountKeys(ChainKeys(located.frames, depth, cfg, style, mem)))
  }

  /** `unique_coroutine_frames(coro_fn_addres, first_n, call_stack_depth,
      dll_base_start, dll_base_end)`. */
  method UniqueCoroutineFrames(target: string, heapSearch: string -> seq<string>, depth: int,
                               cfg: Bounds, style: KeyStyle, mem: Memory)
    returns (stacks: Option<map<string, nat>>)
    ensures stacks == UniqueStacks(target, heapSearch, depth, cfg, style, mem)
  {
    var fn := StripHexPrefix(target);
    var lines := heapSearch(fn);
    var located := FindAllCoroFrames(lines, fn);
    if located.Malformed? {
      stacks := None;
    } else {
      var fnStacks := CountStacks(located.frames, depth, cfg, style, mem);
      stacks := Some(fnStacks);
    }
  }
}
