/** The batch driver (`all_unique_coroutine_frames`): for every line of the
    symbol search (`x <pattern>`) it runs `unique_coroutine_frames` on the
    line's function address. The symbol search's output is `symbolLines`. */
module Driver {
  import opened Wrappers
  import opened Text
  import opened Walker
  import opened Aggregator
  import opened Locator

  /** The function address on a symbol-search line: the first space-delimited
      token with its first backtick removed. */
  function SymbolAddress(line: string): (address: string)
    ensures ' ' !in address
    ensures '`' !in Split(line, ' ')[0] ==> address == Split(line, ' ')[0]
  {
    ReplaceFirst(Split(line, ' ')[0], '`')
  }

  /** What one run of `unique_coroutine_frames` reported: the map it logs.
      The script drops the map it returns, so the log is where it shows. */
  datatype Report = Report(fnAddress: string, stacks: map<string, nat>)

  /** One run of `unique_coroutine_frames` per function address: `None`
      when it raised, else the map it returned. */
  type Run = string -> Option<map<string, nat>>

  /** The runs `all_unique_coroutine_frames` makes with its fixed arguments. */
  function UniqueRun(heapSearch: string -> seq<string>, depth: int, cfg: Bounds, style: KeyStyle, mem: Memory): Run
  {
    address => UniqueStacks(address, heapSearch, depth, cfg, style, mem)
  }

  /** The reports of the batch over the lines, and whether it got to the end:
      empty lines are skipped, and a run that raises ends the batch. */
  function BatchReports(lines: seq<string>, run: Run): (result: (seq<Report>, bool))
    ensures |result.0| <= |lines|
  {
    if lines == [] then ([], true)
    else
      var (reports, completed) := BatchReports(lines[..|lines| - 1], run);
      var line := lines[|lines| - 1];
      if !completed || line == [] then (reports, completed)
      else match run(SymbolAddress(line))
        case None => (reports, false)
        case Some(stacks) => (reports + [Report(SymbolAddress(line), stacks)], true)
  }

  /** `all_unique_coroutine_frames(coro_pattern, first_n, call_stack_depth,
      dll_base_start, dll_base_end)`. The script returns nothing; `reports`
      are the maps its runs log, and `completed` is false when a run raised. */
  method AllUniqueCoroutineFrames(symbolLines: seq<string>, heapSearch: string -> seq<string>, depth: int,
                                  cfg: Bounds, style: KeyStyle, mem: Memory)
    returns (reports: seq<Report>, completed: bool)
    ensures (reports, completed) == BatchReports(symbolLines, UniqueRun(heapSearch, depth, cfg, style, mem))
  {
    ghost var run := UniqueRun(heapSearch, depth, cfg, style, mem);
    reports := [];
    for i := 0 to |symbolLines|
      invariant BatchReports(symbolLines[..i], run) == (reports, true)
    {
      assert symbolLines[..i + 1][..i] == symbolLines[..i];
      var line := symbolLines[i];
      if line == [] {
        continue;
      }
      var splits := Split(line, ' ');
      var fnAddress := ReplaceFirst(splits[0], '`');
      var stacks := UniqueCoroutineFrames(fnAddress, heapSearch, depth, cfg, style, mem);
      assert run(fnAddress) == stacks;
      if stacks.None? {
        BatchStopPersists(symbolLines, i + 1, run);
        return reports, false;
      }
      reports := reports + [Report(fnAddress, stacks.value)];
    }
    assert symbolLines[..|symbolLines|] == symbolLines;
    completed := true;
  }

  /** Once a run has raised, later lines add nothing. */
  lemma {:induction false} BatchStopPersists(lines: seq<string>, k: nat, run: Run)
    requires k <= |lines| && !BatchReports(lines[..k], run).1
    ensures BatchReports(lines, run) == BatchReports(lines[..k], run)
    decreases |lines| - k
  {
    if k < |lines| {
      assert lines[..k + 1][..k] == lines[..k];
      BatchStopPersists(lines, k + 1, run);
    } else {
      assert lines[..k] == lines;
    }
  }

  /** The function addresses of the non-empty symbol lines, in order. */
  function SymbolAddresses(lines: seq<string>): seq<string>
  {
    var named := NonEmpty(lines);
    seq(|named|, i requires 0 <= i < |named| => SymbolAddress(named[i]))
  }

  /** One more symbol line adds its address unless it is empty. */
  lemma SymbolAddressesSnoc(lines: seq<string>, line: string)
    ensures SymbolAddresses(lines + [line]) == SymbolAddresses(lines) + (if line == [] then [] else [SymbolAddress(line)])
  {
    NonEmptyAppend(lines, [line]);
    if line == [] {
      assert NonEmpty(lines + [line]) == NonEmpty(lines);
    } else {
      assert NonEmpty(lines + [line]) == NonEmpty(lines) + [line];
    }
  }

  /** The batch runs once per non-empty line, in line order: its reports are
      for the first addresses of the symbol search, each holding what the
      run returns for it; it gets to the end unless the run on the next
      address raised. */
  lemma {:induction false} BatchFollowsSymbols(lines: seq<string>, run: Run)
    ensures var (reports, completed) := BatchReports(lines, run);
      var addresses := SymbolAddresses(lines);
      |reports| <= |addresses|
      && (forall i :: 0 <= i < |reports| ==>
            reports[i].fnAddress == addresses[i] && run(addresses[i]) == Some(reports[i].stacks))
      && (completed <==> |reports| == |addresses|)
      && (!completed ==> run(addresses[|reports|]) == None)
  {
    if lines != [] {
      var n := |lines| - 1;
      var prefix := lines[..n];
      BatchFollowsSymbols(prefix, run);
      assert lines == prefix + [lines[n]];
      SymbolAddressesSnoc(prefix, lines[n]);
      var (reports, completed) := BatchReports(prefix, run);
      if completed && lines[n] != [] {
        assert SymbolAddresses(lines)[|reports|] == SymbolAddress(lines[n]);
      }
    }
  }

  /** For `all_unique_coroutine_frames`: the i-th report holds what
      `unique_coroutine_frames` returns for the i-th symbol address, and a
      batch that stops early stopped on a frame search with a short line. */
  lemma BatchReportsUniqueStacks(lines: seq<string>, heapSearch: string -> seq<string>, depth: int,
                                 cfg: Bounds, style: KeyStyle, mem: Memory)
    ensures var (reports, completed) := BatchReports(lines, UniqueRun(heapSearch, depth, cfg, style, mem));
      var addresses := SymbolAddresses(lines);
      |reports| <= |addresses|
      && (forall i :: 0 <= i < |reports| ==>
            reports[i].fnAddress == addresses[i]
            && UniqueStacks(addresses[i], heapSearch, depth, cfg, style, mem) == Some(reports[i].stacks))
      && (completed <==> |reports| == |addresses|)
      && (!completed ==>
            var records := FrameRecords(heapSearch(StripHexPrefix(addresses[|reports|])));
            exists j :: 0 <= j < |records| && records[j].Short?)
  {
    BatchFollowsSymbols(lines, UniqueRun(heapSearch, depth, cfg, style, mem));
  }
}
