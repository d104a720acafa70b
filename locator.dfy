/** The frame locator (`find_all_coro_frames`): reads the heap search's
    output lines positionally and keeps the frames of the requested
    function. The search command itself, with its candidate limit, is the
    debugger's; its output is the `lines` parameter. */
module Locator {
  import opened Wrappers
  import opened Text
  import opened Numbers
  import opened Walker

  /** What one output line holds: nothing, fewer than three space-separated
      tokens (the line is kept for the report), or a frame address and a
      function address. */
  datatype LineRecord = Blank | Short(text: string) | Record(co: Option<int>, fn: string)

  /** Token 0 (first backtick removed, read by `parseInt(_, 16)`) is the frame
      address and token 2 (first backtick removed) the function address. */
  function ParseFrameLine(line: string): (r: LineRecord)
    ensures r.Blank? <==> line == []
    ensures r.Short? ==> r.text == line
  {
    if line == [] then Blank
    else
      var tokens := Split(line, ' ');
      if |tokens| < 3 then Short(line)
      else Record(ParseInt16(ReplaceFirst(tokens[0], '`')), ReplaceFirst(tokens[2], '`'))
  }

  /** A non-empty line made of space-free tokens is short when it has one or
      two of them, and otherwise reads its first token as the frame address
      and its third as the function address, whatever follows. */
  lemma ParseFrameLineTokens(tokens: seq<string>)
    requires |tokens| >= 2 || (|tokens| == 1 && tokens[0] != [])
    requires forall i :: 0 <= i < |tokens| ==> ' ' !in tokens[i]
    ensures var line := Join(tokens, ' ');
      ParseFrameLine(line) ==
        if |tokens| < 3 then Short(line)
        else Record(ParseInt16(ReplaceFirst(tokens[0], '`')), ReplaceFirst(tokens[2], '`'))
  {
    var line := Join(tokens, ' ');
    if |tokens| == 1 {
      assert line == tokens[0];
    } else {
      assert line == tokens[0] + [' '] + Join(tokens[1..], ' ');
    }
    assert line != [];
    SplitJoin(tokens, ' ');
  }

  /** The records of the output lines, one per line. */
  function FrameRecords(lines: seq<string>): (records: seq<LineRecord>)
    ensures |records| == |lines|
  {
    seq(|lines|, i requires 0 <= i < |lines| => ParseFrameLine(lines[i]))
  }

  /** The located frames, or the line on which `splits[2].replace` raised
      because the line had fewer than three tokens. */
  datatype Search = Found(frames: seq<Frame>) | Malformed(line: string)

  /** The frames of `target` in the records, in line order; the first short
      line aborts the search. */
  function LocateFrames(records: seq<LineRecord>, target: string): (r: Search)
    ensures r.Found? ==> |r.frames| <= |records|
    ensures r.Found? ==> forall k :: 0 <= k < |r.frames| ==> r.frames[k].fn == target
    ensures r.Malformed? ==> Short(r.line) in records
  {
    if records == [] then Found([])
    else
      match LocateFrames(records[..|records| - 1], target)
      case Malformed(bad) => Malformed(bad)
      case Found(frames) =>
        match records[|records| - 1]
        case Blank => Found(frames)
        case Short(line) => Malformed(line)
        case Record(co, fn) => if fn != target then Found(frames) else Found(frames + [Frame(co, fn)])
  }

  /** `find_all_coro_frames(coro_fn_addres, first_n)` over the search output. */
  method FindAllCoroFrames(lines: seq<string>, target: string) returns (result: Search)
    ensures result == LocateFrames(FrameRecords(lines), target)
  {
    ghost var records := FrameRecords(lines);
    var frames: seq<Frame> := [];
    for i := 0 to |lines|
      invariant LocateFrames(records[..i], target) == Found(frames)
    {
      assert records[..i + 1][..i] == records[..i];
      assert records[i] == ParseFrameLine(lines[i]);
      var line := lines[i];
      if line == [] {
        continue;
      }
      var tokens := Split(line, ' ');
      if |tokens| < 3 {
        MalformedPersists(records, i + 1, target);
        return Malformed(line);
      }
      var coText := ReplaceFirst(tokens[0], '`');
      var fnText := ReplaceFirst(tokens[2], '`');
      if fnText != target {
        continue;
      }
      frames := frames + [Frame(ParseInt16(coText), fnText)];
    }
    assert records[..|lines|] == records;
    result := Found(frames);
  }

  /** Once a short line is met, later lines change nothing. */
  lemma {:induction false} MalformedPersists(records: seq<LineRecord>, k: nat, target: string)
    requires k <= |records| && LocateFrames(records[..k], target).Malformed?
    ensures LocateFrames(records, target) == LocateFrames(records[..k], target)
    decreases |records| - k
  {
    if k < |records| {
      assert records[..k + 1][..k] == records[..k];
      MalformedPersists(records, k + 1, target);
    } else {
      assert records[..k] == records;
    }
  }

  /** The search raises exactly when some line is short, and then it names
      the first such line. */
  lemma {:induction false} MalformedIff(records: seq<LineRecord>, target: string)
    ensures LocateFrames(records, target).Malformed? <==> exists i :: 0 <= i < |records| && records[i].Short?
    ensures LocateFrames(records, target).Malformed? ==>
      exists i :: 0 <= i < |records| && records[i] == Short(LocateFrames(records, target).line)
        && forall j :: 0 <= j < i ==> !records[j].Short?
  {
    if records != [] {
      var prefix := records[..|records| - 1];
      MalformedIff(prefix, target);
      assert forall i :: 0 <= i < |prefix| ==> prefix[i] == records[i];
      if LocateFrames(prefix, target).Malformed? {
        var i :| 0 <= i < |prefix| && prefix[i] == Short(LocateFrames(prefix, target).line)
          && forall j :: 0 <= j < i ==> !prefix[j].Short?;
        assert records[i] == Short(LocateFrames(records, target).line);
      } else if records[|records| - 1].Short? {
        assert records[|records| - 1] == Short(LocateFrames(records, target).line);
      }
    }
  }

  /** Every located frame comes from its own output line, in line order, and
      every line holding a record of `target` gives a located frame. */
  lemma {:induction false} FoundFrameSources(records: seq<LineRecord>, target: string) returns (idx: seq<nat>)
    requires LocateFrames(records, target).Found?
    ensures var frames := LocateFrames(records, target).frames;
      |idx| == |frames|
      && (forall k :: 0 <= k < |idx| ==> idx[k] < |records| && records[idx[k]] == Record(frames[k].co, target))
      && (forall k, m :: 0 <= k < m < |idx| ==> idx[k] < idx[m])
      && (forall i :: 0 <= i < |records| && records[i].Record? && records[i].fn == target ==> i in idx)
  {
    if records == [] {
      idx := [];
    } else {
      var n := |records| - 1;
      var prefix := records[..n];
      assert forall i :: 0 <= i < n ==> prefix[i] == records[i];
      var before := FoundFrameSources(prefix, target);
      var frames := LocateFrames(prefix, target).frames;
      match records[n]
      case Blank =>
        idx := before;
      case Short(_) =>
        assert false;
      case Record(co, fn) =>
        if fn != target {
          idx := before;
        } else {
          idx := before + [n];
          assert LocateFrames(records, target).frames == frames + [Frame(co, fn)];
        }
    }
  }
}
