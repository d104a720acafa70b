/** The address-list parse of `print_stack_from_addresses`: a chain key is
    split on commas and every non-empty piece is handed to the disassembler
    (which is the debugger's and not part of this model). */
module StackPrinter {
  import opened Numbers
  import opened Text
  import opened Walker
  import opened Aggregator

  /** The addresses `print_stack_from_addresses(addresses)` disassembles, in
      order: the comma-separated pieces, empty ones skipped. */
  method PrintStackFromAddresses(addresses: string) returns (printed: seq<string>)
    ensures printed == NonEmpty(Split(addresses, ','))
    ensures forall i :: 0 <= i < |printed| ==> printed[i] != [] && ',' !in printed[i]
  {
    var pieces := Split(addresses, ',');
    printed := [];
    for i := 0 to |pieces|
      invariant printed == NonEmpty(pieces[..i])
    {
      assert pieces[..i + 1] == pieces[..i] + [pieces[i]];
      NonEmptyAppend(pieces[..i], [pieces[i]]);
      var address := pieces[i];
      if address == [] {
        continue;
      }
      printed := printed + [address];
    }
    assert pieces[..|pieces|] == pieces;
    forall i | 0 <= i < |printed| ensures printed[i] != [] && ',' !in printed[i] {
      assert printed[i] in pieces;
    }
  }

  lemma WordTextCommaFree(w: nat)
    ensures ',' !in WordText(w) && WordText(w) != []
  {
    var text := WordText(w);
    forall i | 0 <= i < |text| ensures text[i] != ',' {
      if i >= 2 {
        assert IsHexDigit(text[i]);
      } else {
        assert text[..2][i] == text[i];
      }
    }
  }

  /** Every frame the walk adds above the child has the debugger's text of a
      word as its function address. */
  lemma WalkAncestorsAreWords(child: Frame, depth: int, cfg: Bounds, mem: Memory)
    ensures var chain := Walk(child, depth, cfg, mem);
      forall i :: 0 <= i < |chain| - 1 ==> exists w :: chain[i].fn == WordText(w)
  {
    var chain := Walk(child, depth, cfg, mem);
    WalkLinked(child, depth, cfg, mem);
    forall i | 0 <= i < |chain| - 1 ensures exists w :: chain[i].fn == WordText(w) {
      assert Linked(chain[i], chain[i + 1], cfg, mem);
    }
  }

  /** Printing a walked chain's key visits the chain's function addresses in
      the key's order, provided the requested address is neither empty nor
      holds a comma (the ancestors' word texts never do). */
  lemma PrintedKeyIsChain(style: KeyStyle, child: Frame, depth: int, cfg: Bounds, mem: Memory)
    requires child.fn != [] && ',' !in child.fn
    ensures var chain := Walk(child, depth, cfg, mem);
      NonEmpty(Split(StackKey(style, chain), ',')) == KeyOrder(style, Fns(chain))
  {
    var chain := Walk(child, depth, cfg, mem);
    WalkLinked(child, depth, cfg, mem);
    forall i | 0 <= i < |chain| ensures chain[i].fn != [] && ',' !in chain[i].fn {
      if i < |chain| - 1 {
        assert Linked(chain[i], chain[i + 1], cfg, mem);
        WordTextCommaFree(mem[chain[i].co.value]);
      }
    }
    KeyRoundTrip(style, chain);
  }
}
