/** Day 19: towel designs.

    A design is a string of stripe colours and the patterns are a set of
    towel strings. `matcher` decides whether a design can be laid out as
    a concatenation of patterns, and `counter` counts the ways to do so.
    Both recurse on what is left after each pattern the design starts
    with. The pattern set is a sequence here, one element per distinct
    pattern, in the order the set is enumerated. */
module Day19 {

  /** Patterns are distinct, as a set's elements are, and non-empty: an
      empty pattern would make the recursion call itself on the same
      design forever. */
  predicate ValidPatterns(patterns: seq<string>)
  {
    (forall i :: 0 <= i < |patterns| ==> patterns[i] != []) &&
    (forall i, j :: 0 <= i < j < |patterns| ==> patterns[i] != patterns[j])
  }

  /** `design.startswith(p)`. */
  predicate StartsWith(design: string, p: string)
  {
    |p| <= |design| && design[..|p|] == p
  }

  // ---------------------------------------------------------------------
  // Decompositions

  /** The patterns named by `ks`, one after another. */
  function Concat(patterns: seq<string>, ks: seq<nat>): string
    requires forall i :: 0 <= i < |ks| ==> ks[i] < |patterns|
  {
    if ks == [] then [] else patterns[ks[0]] + Concat(patterns, ks[1..])
  }

  /** `ks` lays the design out as a concatenation of patterns. */
  predicate IsDecomposition(patterns: seq<string>, ks: seq<nat>, design: string)
  {
    (forall i :: 0 <= i < |ks| ==> ks[i] < |patterns|) && Concat(patterns, ks) == design
  }

  /** The recursion of `matcher`: empty, or some pattern starts the design
      and the rest can be made. */
  predicate CanMake(patterns: seq<string>, design: string)
    requires ValidPatterns(patterns)
    decreases |design|
  {
    design == [] ||
    exists i :: 0 <= i < |patterns| && StartsWith(design, patterns[i]) &&
                CanMake(patterns, design[|patterns[i]|..])
  }

  /** The recursion of `counter`: 1 for the empty design, otherwise the
      sum over the patterns the design starts with. */
  function Ways(patterns: seq<string>, design: string): nat
    requires ValidPatterns(patterns)
    decreases |design|, |patterns| + 1
  {
    if design == [] then 1 else WaysFrom(patterns, design, |patterns|)
  }

  /** The sum over the first k patterns of the ways to make the rest. */
  function WaysFrom(patterns: seq<string>, design: string, k: nat): nat
    requires ValidPatterns(patterns) && k <= |patterns|
    decreases |design|, k
  {
    if k == 0 then 0
    else
      var p := patterns[k - 1];
      WaysFrom(patterns, design, k - 1) +
      (if StartsWith(design, p) then Ways(patterns, design[|p|..]) else 0)
  }

  /** A design that some pattern starts is that pattern followed by the
      rest. */
  lemma SplitAt(design: string, p: string)
    requires StartsWith(design, p)
    ensures design == p + design[|p|..]
  {
  }

  /** `matcher` holds exactly for the designs that are a concatenation of
      patterns. */
  lemma {:induction false} CanMakeIffDecomposition(patterns: seq<string>, design: string)
    requires ValidPatterns(patterns)
    ensures CanMake(patterns, design) <==> exists ks :: IsDecomposition(patterns, ks, design)
    decreases |design|
  {
    if CanMake(patterns, design) {
      if design == [] {
        assert IsDecomposition(patterns, [], design);
      } else {
        var i :| 0 <= i < |patterns| && StartsWith(design, patterns[i]) &&
                 CanMake(patterns, design[|patterns[i]|..]);
        var rest := design[|patterns[i]|..];
        CanMakeIffDecomposition(patterns, rest);
        var ks :| IsDecomposition(patterns, ks, rest);
        SplitAt(design, patterns[i]);
        DecompositionCons(patterns, i, ks, rest);
      }
    }
    if exists ks :: IsDecomposition(patterns, ks, design) {
      var ks :| IsDecomposition(patterns, ks, design);
      if ks != [] {
        DecompositionHead(patterns, ks, design);
      }
    }
  }

  /** A pattern followed by a decomposition of the rest decomposes the
      whole. */
  lemma DecompositionCons(patterns: seq<string>, i: nat, ks: seq<nat>, rest: string)
    requires i < |patterns| && IsDecomposition(patterns, ks, rest)
    ensures IsDecomposition(patterns, [i] + ks, patterns[i] + rest)
  {
    assert ([i] + ks)[1..] == ks;
  }

  /** A non-empty decomposition starts with a pattern the design starts
      with, and the rest of it decomposes the rest of the design. */
  lemma {:induction false} DecompositionHead(patterns: seq<string>, ks: seq<nat>, design: string)
    requires ValidPatterns(patterns) && ks != [] && IsDecomposition(patterns, ks, design)
    ensures CanMake(patterns, design)
    decreases |design|
  {
    var p := patterns[ks[0]];
    var rest := Concat(patterns, ks[1..]);
    assert design == p + rest;
    assert design[..|p|] == p && design[|p|..] == rest;
    assert IsDecomposition(patterns, ks[1..], rest);
    if ks[1..] != [] {
      DecompositionHead(patterns, ks[1..], rest);
    }
    assert StartsWith(design, p) && CanMake(patterns, design[|p|..]);
  }

  /** A design has a way to be made exactly when it can be made. */
  lemma {:induction false} WaysPositiveIffCanMake(patterns: seq<string>, design: string)
    requires ValidPatterns(patterns)
    ensures Ways(patterns, design) > 0 <==> CanMake(patterns, design)
    decreases |design|
  {
    if design != [] {
      WaysFromPositive(patterns, design, |patterns|);
    }
  }

  lemma {:induction false} WaysFromPositive(patterns: seq<string>, design: string, k: nat)
    requires ValidPatterns(patterns) && k <= |patterns| && design != []
    ensures WaysFrom(patterns, design, k) > 0 <==>
            exists i :: 0 <= i < k && StartsWith(design, patterns[i]) &&
                        CanMake(patterns, design[|patterns[i]|..])
    decreases |design|, k
  {
    hide CanMake, Ways;
    if k > 0 {
      var p := patterns[k - 1];
      WaysFromPositive(patterns, design, k - 1);
      if StartsWith(design, p) {
        WaysPositiveIffCanMake(patterns, design[|p|..]);
      }
    }
  }

  // ---------------------------------------------------------------------
  // matcher and counter

  /** `matcher(design)`: tries the patterns in order and stops at the
      first one after which the rest can be made. */
  method Matcher(patterns: seq<string>, design: string) returns (b: bool)
    requires ValidPatterns(patterns)
    ensures b == CanMake(patterns, design)
    decreases |design|
  {
    if design == [] {
      return true;
    }
    for k := 0 to |patterns|
      invariant forall i :: 0 <= i < k && StartsWith(design, patterns[i]) ==>
                  !CanMake(patterns, design[|patterns[i]|..])
    {
      var pattern := patterns[k];
      if StartsWith(design, pattern) {
        var rest := Matcher(patterns, design[|pattern|..]);
        if rest {
          return true;
        }
      }
    }
    return false;
  }

  /** `counter(design)`: adds up the ways to make the rest after every
      pattern the design starts with. */
  method Counter(patterns: seq<string>, design: string) returns (count: nat)
    requires ValidPatterns(patterns)
    ensures count == Ways(patterns, design)
    decreases |design|
  {
    if design == [] {
      return 1;
    }
    count := 0;
    for k := 0 to |patterns|
      invariant count == WaysFrom(patterns, design, k)
    {
      var pattern := patterns[k];
      if StartsWith(design, pattern) {
        var n := Counter(patterns, design[|pattern|..]);
        count := count + n;
      }
    }
  }

  // ---------------------------------------------------------------------
  // Parts 1 and 2

  /** The number of designs that can be made. */
  function CountMakeable(patterns: seq<string>, designs: seq<string>): (r: nat)
    requires ValidPatterns(patterns)
    ensures r <= |designs|
  {
    if designs == [] then 0
    else CountMakeable(patterns, designs[..|designs| - 1]) +
         (if CanMake(patterns, designs[|designs| - 1]) then 1 else 0)
  }

  /** The ways to make each design, added up. */
  function TotalWays(patterns: seq<string>, designs: seq<string>): nat
    requires ValidPatterns(patterns)
  {
    if designs == [] then 0
    else TotalWays(patterns, designs[..|designs| - 1]) + Ways(patterns, designs[|designs| - 1])
  }

  /** Every design can be made one way or more exactly when it can be
      made, so the designs counted by part 1 are those part 2 gives a
      positive count. */
  lemma {:induction false} MakeableCountsPositive(patterns: seq<string>, designs: seq<string>)
    requires ValidPatterns(patterns)
    ensures CountMakeable(patterns, designs) <= TotalWays(patterns, designs)
    ensures CountMakeable(patterns, designs) == 0 <==> TotalWays(patterns, designs) == 0
  {
    if designs != [] {
      MakeableCountsPositive(patterns, designs[..|designs| - 1]);
      WaysPositiveIffCanMake(patterns, designs[|designs| - 1]);
    }
  }

  method Part1(patterns: seq<string>, designs: seq<string>) returns (count: nat)
    requires ValidPatterns(patterns)
    ensures count == CountMakeable(patterns, designs)
  {
    count := 0;
    for i := 0 to |designs|
      invariant count == CountMakeable(patterns, designs[..i])
    {
      assert designs[..i + 1][..i] == designs[..i];
      var ok := Matcher(patterns, designs[i]);
      if ok {
        count := count + 1;
      }
    }
    assert designs[..|designs|] == designs;
  }

  method Part2(patterns: seq<string>, designs: seq<string>) returns (count: nat)
    requires ValidPatterns(patterns)
    ensures count == TotalWays(patterns, designs)
  {
    count := 0;
    for i := 0 to |designs|
      invariant count == TotalWays(patterns, designs[..i])
    {
      assert designs[..i + 1][..i] == designs[..i];
      var n := Counter(patterns, designs[i]);
      count := count + n;
    }
    assert designs[..|designs|] == designs;
  }
}
