/** Day 5: page-ordering rules "a before b" and printed updates (lists of
    pages). Part 1 sums the middle pages of the updates that already obey
    the rules; part 2 repairs the others by swapping pages in place and sums
    their middle pages. */
module Day05 {
  import opened Common

  type Rule = (int, int)

  /** `list.index`: the first position of `x` in `s`. */
  function IndexOf(s: seq<int>, x: int): (i: nat)
    requires x in s
    ensures i < |s| && s[i] == x
    ensures forall k :: 0 <= k < i ==> s[k] != x
  {
    if s[0] == x then 0 else 1 + IndexOf(s[1..], x)
  }

  /** Rule (a, b) is broken when both pages occur and a's first position
      is after b's. */
  predicate Breaks(s: seq<int>, rule: Rule)
  {
    rule.0 in s && rule.1 in s && IndexOf(s, rule.0) > IndexOf(s, rule.1)
  }

  /** `satisfies`: scan the rules, failing at the first broken one. */
  predicate Satisfies(s: seq<int>, rules: seq<Rule>)
  {
    rules == [] || (!Breaks(s, rules[0]) && Satisfies(s, rules[1..]))
  }

  lemma {:induction false} SatisfiesIff(s: seq<int>, rules: seq<Rule>)
    ensures Satisfies(s, rules) <==>
      forall r :: 0 <= r < |rules| && rules[r].0 in s && rules[r].1 in s ==>
        IndexOf(s, rules[r].0) <= IndexOf(s, rules[r].1)
  {
    if rules != [] {
      SatisfiesIff(s, rules[1..]);
      assert forall r :: 0 < r < |rules| ==> rules[r] == rules[1..][r - 1];
    }
  }

  /** Rules naming an absent page are ignored, so a one-page update always
      satisfies the rules. */
  lemma {:induction false} SinglePageSatisfies(s: seq<int>, rules: seq<Rule>)
    requires |s| == 1
    ensures Satisfies(s, rules)
  {
    SatisfiesIff(s, rules);
  }

  /** `middle`: the page at index len // 2. */
  function Middle(s: seq<int>): (m: int)
    requires |s| > 0
    ensures m in s
  {
    s[|s| / 2]
  }

  function Swap(s: seq<int>, i: nat, j: nat): (r: seq<int>)
    requires i < |s| && j < |s|
    ensures |r| == |s| && multiset(r) == multiset(s)
  {
    s[i := s[j]][j := s[i]]
  }

  /** One step of `fixup`: swap the two pages of a broken rule. */
  function ApplyRule(s: seq<int>, rule: Rule): seq<int>
  {
    if Breaks(s, rule) then Swap(s, IndexOf(s, rule.0), IndexOf(s, rule.1)) else s
  }

  /** `fixup`: apply the rules one after the other to the same list. */
  function FixupSpec(s: seq<int>, rules: seq<Rule>): seq<int>
  {
    if rules == [] then s else ApplyRule(FixupSpec(s, rules[..|rules| - 1]), rules[|rules| - 1])
  }

  /** fixup only swaps: the update keeps its length and its pages. */
  lemma {:induction false} FixupIsPermutation(s: seq<int>, rules: seq<Rule>)
    ensures |FixupSpec(s, rules)| == |s|
    ensures multiset(FixupSpec(s, rules)) == multiset(s)
  {
    if rules != [] {
      FixupIsPermutation(s, rules[..|rules| - 1]);
    }
  }

  /** fixup leaves an update that already satisfies the rules unchanged. */
  lemma {:induction false} FixupKeepsSatisfied(s: seq<int>, rules: seq<Rule>)
    requires Satisfies(s, rules)
    ensures FixupSpec(s, rules) == s
  {
    SatisfiesIff(s, rules);
    if rules != [] {
      var init := rules[..|rules| - 1];
      SatisfiesIff(s, init);
      FixupKeepsSatisfied(s, init);
    }
  }

  method Fixup(num: array<int>, rules: seq<Rule>)
    modifies num
    ensures num[..] == FixupSpec(old(num[..]), rules)
  {
    var r := 0;
    while r < |rules|
      invariant 0 <= r <= |rules|
      invariant num[..] == FixupSpec(old(num[..]), rules[..r])
    {
      assert rules[..r + 1][..r] == rules[..r];
      var (a, b) := rules[r];
      if a in num[..] && b in num[..] {
        var apos, bpos := IndexOf(num[..], a), IndexOf(num[..], b);
        if apos > bpos {
          num[apos], num[bpos] := num[bpos], num[apos];
        }
      }
      r := r + 1;
    }
    assert rules[..r] == rules;
  }

  function SumCorrect(books: seq<seq<int>>, rules: seq<Rule>): int
    requires forall i :: 0 <= i < |books| ==> |books[i]| > 0
  {
    if books == [] then 0
    else
      var last := books[|books| - 1];
      SumCorrect(books[..|books| - 1], rules) + (if Satisfies(last, rules) then Middle(last) else 0)
  }

  method Part1(books: seq<seq<int>>, rules: seq<Rule>) returns (result: int)
    requires forall i :: 0 <= i < |books| ==> |books[i]| > 0
    ensures result == SumCorrect(books, rules)
  {
    result := 0;
    var i := 0;
    while i < |books|
      invariant 0 <= i <= |books|
      invariant result == SumCorrect(books[..i], rules)
    {
      assert books[..i + 1][..i] == books[..i];
      if Satisfies(books[i], rules) {
        result := result + Middle(books[i]);
      }
      i := i + 1;
    }
    assert books[..i] == books;
  }

  /** The update the `while not satisfies` loop leaves after at most
      `fuel` rounds of `fixup`: it only reorders the update's pages. */
  function RepairSpec(s: seq<int>, rules: seq<Rule>, fuel: nat): (r: seq<int>)
    ensures |r| == |s| && multiset(r) == multiset(s)
    decreases fuel
  {
    if Satisfies(s, rules) || fuel == 0 then s
    else
      FixupIsPermutation(s, rules);
      RepairSpec(FixupSpec(s, rules), rules, fuel - 1)
  }

  /** More rounds change nothing once the rules are satisfied: the loop
      stops at the first ordering that obeys them. */
  lemma {:induction false} RepairSpecSettles(s: seq<int>, rules: seq<Rule>, fuel: nat, more: nat)
    requires Satisfies(RepairSpec(s, rules, fuel), rules)
    ensures RepairSpec(s, rules, fuel + more) == RepairSpec(s, rules, fuel)
    decreases fuel
  {
    if !Satisfies(s, rules) && fuel > 0 {
      var next := FixupSpec(s, rules);
      assert RepairSpec(s, rules, fuel) == RepairSpec(next, rules, fuel - 1);
      assert RepairSpec(s, rules, fuel + more) == RepairSpec(next, rules, fuel - 1 + more);
      hide *;
      RepairSpecSettles(next, rules, fuel - 1, more);
    }
  }

  /** With no round left, or with every round used without reaching an
      ordering that obeys the rules, the loop has run exactly `fuel`
      rounds of `fixup`. */
  lemma {:induction false} RepairSpecUnsettled(s: seq<int>, rules: seq<Rule>, fuel: nat)
    requires !Satisfies(RepairSpec(s, rules, fuel), rules)
    ensures RepairSpec(s, rules, fuel) == FixupRounds(s, rules, fuel)
    decreases fuel
  {
    if fuel > 0 {
      var next := FixupSpec(s, rules);
      assert RepairSpec(s, rules, fuel) == RepairSpec(next, rules, fuel - 1);
      assert FixupRounds(s, rules, fuel) == FixupRounds(next, rules, fuel - 1);
      hide *;
      RepairSpecUnsettled(next, rules, fuel - 1);
    }
  }

  /** `fixup` applied `k` times, without looking at the rules in between. */
  function FixupRounds(s: seq<int>, rules: seq<Rule>, k: nat): seq<int>
    decreases k
  {
    if k == 0 then s else FixupRounds(FixupSpec(s, rules), rules, k - 1)
  }

  /** The inner `while not satisfies` loop of part 2 for one update, run
      for at most `fuel` rounds. It reports whether the update was
      incorrect and whether the loop ended with the rules satisfied. */
  method Repair(pages: array<int>, rules: seq<Rule>, fuel: nat) returns (incorrect: bool, done: bool)
    modifies pages
    ensures pages[..] == RepairSpec(old(pages[..]), rules, fuel)
    ensures multiset(pages[..]) == multiset(old(pages[..]))
    ensures incorrect <==> !Satisfies(old(pages[..]), rules)
    ensures done <==> Satisfies(pages[..], rules)
    ensures !incorrect ==> pages[..] == old(pages[..])
  {
    incorrect := !Satisfies(pages[..], rules);
    var rounds := fuel;
    while !Satisfies(pages[..], rules) && rounds > 0
      invariant RepairSpec(pages[..], rules, rounds) == RepairSpec(old(pages[..]), rules, fuel)
    {
      Fixup(pages, rules);
      rounds := rounds - 1;
    }
    done := Satisfies(pages[..], rules);
  }


  function SumMiddles(books: seq<seq<int>>, chosen: seq<bool>): int
    requires |chosen| == |books|
    requires forall i :: 0 <= i < |books| ==> |books[i]| > 0
  {
    if books == [] then 0
    else
      SumMiddles(books[..|books| - 1], chosen[..|books| - 1])
      + (if chosen[|books| - 1] then Middle(books[|books| - 1]) else 0)
  }

  function Contents(books: seq<array<int>>): seq<seq<int>>
    reads set i | 0 <= i < |books| :: books[i]
  {
    seq(|books|, i requires 0 <= i < |books| reads books => books[i][..])
  }

  /** Every update of a list after its repair loop. */
  function Repaired(updates: seq<seq<int>>, rules: seq<Rule>, fuel: nat): (r: seq<seq<int>>)
    ensures |r| == |updates|
    ensures forall i :: 0 <= i < |r| ==> |r[i]| == |updates[i]| && multiset(r[i]) == multiset(updates[i])
  {
    seq(|updates|, i requires 0 <= i < |updates| => RepairSpec(updates[i], rules, fuel))
  }

  /** The outer loop of part 2: repair each update in turn, recording
      which ones were incorrect, and stop at the first repair that does
      not end. */
  method RepairAll(books: seq<array<int>>, rules: seq<Rule>, fuel: nat) returns (incorrect: seq<bool>, done: bool)
    requires forall i, j :: 0 <= i < j < |books| ==> books[i] != books[j]
    modifies set i | 0 <= i < |books| :: books[i]
    ensures forall i :: 0 <= i < |books| ==> multiset(books[i][..]) == multiset(old(books[i][..]))
    ensures done ==> |incorrect| == |books|
    ensures done ==> forall i :: 0 <= i < |books| ==> Satisfies(books[i][..], rules)
    ensures done ==> forall i :: 0 <= i < |books| ==> incorrect[i] == !Satisfies(old(books[i][..]), rules)
    ensures done ==> forall i :: 0 <= i < |books| ==> books[i][..] == RepairSpec(old(books[i][..]), rules, fuel)
  {
    incorrect := [];
    var i := 0;
    hide Satisfies, RepairSpec;
    while i < |books|
      invariant 0 <= i <= |books|
      invariant |incorrect| == i
      invariant forall j :: 0 <= j < |books| ==> multiset(books[j][..]) == multiset(old(books[j][..]))
      invariant forall j :: 0 <= j < i ==> Satisfies(books[j][..], rules)
      invariant forall j :: 0 <= j < i ==> incorrect[j] == !Satisfies(old(books[j][..]), rules)
      invariant forall j :: 0 <= j < i ==> books[j][..] == RepairSpec(old(books[j][..]), rules, fuel)
      invariant forall j :: i <= j < |books| ==> books[j][..] == old(books[j][..])
    {
      var wrong, ok := Repair(books[i], rules, fuel);
      if !ok {
        return incorrect, false;
      }
      incorrect := incorrect + [wrong];
      i := i + 1;
    }
    done := true;
  }

  /** The final sum of part 2: the middle pages of the flagged updates. */
  method SumFlagged(books: seq<array<int>>, flagged: seq<bool>) returns (total: int)
    requires |flagged| == |books|
    requires forall i :: 0 <= i < |books| ==> books[i].Length > 0
    ensures total == SumMiddles(Contents(books), flagged)
  {
    total := 0;
    var k := 0;
    while k < |books|
      invariant 0 <= k <= |books|
      invariant total == SumMiddles(Contents(books)[..k], flagged[..k])
    {
      assert Contents(books)[..k + 1][..k] == Contents(books)[..k];
      assert flagged[..k + 1][..k] == flagged[..k];
      if flagged[k] {
        total := total + Middle(books[k][..]);
      }
      k := k + 1;
    }
    assert Contents(books)[..k] == Contents(books);
    assert flagged[..k] == flagged;
  }

  /** part2: repair every update in place; when every repair ends, the
      result is the sum of the middle pages, after repair, of exactly the
      updates that broke a rule, and every update now obeys the rules. */
  method Part2(books: seq<array<int>>, rules: seq<Rule>, fuel: nat) returns (result: Option<int>)
    requires forall i :: 0 <= i < |books| ==> books[i].Length > 0
    requires forall i, j :: 0 <= i < j < |books| ==> books[i] != books[j]
    modifies set i | 0 <= i < |books| :: books[i]
    ensures forall i :: 0 <= i < |books| ==> multiset(books[i][..]) == multiset(old(books[i][..]))
    ensures result.Some? ==> forall i :: 0 <= i < |books| ==> Satisfies(books[i][..], rules)
    ensures result.Some? ==> (result.value ==
      SumMiddles(Contents(books), seq(|books|, i requires 0 <= i < |books| => !Satisfies(old(books[i][..]), rules))))
    ensures result.Some? ==> Contents(books) == Repaired(old(Contents(books)), rules, fuel)
    ensures result.Some? ==> (result.value ==
      SumMiddles(Repaired(old(Contents(books)), rules, fuel),
                 seq(|books|, i requires 0 <= i < |books| => !Satisfies(old(books[i][..]), rules))))
  {
    var incorrect, done := RepairAll(books, rules, fuel);
    if !done {
      return None;
    }
    var total := SumFlagged(books, incorrect);
    assert incorrect == seq(|books|, i requires 0 <= i < |books| => !Satisfies(old(books[i][..]), rules));
    assert Contents(books) == Repaired(old(Contents(books)), rules, fuel);
    result := Some(total);
  }
}
