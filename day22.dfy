/** Day 22: monkey market.

    Every buyer's secret number evolves by a pseudo-random step built
    from shifts, exclusive-or and a 24-bit mask. Part 1 adds up each
    buyer's 2000th secret. Part 2 looks at the last decimal digit of each
    secret (the price) and at the changes between consecutive prices; a
    buyer sells the first time a given run of four changes appears, and
    the answer is the most bananas any one run of four changes fetches
    over all buyers. */
module Day22 {
  import opened Common
  import opened Bits

  const NumSecrets: nat := 2000

  /** Secrets keep 24 bits: `MASK = (1 << 24) - 1`. */
  const Width: nat := 24

  // ---------------------------------------------------------------------
  // The secret step

  /** `x & MASK`: the remainder modulo 2**24. */
  function Prune(x: nat): (r: nat)
    ensures r < Pow2(Width)
  {
    x % Pow2(Width)
  }

  /** `((s << j) ^ s) & MASK`. */
  function MixLeft(s: nat, j: nat): (r: nat)
    ensures r < Pow2(Width)
  {
    Prune(Xor(Shl(s, j), s))
  }

  /** `((s >> j) ^ s) & MASK`. */
  function MixRight(s: nat, j: nat): (r: nat)
    ensures r < Pow2(Width)
  {
    Prune(Xor(DivPow2(s, j), s))
  }

  /** `advance`: multiply by 64, mix, prune; divide by 32, mix, prune;
      multiply by 2048, mix, prune. */
  function Advance(s: nat): (r: nat)
    ensures r < Pow2(Width)
  {
    MixLeft(MixRight(MixLeft(s, 6), 5), 11)
  }

  /** The mask is 2**24 - 1 and the shifts are the products and
      quotients the comments name. */
  lemma Constants()
    ensures Pow2(Width) == 0x100_0000
    ensures Pow2(5) == 32 && Pow2(6) == 64 && Pow2(11) == 2048
  {
    assert Pow2(11) == 2048;
    assert Pow2(22) == 0x40_0000;
  }

  /** Masking keeps exactly the bits below 24. */
  lemma PruneBit(x: nat, k: nat)
    ensures Bit(Prune(x), k) <==> k < Width && Bit(x, k)
  {
    MaskBits(x, Width, k);
  }

  /** Bit k of a left mix flips where bit k - j is set, below 24. */
  lemma MixLeftBit(s: nat, j: nat, k: nat)
    ensures Bit(MixLeft(s, j), k) <==> k < Width && (Bit(s, k) != (k >= j && Bit(s, k - j)))
  {
    hide Bit, Pow2;
    PruneBit(Xor(Shl(s, j), s), k);
    XorBits(Shl(s, j), s, k);
    ShiftLeftBits(s, j, k);
  }

  /** Bit k of a right mix flips where bit k + j is set, below 24. */
  lemma MixRightBit(s: nat, j: nat, k: nat)
    ensures Bit(MixRight(s, j), k) <==> k < Width && (Bit(s, k) != Bit(s, k + j))
  {
    hide Bit, Pow2;
    PruneBit(Xor(DivPow2(s, j), s), k);
    XorBits(DivPow2(s, j), s, k);
    ShiftRightBits(s, j, k);
  }

  /** Two numbers with the same bits are equal. */
  lemma {:induction false} BitsDetermine(x: nat, y: nat)
    requires forall k: nat :: Bit(x, k) == Bit(y, k)
    ensures x == y
    decreases x + y
  {
    assert Bit(x, 0) == Bit(y, 0);
    if x != 0 || y != 0 {
      forall k: nat
        ensures Bit(x / 2, k) == Bit(y / 2, k)
      {
        Pow2Halves(x, k);
        Pow2Halves(y, k);
        assert Bit(x, k + 1) == Bit(y, k + 1);
      }
      BitsDetermine(x / 2, y / 2);
    }
  }

  /** A left mix reads only the low 24 bits. */
  lemma MixLeftLow(s: nat, j: nat)
    ensures MixLeft(s, j) == MixLeft(s % Pow2(Width), j)
  {
    hide Bit, Pow2, MixLeft;
    var t := s % Pow2(Width);
    forall k: nat
      ensures Bit(MixLeft(s, j), k) == Bit(MixLeft(t, j), k)
    {
      MixLeftBit(s, j, k);
      MixLeftBit(t, j, k);
      MaskBits(s, Width, k);
      if k >= j {
        MaskBits(s, Width, k - j);
      }
    }
    BitsDetermine(MixLeft(s, j), MixLeft(t, j));
  }

  /** Only the low 24 bits of a secret matter: the step is a map on
      24-bit values, which is what the mask after every stage is for. */
  lemma AdvanceLow(s: nat)
    ensures Advance(s) == Advance(s % Pow2(Width))
  {
    MixLeftLow(s, 6);
  }

  // ---------------------------------------------------------------------
  // Secret sequences

  /** The first n steps from seed s: `secret_sequence(s, n)`. */
  function Secrets(s: nat, n: nat): (r: seq<nat>)
    ensures |r| == n + 1 && r[0] == s
    ensures forall i :: 0 <= i < n ==> r[i + 1] == Advance(r[i])
    ensures forall i :: 0 < i <= n ==> r[i] < Pow2(Width)
  {
    if n == 0 then [s]
    else
      var prev := Secrets(s, n - 1);
      prev + [Advance(prev[n - 1])]
  }

  /** `secret_sequence`: yields the seed, then each advanced secret. */
  method SecretSequence(s: nat, n: nat) returns (r: seq<nat>)
    ensures r == Secrets(s, n)
  {
    var secret := s;
    r := [s];
    for i := 0 to n
      invariant r == Secrets(s, i) && secret == r[i]
    {
      secret := Advance(secret);
      r := r + [secret];
    }
  }

  /** `one_digits`: the ones digit of every secret, the buyer's prices. */
  method OneDigits(s: nat, n: nat) returns (digits: seq<nat>)
    ensures |digits| == n + 1
    ensures forall i :: 0 <= i <= n ==> digits[i] == Secrets(s, n)[i] % 10 && digits[i] < 10
  {
    var secrets := SecretSequence(s, n);
    digits := seq(|secrets|, i requires 0 <= i < |secrets| => secrets[i] % 10);
  }

  /** `difference`: the change between each pair of neighbours. */
  function Difference(s: seq<int>): (r: seq<int>)
    ensures |r| == if s == [] then 0 else |s| - 1
    ensures forall i :: 0 <= i < |r| ==> r[i] == s[i + 1] - s[i]
  {
    if |s| < 2 then []
    else seq(|s| - 1, i requires 0 <= i < |s| - 1 => s[i + 1] - s[i])
  }

  /** The differences undo: the first element plus the first i changes
      is element i. */
  lemma {:induction false} DifferenceTelescopes(s: seq<int>, i: nat)
    requires i < |s|
    ensures s[0] + Sum(Difference(s)[..i]) == s[i]
  {
    if i > 0 {
      DifferenceTelescopes(s, i - 1);
      var d := Difference(s);
      assert d[..i][..i - 1] == d[..i - 1];
    }
  }

  /** Changes between prices lie in -9..9. */
  lemma DifferenceOfDigits(s: seq<int>)
    requires forall i :: 0 <= i < |s| ==> 0 <= s[i] < 10
    ensures forall i :: 0 <= i < |Difference(s)| ==> -9 <= Difference(s)[i] <= 9
  {
  }

  // ---------------------------------------------------------------------
  // Banana counts

  /** The run of four changes starting at change i:
      `partition(4, 1, deltas)`, which yields only complete runs. */
  function Window(deltas: seq<int>, i: nat): seq<int>
    requires i + 4 <= |deltas|
  {
    deltas[i..i + 4]
  }

  function WindowCount(deltas: seq<int>): nat
  {
    if |deltas| < 4 then 0 else |deltas| - 3
  }

  /** The runs met among the first n windows. */
  function Visited(deltas: seq<int>, n: nat): (r: set<seq<int>>)
    requires n <= WindowCount(deltas)
    ensures forall q :: q in r <==> exists j :: 0 <= j < n && Window(deltas, j) == q
  {
    set j | 0 <= j < n :: Window(deltas, j)
  }

  /** Bananas run q fetches from the first n windows: the price after
      the first window equal to q, or nothing. */
  function Credit(deltas: seq<int>, digits: seq<nat>, q: seq<int>, n: nat): (r: nat)
    requires n <= WindowCount(deltas) && (n == 0 || |deltas| < |digits|)
  {
    if n == 0 then 0
    else if Window(deltas, n - 1) == q && q !in Visited(deltas, n - 1) then digits[n + 3]
    else Credit(deltas, digits, q, n - 1)
  }

  /** Credit is the price at the first window that shows q. */
  lemma {:induction false} CreditAtFirst(deltas: seq<int>, digits: seq<nat>, q: seq<int>, n: nat, j: nat)
    requires n <= WindowCount(deltas) && (n == 0 || |deltas| < |digits|)
    requires j < n && Window(deltas, j) == q
    requires forall i :: 0 <= i < j ==> Window(deltas, i) != q
    ensures Credit(deltas, digits, q, n) == digits[j + 4]
  {
    if j < n - 1 {
      assert Window(deltas, n - 1) == q ==> q in Visited(deltas, n - 1);
      CreditAtFirst(deltas, digits, q, n - 1, j);
    } else {
      assert q !in Visited(deltas, n - 1);
    }
  }

  /** A run no window shows fetches nothing. */
  lemma {:induction false} CreditAbsent(deltas: seq<int>, digits: seq<nat>, q: seq<int>, n: nat)
    requires n <= WindowCount(deltas) && (n == 0 || |deltas| < |digits|)
    requires forall i :: 0 <= i < n ==> Window(deltas, i) != q
    ensures Credit(deltas, digits, q, n) == 0
  {
    if n > 0 {
      CreditAbsent(deltas, digits, q, n - 1);
    }
  }

  /** A buyer pays at most one price per run, and a price is a digit. */
  lemma {:induction false} CreditBound(deltas: seq<int>, digits: seq<nat>, q: seq<int>, n: nat)
    requires n <= WindowCount(deltas) && (n == 0 || |deltas| < |digits|)
    requires forall i :: 0 <= i < |digits| ==> digits[i] < 10
    ensures Credit(deltas, digits, q, n) <= 9
  {
    if n > 0 {
      CreditBound(deltas, digits, q, n - 1);
    }
  }

  /** `counts[quad]` of a `defaultdict(int)`. */
  function Get(counts: map<seq<int>, int>, q: seq<int>): int
  {
    if q in counts then counts[q] else 0
  }

  /** The counts after one buyer: every run seen gains that buyer's
      price, and only the runs seen become keys. */
  function AddCredits(deltas: seq<int>, digits: seq<nat>, counts: map<seq<int>, int>): (r: map<seq<int>, int>)
    requires |deltas| < 4 || |deltas| < |digits|
    ensures r.Keys == counts.Keys + Visited(deltas, WindowCount(deltas))
  {
    map q | q in counts.Keys + Visited(deltas, WindowCount(deltas)) ::
      Get(counts, q) + Credit(deltas, digits, q, WindowCount(deltas))
  }

  /** Counts never go down, and go up by at most 9 per buyer. */
  lemma AddCreditsGrows(deltas: seq<int>, digits: seq<nat>, counts: map<seq<int>, int>, q: seq<int>)
    requires |deltas| < 4 || |deltas| < |digits|
    requires forall i :: 0 <= i < |digits| ==> digits[i] < 10
    ensures Get(counts, q) <= Get(AddCredits(deltas, digits, counts), q) <= Get(counts, q) + 9
  {
    CreditBound(deltas, digits, q, WindowCount(deltas));
  }

  /** The loop state of `add_banana_counts` after n windows. */
  ghost predicate Scanned(deltas: seq<int>, digits: seq<nat>, counts0: map<seq<int>, int>,
                          counts: map<seq<int>, int>, visited: set<seq<int>>, n: nat)
    requires n <= WindowCount(deltas) && (n == 0 || |deltas| < |digits|)
  {
    visited == Visited(deltas, n) &&
    counts.Keys == counts0.Keys + visited &&
    forall q :: q in counts ==> counts[q] == Get(counts0, q) + Credit(deltas, digits, q, n)
  }

  /** One more window: it adds its price to the run it shows, unless
      an earlier window showed that run already. */
  lemma CreditNext(deltas: seq<int>, digits: seq<nat>, q: seq<int>, n: nat)
    requires n < WindowCount(deltas) && |deltas| < |digits|
    ensures Credit(deltas, digits, q, n + 1) ==
            Credit(deltas, digits, q, n) +
            (if Window(deltas, n) == q && q !in Visited(deltas, n) then digits[n + 4] else 0)
    ensures Window(deltas, n) == q && q !in Visited(deltas, n) ==> Credit(deltas, digits, q, n) == 0
  {
    if Window(deltas, n) == q && q !in Visited(deltas, n) {
      CreditAbsent(deltas, digits, q, n);
    }
  }

  lemma VisitedNext(deltas: seq<int>, n: nat)
    requires n < WindowCount(deltas)
    ensures Visited(deltas, n + 1) == Visited(deltas, n) + {Window(deltas, n)}
  {
  }

  lemma ScannedStep(deltas: seq<int>, digits: seq<nat>, counts0: map<seq<int>, int>,
                    counts: map<seq<int>, int>, visited: set<seq<int>>, n: nat)
    requires n < WindowCount(deltas) && |deltas| < |digits|
    requires Scanned(deltas, digits, counts0, counts, visited, n)
    ensures var quad := Window(deltas, n);
            if quad in visited then Scanned(deltas, digits, counts0, counts, visited, n + 1)
            else Scanned(deltas, digits, counts0, counts[quad := Get(counts, quad) + digits[n + 4]],
                         visited + {quad}, n + 1)
  {
    hide Credit, Visited, Window;
    var quad := Window(deltas, n);
    VisitedNext(deltas, n);
    var next := if quad in visited then counts else counts[quad := Get(counts, quad) + digits[n + 4]];
    forall q | q in next
      ensures next[q] == Get(counts0, q) + Credit(deltas, digits, q, n + 1)
    {
      CreditNext(deltas, digits, q, n);
    }
  }

  lemma ScannedStart(deltas: seq<int>, digits: seq<nat>, counts0: map<seq<int>, int>)
    ensures Scanned(deltas, digits, counts0, counts0, {}, 0)
  {
  }

  lemma ScannedDone(deltas: seq<int>, digits: seq<nat>, counts0: map<seq<int>, int>,
                    counts: map<seq<int>, int>, visited: set<seq<int>>)
    requires |deltas| < 4 || |deltas| < |digits|
    requires Scanned(deltas, digits, counts0, counts, visited, WindowCount(deltas))
    ensures counts == AddCredits(deltas, digits, counts0)
  {
    hide Credit, Visited;
    var r := AddCredits(deltas, digits, counts0);
    assert counts.Keys == r.Keys;
    forall q | q in counts
      ensures counts[q] == r[q]
    {
    }
  }

  /** `add_banana_counts`: the first occurrence of each run of four
      changes adds the price after it; later occurrences are skipped. */
  method AddBananaCounts(deltas: seq<int>, digits: seq<nat>, counts0: map<seq<int>, int>)
    returns (counts: map<seq<int>, int>)
    requires |deltas| < 4 || |deltas| < |digits|
    ensures counts == AddCredits(deltas, digits, counts0)
  {
    hide Scanned, Credit, Visited, AddCredits;
    counts := counts0;
    var visited: set<seq<int>> := {};
    ScannedStart(deltas, digits, counts0);
    for i := 0 to WindowCount(deltas)
      invariant Scanned(deltas, digits, counts0, counts, visited, i)
    {
      ScannedStep(deltas, digits, counts0, counts, visited, i);
      var quad := deltas[i..i + 4];
      if quad in visited {
        continue;
      }
      counts := counts[quad := Get(counts, quad) + digits[i + 4]];
      visited := visited + {quad};
    }
    ScannedDone(deltas, digits, counts0, counts, visited);
  }

  // ---------------------------------------------------------------------
  // Parts 1 and 2

  function Prices(s: nat): (r: seq<nat>)
    ensures |r| == NumSecrets + 1
    ensures forall i :: 0 <= i < |r| ==> r[i] < 10
  {
    var secrets := Secrets(s, NumSecrets);
    seq(NumSecrets + 1, i requires 0 <= i <= NumSecrets => secrets[i] % 10)
  }

  /** The counts after every buyer in turn. */
  function BananaCounts(seeds: seq<nat>): map<seq<int>, int>
  {
    if seeds == [] then map[]
    else
      var s := seeds[|seeds| - 1];
      AddCredits(Difference(Prices(s)), Prices(s), BananaCounts(seeds[..|seeds| - 1]))
  }

  lemma BananaCountsEmpty()
    ensures BananaCounts([]) == map[]
  {
  }

  lemma BananaCountsSnoc(seeds: seq<nat>, i: nat)
    requires i < |seeds|
    ensures BananaCounts(seeds[..i + 1]) ==
            AddCredits(Difference(Prices(seeds[i])), Prices(seeds[i]), BananaCounts(seeds[..i]))
  {
    assert seeds[..i + 1][..i] == seeds[..i];
  }

  /** What `one_digits(s, 2000)` returns is the buyer's prices. */
  lemma PricesAre(s: nat, digits: seq<nat>)
    requires |digits| == NumSecrets + 1
    requires forall i :: 0 <= i <= NumSecrets ==> digits[i] == Secrets(s, NumSecrets)[i] % 10
    ensures digits == Prices(s)
  {
  }

  /** No run fetches more than 9 bananas per buyer, nor less than none. */
  lemma {:induction false} BananaCountsBound(seeds: seq<nat>, q: seq<int>)
    ensures 0 <= Get(BananaCounts(seeds), q) <= 9 * |seeds|
  {
    if seeds != [] {
      var s := seeds[|seeds| - 1];
      BananaCountsBound(seeds[..|seeds| - 1], q);
      AddCreditsGrows(Difference(Prices(s)), Prices(s), BananaCounts(seeds[..|seeds| - 1]), q);
    }
  }

  /** The 2000th secret of every buyer, added up. */
  function SumLast(seeds: seq<nat>): nat
  {
    if seeds == [] then 0
    else SumLast(seeds[..|seeds| - 1]) + Secrets(seeds[|seeds| - 1], NumSecrets)[NumSecrets]
  }

  /** Every added secret is a 24-bit value. */
  lemma {:induction false} SumLastBound(seeds: seq<nat>)
    ensures SumLast(seeds) <= |seeds| * (Pow2(Width) - 1)
  {
    hide Secrets, Pow2;
    if seeds != [] {
      var n, m := |seeds|, Pow2(Width) - 1;
      SumLastBound(seeds[..n - 1]);
      assert Secrets(seeds[n - 1], NumSecrets)[NumSecrets] <= m;
      assert (n - 1) * m + m == n * m;
    }
  }

  method Part1(seeds: seq<nat>) returns (result: nat)
    ensures result == SumLast(seeds)
  {
    result := 0;
    for i := 0 to |seeds|
      invariant result == SumLast(seeds[..i])
    {
      assert seeds[..i + 1][..i] == seeds[..i];
      var secrets := SecretSequence(seeds[i], NumSecrets);
      result := result + secrets[|secrets| - 1];
    }
    assert seeds[..|seeds|] == seeds;
  }

  /** `max(counts.values())`; None where Python's max would raise on an
      empty dictionary. */
  method MaxValue(counts: map<seq<int>, int>) returns (r: Option<int>)
    ensures r.None? <==> counts == map[]
    ensures r.Some? ==> r.value in counts.Values &&
                        forall q :: q in counts ==> counts[q] <= r.value
  {
    r := None;
    var todo := counts.Keys;
    while todo != {}
      invariant todo <= counts.Keys
      invariant r.None? <==> todo == counts.Keys
      invariant r.Some? ==> r.value in counts.Values &&
                            forall q :: q in counts && q !in todo ==> counts[q] <= r.value
      decreases todo
    {
      var q :| q in todo;
      if r.None? || counts[q] > r.value {
        r := Some(counts[q]);
      }
      todo := todo - {q};
    }
    if counts != map[] {
      var q :| q in counts;
    }
  }

  method Part2(seeds: seq<nat>) returns (best: Option<int>)
    ensures best.None? <==> BananaCounts(seeds) == map[]
    ensures best.Some? ==> best.value in BananaCounts(seeds).Values &&
                           forall q :: q in BananaCounts(seeds) ==> BananaCounts(seeds)[q] <= best.value
  {
    hide BananaCounts, Prices, AddCredits, Secrets, Difference;
    var counts: map<seq<int>, int> := map[];
    assert seeds[..0] == [];
    BananaCountsEmpty();
    for i := 0 to |seeds|
      invariant counts == BananaCounts(seeds[..i])
    {
      var digits := OneDigits(seeds[i], NumSecrets);
      PricesAre(seeds[i], digits);
      var deltas := Difference(digits);
      counts := AddBananaCounts(deltas, digits, counts);
      BananaCountsSnoc(seeds, i);
    }
    assert seeds[..|seeds|] == seeds;
    best := MaxValue(counts);
  }
}
