/** Exploration with exact probabilities: the uniform draws, and the recorded propensity. */
module Exploration {
  import opened Wrappers
  import opened Division
  import opened Kernel
  import opened KernelDecide
  import opened KernelPolicy

  const BASIS_POINTS: nat := 10_000
  const WORDS: nat := 0x1_0000_0000_0000_0000

  // ----- Uniform draws -----

  /** How many words at the top of the range are refused: as many as 2^64 leaves over. */
  function Rejected(n: nat): nat
    requires 0 < n
  {
    (U64_MAX % n + 1) % n
  }

  lemma RejectedIsRemainder(n: nat)
    requires 0 < n <= U64_MAX
    ensures Rejected(n) == WORDS % n
  {
    DivStep(U64_MAX, n);
    if U64_MAX % n + 1 < n {
      DivUnique(U64_MAX % n + 1, n, 0, U64_MAX % n + 1);
    } else {
      DivUnique(n, n, 1, 0);
    }
  }

  /** A word the sampling keeps. */
  predicate Kept(n: nat, word: nat)
    requires 0 < n
  {
    Rejected(n) == 0 || word < WORDS - Rejected(n)
  }

  /** How many retry words there are: they are numbered in 32 bits. */
  const RETRIES: nat := 0x1_0000_0000

  /** The `i`-th retry word is the first that is kept. */
  predicate FirstKept(n: nat, next: nat -> u64, i: int)
    requires 0 < n
  {
    0 <= i < RETRIES && Kept(n, next(i)) && forall j :: 0 <= j < i ==> !Kept(n, next(j))
  }

  /** `r` is the first word that is kept, reduced. */
  ghost predicate Yields(n: nat, first: u64, next: nat -> u64, r: nat)
    requires 0 < n
  {
    if Kept(n, first) then r == first % n else exists i :: FirstKept(n, next, i) && r == next(i) % n
  }

  /** No word is ever kept: the code then retries without end. */
  ghost predicate Endless(n: nat, first: u64, next: nat -> u64)
    requires 0 < n
  {
    !Kept(n, first) && forall i :: 0 <= i < RETRIES ==> !Kept(n, next(i))
  }

  /** `uniform`; nothing stands for a search that does not end. */
  method Uniform(n: nat, first: u64, next: nat -> u64) returns (r: Option<nat>)
    requires 0 < n <= U64_MAX
    ensures r.None? <==> Endless(n, first, next)
    ensures r.Some? ==> r.value < n && Yields(n, first, next, r.value)
  {
    var rejected := (U64_MAX % n + 1) % n;
    var word, i := first, 0;
    while rejected != 0 && word >= WORDS - rejected
      invariant 0 <= i <= RETRIES
      invariant word == if i == 0 then first else next(i - 1)
      invariant i > 0 ==> !Kept(n, first)
      invariant forall j :: 0 <= j < i - 1 ==> !Kept(n, next(j))
      decreases RETRIES - i
    {
      if i == RETRIES {
        return None;
      }
      word := next(i);
      i := i + 1;
    }
    assert i > 0 ==> FirstKept(n, next, i - 1);
    r := Some(word % n);
  }

  /** How many of the words below `limit` are kept and give `r`. */
  function CountWords(limit: nat, n: nat, r: nat): nat
    requires 0 < n
  {
    if limit == 0 then 0
    else CountWords(limit - 1, n, r) + if Kept(n, limit - 1) && (limit - 1) % n == r then 1 else 0
  }

  lemma DivStep(x: nat, n: nat)
    requires 0 < n
    ensures if x % n + 1 < n then (x + 1) / n == x / n && (x + 1) % n == x % n + 1
            else (x + 1) / n == x / n + 1 && (x + 1) % n == 0
  {
    var q, m := x / n, x % n;
    assert x == n * q + m;
    if m + 1 < n {
      DivUnique(x + 1, n, q, m + 1);
    } else {
      assert n * (q + 1) == n * q + n;
      DivUnique(x + 1, n, q + 1, 0);
    }
  }

  lemma KeptBelow(word: nat, n: nat)
    requires 0 < n && word < WORDS - Rejected(n)
    ensures Kept(n, word)
  {
  }

  lemma {:induction false} CountBelow(limit: nat, n: nat, r: nat)
    requires 0 < n <= U64_MAX && r < n && limit <= WORDS - Rejected(n)
    ensures CountWords(limit, n, r) == limit / n + if limit % n > r then 1 else 0
  {
    hide Kept, Rejected;
    if limit > 0 {
      CountBelow(limit - 1, n, r);
      KeptBelow(limit - 1, n);
      DivStep(limit - 1, n);
    } else {
      DivUnique(0, n, 0, 0);
    }
  }

  lemma {:induction false} CountAbove(limit: nat, n: nat, r: nat)
    requires 0 < n && WORDS - Rejected(n) <= limit <= WORDS && Rejected(n) <= WORDS
    ensures CountWords(limit, n, r) == CountWords(WORDS - Rejected(n), n, r)
    decreases limit
  {
    if limit > WORDS - Rejected(n) {
      CountAbove(limit - 1, n, r);
    }
  }

  /** Every result of a uniform draw stands for the same number of words. */
  lemma UniformIsUniform(n: nat, r: nat)
    requires 0 < n <= U64_MAX && r < n
    ensures CountWords(WORDS, n, r) == (WORDS - WORDS % n) / n
  {
    RejectedIsRemainder(n);
    var q := WORDS / n;
    assert WORDS == n * q + WORDS % n;
    DivUnique(WORDS - WORDS % n, n, q, 0);
    CountAbove(WORDS, n, r);
    CountBelow(WORDS - Rejected(n), n, r);
  }

  // ----- What is acted on -----

  /** The candidate acted on for a roll below 10,000 and a pick below the window size. */
  function ActedOn(winner: u32, others: seq<u32>, rate: nat, roll: nat, pick: nat): u32
    requires pick <= |others|
  {
    if 0 < |others| && roll < rate && pick > 0 then others[pick - 1] else winner
  }

  predicate Explored(others: seq<u32>, rate: nat, roll: nat, pick: nat) {
    0 < |others| && roll < rate && pick > 0
  }

  /** The recorded numerator over `BASIS_POINTS * k`. */
  function Numerator(k: nat, rate: nat, explored: bool): int
    requires rate <= BASIS_POINTS
  {
    if k == 1 then BASIS_POINTS * k else if explored then rate else (BASIS_POINTS - rate) * k + rate
  }

  function Occurrences(ids: seq<u32>, m: u32): nat {
    if ids == [] then 0 else Occurrences(ids[..|ids| - 1], m) + if ids[|ids| - 1] == m then 1 else 0
  }

  /** How many of the first `n` picks act on `m` after this roll. */
  function CountPicks(winner: u32, others: seq<u32>, rate: nat, roll: nat, n: nat, m: u32): nat
    requires n <= |others| + 1
  {
    if n == 0 then 0
    else CountPicks(winner, others, rate, roll, n - 1, m) + if ActedOn(winner, others, rate, roll, n - 1) == m then 1 else 0
  }

  /** How many pairs of one of the first `n` rolls and any pick act on `m`. */
  function CountPairs(winner: u32, others: seq<u32>, rate: nat, n: nat, m: u32): nat {
    if n == 0 then 0
    else CountPairs(winner, others, rate, n - 1, m) + CountPicks(winner, others, rate, n - 1, |others| + 1, m)
  }

  lemma {:induction false} PicksWhenKept(winner: u32, others: seq<u32>, rate: nat, roll: nat, n: nat, m: u32)
    requires n <= |others| + 1 && (others == [] || roll >= rate)
    ensures CountPicks(winner, others, rate, roll, n, m) == if m == winner then n else 0
  {
    if n > 0 {
      PicksWhenKept(winner, others, rate, roll, n - 1, m);
    }
  }

  lemma {:induction false} PicksWhenExploring(winner: u32, others: seq<u32>, rate: nat, roll: nat, n: nat, m: u32)
    requires 0 < n <= |others| + 1 && others != [] && roll < rate
    ensures CountPicks(winner, others, rate, roll, n, m) == (if m == winner then 1 else 0) + Occurrences(others[..n - 1], m)
  {
    if n > 1 {
      PicksWhenExploring(winner, others, rate, roll, n - 1, m);
      assert others[..n - 1][..n - 2] == others[..n - 2];
    }
  }

  lemma {:induction false} PairsFormula(winner: u32, others: seq<u32>, rate: nat, n: nat, m: u32)
    requires others != []
    ensures CountPairs(winner, others, rate, n, m)
         == (if n <= rate then 0 else if m == winner then (n - rate) * (|others| + 1) else 0)
            + (if n <= rate then n else rate) * ((if m == winner then 1 else 0) + Occurrences(others, m))
  {
    if n > 0 {
      PairsFormula(winner, others, rate, n - 1, m);
      if n - 1 < rate {
        PicksWhenExploring(winner, others, rate, n - 1, |others| + 1, m);
        assert others[..|others|] == others;
        Increment(n - 1, (if m == winner then 1 else 0) + Occurrences(others, m));
      } else {
        PicksWhenKept(winner, others, rate, n - 1, |others| + 1, m);
        Increment(n - 1 - rate, |others| + 1);
      }
    }
  }

  lemma Increment(a: nat, b: nat)
    ensures (a + 1) * b == a * b + b
  {
  }

  lemma {:induction false} PairsAlone(winner: u32, rate: nat, n: nat, m: u32)
    ensures CountPairs(winner, [], rate, n, m) == if m == winner then n else 0
  {
    if n > 0 {
      PairsAlone(winner, rate, n - 1, m);
      PicksWhenKept(winner, [], rate, n - 1, 1, m);
    }
  }

  lemma {:induction false} NoOccurrence(ids: seq<u32>, m: u32)
    ensures Occurrences(ids, m) == 0 <==> m !in ids
  {
    if ids != [] {
      NoOccurrence(ids[..|ids| - 1], m);
      assert ids == ids[..|ids| - 1] + [ids[|ids| - 1]];
    }
  }

  /** Of all equally likely pairs, as many act on the candidate of this roll and pick as its record says. */
  predicate Exact(winner: u32, others: seq<u32>, rate: nat, roll: nat, pick: nat)
    requires rate <= BASIS_POINTS && pick <= |others|
  {
    CountPairs(winner, others, rate, BASIS_POINTS, ActedOn(winner, others, rate, roll, pick))
    == Numerator(|others| + 1, rate, Explored(others, rate, roll, pick))
  }

  /** A kept winner's record is exact; an explored candidate's exactly when its id is listed once. */
  lemma PropensityIsExact(winner: u32, others: seq<u32>, rate: nat, roll: nat, pick: nat)
    requires rate <= BASIS_POINTS && winner !in others && roll < BASIS_POINTS && pick <= |others|
    ensures Exact(winner, others, rate, roll, pick) <==>
      (Explored(others, rate, roll, pick) ==> Occurrences(others, others[pick - 1]) == 1)
  {
    var m := ActedOn(winner, others, rate, roll, pick);
    NoOccurrence(others, winner);
    if others == [] {
      PairsAlone(winner, rate, BASIS_POINTS, m);
    } else {
      PairsFormula(winner, others, rate, BASIS_POINTS, m);
      if Explored(others, rate, roll, pick) {
        assert m in others && m != winner;
        RateTimes(rate, Occurrences(others, m));
      }
    }
  }

  predicate NoRepeat(ids: seq<u32>) {
    forall i, j :: 0 <= i < j < |ids| ==> ids[i] != ids[j]
  }

  lemma {:induction false} OccursOnce(ids: seq<u32>, m: u32)
    requires NoRepeat(ids) && m in ids
    ensures Occurrences(ids, m) == 1
  {
    var init, last := ids[..|ids| - 1], ids[|ids| - 1];
    assert ids == init + [last];
    NoOccurrence(init, m);
    if m in init {
      OccursOnce(init, m);
    }
  }

  lemma {:induction false} OccursTwice(ids: seq<u32>, i: nat, j: nat)
    requires i < j < |ids| && ids[i] == ids[j]
    ensures Occurrences(ids, ids[i]) >= 2
  {
    var init := ids[..|ids| - 1];
    if j < |init| {
      OccursTwice(init, i, j);
    } else {
      NoOccurrence(init, ids[i]);
      assert init[i] == ids[i];
    }
  }

  /** Exploring acts on the candidate at its place in the window, the winner first; otherwise the winner is kept. */
  lemma ActedOnMeans(winner: u32, others: seq<u32>, rate: nat, roll: nat, pick: nat)
    requires pick <= |others|
    ensures roll < rate ==> ActedOn(winner, others, rate, roll, pick) == ([winner] + others)[pick]
    ensures roll >= rate ==> ActedOn(winner, others, rate, roll, pick) == winner
    ensures Explored(others, rate, roll, pick) <==> roll < rate && 0 < pick
  {
  }

  /** Every record of a window is exact if and only if nothing is explored or the window repeats no id. */
  lemma WindowIsExact(winner: u32, others: seq<u32>, rate: nat)
    requires rate <= BASIS_POINTS && winner !in others
    ensures (forall roll, pick :: 0 <= roll < BASIS_POINTS && 0 <= pick <= |others| ==> Exact(winner, others, rate, roll, pick))
            <==> rate == 0 || NoRepeat(others)
  {
    hide Exact, Occurrences;
    if rate == 0 || NoRepeat(others) {
      forall roll, pick | 0 <= roll < BASIS_POINTS && 0 <= pick <= |others|
        ensures Exact(winner, others, rate, roll, pick)
      {
        PropensityIsExact(winner, others, rate, roll, pick);
        if Explored(others, rate, roll, pick) {
          OccursOnce(others, others[pick - 1]);
        }
      }
    } else {
      var i, j :| 0 <= i < j < |others| && others[i] == others[j];
      PropensityIsExact(winner, others, rate, 0, i + 1);
      OccursTwice(others, i, j);
    }
  }

  lemma RateTimes(rate: nat, n: nat)
    requires 0 < rate
    ensures rate * n == rate <==> n == 1
    ensures n > 0 ==> rate <= rate * n
  {
    if n > 1 {
      MulMono(rate, 2, n);
    }
  }

  // ----- The window as a whole -----

  function SumOver(ids: seq<u32>, f: u32 -> int): int {
    if ids == [] then 0 else f(ids[0]) + SumOver(ids[1..], f)
  }

  lemma {:induction false} SumAdds(ids: seq<u32>, f: u32 -> int, g: u32 -> int, h: u32 -> int)
    requires forall x :: x in ids ==> f(x) == g(x) + h(x)
    ensures SumOver(ids, f) == SumOver(ids, g) + SumOver(ids, h)
  {
    if ids != [] {
      SumAdds(ids[1..], f, g, h);
    }
  }

  /** Sums of terms that are no larger, and when they are equal. */
  lemma {:induction false} SumCompares(ids: seq<u32>, f: u32 -> int, g: u32 -> int)
    requires forall x :: x in ids ==> f(x) <= g(x)
    ensures SumOver(ids, f) <= SumOver(ids, g)
    ensures SumOver(ids, f) == SumOver(ids, g) <==> forall x :: x in ids ==> f(x) == g(x)
  {
    if ids != [] {
      SumCompares(ids[1..], f, g);
      assert ids == [ids[0]] + ids[1..];
    }
  }

  function IsAt(m: u32): u32 -> int {
    x => if x == m then 1 else 0
  }

  lemma {:induction false} SumOfOne(ids: seq<u32>, m: u32)
    requires NoRepeat(ids)
    ensures SumOver(ids, IsAt(m)) == if m in ids then 1 else 0
  {
    if ids != [] {
      SumOfOne(ids[1..], m);
      assert ids == [ids[0]] + ids[1..];
      assert m in ids[1..] ==> exists i :: 1 <= i < |ids| && ids[i] == m;
    }
  }

  /** `ids` lists every candidate of the window once. */
  ghost predicate Lists(ids: seq<u32>, winner: u32, others: seq<u32>) {
    NoRepeat(ids) && forall m :: m in ids <==> m == winner || m in others
  }

  function PicksOf(winner: u32, others: seq<u32>, rate: nat, roll: nat, n: nat): u32 -> int
    requires n <= |others| + 1
  {
    (m: u32) => CountPicks(winner, others, rate, roll, n, m)
  }

  /** The number of pairs of one of the first `n` rolls and any pick, by the candidate they act on. */
  function PairsOf(winner: u32, others: seq<u32>, rate: nat, n: nat): u32 -> int {
    (m: u32) => CountPairs(winner, others, rate, n, m)
  }

  lemma {:induction false} PicksSum(ids: seq<u32>, winner: u32, others: seq<u32>, rate: nat, roll: nat, n: nat)
    requires Lists(ids, winner, others) && n <= |others| + 1
    ensures SumOver(ids, PicksOf(winner, others, rate, roll, n)) == n
  {
    var f := PicksOf(winner, others, rate, roll, n);
    if n == 0 {
      SumAdds(ids, f, f, f);
    } else {
      var g := PicksOf(winner, others, rate, roll, n - 1);
      var acted := ActedOn(winner, others, rate, roll, n - 1);
      PicksSum(ids, winner, others, rate, roll, n - 1);
      SumAdds(ids, f, g, IsAt(acted));
      SumOfOne(ids, acted);
    }
  }

  lemma {:induction false} PairsSum(ids: seq<u32>, winner: u32, others: seq<u32>, rate: nat, n: nat)
    requires Lists(ids, winner, others)
    ensures SumOver(ids, PairsOf(winner, others, rate, n)) == n * (|others| + 1)
  {
    var f := PairsOf(winner, others, rate, n);
    if n == 0 {
      SumAdds(ids, f, f, f);
    } else {
      var g := PairsOf(winner, others, rate, n - 1);
      var h := PicksOf(winner, others, rate, n - 1, |others| + 1);
      PairsSum(ids, winner, others, rate, n - 1);
      PicksSum(ids, winner, others, rate, n - 1, |others| + 1);
      SumAdds(ids, f, g, h);
      Increment(n - 1, |others| + 1);
    }
  }

  /** Over any window, ids repeated or not, the counts of its candidates add up to all pairs. */
  lemma CountsSum(ids: seq<u32>, winner: u32, others: seq<u32>, rate: nat)
    requires Lists(ids, winner, others)
    ensures SumOver(ids, PairsOf(winner, others, rate, BASIS_POINTS)) == BASIS_POINTS * (|others| + 1)
  {
    PairsSum(ids, winner, others, rate, BASIS_POINTS);
  }

  /** The numerator recorded when a candidate of the window is acted on. */
  function Recorded(winner: u32, others: seq<u32>, rate: nat): u32 -> int
    requires rate <= BASIS_POINTS
  {
    (m: u32) => Numerator(|others| + 1, rate, m != winner)
  }

  /** A record never says too much, and says enough exactly when the id is not repeated among what is explored. */
  lemma RecordedAtMost(winner: u32, others: seq<u32>, rate: nat, m: u32)
    requires rate <= BASIS_POINTS && winner !in others && (m == winner || m in others)
    ensures Recorded(winner, others, rate)(m) <= CountPairs(winner, others, rate, BASIS_POINTS, m)
    ensures Recorded(winner, others, rate)(m) == CountPairs(winner, others, rate, BASIS_POINTS, m)
            <==> m == winner || rate == 0 || Occurrences(others, m) == 1
  {
    NoOccurrence(others, winner);
    NoOccurrence(others, m);
    assert Recorded(winner, others, rate)(m) == Numerator(|others| + 1, rate, m != winner);
    if others == [] {
      PairsAlone(winner, rate, BASIS_POINTS, m);
    } else {
      PairsFormula(winner, others, rate, BASIS_POINTS, m);
      assert Numerator(|others| + 1, rate, true) == rate;
      if m == winner {
        assert (BASIS_POINTS - rate) * (|others| + 1) + rate == Numerator(|others| + 1, rate, false);
      } else if rate > 0 {
        assert CountPairs(winner, others, rate, BASIS_POINTS, m) == rate * Occurrences(others, m);
        RateTimes(rate, Occurrences(others, m));
      }
    }
  }

  /**
   * Over the window the recorded numerators add up to the denominator if and only if nothing is
   * explored or no id is repeated; otherwise they fall short of it.
   */
  lemma NumeratorsSum(ids: seq<u32>, winner: u32, others: seq<u32>, rate: nat)
    requires rate <= BASIS_POINTS && winner !in others && Lists(ids, winner, others)
    ensures var sum := SumOver(ids, Recorded(winner, others, rate)); var all := BASIS_POINTS * (|others| + 1);
      sum <= all && (sum == all <==> rate == 0 || NoRepeat(others))
  {
    hide Recorded, CountPairs, Occurrences, SumOver;
    var f, g := Recorded(winner, others, rate), PairsOf(winner, others, rate, BASIS_POINTS);
    forall m | m in ids
      ensures f(m) <= g(m) && (f(m) == g(m) <==> m == winner || rate == 0 || Occurrences(others, m) == 1)
    {
      RecordedAtMost(winner, others, rate, m);
    }
    SumCompares(ids, f, g);
    CountsSum(ids, winner, others, rate);
    if NoRepeat(others) {
      forall m | m in ids && m != winner
        ensures Occurrences(others, m) == 1
      {
        OccursOnce(others, m);
      }
    } else {
      var i, j :| 0 <= i < j < |others| && others[i] == others[j];
      OccursTwice(others, i, j);
      assert others[i] in ids && others[i] != winner;
    }
  }

  // ----- The record -----

  datatype Config = Config(rate_bps: u16, window: u64)

  datatype Record = Record(
    decision: Decision, config: Config, acted_model_id: u32, explored: bool, window_size: nat, numerator: int, denominator: nat)

  datatype ExplorationError = ShortKey(len: nat) | RateOutOfRange(rate_bps: u16)

  const MIN_EXPLORATION_KEY_BYTES: nat := 32

  /** The other candidates in the window: eligible, of another id, and close enough to the winner. */
  predicate InWindow(s: Settings, m: Model, input: Input, winner: u32, floor: int) {
    m.model_id != winner && Judge(s, m, input).Eligible? && Judge(s, m, input).terms.utility >= floor
  }

  function Others(s: Settings, models: seq<Model>, input: Input, winner: u32, floor: int): (ids: seq<u32>)
    ensures winner !in ids && |ids| <= |models|
  {
    if models == [] then []
    else
      var rest, last := Others(s, models[..|models| - 1], input, winner, floor), models[|models| - 1];
      if InWindow(s, last, input, winner, floor) then rest + [last.model_id] else rest
  }

  /** No two models of the window share an id. */
  ghost predicate WindowDistinct(s: Settings, models: seq<Model>, input: Input, winner: u32, floor: int) {
    forall i, j ::
      0 <= i < j < |models| && InWindow(s, models[i], input, winner, floor) && InWindow(s, models[j], input, winner, floor)
      ==> models[i].model_id != models[j].model_id
  }

  lemma {:induction false} OthersListed(s: Settings, models: seq<Model>, input: Input, winner: u32, floor: int, m: u32)
    ensures m in Others(s, models, input, winner, floor) <==>
      exists i :: 0 <= i < |models| && InWindow(s, models[i], input, winner, floor) && models[i].model_id == m
  {
    hide InWindow;
    if models != [] {
      var init, last := models[..|models| - 1], models[|models| - 1];
      OthersListed(s, init, input, winner, floor, m);
      assert forall i :: 0 <= i < |init| ==> init[i] == models[i];
      if m in Others(s, init, input, winner, floor) {
        var i :| 0 <= i < |init| && InWindow(s, init[i], input, winner, floor) && init[i].model_id == m;
        assert models[i].model_id == m;
      }
    }
  }

  /** The window repeats no id exactly when no two of its models share one. */
  lemma {:induction false} OthersDistinct(s: Settings, models: seq<Model>, input: Input, winner: u32, floor: int)
    ensures NoRepeat(Others(s, models, input, winner, floor)) <==> WindowDistinct(s, models, input, winner, floor)
  {
    hide InWindow;
    if models != [] {
      var init, last := models[..|models| - 1], models[|models| - 1];
      var rest := Others(s, init, input, winner, floor);
      OthersDistinct(s, init, input, winner, floor);
      OthersListed(s, init, input, winner, floor, last.model_id);
      assert forall i :: 0 <= i < |init| ==> init[i] == models[i];
      assert NoRepeat(rest + [last.model_id]) <==> NoRepeat(rest) && last.model_id !in rest by {
        RepeatPush(rest, last.model_id);
      }
      if WindowDistinct(s, models, input, winner, floor) {
        assert WindowDistinct(s, init, input, winner, floor);
      }
    }
  }

  lemma RepeatPush(ids: seq<u32>, m: u32)
    ensures NoRepeat(ids + [m]) <==> NoRepeat(ids) && m !in ids
  {
    var all := ids + [m];
    if NoRepeat(all) {
      assert forall i, j :: 0 <= i < j < |ids| ==> all[i] != all[j];
      assert forall i :: 0 <= i < |ids| ==> ids[i] == all[i] != all[|ids|];
      assert forall i, j :: 0 <= i < j < |ids| ==> ids[i] == all[i] && ids[j] == all[j];
    }
  }

  /** The candidate and flag of the two numbers the words yield. */
  ghost predicate Drawn(winner: u32, others: seq<u32>, rate: nat, roll_word: u64, roll_next: nat -> u64,
                        pick_word: u64, pick_next: nat -> u64, acted: u32, explored: bool)
  {
    exists roll, pick ::
      && 0 <= roll < BASIS_POINTS && 0 <= pick <= |others|
      && Yields(BASIS_POINTS, roll_word, roll_next, roll) && Yields(|others| + 1, pick_word, pick_next, pick)
      && acted == ActedOn(winner, others, rate, roll, pick) && explored == Explored(others, rate, roll, pick)
  }

  /** The two draws, and the candidate they choose. */
  method Choose(winner: u32, others: seq<u32>, rate: nat,
                roll_word: u64, roll_next: nat -> u64, pick_word: u64, pick_next: nat -> u64)
    returns (r: Option<(u32, bool)>)
    requires |others| < U64_MAX
    ensures r.None? <==> Endless(BASIS_POINTS, roll_word, roll_next) || Endless(|others| + 1, pick_word, pick_next)
    ensures r.Some? ==> Drawn(winner, others, rate, roll_word, roll_next, pick_word, pick_next, r.value.0, r.value.1)
  {
    hide Endless, Yields;
    var k := |others| + 1;
    var roll := Uniform(BASIS_POINTS, roll_word, roll_next);
    if roll.None? {
      return None;
    }
    var pick := Uniform(k, pick_word, pick_next);
    if pick.None? {
      return None;
    }
    var explored := k > 1 && roll.value < rate && pick.value > 0;
    var acted := if explored then others[pick.value - 1] else winner;
    assert acted == ActedOn(winner, others, rate, roll.value, pick.value);
    r := Some((acted, explored));
  }

  /** The window of an executable decision. */
  function WindowOf(p: Policy, input: Input, config: Config): (ids: seq<u32>)
    ensures |ids| <= |p.models|
  {
    var d := Decide(p.settings, p.models, input);
    Others(p.settings, p.models, input, d.selected_model_id, d.expected_utility - config.window)
  }

  /**
   * `explore`, with the draw's two words and their retries given; nothing stands for a draw that
   * does not end.
   */
  method Explore(p: Policy, input: Input, config: Config, key_bytes: nat,
                 roll_word: u64, roll_next: nat -> u64, pick_word: u64, pick_next: nat -> u64)
    returns (r: Option<Result<Record, ExplorationError>>)
    requires Sound(p) && BASIS_POINTS * (|p.models| + 1) <= U64_MAX
    ensures key_bytes < MIN_EXPLORATION_KEY_BYTES ==> r == Some(Err(ShortKey(key_bytes)))
    ensures key_bytes >= MIN_EXPLORATION_KEY_BYTES && config.rate_bps > BASIS_POINTS ==>
      r == Some(Err(RateOutOfRange(config.rate_bps)))
    ensures key_bytes >= MIN_EXPLORATION_KEY_BYTES && config.rate_bps <= BASIS_POINTS ==>
      var d, others := Decide(p.settings, p.models, input), WindowOf(p, input, config);
      if d.action == Reject then r == Some(Ok(Record(d, config, 0, false, 0, 1, 1)))
      else if Endless(BASIS_POINTS, roll_word, roll_next) || Endless(|others| + 1, pick_word, pick_next) then r == None
      else
        && r.Some? && r.value.Ok?
        && var record := r.value.value;
           && record == Record(d, config, record.acted_model_id, record.explored, (|others| + 1) % 0x1_0000_0000,
                               Numerator(|others| + 1, config.rate_bps, record.explored), BASIS_POINTS * (|others| + 1))
           && Drawn(d.selected_model_id, others, config.rate_bps, roll_word, roll_next, pick_word, pick_next,
                    record.acted_model_id, record.explored)
  {
    hide Judge, Decide, Endless, Drawn, Others, Numerator;
    if key_bytes < MIN_EXPLORATION_KEY_BYTES {
      return Some(Err(ShortKey(key_bytes)));
    }
    if config.rate_bps > BASIS_POINTS {
      return Some(Err(RateOutOfRange(config.rate_bps)));
    }
    var d, candidates := Explain(p, input);
    if d.action == Reject {
      return Some(Ok(Record(d, config, 0, false, 0, 1, 1)));
    }
    ExecutableNotBlocked(p.settings, p.models, input);
    var others := CollectOthers(p.settings, p.models, input, candidates, d.selected_model_id, d.expected_utility - config.window);
    var choice := Choose(d.selected_model_id, others, config.rate_bps, roll_word, roll_next, pick_word, pick_next);
    if choice.None? {
      return None;
    }
    var (acted, explored) := choice.value;
    var k := |others| + 1;
    r := Some(Ok(Record(d, config, acted, explored, k % 0x1_0000_0000, Numerator(k, config.rate_bps, explored), BASIS_POINTS * k)));
  }

  lemma ExecutableNotBlocked(s: Settings, models: seq<Model>, input: Input)
    requires Decide(s, models, input).action != Reject
    ensures !Blocked(s, input)
  {
    hide BestOf, Count, HistogramOf, CandidateAt;
  }

  method CollectOthers(ghost s: Settings, ghost models: seq<Model>, ghost input: Input,
                       candidates: seq<CandidateExplanation>, winner: u32, floor: int)
    returns (ids: seq<u32>)
    requires Explains(s, models, input, candidates)
    ensures ids == Others(s, models, input, winner, floor)
  {
    hide Judge;
    ids := [];
    for i := 0 to |candidates|
      invariant ids == Others(s, models[..i], input, winner, floor)
    {
      assert models[..i + 1][..i] == models[..i];
      var c := candidates[i];
      if c.model_id != winner && c.verdict.Eligible? && c.verdict.terms.utility >= floor {
        ids := ids + [c.model_id];
      }
    }
    assert models[..|models|] == models;
  }

  /**
   * Every record that can come out of a request is exact if and only if the rate is zero or no two
   * models of the window share an id.
   */
  lemma RecordsAreExact(p: Policy, input: Input, config: Config)
    requires config.rate_bps <= BASIS_POINTS
    ensures var winner, others := Decide(p.settings, p.models, input).selected_model_id, WindowOf(p, input, config);
      var floor := Decide(p.settings, p.models, input).expected_utility - config.window;
      (forall roll, pick :: 0 <= roll < BASIS_POINTS && 0 <= pick <= |others| ==>
         Exact(winner, others, config.rate_bps, roll, pick))
      <==> config.rate_bps == 0 || WindowDistinct(p.settings, p.models, input, winner, floor)
  {
    hide Decide, Exact, WindowDistinct, NoRepeat;
    var d := Decide(p.settings, p.models, input);
    var floor := d.expected_utility - config.window;
    WindowIsExact(d.selected_model_id, WindowOf(p, input, config), config.rate_bps);
    OthersDistinct(p.settings, p.models, input, d.selected_model_id, floor);
  }

  /** A catalog of three models, the last two under one id. */
  const Twins: seq<Model> :=
    [Model(1, 0, 10_000, 10_000, 1, 0, 0, 0, 0, 0), Model(2, 0, 9_000, 10_000, 1, 0, 0, 0, 0, 0),
     Model(2, 0, 9_000, 10_000, 1, 0, 0, 0, 0, 0)]

  const PlainSettings := Settings(1, 1, 10_000, 0, 0, 0)
  const PlainInput := Input(1, 1, 0, 0, 1_000_000, 1_000_000, 0, 10_000, 0, 0, 0, ALL_PROVIDERS, 0)

  /** A model that fails no gate and costs nothing. */
  predicate PlainModel(m: Model) {
    && m.enabled == 1 && m.provider_id == 0 && m.p95_latency_ms == 0 && m.capabilities == 0 && m.region_mask == 0
    && m.risk_ceiling_bps == 10_000 && m.input_price == 0 && m.output_price == 0 && m.quality_bps > 0
  }

  lemma PlainGates(m: Model)
    requires PlainModel(m)
    ensures FirstFailedGate(m, PlainInput).None? && Cost(m, PlainInput) == 0
  {
  }

  lemma PlainTerms(m: Model)
    requires PlainModel(m)
    ensures TermsOf(PlainSettings, m, PlainInput, 0).utility == m.quality_bps * 100
  {
    hide Scaled;
    PlainScaled(m.quality_bps);
  }

  lemma PlainScaled(q: nat)
    ensures Scaled(1_000_000, 10_000, q) == q * 100 && Scaled(1_000_000, 0, 0) == 0
  {
  }

  lemma PlainJudged(m: Model)
    requires PlainModel(m)
    ensures Judge(PlainSettings, m, PlainInput).Eligible?
    ensures Judge(PlainSettings, m, PlainInput).terms.utility == m.quality_bps * 100
    ensures Judge(PlainSettings, m, PlainInput).terms.cost == 0
  {
    hide FirstFailedGate, Cost, Scaled;
    PlainGates(m);
    PlainTerms(m);
  }

  lemma TwinsDecided()
    ensures var d := Decide(PlainSettings, Twins, PlainInput);
      d.action == ExecuteRequested && d.selected_model_id == 1 && d.expected_utility == 1_000_000
    ensures Others(PlainSettings, Twins, PlainInput, 1, 0) == [2, 2]
  {
    hide Judge, HistogramOf, Count;
    PlainJudged(Twins[0]);
    PlainJudged(Twins[1]);
    PlainJudged(Twins[2]);
    var s, m, input := PlainSettings, Twins, PlainInput;
    assert BestOf(s, m, input, 1, -1) == Some(0);
    assert BestOf(s, m, input, 2, -1) == Some(0);
    assert BestOf(s, m, input, 3, -1) == Some(0);
    assert Twins[..2][..1] == Twins[..1] && Twins[..3] == Twins;
    assert Others(s, Twins[..1], input, 1, 0) == [];
    assert Others(s, Twins[..2], input, 1, 0) == [2];
  }

  /**
   * The window of a request: the ranked models of another id whose utility falls short of the
   * winner's by no more than the window allows.
   */
  lemma WindowMeans(p: Policy, input: Input, config: Config, id: u32)
    ensures var d := Decide(p.settings, p.models, input);
      id in WindowOf(p, input, config) <==>
        && id != d.selected_model_id
        && exists i ::
             && Ranked(p.settings, p.models, input, i) && p.models[i].model_id == id
             && CandidateAt(p.settings, p.models, input, i).utility + config.window >= d.expected_utility
  {
    hide Decide, Judge;
    var d := Decide(p.settings, p.models, input);
    var floor := d.expected_utility - config.window;
    OthersListed(p.settings, p.models, input, d.selected_model_id, floor, id);
    if i :| 0 <= i < |p.models| && InWindow(p.settings, p.models[i], input, d.selected_model_id, floor) && p.models[i].model_id == id {
      assert Ranked(p.settings, p.models, input, i);
    }
  }

  /** An unvalidated catalog with a repeated id: at rate one half its record is off by half. */
  lemma RepeatedIdUnderstated(roll: nat, pick: nat)
    requires roll < 5_000 && 1 <= pick <= 2
    ensures var p, config := NewUnchecked(PlainSettings, Twins), Config(5_000, 1_000_000);
      var winner, others := Decide(p.settings, p.models, PlainInput).selected_model_id, WindowOf(p, PlainInput, config);
      && |others| == 2 && ActedOn(winner, others, 5_000, roll, pick) == 2 && Explored(others, 5_000, roll, pick)
      && Numerator(3, 5_000, true) == 5_000 && CountPairs(winner, others, 5_000, BASIS_POINTS, 2) == 10_000
  {
    hide Decide, Others, CountPairs, NewUnchecked, Judge;
    TwinsDecided();
    PairsFormula(1, [2, 2], 5_000, BASIS_POINTS, 2);
    assert [2, 2][..1] == [2] && [2][..0] == [];
    assert Occurrences([2], 2) == 1 && Occurrences([2, 2], 2) == 2;
  }

  /** Validated catalogs have distinct ids, so what their records say of their own likelihood is exactly so. */
  lemma RecordIsExact(p: Policy, input: Input, config: Config, roll_word: u64, roll_next: nat -> u64,
                      pick_word: u64, pick_next: nat -> u64, acted: u32, explored: bool)
    requires DistinctIds(p.models) && config.rate_bps <= BASIS_POINTS
    requires Drawn(Decide(p.settings, p.models, input).selected_model_id, WindowOf(p, input, config), config.rate_bps,
                   roll_word, roll_next, pick_word, pick_next, acted, explored)
    ensures var winner, others := Decide(p.settings, p.models, input).selected_model_id, WindowOf(p, input, config);
      CountPairs(winner, others, config.rate_bps, BASIS_POINTS, acted) == Numerator(|others| + 1, config.rate_bps, explored)
  {
    hide Decide, WindowOf, CountPairs, Numerator, Yields;
    var winner, others := Decide(p.settings, p.models, input).selected_model_id, WindowOf(p, input, config);
    RecordsAreExact(p, input, config);
    var roll, pick :|
      && 0 <= roll < BASIS_POINTS && 0 <= pick <= |others|
      && acted == ActedOn(winner, others, config.rate_bps, roll, pick) && explored == Explored(others, config.rate_bps, roll, pick);
    assert Exact(winner, others, config.rate_bps, roll, pick);
  }
}
