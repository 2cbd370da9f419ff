/** The shuffle of the card metadata before the tokens are minted. */
module Shuffle {
  import opened Wrappers
  import opened Bytes
  import opened TokenLedger

  /** A byte read as a signed 8-bit integer. */
  function Signed(b: byte): int {
    if b < 128 then b else b - 256
  }

  /** The generator of the shuffle: a byte below 100. */
  function Prng(current: byte): (next: byte)
    ensures 0 <= next < 100
  {
    (Signed(current) * 1_103_515_245 + 12_345) % 256 % 100
  }

  /** Division that rounds toward zero. */
  function Quotient(a: int, b: int): int
    requires b > 0
  {
    if a >= 0 then a / b else -(-a / b)
  }

  function Abs(a: int): nat {
    if a >= 0 then a else -a
  }

  function RandomIndex(random: byte, current: nat): nat {
    Abs(Quotient(Signed(random) * current, 100))
  }

  function Swap<T>(s: seq<T>, i: nat, j: nat): (r: seq<T>)
    requires i < |s| && j < |s|
    ensures |r| == |s|
  {
    s[i := s[j]][j := s[i]]
  }

  /** The loop, from `current` down to 1: tokens already minted are skipped. */
  function ShuffleFrom<T>(s: seq<T>, tokens: Tokens, current: nat, random: byte): Outcome<seq<T>>
    requires current <= |s|
    decreases current
  {
    if current == 1 then Value(s)
    else if current == 0 || current > |tokens| then Trap
    else if tokens[current - 1].Some? then ShuffleFrom(s, tokens, current - 1, random)
    else
      var next := Prng(random);
      var other := RandomIndex(next, current);
      if other >= current then Trap
      else ShuffleFrom(Swap(s, current - 1, other), tokens, current - 1, next)
  }

  function Shuffled<T>(s: seq<T>, tokens: Tokens, seed: byte): Outcome<seq<T>> {
    ShuffleFrom(s, tokens, |s|, seed)
  }

  /** The index drawn is always below the current one, so the assert in the loop holds. */
  lemma RandomIndexInRange(random: byte, current: nat)
    requires random < 100 && current > 0
    ensures RandomIndex(random, current) < current
  {
    assert Signed(random) * current <= 99 * current;
  }

  /** It is the hundredth part of random * current, rounded down: random is read as a percentage. */
  lemma RandomIndexIsPercent(random: byte, current: nat)
    requires random < 100
    ensures 100 * RandomIndex(random, current) <= random * current < 100 * (RandomIndex(random, current) + 1)
    ensures RandomIndex(random, current) == random * current / 100
  {
    assert Signed(random) * current == random * current >= 0;
  }

  /** On the unsigned byte the generator is 109 * b + 57 modulo 256, taken modulo 100. */
  lemma PrngIsLinear(b: byte)
    ensures Prng(b) == (109 * b + 57) % 256 % 100
  {
    var q := if b < 128 then 4_310_606 * b + 48 else 4_310_606 * b + 48 - 1_103_515_245;
    assert Signed(b) * 1_103_515_245 + 12_345 == 256 * q + (109 * b + 57);
    DropMultiple(109 * b + 57, q);
  }

  lemma DropMultiple(a: int, q: int)
    ensures (256 * q + a) % 256 == a % 256
  {
  }

  lemma SwapPermutes<T>(s: seq<T>, i: nat, j: nat)
    requires i < |s| && j < |s|
    ensures multiset(Swap(s, i, j)) == multiset(s)
  {
  }

  /** Every token from k up to the size is minted. */
  ghost predicate MintedFrom(tokens: Tokens, k: nat, size: nat) {
    forall i :: k <= i < size ==> i < |tokens| && tokens[i].Some?
  }

  lemma {:induction false} ShuffleFromEnds<T>(s: seq<T>, tokens: Tokens, current: nat, random: byte)
    requires current <= |s|
    ensures ShuffleFrom(s, tokens, current, random).Value? <==> current == 1 || 1 <= current <= |tokens|
    decreases current
  {
    if 1 < current <= |tokens| {
      if tokens[current - 1].Some? {
        ShuffleFromEnds(s, tokens, current - 1, random);
      } else {
        var next := Prng(random);
        var other := RandomIndex(next, current);
        RandomIndexInRange(next, current);
        ShuffleFromEnds(Swap(s, current - 1, other), tokens, current - 1, next);
      }
    }
  }

  lemma {:induction false} ShuffleFromPermutes<T>(s: seq<T>, tokens: Tokens, current: nat, random: byte)
    requires current <= |s| && ShuffleFrom(s, tokens, current, random).Value?
    ensures var r := ShuffleFrom(s, tokens, current, random).value;
            |r| == |s| && multiset(r) == multiset(s)
    decreases current
  {
    if current != 1 {
      if tokens[current - 1].Some? {
        ShuffleFromPermutes(s, tokens, current - 1, random);
      } else {
        var next := Prng(random);
        var other := RandomIndex(next, current);
        SwapPermutes(s, current - 1, other);
        ShuffleFromPermutes(Swap(s, current - 1, other), tokens, current - 1, next);
      }
    }
  }

  lemma {:induction false} ShuffleFromKeeps<T>(s: seq<T>, tokens: Tokens, current: nat, random: byte, j: nat)
    requires current <= |s| && ShuffleFrom(s, tokens, current, random).Value?
    requires j < |s| && MintedFrom(tokens, j, current)
    ensures |ShuffleFrom(s, tokens, current, random).value| == |s|
    ensures ShuffleFrom(s, tokens, current, random).value[j] == s[j]
    decreases current
  {
    if current != 1 {
      if tokens[current - 1].Some? {
        ShuffleFromKeeps(s, tokens, current - 1, random, j);
      } else {
        assert j >= current;
        var next := Prng(random);
        ShuffleFromKeeps(Swap(s, current - 1, RandomIndex(next, current)), tokens, current - 1, next, j);
      }
    }
  }

  /** For every seed and every set of minted tokens, the shuffle ends without a trap exactly at these sizes. */
  lemma ShuffledEnds<T>(s: seq<T>, tokens: Tokens, seed: byte)
    ensures Shuffled(s, tokens, seed).Value? <==> |s| == 1 || 1 <= |s| <= |tokens|
  {
    ShuffleFromEnds(s, tokens, |s|, seed);
  }

  predicate Permutes<T(==)>(s: seq<T>, t: seq<T>) {
    multiset(s) == multiset(t)
  }

  /** Then it yields a permutation of the metadata. */
  lemma ShuffledPermutes<T>(s: seq<T>, tokens: Tokens, seed: byte)
    requires Shuffled(s, tokens, seed).Value?
    ensures Permutes(Shuffled(s, tokens, seed).value, s)
  {
    ShuffleFromEnds(s, tokens, |s|, seed);
    ShuffleFromPermutes(s, tokens, |s|, seed);
  }

  predicate SameFrom<T(==)>(s: seq<T>, t: seq<T>, k: nat) {
    k <= |s| == |t| && s[k..] == t[k..]
  }

  /** Positions from k on keep their metadata when all tokens from k on are minted. */
  lemma ShuffledKeepsMinted<T>(s: seq<T>, tokens: Tokens, seed: byte, k: nat)
    requires Shuffled(s, tokens, seed).Value? && k <= |s| && MintedFrom(tokens, k, |s|)
    ensures SameFrom(Shuffled(s, tokens, seed).value, s, k)
  {
    ShuffleFromEnds(s, tokens, |s|, seed);
    ShuffleFromPermutes(s, tokens, |s|, seed);
    forall j | k <= j < |s|
      ensures Shuffled(s, tokens, seed).value[j] == s[j]
    {
      ShuffleFromKeeps(s, tokens, |s|, seed, j);
    }
  }

  // ---- The draws ----

  /** The swaps of the loop, first to last: position current - 1 with the drawn one, for each unminted token. */
  function Draws(tokens: Tokens, current: nat, random: byte): (swaps: seq<(nat, nat)>)
    requires current <= |tokens|
    ensures forall k :: 0 <= k < |swaps| ==> swaps[k].1 <= swaps[k].0 < current
    decreases current
  {
    if current <= 1 then []
    else if tokens[current - 1].Some? then Draws(tokens, current - 1, random)
    else
      var next := (109 * random + 57) % 256 % 100;
      PercentBelow(next, current);
      [(current - 1, next * current / 100)] + Draws(tokens, current - 1, next)
  }

  lemma PercentBelow(percent: nat, n: nat)
    requires percent < 100 && n > 0
    ensures percent * n / 100 < n
  {
    assert percent * n <= 99 * n;
  }

  function SwapAll<T>(s: seq<T>, swaps: seq<(nat, nat)>): seq<T>
    requires forall k :: 0 <= k < |swaps| ==> swaps[k].0 < |s| && swaps[k].1 < |s|
    decreases |swaps|
  {
    if swaps == [] then s
    else SwapAll(s[swaps[0].0 := s[swaps[0].1]][swaps[0].1 := s[swaps[0].0]], swaps[1..])
  }

  lemma {:induction false} ShuffleFromSwaps<T>(s: seq<T>, tokens: Tokens, current: nat, random: byte)
    requires 1 <= current <= |s| && current <= |tokens|
    ensures ShuffleFrom(s, tokens, current, random) == Value(SwapAll(s, Draws(tokens, current, random)))
    decreases current
  {
    if current > 1 {
      if tokens[current - 1].Some? {
        ShuffleFromSwaps(s, tokens, current - 1, random);
      } else {
        var next := Prng(random);
        PrngIsLinear(random);
        RandomIndexIsPercent(next, current);
        RandomIndexInRange(next, current);
        var other := next * current / 100;
        ShuffleFromSwaps(Swap(s, current - 1, other), tokens, current - 1, next);
        var (first, rest) := ((current - 1, other), Draws(tokens, current - 1, next));
        assert Draws(tokens, current, random) == [first] + rest;
        assert ([first] + rest)[1..] == rest;
      }
    }
  }

  /** The shuffle swaps each unminted position, from the top down, with the position its percentage names. */
  lemma ShuffledSwapsDraws<T>(s: seq<T>, tokens: Tokens, seed: byte)
    requires 1 <= |s| <= |tokens|
    ensures Shuffled(s, tokens, seed) == Value(SwapAll(s, Draws(tokens, |s|, seed)))
  {
    ShuffleFromSwaps(s, tokens, |s|, seed);
  }

  /** Of two cards, the upper one unminted: they change places exactly when the percentage is below 50. */
  lemma TwoCards<T>(a: T, b: T, tokens: Tokens, seed: byte)
    requires |tokens| >= 2 && tokens[1].None?
    ensures Shuffled([a, b], tokens, seed)
         == Value(if (109 * seed + 57) % 256 % 100 < 50 then [b, a] else [a, b])
  {
    PrngIsLinear(seed);
    var next := Prng(seed);
    RandomIndexIsPercent(next, 2);
    assert Swap([a, b], 1, 0) == [b, a] && Swap([a, b], 1, 1) == [a, b];
  }

  // ---- Which minted tokens keep their metadata ----

  /** A draw of the loop hits position j. */
  predicate Drawn(tokens: Tokens, current: nat, random: byte, j: nat)
    requires current <= |tokens|
    decreases current
  {
    if current <= 1 then false
    else if tokens[current - 1].Some? then Drawn(tokens, current - 1, random, j)
    else
      var next := Prng(random);
      RandomIndex(next, current) == j || Drawn(tokens, current - 1, next, j)
  }

  predicate AllDistinct<T(==)>(s: seq<T>) {
    forall i, j :: 0 <= i < j < |s| ==> s[i] != s[j]
  }

  /** The loop never touches a position it has passed. */
  lemma {:induction false} PassedStays<T>(s: seq<T>, tokens: Tokens, current: nat, random: byte, p: nat)
    requires current <= p < |s| && ShuffleFrom(s, tokens, current, random).Value?
    ensures |ShuffleFrom(s, tokens, current, random).value| == |s|
    ensures ShuffleFrom(s, tokens, current, random).value[p] == s[p]
    decreases current
  {
    if current != 1 {
      if tokens[current - 1].Some? {
        PassedStays(s, tokens, current - 1, random, p);
      } else {
        var next := Prng(random);
        PassedStays(Swap(s, current - 1, RandomIndex(next, current)), tokens, current - 1, next, p);
      }
    }
  }

  lemma SwapKeepsDistinct<T>(s: seq<T>, i: nat, j: nat)
    requires i < |s| && j < |s| && AllDistinct(s)
    ensures AllDistinct(Swap(s, i, j))
  {
  }

  lemma {:induction false} ShuffleFromStaysExactlyWhen<T>(s: seq<T>, tokens: Tokens, current: nat, random: byte, j: nat)
    requires 1 <= current <= |s| && current <= |tokens| && j < |s|
    requires j < |tokens| && tokens[j].Some? && AllDistinct(s)
    ensures ShuffleFrom(s, tokens, current, random).Value?
    ensures var r := ShuffleFrom(s, tokens, current, random).value;
            |r| == |s| && (r[j] == s[j] <==> !Drawn(tokens, current, random, j))
    decreases current
  {
    if current > 1 {
      if tokens[current - 1].Some? {
        ShuffleFromStaysExactlyWhen(s, tokens, current - 1, random, j);
      } else {
        var next := Prng(random);
        var other := RandomIndex(next, current);
        RandomIndexInRange(next, current);
        var swapped := Swap(s, current - 1, other);
        SwapKeepsDistinct(s, current - 1, other);
        ShuffleFromStaysExactlyWhen(swapped, tokens, current - 1, next, j);
        if other == j {
          var r := ShuffleFrom(swapped, tokens, current - 1, next).value;
          ShuffleFromPermutes(swapped, tokens, current - 1, next);
          PassedStays(swapped, tokens, current - 1, next, current - 1);
          PermutedDistinct(swapped, r);
          assert r[current - 1] == s[j];
        }
      }
    }
  }

  lemma {:induction false} CountDistinct<T>(s: seq<T>, x: T)
    requires AllDistinct(s)
    ensures multiset(s)[x] <= 1
  {
    if s != [] {
      assert s == s[..|s| - 1] + [s[|s| - 1]];
      CountDistinct(s[..|s| - 1], x);
    }
  }

  lemma PermutedDistinct<T>(s: seq<T>, t: seq<T>)
    requires AllDistinct(s) && |s| == |t| && multiset(s) == multiset(t)
    ensures AllDistinct(t)
  {
    forall i, j | 0 <= i < j < |t|
      ensures t[i] != t[j]
    {
      if t[i] == t[j] {
        assert t == t[..j] + t[j..] && t[..j][i] == t[i] && t[j..][0] == t[j];
        assert multiset(t) == multiset(t[..j]) + multiset(t[j..]);
        assert t[i] in multiset(t[..j]) && t[i] in multiset(t[j..]);
        CountDistinct(s, t[i]);
        assert false;
      }
    }
  }

  /** A minted token keeps its metadata, all being different, exactly when no draw of the loop hits it. */
  lemma MintedStaysExactlyWhen<T>(s: seq<T>, tokens: Tokens, seed: byte, j: nat)
    requires 1 <= |s| <= |tokens| && j < |s| && tokens[j].Some? && AllDistinct(s)
    ensures Shuffled(s, tokens, seed).Value?
    ensures var r := Shuffled(s, tokens, seed).value;
            |r| == |s| && (r[j] == s[j] <==> !Drawn(tokens, |s|, seed, j))
  {
    ShuffleFromStaysExactlyWhen(s, tokens, |s|, seed, j);
  }

  ghost predicate MintedAgree<T(!new)>(s: seq<T>, r: seq<T>, tokens: Tokens) {
    |r| == |s| <= |tokens| && forall j :: 0 <= j < |s| && tokens[j].Some? ==> r[j] == s[j]
  }

  /** So all minted tokens keep their metadata exactly when every draw hits a token not yet minted. */
  lemma AllMintedStayExactlyWhen<T(!new)>(s: seq<T>, tokens: Tokens, seed: byte)
    requires 1 <= |s| <= |tokens| && AllDistinct(s)
    ensures Shuffled(s, tokens, seed).Value?
    ensures MintedAgree(s, Shuffled(s, tokens, seed).value, tokens)
      <==> forall j :: 0 <= j < |s| && tokens[j].Some? ==> !Drawn(tokens, |s|, seed, j)
  {
    ShuffledEnds(s, tokens, seed);
    ShuffleFromPermutes(s, tokens, |s|, seed);
    forall j | 0 <= j < |s| && tokens[j].Some?
      ensures Shuffled(s, tokens, seed).value[j] == s[j] <==> !Drawn(tokens, |s|, seed, j)
    {
      MintedStaysExactlyWhen(s, tokens, seed, j);
    }
  }

  function Positions(n: nat): (p: seq<nat>)
    ensures |p| == n && forall i :: 0 <= i < n ==> p[i] == i
    ensures AllDistinct(p)
  {
    seq(n, i => i)
  }

  /** Position k of the result r holds the card that the result p on positions names. */
  ghost predicate FollowsPositions<T>(s: seq<T>, r: Outcome<seq<T>>, p: Outcome<seq<nat>>, k: nat) {
    && r.Value? && p.Value?
    && |r.value| == |p.value| == |s| && k < |s|
    && p.value[k] < |s| && r.value[k] == s[p.value[k]]
  }

  ghost predicate Mirrors<T>(s: seq<T>, t: seq<T>, p: seq<nat>) {
    |t| == |p| == |s| && forall i :: 0 <= i < |p| ==> p[i] < |s| && t[i] == s[p[i]]
  }

  lemma SwapMirrors<T>(s: seq<T>, t: seq<T>, p: seq<nat>, i: nat, j: nat)
    requires Mirrors(s, t, p) && i < |s| && j < |s|
    ensures Mirrors(s, Swap(t, i, j), Swap(p, i, j))
  {
  }

  lemma {:induction false} ShuffleFromMoves<T>(s: seq<T>, t: seq<T>, p: seq<nat>, tokens: Tokens, current: nat,
                                               random: byte, k: nat)
    requires Mirrors(s, t, p) && 1 <= current <= |s| && current <= |tokens| && k < |s|
    ensures FollowsPositions(s, ShuffleFrom(t, tokens, current, random), ShuffleFrom(p, tokens, current, random), k)
    decreases current
  {
    if current > 1 {
      if tokens[current - 1].Some? {
        ShuffleFromMoves(s, t, p, tokens, current - 1, random, k);
      } else {
        var next := Prng(random);
        var other := RandomIndex(next, current);
        RandomIndexInRange(next, current);
        SwapMirrors(s, t, p, current - 1, other);
        ShuffleFromMoves(s, Swap(t, current - 1, other), Swap(p, current - 1, other), tokens, current - 1, next, k);
      }
    }
  }

  /** Whatever the cards are, equal ones included, they move as their positions do. */
  lemma ShuffledMovesPositions<T>(s: seq<T>, tokens: Tokens, seed: byte, k: nat)
    requires 1 <= |s| <= |tokens| && k < |s|
    ensures FollowsPositions(s, Shuffled(s, tokens, seed), Shuffled(Positions(|s|), tokens, seed), k)
  {
    ShuffleFromMoves(s, s, Positions(|s|), tokens, |s|, seed, k);
  }

  /** A minted token below an unminted one may lose its metadata: here token 0 of two is minted. */
  lemma MintedMayMove<T>(a: T, b: T, token: Token)
    ensures Shuffled([a, b], [Some(token), None], 2) == Value([b, a])
  {
    assert Prng(2) == 19 && RandomIndex(19, 2) == 0;
    assert Swap([a, b], 1, 0) == [b, a];
  }
}
