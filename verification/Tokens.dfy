/** The token factory: the ledger array, the card metadata, and the operations on them. */
module Tokens {
  import opened Wrappers
  import opened Bytes
  import opened Accounts
  import opened TokenLedger
  import opened Shuffle

  datatype Metadata = Metadata(back: string, border: string, ink: string, stock: string, normal: string, mask: string)

  /** The canister whose tokens were sold before the shuffle existed. */
  const FIRST_CANISTER := "nges7-giaaa-aaaaj-qaiya-cai"

  // ---- What the scans return ----

  predicate IsIncreasing(xs: seq<nat>) {
    forall i, j :: 0 <= i < j < |xs| ==> xs[i] < xs[j]
  }

  /** The indices, in order, at which the ledger holds a token, or holds none. */
  function Indices(tokens: Tokens, minted: bool): (r: seq<nat>)
    ensures forall k :: 0 <= k < |r| ==> r[k] < |tokens|
    ensures IsIncreasing(r)
    ensures forall i :: i in r <==> 0 <= i < |tokens| && tokens[i].Some? == minted
  {
    if tokens == [] then []
    else
      var last := |tokens| - 1;
      var before := Indices(tokens[..last], minted);
      if tokens[last].Some? == minted then before + [last] else before
  }

  /** The minted indices, in order, with their owners. */
  function Registry(tokens: Tokens): (r: seq<(nat, Account)>)
    ensures forall k :: 0 <= k < |r| ==> r[k].0 < |tokens|
    ensures forall j, k :: 0 <= j < k < |r| ==> r[j].0 < r[k].0
    ensures forall pair :: pair in r <==>
              pair.0 < |tokens| && tokens[pair.0].Some? && tokens[pair.0].value.owner == pair.1
  {
    if tokens == [] then []
    else
      var last := |tokens| - 1;
      var before := Registry(tokens[..last]);
      if tokens[last].Some? then before + [(last, tokens[last].value.owner)] else before
  }

  /** The indices, in order, of the tokens an account owns. */
  function OwnedBy(tokens: Tokens, account: Account): (r: seq<nat>)
    ensures forall k :: 0 <= k < |r| ==> r[k] < |tokens|
    ensures IsIncreasing(r)
    ensures forall i :: i in r <==> 0 <= i < |tokens| && tokens[i].Some? && tokens[i].value.owner == account
  {
    if tokens == [] then []
    else
      var last := |tokens| - 1;
      var before := OwnedBy(tokens[..last], account);
      if tokens[last].Some? && tokens[last].value.owner == account then before + [last] else before
  }

  /** The minted and the unminted indices together are the whole supply, each index once. */
  lemma {:induction false} MintedAndUnmintedPartition(tokens: Tokens)
    ensures |Indices(tokens, true)| + |Indices(tokens, false)| == |tokens|
    ensures forall i :: 0 <= i < |tokens| ==> (i in Indices(tokens, true) <==> i !in Indices(tokens, false))
  {
    if tokens != [] {
      MintedAndUnmintedPartition(tokens[..|tokens| - 1]);
    }
  }

  /** The registry lists exactly the minted indices, in order. */
  lemma {:induction false} RegistryListsMinted(tokens: Tokens)
    ensures |Registry(tokens)| == |Indices(tokens, true)|
    ensures forall k :: 0 <= k < |Registry(tokens)| ==> Registry(tokens)[k].0 == Indices(tokens, true)[k]
  {
    if tokens != [] {
      RegistryListsMinted(tokens[..|tokens| - 1]);
    }
  }

  /** In a ledger whose minted tokens come first, the next index to mint is the number of minted ones. */
  lemma NextMintCounts(tokens: Tokens)
    requires MintedPrefix(tokens)
    ensures NextMint(tokens) == if |Indices(tokens, true)| < |tokens| then Some(|Indices(tokens, true)|) else None
  {
    match NextMint(tokens)
    case Some(i) => PrefixCounts(tokens, i);
    case None => PrefixCounts(tokens, |tokens|);
  }

  lemma {:induction false} PrefixCounts(tokens: Tokens, n: nat)
    requires n <= |tokens|
    requires forall k :: 0 <= k < |tokens| ==> (tokens[k].Some? <==> k < n)
    ensures |Indices(tokens, true)| == n
  {
    if tokens != [] {
      PrefixCounts(tokens[..|tokens| - 1], if n == |tokens| then n - 1 else n);
    }
  }

  // ---- The factory ----

  class Factory {
    const ledger: array<Option<Token>>
    var metadata: seq<Metadata>
    var isShuffled: bool

    constructor (supply: nat, tokens: seq<Option<Token>>, metadata: seq<Metadata>, isShuffled: bool)
      requires |tokens| <= supply
      ensures fresh(ledger) && ledger.Length == supply
      ensures ledger[..] == tokens + seq(supply - |tokens|, i => None)
      ensures this.metadata == metadata && this.isShuffled == isShuffled
    {
      ledger := new Option<Token>[supply](i => None);
      this.metadata := metadata;
      this.isShuffled := isShuffled;
      new;
      for i := 0 to |tokens|
        invariant forall k :: 0 <= k < i ==> ledger[k] == tokens[k]
        invariant forall k :: i <= k < supply ==> ledger[k] == None
        invariant this.metadata == metadata && this.isShuffled == isShuffled
      {
        ledger[i] := tokens[i];
      }
    }

    method GetNextMintIndex() returns (r: Option<nat>)
      ensures r == NextMint(ledger[..])
    {
      for i := 0 to ledger.Length
        invariant forall k :: 0 <= k < i ==> ledger[k].Some?
      {
        if ledger[i].None? {
          return Some(i);
        }
      }
      r := None;
    }

    method GetUnminted() returns (unminted: seq<nat>)
      ensures unminted == Indices(ledger[..], false)
    {
      unminted := [];
      var i := 0;
      while i < ledger.Length
        invariant 0 <= i <= ledger.Length
        invariant unminted == Indices(ledger[..i], false)
      {
        assert ledger[..i + 1][..i] == ledger[..i];
        if ledger[i].None? {
          unminted := unminted + [i];
        }
        i := i + 1;
      }
      assert ledger[..i] == ledger[..];
    }

    method GetMinted() returns (minted: seq<nat>)
      ensures minted == Indices(ledger[..], true)
    {
      minted := [];
      var i := 0;
      while i < ledger.Length
        invariant 0 <= i <= ledger.Length
        invariant minted == Indices(ledger[..i], true)
      {
        assert ledger[..i + 1][..i] == ledger[..i];
        if !ledger[i].None? {
          minted := minted + [i];
        }
        i := i + 1;
      }
      assert ledger[..i] == ledger[..];
    }

    /** `getRegistry` of the EXT interface: a counter advanced along the whole ledger. */
    method GetRegistry() returns (registry: seq<(nat, Account)>)
      ensures registry == Registry(ledger[..])
    {
      registry := [];
      var i := 0;
      for k := 0 to ledger.Length
        invariant i == k && registry == Registry(ledger[..k])
      {
        assert ledger[..k + 1][..k] == ledger[..k];
        match ledger[k] {
          case Some(t) =>
            registry := registry + [(i, t.owner)];
          case None =>
        }
        i := i + 1;
      }
      assert ledger[..ledger.Length] == ledger[..];
    }

    /** `tokens` of the EXT interface. */
    method TokensOf(account: Account) returns (tokens: seq<nat>)
      ensures tokens == OwnedBy(ledger[..], account)
    {
      tokens := [];
      var i := 0;
      for k := 0 to ledger.Length
        invariant i == k && tokens == OwnedBy(ledger[..k], account)
      {
        assert ledger[..k + 1][..k] == ledger[..k];
        if ledger[k].Some? && ledger[k].value.owner == account {
          tokens := tokens + [i];
        }
        i := i + 1;
      }
      assert ledger[..ledger.Length] == ledger[..];
    }

    /** Mint a chosen index. Traps outside the supply. */
    method MintAt(index: nat, to: Account, now: int) returns (r: Outcome<Result<(), string>>)
      modifies ledger
      ensures r.Trap? <==> index >= ledger.Length
      ensures r.Value? ==> (r.value.Ok? <==> old(ledger[index]).None?)
      ensures ledger[..] == if r.Value? && r.value.Ok? then old(ledger[..])[index := Some(Token(now, to, "N/A"))]
                            else old(ledger[..])
    {
      if index >= ledger.Length {
        return Trap;
      }
      match ledger[index] {
        case Some(_) =>
          r := Value(Err("Already minted"));
        case None =>
          ledger[index] := Some(Token(now, to, "N/A"));
          r := Value(Ok(()));
      }
    }

    /** Mint the next index. Traps unless the caller is an admin or the canister. */
    method Mint(allowed: bool, to: Account, now: int) returns (r: Outcome<Result<nat, string>>)
      modifies ledger
      ensures r.Trap? <==> !allowed
      ensures r.Trap? ==> ledger[..] == old(ledger[..])
      ensures r.Value? ==>
                && ledger[..] == TokenLedger.Mint(old(ledger[..]), to, now).0
                && r.value == match NextMint(old(ledger[..]))
                              case Some(i) => Ok(i)
                              case None => Err("No more supply.")
    {
      if !allowed {
        return Trap;
      }
      var next := GetNextMintIndex();
      match next {
        case Some(i) =>
          ledger[i] := Some(Token(now, to, "N/A"));
          r := Value(Ok(i));
        case None =>
          r := Value(Err("No more supply."));
      }
    }

    method Transfer(index: nat, from: Account, to: Account) returns (r: Outcome<()>)
      modifies ledger
      ensures match TokenLedger.Transfer(old(ledger[..]), index, from, to)
              case Trap => r.Trap? && ledger[..] == old(ledger[..])
              case Value(tokens) => r.Value? && ledger[..] == tokens
    {
      if index >= ledger.Length {
        return Trap;
      }
      if ledger[index].None? || ledger[index].value.owner != from {
        return Trap;
      }
      var token := ledger[index].value;
      ledger[index] := Some(Token(token.createdAt, to, "N/A"));
      r := Value(());
    }

    /** The shuffle up to its await: two asserts, and nothing written. */
    method ShuffleBegin(canister: string, admin: bool) returns (r: Outcome<()>)
      ensures r.Value? <==> canister != FIRST_CANISTER && admin && !isShuffled
    {
      if canister == FIRST_CANISTER {
        return Trap;
      }
      if !admin || isShuffled {
        return Trap;
      }
      r := Value(());
    }

    /** The shuffle, from the moment the seed has arrived. A trap leaves the metadata as it was. */
    method ShuffleMetadata(seed: byte) returns (r: Outcome<()>)
      modifies this`metadata, this`isShuffled
      ensures r.Value? <==> Shuffled(old(metadata), ledger[..], seed).Value?
      ensures r.Value? ==> metadata == Shuffled(old(metadata), ledger[..], seed).value && isShuffled
      ensures r.Trap? ==> metadata == old(metadata) && isShuffled == old(isShuffled)
    {
      var random := seed;
      var current := |metadata|;
      var cards := metadata;
      var shuffled := new Metadata[|cards|](i requires 0 <= i < |cards| => cards[i]);
      assert shuffled[..] == cards;
      ghost var goal := Shuffled(cards, ledger[..], seed);
      while current != 1
        modifies shuffled
        invariant 0 <= current <= shuffled.Length
        invariant goal == ShuffleFrom(shuffled[..], ledger[..], current, random)
        decreases current
      {
        if current == 0 || current > ledger.Length {
          return Trap;
        }
        if !ledger[current - 1].None? {
          current := current - 1;
          continue;
        }
        random := Prng(random);
        var other := RandomIndex(random, current);
        if other >= current {
          return Trap;
        }
        ghost var before := shuffled[..];
        current := current - 1;
        var temporary := shuffled[current];
        shuffled[current] := shuffled[other];
        shuffled[other] := temporary;
        assert shuffled[..] == Swap(before, current, other);
      }
      metadata := shuffled[..];
      isShuffled := true;
      r := Value(());
    }

    /** Set the metadata of the whole supply. Traps unless an admin calls it before the shuffle. */
    method ConfigureMetadata(admin: bool, conf: seq<Metadata>) returns (r: Outcome<Result<(), string>>)
      modifies this`metadata
      ensures r.Trap? <==> !admin || isShuffled
      ensures r.Value? ==> (r.value.Ok? <==> |conf| == ledger.Length)
      ensures metadata == if r.Value? && r.value.Ok? then conf else old(metadata)
    {
      if !admin || isShuffled {
        return Trap;
      }
      if |conf| != ledger.Length {
        return Value(Err("Must include configuration for every legend."));
      }
      metadata := conf;
      r := Value(Ok(()));
    }
  }

  // ---- Metadata over interleaved shuffles and configurations ----

  datatype Cards = Cards(metadata: seq<Metadata>, isShuffled: bool)

  datatype CardStep =
    | ShuffleResumes(tokens: Tokens, seed: byte)   // a shuffle called earlier receives its seed
    | Configured(conf: seq<Metadata>)

  /** A segment that traps changes nothing. The shuffle checks `isShuffled` only before its await. */
  function ApplyCard(c: Cards, s: CardStep): Cards {
    match s
    case ShuffleResumes(tokens, seed) =>
      (match Shuffled(c.metadata, tokens, seed)
       case Trap => c
       case Value(shuffled) => Cards(shuffled, true))
    case Configured(conf) => if c.isShuffled then c else c.(metadata := conf)
  }

  function ApplyCards(c: Cards, steps: seq<CardStep>): Cards
    decreases |steps|
  {
    if steps == [] then c else ApplyCards(ApplyCard(c, steps[0]), steps[1..])
  }

  /**
   * However shuffles and configurations interleave, overlapping shuffles included: once the cards
   * have been shuffled they stay so, and the collection of cards never changes again.
   */
  lemma {:induction false} CardsAreSettled(c: Cards, steps: seq<CardStep>)
    requires c.isShuffled
    ensures ApplyCards(c, steps).isShuffled
    ensures multiset(ApplyCards(c, steps).metadata) == multiset(c.metadata)
    decreases |steps|
  {
    if steps != [] {
      CardStepSettled(c, steps[0]);
      CardsAreSettled(ApplyCard(c, steps[0]), steps[1..]);
    }
  }

  lemma CardStepSettled(c: Cards, s: CardStep)
    requires c.isShuffled
    ensures ApplyCard(c, s).isShuffled
    ensures multiset(ApplyCard(c, s).metadata) == multiset(c.metadata)
  {
    if s.ShuffleResumes? {
      if Shuffled(c.metadata, s.tokens, s.seed).Value? {
        ShuffledPermutes(c.metadata, s.tokens, s.seed);
      }
    }
  }
}
