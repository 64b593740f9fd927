/** Liquidity pairs as the router sees them (`pair.model.ts`). */
module Pairs {
  import opened PairUtils

  type Token = string

  datatype EsdtToken = EsdtToken(identifier: Token, decimals: nat)

  datatype PairModel = PairModel(
    address: string,
    firstToken: EsdtToken,
    secondToken: EsdtToken,
    reserves0: nat,
    reserves1: nat,
    totalFee: Fee
  )

  /** The pair trades a against b, in either orientation. */
  predicate Joins(pair: PairModel, a: Token, b: Token) {
    || (a == pair.firstToken.identifier && b == pair.secondToken.identifier)
    || (a == pair.secondToken.identifier && b == pair.firstToken.identifier)
  }

  predicate Joined(pairs: seq<PairModel>, a: Token, b: Token) {
    exists pair :: pair in pairs && Joins(pair, a, b)
  }

  /** How many pairs trade a against b. */
  function JoinCount(pairs: seq<PairModel>, a: Token, b: Token): nat {
    if pairs == [] then 0
    else JoinCount(pairs[..|pairs| - 1], a, b) + if Joins(pairs[|pairs| - 1], a, b) then 1 else 0
  }

  /** Where the list has a pair that trades a against b. */
  function Positions(pairs: seq<PairModel>, a: Token, b: Token): set<int> {
    set i | 0 <= i < |pairs| && Joins(pairs[i], a, b)
  }

  lemma {:induction false} JoinCountIsCardinality(pairs: seq<PairModel>, a: Token, b: Token)
    ensures JoinCount(pairs, a, b) == |Positions(pairs, a, b)|
  {
    if pairs != [] {
      var n := |pairs| - 1;
      JoinCountIsCardinality(pairs[..n], a, b);
      var before := Positions(pairs[..n], a, b);
      assert Positions(pairs, a, b) == if Joins(pairs[n], a, b) then before + {n} else before;
    }
  }

  lemma JoinCountPositive(pairs: seq<PairModel>, a: Token, b: Token)
    ensures JoinCount(pairs, a, b) > 0 <==> Joined(pairs, a, b)
  {
    if pairs != [] {
      var init, pair := pairs[..|pairs| - 1], pairs[|pairs| - 1];
      JoinCountPositive(init, a, b);
      assert pairs == init + [pair];
      if Joined(init, a, b) {
        var p :| p in init && Joins(p, a, b);
        assert p in pairs;
      }
    }
  }

  /** No two pairs trade the same two tokens. */
  ghost predicate OnePairPerMarket(pairs: seq<PairModel>) {
    forall i, j, a, b {:trigger Joins(pairs[i], a, b), Joins(pairs[j], a, b)} ::
      0 <= i < j < |pairs| && Joins(pairs[i], a, b) ==> !Joins(pairs[j], a, b)
  }

  lemma JoinCountAtMostOne(pairs: seq<PairModel>, a: Token, b: Token)
    requires OnePairPerMarket(pairs)
    ensures JoinCount(pairs, a, b) <= 1
  {
    if pairs != [] {
      var n := |pairs| - 1;
      assert OnePairPerMarket(pairs[..n]);
      JoinCountAtMostOne(pairs[..n], a, b);
      if JoinCount(pairs[..n], a, b) > 0 {
        JoinCountPositive(pairs[..n], a, b);
        var pair :| pair in pairs[..n] && Joins(pair, a, b);
        var i :| 0 <= i < n && pairs[i] == pair;
        assert Joins(pairs[i], a, b);
      }
    }
  }
}
