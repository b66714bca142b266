/**
 Even and pair sub-communicators of a node whose cards hold P ranks each: rank r has the intra-card
 colour r / P and the inter-card colour r % P. A node rank is put together again from the two
 sub-communicator ranks (src/comm/mt_comm.cpp, src/MT/shared_resource.hpp).
 */
module NodeRank {
  import opened Basics
  import opened SubComm

  /** `get_node_rank`. */
  function GetNodeRank(evenRank: nat, pairRank: nat, pairCommSize: nat): nat {
    evenRank * pairCommSize + pairRank
  }

  function InterColors(size: nat, perCard: nat): seq<int>
    requires 0 < perCard
  {
    seq(size, r requires 0 <= r => r % perCard)
  }

  function IntraColors(size: nat, perCard: nat): seq<int>
    requires 0 < perCard
  {
    seq(size, r requires 0 <= r => r / perCard)
  }

  /** Rank in the even communicator, the split by inter-card colour. */
  function EvenRank(size: nat, perCard: nat, r: nat): nat
    requires 0 < perCard && r < size
  {
    ClassRank(InterColors(size, perCard), r)
  }

  /** Rank in the pair communicator, the split by intra-card colour, and that communicator's size. */
  function PairRank(size: nat, perCard: nat, r: nat): nat
    requires 0 < perCard && r < size
  {
    ClassRank(IntraColors(size, perCard), r)
  }

  function PairSize(size: nat, perCard: nat, r: nat): nat
    requires 0 < perCard && r < size
  {
    |Members(IntraColors(size, perCard), r / perCard)|
  }

  lemma CardAndSlot(card: nat, slot: nat, perCard: nat)
    requires slot < perCard
    ensures (card * perCard + slot) / perCard == card && (card * perCard + slot) % perCard == slot
  {
    var n := card * perCard + slot;
    var d := n / perCard - card;
    assert perCard * d == slot - n % perCard;
    MultipleWithin(perCard, d);
  }

  /** Of the first card * P + slot ranks, one per full card shares an inter-card colour, plus one on the last card. */
  lemma {:induction false} CountInter(card: nat, slot: nat, perCard: nat, c: nat)
    requires slot < perCard && c < perCard
    ensures |Members(InterColors(card * perCard + slot, perCard), c)| == card + if c < slot then 1 else 0
    decreases card, slot
  {
    var n := card * perCard + slot;
    if slot > 0 {
      CountInter(card, slot - 1, perCard, c);
      CardAndSlot(card, slot - 1, perCard);
      assert InterColors(n, perCard)[..n - 1] == InterColors(n - 1, perCard);
    } else if card > 0 {
      assert (card - 1) * perCard + (perCard - 1) == n - 1;
      CountInter(card - 1, perCard - 1, perCard, c);
      CardAndSlot(card - 1, perCard - 1, perCard);
      assert InterColors(n, perCard)[..n - 1] == InterColors(n - 1, perCard);
    }
  }

  /** Of the first card * P + slot ranks, P are on each full card and `slot` on the last. */
  lemma {:induction false} CountIntra(card: nat, slot: nat, perCard: nat, c: nat)
    requires slot < perCard
    ensures |Members(IntraColors(card * perCard + slot, perCard), c)|
            == if c < card then perCard else if c == card then slot else 0
    decreases card, slot
  {
    var n := card * perCard + slot;
    if slot > 0 {
      CountIntra(card, slot - 1, perCard, c);
      CardAndSlot(card, slot - 1, perCard);
      assert IntraColors(n, perCard)[..n - 1] == IntraColors(n - 1, perCard);
    } else if card > 0 {
      assert (card - 1) * perCard + (perCard - 1) == n - 1;
      CountIntra(card - 1, perCard - 1, perCard, c);
      CardAndSlot(card - 1, perCard - 1, perCard);
      assert IntraColors(n, perCard)[..n - 1] == IntraColors(n - 1, perCard);
    }
  }

  /** A rank on card `card` is on one of the `cards` full cards or on the last, partly filled one. */
  lemma CardOrder(cards: nat, rest: nat, perCard: nat, card: nat, slot: nat)
    requires rest < perCard && card * perCard + slot < cards * perCard + rest
    ensures card <= cards && (card == cards ==> slot < rest)
  {
    assert perCard * (card - cards) < rest - slot;
    MultipleWithin(perCard, card - cards);
  }

  /**
   On a node of `cards` full cards and `rest` further ranks, the rank in slot `slot` of card `card` has the
   card as its even rank and the slot as its pair rank.
   */
  lemma SubRanks(cards: nat, rest: nat, perCard: nat, card: nat, slot: nat)
    requires rest < perCard && slot < perCard && card * perCard + slot < cards * perCard + rest
    ensures var size, r := cards * perCard + rest, card * perCard + slot;
            && EvenRank(size, perCard, r) == card && PairRank(size, perCard, r) == slot
            && PairSize(size, perCard, r) == if card < cards then perCard else rest
  {
    var size, r := cards * perCard + rest, card * perCard + slot;
    CardAndSlot(card, slot, perCard);
    assert InterColors(size, perCard)[..r] == InterColors(r, perCard);
    assert IntraColors(size, perCard)[..r] == IntraColors(r, perCard);
    assert InterColors(size, perCard)[r] == slot && IntraColors(size, perCard)[r] == card;
    CountInter(card, slot, perCard, slot);
    CountIntra(card, slot, perCard, card);
    CountIntra(cards, rest, perCard, card);
    CardOrder(cards, rest, perCard, card, slot);
  }

  /** The node rank comes back exactly on full cards and on the first card. */
  lemma NodeRankRoundTripIff(cards: nat, rest: nat, perCard: nat, card: nat, slot: nat)
    requires rest < perCard && slot < perCard && card * perCard + slot < cards * perCard + rest
    ensures var size, r := cards * perCard + rest, card * perCard + slot;
            GetNodeRank(EvenRank(size, perCard, r), PairRank(size, perCard, r), PairSize(size, perCard, r)) == r
            <==> card < cards || card == 0
  {
    SubRanks(cards, rest, perCard, card, slot);
    CardOrder(cards, rest, perCard, card, slot);
    if card == cards && card != 0 {
      assert card * perCard - card * rest == card * (perCard - rest);
      MultipleWithin(card, perCard - rest);
    }
  }

  /** With P dividing the node size every rank's node rank is that rank again. */
  lemma NodeRankRoundTrip(cards: nat, perCard: nat, r: nat)
    requires 0 < perCard && r < cards * perCard
    ensures var size := cards * perCard;
            GetNodeRank(EvenRank(size, perCard, r), PairRank(size, perCard, r), PairSize(size, perCard, r)) == r
  {
    var card, slot := r / perCard, r % perCard;
    assert card * perCard + slot == r;
    CardOrder(cards, 0, perCard, card, slot);
    NodeRankRoundTripIff(cards, 0, perCard, card, slot);
  }
}
