/**
 * Playing cards, the card order `CardSet.Less` and the sort that the hand
 * evaluator applies before it looks at a hand.
 */
module Cards {

  // Suits.
  const Diamonds := 0
  const Hearts := 1
  const Clubs := 2
  const Spades := 3

  // Ranks above ten.
  const Jack := 11
  const Queen := 12
  const King := 13
  const Ace := 14

  /** A card: suit 0..3, rank 2..14 (11..14 are Jack, Queen, King, Ace). */
  datatype PokerCard = PokerCard(suit: int, rank: int)

  predicate ValidCard(c: PokerCard)
  {
    Diamonds <= c.suit <= Spades && 2 <= c.rank <= Ace
  }

  /**
   * `CardSet.Less`: by rank, and by suit between cards of equal rank, so the
   * lesser card never has the higher rank.
   */
  function CardLess(a: PokerCard, b: PokerCard): (r: bool)
    ensures r ==> a.rank <= b.rank
  {
    if a.rank == b.rank then a.suit < b.suit else a.rank < b.rank
  }

  /** `CardLess` is a strict total order: irreflexive, transitive, and any two different cards are comparable. */
  lemma CardLessStrictTotal(a: PokerCard, b: PokerCard, c: PokerCard)
    ensures !CardLess(a, a)
    ensures CardLess(a, b) ==> !CardLess(b, a)
    ensures CardLess(a, b) && CardLess(b, c) ==> CardLess(a, c)
    ensures a != b ==> CardLess(a, b) || CardLess(b, a)
    ensures !CardLess(a, b) && !CardLess(b, a) ==> a == b
  {
  }

  /** On valid cards `CardLess` is the order of the card codes `4 * rank + suit`. */
  lemma CardLessByCode(a: PokerCard, b: PokerCard)
    requires ValidCard(a) && ValidCard(b)
    ensures CardLess(a, b) <==> 4 * a.rank + a.suit < 4 * b.rank + b.suit
  {
  }

  /** `sort.IsSorted`: no card is less than the card before it. */
  predicate Sorted(s: seq<PokerCard>)
  {
    forall i :: 0 < i < |s| ==> !CardLess(s[i], s[i - 1])
  }

  /** Pairwise form of `Sorted`; ranks never decrease along a sorted sequence. */
  predicate SortedPairwise(s: seq<PokerCard>)
  {
    forall i, j :: 0 <= i < j < |s| ==> !CardLess(s[j], s[i]) && s[i].rank <= s[j].rank
  }

  lemma {:induction false} SortedIsPairwise(s: seq<PokerCard>)
    requires Sorted(s)
    ensures SortedPairwise(s)
  {
    if |s| > 1 {
      SortedIsPairwise(s[1..]);
      assert SortedPairwise(s[1..]);
      forall j | 0 < j < |s|
        ensures !CardLess(s[j], s[0]) && s[0].rank <= s[j].rank
      {
        if j > 1 {
          assert !CardLess(s[j], s[1]) && s[1].rank <= s[j].rank by {
            assert s[1..][0] == s[1] && s[1..][j - 1] == s[j];
          }
          CardLessStrictTotal(s[0], s[1], s[j]);
          CardLessStrictTotal(s[j], s[0], s[1]);
        }
      }
      forall i, j | 0 < i < j < |s|
        ensures !CardLess(s[j], s[i]) && s[i].rank <= s[j].rank
      {
        assert s[1..][i - 1] == s[i] && s[1..][j - 1] == s[j];
      }
    }
  }

  /** Every sub-sequence picked at increasing positions of a sorted sequence is sorted. */
  lemma SortedSelect(s: seq<PokerCard>, idx: seq<int>)
    requires Sorted(s)
    requires forall k :: 0 <= k < |idx| ==> 0 <= idx[k] < |s|
    requires forall k :: 0 < k < |idx| ==> idx[k - 1] < idx[k]
    ensures Sorted(seq(|idx|, k requires 0 <= k < |idx| => s[idx[k]]))
  {
    SortedIsPairwise(s);
  }

  /** Inserts `c` before the first card that is not less than it. */
  function Insert(c: PokerCard, s: seq<PokerCard>): (r: seq<PokerCard>)
    requires Sorted(s)
    ensures Sorted(r)
    ensures multiset(r) == multiset(s) + multiset{c} && |r| == |s| + 1
    ensures r[0] == c || (|s| > 0 && r[0] == s[0])
  {
    if |s| == 0 then [c]
    else if !CardLess(s[0], c) then [c] + s
    else
      CardLessStrictTotal(s[0], c, c);
      assert s == [s[0]] + s[1..];
      [s[0]] + Insert(c, s[1..])
  }

  /** Model of `sort.Sort` on a `CardSet`: a sorted permutation of the input. */
  function SortCards(s: seq<PokerCard>): (r: seq<PokerCard>)
    ensures Sorted(r)
    ensures multiset(r) == multiset(s) && |r| == |s|
  {
    if |s| == 0 then []
    else
      assert s == [s[0]] + s[1..];
      Insert(s[0], SortCards(s[1..]))
  }

  lemma {:induction false} SortedFirstIsLeast(s: seq<PokerCard>, x: PokerCard)
    requires Sorted(s) && x in multiset(s)
    ensures !CardLess(x, s[0])
  {
    SortedIsPairwise(s);
    var k :| 0 <= k < |s| && s[k] == x;
    if k > 0 {
      assert !CardLess(s[k], s[0]);
    }
  }

  /**
   * The sorted arrangement of a collection of cards is unique, so any sorting
   * routine gives the same `CardSet`.
   */
  lemma {:induction false} SortedUnique(a: seq<PokerCard>, b: seq<PokerCard>)
    requires Sorted(a) && Sorted(b)
    requires multiset(a) == multiset(b)
    ensures a == b
  {
    if |a| > 0 {
      assert a[0] in multiset(a);
      assert |b| > 0 by {
        assert |multiset(b)| == |b|;
      }
      assert b[0] in multiset(b);
      SortedFirstIsLeast(a, b[0]);
      SortedFirstIsLeast(b, a[0]);
      CardLessStrictTotal(a[0], b[0], b[0]);
      assert a[0] == b[0];
      assert a == [a[0]] + a[1..];
      assert b == [b[0]] + b[1..];
      assert multiset(a[1..]) == multiset(b[1..]) by {
        assert multiset(a) == multiset{a[0]} + multiset(a[1..]);
        assert multiset(b) == multiset{b[0]} + multiset(b[1..]);
        assert multiset(a[1..]) == multiset(a) - multiset{a[0]};
        assert multiset(b[1..]) == multiset(b) - multiset{b[0]};
      }
      SortedUnique(a[1..], b[1..]);
    } else {
      assert |multiset(b)| == |b|;
    }
  }

  /** Sorting depends only on the collection of cards, not on the order in which they were gathered. */
  lemma SortCardsCanonical(s: seq<PokerCard>, t: seq<PokerCard>)
    requires multiset(s) == multiset(t)
    ensures SortCards(s) == SortCards(t)
  {
    SortedUnique(SortCards(s), SortCards(t));
  }
}
