/** The seek-label catalog built once when the content script loads (`genLabels`). */
module Labels {

  /** The single character pool both halves of a label are drawn from. */
  const Pool: string := "fjdkslgha;rueiwotyqpvbcnxmz"

  /** Number of labels: every ordered pair of distinct pool characters. */
  const CatalogSize: nat := 27 * 26

  /** Where a character sits in the pool, or -1. */
  function PoolIndex(c: char): int
  {
    match c
    case 'f' => 0 case 'j' => 1 case 'd' => 2 case 'k' => 3 case 's' => 4 case 'l' => 5
    case 'g' => 6 case 'h' => 7 case 'a' => 8 case ';' => 9 case 'r' => 10 case 'u' => 11
    case 'e' => 12 case 'i' => 13 case 'w' => 14 case 'o' => 15 case 't' => 16 case 'y' => 17
    case 'q' => 18 case 'p' => 19 case 'v' => 20 case 'b' => 21 case 'c' => 22 case 'n' => 23
    case 'x' => 24 case 'm' => 25 case 'z' => 26 case _ => -1
  }

  /** The pool has 27 characters, no two alike. */
  lemma PoolFacts()
    ensures |Pool| == 27
    ensures forall i :: 0 <= i < |Pool| ==> PoolIndex(Pool[i]) == i
    ensures forall i, j :: 0 <= i < |Pool| && 0 <= j < |Pool| && i != j ==> Pool[i] != Pool[j]
  {
    assert forall i :: 0 <= i < |Pool| ==> PoolIndex(Pool[i]) == i;
  }

  /** Position, among the second characters paired with `Pool[i]`, of `Pool[j]`:
      the inner loop skips `j == i`, so indices past `i` move down by one. */
  function InnerSlot(i: nat, j: nat): nat
    requires i != j
  {
    if j < i then j else j - 1
  }

  /** The label the nested loops push at position `k`. */
  function LabelAt(k: nat): (l: string)
    requires k < CatalogSize
    ensures |l| == 2
  {
    var i := k / 26;
    var r := k % 26;
    var j := if r < i then r else r + 1;
    [Pool[i], Pool[j]]
  }

  /** The whole catalog, in the order of the outer loop over the first character
      and the inner loop over the second one. */
  function Catalog(): (c: seq<string>)
    ensures |c| == CatalogSize
    ensures forall k :: 0 <= k < CatalogSize ==> c[k] == LabelAt(k)
  {
    seq(CatalogSize, k requires 0 <= k < CatalogSize => LabelAt(k))
  }

  /** The label made of `Pool[i]` then `Pool[j]` sits at position `26 * i + InnerSlot(i, j)`. */
  lemma LabelAtPair(i: nat, j: nat)
    requires i < |Pool| && j < |Pool| && i != j
    ensures 26 * i + InnerSlot(i, j) < CatalogSize
    ensures LabelAt(26 * i + InnerSlot(i, j)) == [Pool[i], Pool[j]]
  {
    PoolFacts();
    var k := 26 * i + InnerSlot(i, j);
    assert k / 26 == i && k % 26 == InnerSlot(i, j) by {
      DivModUnique(k, i, InnerSlot(i, j));
    }
  }

  lemma DivModUnique(k: int, q: int, r: int)
    requires 0 <= r < 26 && k == 26 * q + r
    ensures k / 26 == q && k % 26 == r
  {
  }

  /** `genLabels`: two nested loops over the pool that skip equal characters
      and push each pair, yielding exactly the catalog. */
  method GenLabels() returns (labels: seq<string>)
    ensures labels == Catalog()
  {
    PoolFacts();
    labels := [];
    for i := 0 to |Pool|
      invariant |labels| == 26 * i
      invariant forall k :: 0 <= k < |labels| ==> labels[k] == LabelAt(k)
    {
      for j := 0 to |Pool|
        invariant |labels| == 26 * i + (if j <= i then j else j - 1)
        invariant forall k :: 0 <= k < |labels| ==> labels[k] == LabelAt(k)
      {
        if Pool[i] == Pool[j] {
          continue;
        }
        LabelAtPair(i, j);
        labels := labels + [[Pool[i], Pool[j]]];
      }
    }
  }

  /** Every label is two distinct characters, both from the pool. */
  lemma CatalogShape(k: nat)
    requires k < CatalogSize
    ensures |Catalog()[k]| == 2
    ensures Catalog()[k][0] != Catalog()[k][1]
    ensures Catalog()[k][0] in Pool && Catalog()[k][1] in Pool
  {
    PoolFacts();
  }

  /** No label appears twice: equal labels sit at the same position. */
  lemma CatalogDistinct(k1: nat, k2: nat)
    requires k1 < CatalogSize && k2 < CatalogSize
    ensures Catalog()[k1] == Catalog()[k2] ==> k1 == k2
  {
    PoolFacts();
  }

  /** The catalog entry for the pool positions `i` and `j`. */
  lemma CatalogPair(i: nat, j: nat)
    requires i < |Pool| && j < |Pool| && i != j
    ensures exists k :: 0 <= k < CatalogSize && Catalog()[k] == [Pool[i], Pool[j]]
  {
    LabelAtPair(i, j);
    var k := 26 * i + InnerSlot(i, j);
    assert Catalog()[k] == [Pool[i], Pool[j]];
  }

  /** Every ordered pair of distinct pool characters is a label. */
  lemma CatalogComplete(a: char, b: char)
    requires a in Pool && b in Pool && a != b
    ensures exists k :: 0 <= k < CatalogSize && Catalog()[k] == [a, b]
  {
    PoolMember(a);
    PoolMember(b);
    CatalogPair(PoolIndex(a), PoolIndex(b));
  }

  /** A pool character sits at its `PoolIndex`. */
  lemma PoolMember(c: char)
    requires c in Pool
    ensures 0 <= PoolIndex(c) < |Pool| && Pool[PoolIndex(c)] == c
  {
    PoolFacts();
  }
}
