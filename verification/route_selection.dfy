/**
  Weighted choice among the enabled entries of one routing key (`selectRoute`).
  The random number `rand.Intn(n)` becomes an explicit `draw` in `[0, n)`, so the
  choice is a pure function of the weights and the draw.
 */
module RouteSelection {

  /** Sum of the weights; the source's `totalWeight`. */
  function Total(ws: seq<int>): int
  {
    if |ws| == 0 then 0 else Total(ws[..|ws| - 1]) + ws[|ws| - 1]
  }

  /** Running sum of the first `i` weights. */
  function Prefix(ws: seq<int>, i: nat): int
    requires i <= |ws|
  {
    Total(ws[..i])
  }

  /** The exclusive upper bound of the draw: `rand.Intn(len)` when all weights sum to 0, else `rand.Intn(total)`. */
  function DrawBound(ws: seq<int>): int
  {
    if Total(ws) == 0 then |ws| else Total(ws)
  }

  /** The draw is one `rand.Intn` could return; a negative total makes `rand.Intn` panic, so no draw exists. */
  predicate ValidDraw(ws: seq<int>, draw: int)
  {
    |ws| > 0 && Total(ws) >= 0 && 0 <= draw < DrawBound(ws)
  }

  /** Every weight is non-negative (the precondition of the distribution property). */
  predicate NonNegative(ws: seq<int>)
  {
    forall i :: 0 <= i < |ws| ==> ws[i] >= 0
  }

  /** The running sum once entry `j` has been added: the source's `current` after the `j`-th iteration. */
  function Running(ws: seq<int>, j: nat): int
    requires j < |ws|
  {
    Prefix(ws, j + 1)
  }

  lemma PrefixStep(ws: seq<int>, i: nat)
    requires i < |ws|
    ensures Running(ws, i) == Prefix(ws, i) + ws[i]
  {
    assert ws[..i + 1][..i] == ws[..i];
  }

  lemma PrefixAll(ws: seq<int>)
    ensures Prefix(ws, |ws|) == Total(ws)
  {
    assert ws[..|ws|] == ws;
  }

  /**
    The loop `current += route.Weight; if random < current { return route }` resumed at
    index `i` with `current == acc`, after every earlier entry failed the test; running
    off the end yields index 0 (`routes[0]`). The result is the first index at or after
    `i` whose running sum exceeds the draw.
   */
  function Walk(ws: seq<int>, draw: int, i: nat, acc: int): (k: nat)
    requires i <= |ws|
    requires acc == Prefix(ws, i) && acc <= draw
    decreases |ws| - i
    ensures k < |ws| || (k == 0 && |ws| == 0)
    ensures draw < Total(ws) ==> i <= k < |ws| && draw < Running(ws, k)
    ensures draw < Total(ws) ==> forall j :: i <= j < k ==> Running(ws, j) <= draw
    ensures (forall j :: i <= j < |ws| ==> Running(ws, j) <= draw) ==> k == 0
  {
    if i == |ws| then
      PrefixAll(ws);
      0
    else
      PrefixStep(ws, i);
      if draw < acc + ws[i] then i else Walk(ws, draw, i + 1, acc + ws[i])
  }

  /**
    The index `selectRoute` returns. With total 0 it is the uniformly drawn index;
    otherwise it is the first index whose running weight sum exceeds the draw.
   */
  function SelectIndex(ws: seq<int>, draw: int): (k: nat)
    requires ValidDraw(ws, draw)
    ensures k < |ws|
    ensures Total(ws) == 0 ==> k == draw
    ensures Total(ws) > 0 ==> draw < Running(ws, k)
    ensures Total(ws) > 0 ==> forall j :: 0 <= j < k ==> Running(ws, j) <= draw
  {
    assert ws[..0] == [];
    if Total(ws) == 0 then draw else Walk(ws, draw, 0, 0)
  }

  lemma {:induction false} PrefixMonotone(ws: seq<int>, a: nat, b: nat)
    requires NonNegative(ws)
    requires a <= b <= |ws|
    ensures Prefix(ws, a) <= Prefix(ws, b)
    decreases b - a
  {
    if a < b {
      PrefixStep(ws, b - 1);
      PrefixMonotone(ws, a, b - 1);
    }
  }

  /** With non-negative weights, index `i` is chosen exactly by the draws in `[Prefix(i), Running(i))`. */
  lemma SelectedIff(ws: seq<int>, draw: int, i: nat)
    requires NonNegative(ws)
    requires ValidDraw(ws, draw) && Total(ws) > 0
    requires i < |ws|
    ensures SelectIndex(ws, draw) == i <==> Prefix(ws, i) <= draw < Running(ws, i)
  {
    var k := SelectIndex(ws, draw);
    if k == i {
      if i > 0 {
        assert Running(ws, i - 1) <= draw;
      } else {
        assert ws[..0] == [];
      }
    }
    if Prefix(ws, i) <= draw < Running(ws, i) {
      if k < i {
        PrefixMonotone(ws, k + 1, i);
      }
    }
  }

  /** How many of the draws `0, 1, ..., n-1` select index `i`. */
  function CountSelecting(ws: seq<int>, i: nat, n: nat): nat
    requires NonNegative(ws) && Total(ws) > 0
    requires n <= Total(ws)
  {
    if n == 0 then 0
    else CountSelecting(ws, i, n - 1) + (if SelectIndex(ws, n - 1) == i then 1 else 0)
  }

  function Clamp(n: int, lo: int, hi: int): int
  {
    if n < lo then lo else if n > hi then hi else n
  }

  lemma {:induction false} CountSelectingClamp(ws: seq<int>, i: nat, n: nat)
    requires NonNegative(ws) && Total(ws) > 0
    requires n <= Total(ws)
    requires i < |ws|
    ensures CountSelecting(ws, i, n) == Clamp(n, Prefix(ws, i), Running(ws, i)) - Prefix(ws, i)
  {
    PrefixStep(ws, i);
    PrefixMonotone(ws, 0, i);
    assert ws[..0] == [];
    if n > 0 {
      CountSelectingClamp(ws, i, n - 1);
      SelectedIff(ws, n - 1, i);
    }
  }

  /**
    The distribution property: over all `total` equally likely draws, entry `i`
    is selected by exactly `weight_i` of them.
   */
  lemma SelectionFrequency(ws: seq<int>, i: nat)
    requires NonNegative(ws)
    requires Total(ws) > 0
    requires i < |ws|
    ensures CountSelecting(ws, i, Total(ws)) == ws[i]
  {
    CountSelectingClamp(ws, i, Total(ws));
    PrefixStep(ws, i);
    PrefixMonotone(ws, i + 1, |ws|);
    PrefixAll(ws);
  }

  /** With total weight 0 each index is selected by exactly one of the `len` draws. */
  lemma UniformWhenWeightless(ws: seq<int>, i: nat)
    requires |ws| > 0 && Total(ws) == 0
    requires i < |ws|
    ensures (set d | 0 <= d < |ws| && SelectIndex(ws, d) == i) == {i}
  {
  }

  /** Running off the end of the walk (only possible when the draw is not below the total) yields the first entry. */
  lemma FallthroughIsFirst(ws: seq<int>, draw: int)
    requires draw >= 0
    requires forall j :: 0 <= j < |ws| ==> Running(ws, j) <= draw
    ensures Walk(ws, draw, 0, 0) == 0
  {
    assert ws[..0] == [];
  }
}
