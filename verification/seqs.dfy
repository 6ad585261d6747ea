/** Sequence helpers: order-preserving selection by flags and first-occurrence
    de-duplication, each with the facts the model needs about them. */
module Seqs {

  /** The elements of `xs` whose flag equals `want`, in their original order. */
  function Select<T>(xs: seq<T>, flags: seq<bool>, want: bool): (r: seq<T>)
    requires |flags| == |xs|
    ensures |r| <= |xs|
    ensures forall y | y in r :: y in xs
    decreases |xs|
  {
    if |xs| == 0 then []
    else if flags[0] == want then [xs[0]] + Select(xs[1..], flags[1..], want)
    else Select(xs[1..], flags[1..], want)
  }

  /** Complementary selections split `xs`: together they hold each element
      exactly as often as `xs` does, so no position is lost or duplicated. */
  lemma {:induction false} SelectPartition<T>(xs: seq<T>, flags: seq<bool>)
    requires |flags| == |xs|
    ensures multiset(Select(xs, flags, false)) + multiset(Select(xs, flags, true)) == multiset(xs)
    ensures |Select(xs, flags, false)| + |Select(xs, flags, true)| == |xs|
    decreases |xs|
  {
    if |xs| > 0 {
      SelectPartition(xs[1..], flags[1..]);
      assert xs == [xs[0]] + xs[1..];
    }
  }

  /** `xs` with every repeated element dropped after its first occurrence. */
  function Dedup<T(==)>(xs: seq<T>): (r: seq<T>)
    ensures forall i, j | 0 <= i < j < |r| :: r[i] != r[j]
    ensures forall i | 0 <= i < |r| :: r[i] in xs
    ensures forall i | 0 <= i < |xs| :: xs[i] in r
    decreases |xs|
  {
    if |xs| == 0 then []
    else
      var d := Dedup(xs[..|xs| - 1]);
      var last := xs[|xs| - 1];
      assert xs == xs[..|xs| - 1] + [last];
      if last in d then d else d + [last]
  }

  /** One step of `Dedup`: a new last element is kept iff it is new. */
  lemma DedupSnoc<T>(xs: seq<T>, x: T)
    ensures Dedup(xs + [x]) == if x in Dedup(xs) then Dedup(xs) else Dedup(xs) + [x]
  {
    assert (xs + [x])[..|xs|] == xs;
  }
}
