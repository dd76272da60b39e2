/** Real vectors and matrices as sequences. Arithmetic is exact. */
module Vectors {

  type Vec = seq<real>
  type Mat = seq<Vec>

  function Zeros(n: nat): (v: Vec)
    ensures |v| == n
  {
    seq(n, _ => 0.0)
  }

  function Ones(n: nat): (v: Vec)
    ensures |v| == n
  {
    seq(n, _ => 1.0)
  }

  function Add(a: Vec, b: Vec): (c: Vec)
    requires |a| == |b|
    ensures |c| == |a|
  {
    seq(|a|, i requires 0 <= i < |a| => a[i] + b[i])
  }

  function Total(a: Vec): real
  {
    if |a| == 0 then 0.0 else Total(a[..|a| - 1]) + a[|a| - 1]
  }

  function ProductOf(a: Vec): real
  {
    if |a| == 0 then 1.0 else ProductOf(a[..|a| - 1]) * a[|a| - 1]
  }

  lemma TotalSnoc(v: Vec, x: real)
    ensures Total([]) == 0.0 && Total(v + [x]) == Total(v) + x
  {
    assert (v + [x])[..|v|] == v;
  }

  lemma ProductSnoc(v: Vec, x: real)
    ensures ProductOf([]) == 1.0 && ProductOf(v + [x]) == ProductOf(v) * x
  {
    assert (v + [x])[..|v|] == v;
  }

  ghost predicate IsMat(m: Mat, rows: nat, cols: nat)
  {
    |m| == rows && forall i :: 0 <= i < rows ==> |m[i]| == cols
  }

  lemma AddZero(a: Vec)
    ensures Add(a, Zeros(|a|)) == a && Add(Zeros(|a|), a) == a
  {
  }

  lemma AddAssoc(a: Vec, b: Vec, c: Vec)
    requires |a| == |b| == |c|
    ensures Add(Add(a, b), c) == Add(a, Add(b, c))
  {
  }

  lemma AddSwap(a: Vec, b: Vec, c: Vec)
    requires |a| == |b| == |c|
    ensures Add(Add(a, b), c) == Add(Add(a, c), b)
  {
  }
}
