/** What several modules need. */
module Common {
  datatype Option<T> = None | Some(value: T)

  const EMI_MAX_MSG: nat := 0xfff

  /** An eu32 that is counted up and down wraps around. */
  const TWO32: nat := 0x1_0000_0000

  function Increment(n: nat): nat { if n + 1 == TWO32 then 0 else n + 1 }

  function Decrement(n: nat): nat { if n == 0 then TWO32 - 1 else n - 1 }

  /** s without its element at place k. */
  function Without<T>(s: seq<T>, k: nat): (r: seq<T>)
    requires k < |s|
    ensures |r| == |s| - 1
    ensures forall i | 0 <= i < |r| :: r[i] == if i < k then s[i] else s[i + 1]
  {
    s[..k] + s[k + 1..]
  }

  function Sum<T>(xs: seq<T>, f: T -> nat): nat {
    if xs == [] then 0 else Sum(xs[..|xs| - 1], f) + f(xs[|xs| - 1])
  }

  lemma {:induction false} SumUpdate<T>(xs: seq<T>, i: nat, y: T, f: T -> nat)
    requires i < |xs|
    ensures Sum(xs[i := y], f) + f(xs[i]) == Sum(xs, f) + f(y)
  {
    var n := |xs| - 1;
    if i == n {
      assert xs[i := y][..n] == xs[..n];
    } else {
      assert xs[i := y][..n] == xs[..n][i := y];
      SumUpdate(xs[..n], i, y, f);
    }
  }

  lemma {:induction false} SumIsZero<T>(xs: seq<T>, f: T -> nat)
    ensures Sum(xs, f) == 0 <==> forall i | 0 <= i < |xs| :: f(xs[i]) == 0
  {
    if xs != [] {
      var n := |xs| - 1;
      SumIsZero(xs[..n], f);
      assert forall i | 0 <= i < n :: xs[..n][i] == xs[i];
    }
  }

  lemma {:induction false} SumIsBounded<T>(xs: seq<T>, f: T -> nat, b: nat)
    requires forall i | 0 <= i < |xs| :: f(xs[i]) <= b
    ensures Sum(xs, f) <= |xs| * b
  {
    if xs != [] {
      var n := |xs| - 1;
      assert forall i | 0 <= i < n :: xs[..n][i] == xs[i];
      SumIsBounded(xs[..n], f, b);
      assert |xs| * b == n * b + b;
    }
  }
}
