/** Small datatypes and facts shared by the modules of the model. */
module Common {
  newtype byte = x: int | 0 <= x < 0x100

  datatype Option<+T> = None | Some(value: T)

  datatype Result<+T, +E> = Ok(value: T) | Err(error: E) {
    predicate IsFailure() { Err? }

    function PropagateFailure<U>(): Result<U, E>
      requires Err?
    {
      Err(error)
    }

    function Extract(): T
      requires Ok?
    {
      value
    }
  }

  function Lookup<K, V>(m: map<K, V>, k: K): Option<V> {
    if k in m then Some(m[k]) else None
  }

  /** A map in which `k` has the content `v`, or is absent when `v` is None. */
  function Put<K, V>(m: map<K, V>, k: K, v: Option<V>): map<K, V> {
    match v
    case Some(x) => m[k := x]
    case None => m - {k}
  }

  lemma {:induction false} PutAt<K, V>(m: map<K, V>, k: K, v: Option<V>, q: K)
    ensures Lookup(Put(m, k, v), q) == if q == k then v else Lookup(m, q)
  {
  }

  lemma {:induction false} SameLookups<K(!new), V>(a: map<K, V>, b: map<K, V>)
    requires forall k :: Lookup(a, k) == Lookup(b, k)
    ensures a == b
  {
    assert forall k :: k in a <==> k in b by {
      forall k ensures k in a <==> k in b { assert Lookup(a, k) == Lookup(b, k); }
    }
    forall k | k in a ensures a[k] == b[k] { assert Lookup(a, k) == Lookup(b, k); }
  }

  function LowerChar(c: char): char {
    if 'A' <= c <= 'Z' then (c as int + 32) as char else c
  }

  /** ASCII case folding of a name. */
  function Lower(s: string): (r: string)
    ensures |r| == |s|
  {
    seq(|s|, i requires 0 <= i < |s| => LowerChar(s[i]))
  }

  function Min(a: int, b: int): int { if a <= b then a else b }

  function Max(a: int, b: int): int { if a >= b then a else b }

  // ----- division -----

  lemma {:induction false} MulMonotone(a: int, b: int, u: nat)
    requires a <= b
    ensures a * u <= b * u
  {
  }

  lemma {:induction false} DivUnique(x: int, d: nat, q: int, m: nat)
    requires m < d && x == q * d + m
    ensures x / d == q && x % d == m
  {
    var k := x / d - q;
    assert k * d == m - x % d by {
      assert x == (x / d) * d + x % d;
      assert (x / d - q) * d == (x / d) * d - q * d;
    }
    if k >= 1 { MulMonotone(1, k, d); }
    if k <= -1 { MulMonotone(k, -1, d); }
  }

  lemma {:induction false} DivMonotone(a: int, b: int, d: nat)
    requires a <= b && d > 0
    ensures a / d <= b / d
  {
    if a / d > b / d { MulMonotone(b / d + 1, a / d, d); }
  }

  lemma {:induction false} DivBelow(b: nat, n: nat, d: nat)
    requires d > 0 && b < n * d
    ensures b / d < n
  {
    if b / d >= n { MulMonotone(n, b / d, d); }
  }

  lemma {:induction false} MulAdd(a: int, b: int, u: int)
    ensures (a + b) * u == a * u + b * u
  {
  }

  lemma {:induction false} MulAssoc(a: int, b: int, c: int)
    ensures a * b * c == a * (b * c)
  {
  }

  /** Position `x` lies in the blocks `v..v + n` of size `u` exactly when its block does. */
  lemma {:induction false} BlockOf(v: nat, n: nat, u: nat, x: nat)
    requires u > 0
    ensures v * u <= x < (v + n) * u <==> v <= x / u < v + n
    ensures x == (x / u) * u + x % u
  {
    var b := x / u;
    MulAdd(b, 1, u);
    if b < v { MulMonotone(b + 1, v, u); } else { MulMonotone(v, b, u); }
    if b < v + n { MulMonotone(b + 1, v + n, u); } else { MulMonotone(v + n, b, u); }
  }

  /** A position split by two block sizes, one a multiple of the other. */
  lemma {:induction false} SplitTwice(x: nat, k: nat, u: nat)
    requires k > 0 && u > 0
    ensures var m := (x / u % k) * u + x % u;
            m < k * u && x == (x / u / k) * (k * u) + m
  {
    var b := x / u;
    var i, r := b / k, b % k;
    assert b == i * k + r;
    MulAdd(i * k, r, u);
    MulAssoc(i, k, u);
    MulMonotone(r + 1, k, u);
    MulAdd(r, 1, u);
  }
}
