/** The work loop of a task, CPU path: src/rtgauss.cpp and `Count_Ticks` of src/time_aux.c. */
module RtGauss {
  import opened Common
  import opened LinearAlgebra
  import opened HelloGauss
  import opened GaussMultiply

  const TWO_64: nat := 0x1_0000_0000_0000_0000

  type Word = w: int | 0 <= w < TWO_64

  /** What `gauss_is_eye` accepts: every element within 1e-5 of the identity's. */
  predicate CloseToIdentity(m: Mat, n: nat)
    requires IsMat(m, n, n)
  {
    forall i, j :: 0 <= i < n && 0 <= j < n ==> ElementClose(m, n, i, j)
  }

  predicate ElementClose(m: Mat, n: nat, i: nat, j: nat)
    requires IsMat(m, n, n) && i < n && j < n
  {
    IsEqual(m[i][j], Identity(n)[i][j])
  }

  /** `gauss_is_equal`. */
  predicate IsEqual(x: real, y: real) {
    Abs(x - y) <= 0.00001
  }

  /** That is, from one on the diagonal and from zero elsewhere, in either direction. */
  lemma CloseIsWithin(m: Mat, n: nat)
    requires IsMat(m, n, n)
    ensures CloseToIdentity(m, n) <==> forall i: nat, j: nat :: i < n && j < n ==>
              -0.00001 <= m[i][j] - (if i == j then 1.0 else 0.0) <= 0.00001
  {
    forall i: nat, j: nat | i < n && j < n
      ensures ElementClose(m, n, i, j) <==> -0.00001 <= m[i][j] - (if i == j then 1.0 else 0.0) <= 0.00001
    {
      assert Identity(n)[i][j] == if i == j then 1.0 else 0.0;
    }
  }

  /** `gauss_is_eye`. The C code keeps the expected element in a `bool` and compares that, converted back. */
  method IsEye(input: array<real>, size: nat) returns (valid: bool)
    requires input.Length == size * size
    ensures valid <==> CloseToIdentity(Rows(input[..], size), size)
  {
    valid := true;
    ghost var m := Rows(input[..], size);
    for i := 0 to size
      invariant valid <==> forall r, c :: 0 <= r < i && 0 <= c < size ==> ElementClose(m, size, r, c)
    {
      for j := 0 to size
        invariant valid <==> ((forall r, c :: 0 <= r < i && 0 <= c < size ==> ElementClose(m, size, r, c)) &&
                              (forall c :: 0 <= c < j ==> ElementClose(m, size, i, c)))
      {
        At(input[..], size, i, j);
        var test := i == j;
        var temp := IsEqual(input[i * size + j], if test then 1.0 else 0.0);
        assert temp == ElementClose(m, size, i, j);
        valid := valid && temp;
      }
    }
  }

  /** What one tick adds: 2 when the product looks like the identity, otherwise 1. */
  function Bonus(a: seq<real>, b: seq<real>, n: nat): nat
    requires |a| == |b| == n * n
  {
    if CloseToIdentity(Product(a, b, n), n) then 2 else 1
  }

  /** The sum of `bonus * 2^k` over k below `t`, in 64 bits. */
  function Ticks(bonus: nat, t: nat): Word {
    (bonus * (Pow2(t) - 1)) % TWO_64
  }

  lemma IdentityIsClose(n: nat)
    ensures CloseToIdentity(Identity(n), n)
  {
  }

  /** `task_matrix_data`, the thread's matrices. */
  class MatrixData {
    const size: nat
    const a: array<real>
    const b: array<real>
    const c: array<real>

    ghost predicate Valid() {
      a.Length == b.Length == c.Length == size * size && a != c && b != c
    }

    /** `rtgauss_init`. */
    constructor (size: nat)
      ensures Valid() && fresh(a) && fresh(b) && fresh(c) && this.size == size
      ensures Rows(a[..], size) == Rows(b[..], size) == Rows(c[..], size) == Identity(size)
    {
      this.size := size;
      a, b, c := new real[size * size], new real[size * size], new real[size * size];
      new;
      FillIdentity(a, size);
      FillIdentity(b, size);
      FillIdentity(c, size);
    }

    /** `rtgauss_waste_time` on the CPU. */
    method WasteTime(input: Word) returns (r: Word)
      requires Valid()
      modifies c
      ensures Rows(c[..], size) == Product(a[..], b[..], size)
      ensures r == (input + Bonus(a[..], b[..], size)) % TWO_64
    {
      Multiply(a, b, c, size);
      var result := IsEye(c, size);
      r := (input + if result then 2 else 1) % TWO_64;
    }

    /** `Count_Ticks`. */
    method CountTicks(sheeps: nat) returns (temp: Word)
      requires Valid()
      modifies c
      ensures temp == Ticks(Bonus(a[..], b[..], size), sheeps)
      ensures Rows(c[..], size) == if sheeps == 0 then old(Rows(c[..], size)) else Product(a[..], b[..], size)
    {
      temp := 0;
      ghost var bonus := Bonus(a[..], b[..], size);
      for counted := 0 to sheeps
        invariant a[..] == old(a[..]) && b[..] == old(b[..])
        invariant temp == Ticks(bonus, counted)
        invariant Rows(c[..], size) == if counted == 0 then old(Rows(c[..], size)) else Product(a[..], b[..], size)
      {
        var wasted := WasteTime(temp);
        TickDoubles(bonus, counted, temp, wasted);
        temp := (temp + wasted) % TWO_64;
      }
    }
  }

  /** `temp += waste(temp)` doubles and adds, with every addition wrapping at 64 bits. */
  lemma TickDoubles(bonus: nat, t: nat, temp: Word, wasted: Word)
    requires temp == Ticks(bonus, t) && wasted == (temp + bonus) % TWO_64
    ensures (temp + wasted) % TWO_64 == Ticks(bonus, t + 1)
  {
    var x := bonus * (Pow2(t) - 1);
    assert bonus * (Pow2(t + 1) - 1) == 2 * x + bonus;
    Wraps(x, bonus, temp, wasted);
  }

  lemma Wraps(x: nat, bonus: nat, temp: Word, wasted: Word)
    requires temp == x % TWO_64 && wasted == (temp + bonus) % TWO_64
    ensures (temp + wasted) % TWO_64 == (2 * x + bonus) % TWO_64
  {
    var q, r := x / TWO_64, (temp + bonus) / TWO_64;
    SameRemainder(temp + wasted, 2 * x + bonus, 2 * q + r, TWO_64);
  }

  lemma SameRemainder(a: nat, b: nat, c: nat, d: nat)
    requires d > 0 && b == a + c * d
    ensures b % d == a % d
    decreases c
  {
    if c > 0 {
      assert c * d == (c - 1) * d + d;
      SameRemainder(a, b - d, c - 1, d);
      OneLess(b, d);
    }
  }

  lemma OneLess(b: nat, d: nat)
    requires 0 < d <= b
    ensures b % d == (b - d) % d
  {
    var q, r := (b - d) / d, (b - d) % d;
    assert b == (q + 1) * d + r;
    UniqueRemainder(b, d, q + 1, r);
  }

  lemma UniqueRemainder(b: nat, d: nat, q: nat, r: nat)
    requires b == q * d + r && r < d
    ensures b % d == r
  {
    var p := b / d;
    if p < q {
      MultiplesApart(p, q, d);
    } else if q < p {
      MultiplesApart(q, p, d);
    }
  }

  /** What a task's `loop_body` gets from the matrices of `rtgauss_init`, for any size: the product stays the
      identity, and `t` ticks count `2^(t+1) - 2`. */
  method WorkLoop(size: nat, t: nat) returns (ticks: Word, product: seq<real>)
    ensures ticks == (Pow2(t + 1) - 2) % TWO_64
    ensures |product| == size * size && Rows(product, size) == Identity(size)
  {
    var data := new MatrixData(size);
    MulIdentity(Identity(size), size);
    IdentityIsClose(size);
    ticks := data.CountTicks(t);
    assert Ticks(2, t) == (Pow2(t + 1) - 2) % TWO_64;
    product := data.c[..];
  }

  /** From 63 ticks on the counter no longer depends on the number of ticks. */
  lemma {:induction false} TicksSaturate(t: nat)
    requires t >= 63
    ensures (Pow2(t + 1) - 2) % TWO_64 == TWO_64 - 2
  {
    if t == 63 {
      Pow2Is64();
    } else {
      TicksSaturate(t - 1);
    }
  }

  lemma Pow2Is64()
    ensures Pow2(64) == TWO_64
  {
    assert Pow2(8) == 0x100;
    assert Pow2(16) == 0x1_0000;
    assert Pow2(24) == 0x100_0000;
    assert Pow2(32) == 0x1_0000_0000;
    assert Pow2(40) == 0x100_0000_0000;
    assert Pow2(48) == 0x1_0000_0000_0000;
    assert Pow2(56) == 0x100_0000_0000_0000;
  }
}
