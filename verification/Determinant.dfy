/** 4x4 matrices over exact reals: products, the determinant as an alternating form linear in each row,
    and the inverse by cofactors, shown to be the inverse on both sides. */
module Determinant {

  datatype Vec = Vec(x: real, y: real, z: real, w: real)

  datatype Mat = Mat(a: Vec, b: Vec, c: Vec, d: Vec)
  {
    function Row(i: nat): Vec
      requires i < 4
    {
      if i == 0 then a else if i == 1 then b else if i == 2 then c else d
    }

    function Set(i: nat, v: Vec): Mat
      requires i < 4
    {
      if i == 0 then Mat(v, b, c, d) else if i == 1 then Mat(a, v, c, d)
      else if i == 2 then Mat(a, b, v, d) else Mat(a, b, c, v)
    }

    function Transposed(): Mat {
      Mat(Vec(a.x, b.x, c.x, d.x), Vec(a.y, b.y, c.y, d.y), Vec(a.z, b.z, c.z, d.z), Vec(a.w, b.w, c.w, d.w))
    }
  }

  // ---------- vectors and products ----------

  function Dot(u: Vec, v: Vec): real { u.x * v.x + u.y * v.y + u.z * v.z + u.w * v.w }

  function Scale(u: Vec, k: real): Vec { Vec(u.x * k, u.y * k, u.z * k, u.w * k) }

  /** u - k v */
  function Minus(u: Vec, v: Vec, k: real): Vec { Vec(u.x - v.x * k, u.y - v.y * k, u.z - v.z * k, u.w - v.w * k) }

  function Unit(i: nat): Vec
    requires i < 4
  {
    Vec(if i == 0 then 1.0 else 0.0, if i == 1 then 1.0 else 0.0,
        if i == 2 then 1.0 else 0.0, if i == 3 then 1.0 else 0.0)
  }

  function Identity(): Mat { Mat(Unit(0), Unit(1), Unit(2), Unit(3)) }

  /** Matrix times column vector. */
  function Apply(m: Mat, v: Vec): Vec { Vec(Dot(m.a, v), Dot(m.b, v), Dot(m.c, v), Dot(m.d, v)) }

  /** Row vector times matrix. */
  function Times(u: Vec, m: Mat): Vec {
    var t := m.Transposed();
    Vec(Dot(u, t.a), Dot(u, t.b), Dot(u, t.c), Dot(u, t.d))
  }

  function Product(m: Mat, n: Mat): Mat { Mat(Times(m.a, n), Times(m.b, n), Times(m.c, n), Times(m.d, n)) }

  lemma DotScale(u: Vec, k: real, v: Vec)
    ensures Dot(Scale(u, k), v) == Dot(u, v) * k
  {}

  lemma DotMinus(u: Vec, t: Vec, k: real, v: Vec)
    ensures Dot(Minus(u, t, k), v) == Dot(u, v) - Dot(t, v) * k
  {}

  lemma TimesScale(u: Vec, k: real, m: Mat)
    ensures Times(Scale(u, k), m) == Scale(Times(u, m), k)
  {
    hide Dot, Scale;
    var t := m.Transposed();
    DotScale(u, k, t.a);
    DotScale(u, k, t.b);
    DotScale(u, k, t.c);
    DotScale(u, k, t.d);
    ScaleIs(Times(u, m), k, Times(Scale(u, k), m));
  }

  lemma ScaleIs(u: Vec, k: real, r: Vec)
    requires r.x == u.x * k && r.y == u.y * k && r.z == u.z * k && r.w == u.w * k
    ensures r == Scale(u, k)
  {}

  lemma TimesMinus(u: Vec, v: Vec, k: real, m: Mat)
    ensures Times(Minus(u, v, k), m) == Minus(Times(u, m), Times(v, m), k)
  {
    hide Dot, Minus;
    var t := m.Transposed();
    DotMinus(u, v, k, t.a);
    DotMinus(u, v, k, t.b);
    DotMinus(u, v, k, t.c);
    DotMinus(u, v, k, t.d);
    MinusIs(Times(u, m), Times(v, m), k, Times(Minus(u, v, k), m));
  }

  lemma MinusIs(u: Vec, v: Vec, k: real, r: Vec)
    requires r.x == u.x - v.x * k && r.y == u.y - v.y * k && r.z == u.z - v.z * k && r.w == u.w - v.w * k
    ensures r == Minus(u, v, k)
  {}

  function Sum(p: real, q: real, r: real, s: real): real { p + q + r + s }

  /** One row's share of u m v, and one column's. */
  lemma RowShare(k: real, m: Vec, v: Vec)
    ensures k * Dot(m, v) == Sum(k * m.x * v.x, k * m.y * v.y, k * m.z * v.z, k * m.w * v.w)
  {}

  lemma ColumnShare(u: Vec, p: real, q: real, r: real, s: real, k: real)
    ensures Dot(u, Vec(p, q, r, s)) * k == Sum(u.x * p * k, u.y * q * k, u.z * r * k, u.w * s * k)
  {}

  lemma DotOf(p: real, q: real, r: real, s: real, v: Vec)
    ensures Dot(Vec(p, q, r, s), v) == Sum(p * v.x, q * v.y, r * v.z, s * v.w)
    ensures Dot(v, Vec(p, q, r, s)) == Sum(v.x * p, v.y * q, v.z * r, v.w * s)
  {}

  lemma DotTimes(u: Vec, m: Mat, v: Vec)
    ensures Dot(Times(u, m), v) == Dot(u, Apply(m, v))
  {
    hide Dot;
    var (a, b, c, d) := (m.a, m.b, m.c, m.d);
    ColumnShare(u, a.x, b.x, c.x, d.x, v.x);
    ColumnShare(u, a.y, b.y, c.y, d.y, v.y);
    ColumnShare(u, a.z, b.z, c.z, d.z, v.z);
    ColumnShare(u, a.w, b.w, c.w, d.w, v.w);
    RowShare(u.x, a, v);
    RowShare(u.y, b, v);
    RowShare(u.z, c, v);
    RowShare(u.w, d, v);
    DotOf(Dot(u, Vec(a.x, b.x, c.x, d.x)), Dot(u, Vec(a.y, b.y, c.y, d.y)),
          Dot(u, Vec(a.z, b.z, c.z, d.z)), Dot(u, Vec(a.w, b.w, c.w, d.w)), v);
    DotOf(Dot(a, v), Dot(b, v), Dot(c, v), Dot(d, v), u);
  }

  lemma TimesProduct(u: Vec, m: Mat, n: Mat)
    ensures Times(Times(u, m), n) == Times(u, Product(m, n))
  {
    hide Dot;
    var t := n.Transposed();
    DotTimes(u, m, t.a);
    DotTimes(u, m, t.b);
    DotTimes(u, m, t.c);
    DotTimes(u, m, t.d);
  }

  lemma TimesUnit(i: nat, m: Mat)
    requires i < 4
    ensures Times(Unit(i), m) == m.Row(i)
  {}

  lemma TimesIdentity(u: Vec)
    ensures Times(u, Identity()) == u
  {}

  /** A left inverse and a right inverse are the same matrix. */
  lemma LeftIsRight(b: Mat, p: Mat, a: Mat)
    requires Product(b, p) == Identity() && Product(p, a) == Identity()
    ensures b == a
  {
    hide Times;
    forall i: nat | i < 4 ensures b.Row(i) == a.Row(i) {
      TimesIdentity(b.Row(i));
      TimesProduct(b.Row(i), p, a);
      TimesUnit(i, a);
    }
    assert b.Row(0) == a.Row(0) && b.Row(1) == a.Row(1) && b.Row(2) == a.Row(2) && b.Row(3) == a.Row(3);
  }

  // ---------- the determinant ----------

  function Minor(p: real, q: real, r: real, s: real): real { p * q - r * s }

  function Det3(p: real, q: real, r: real, s: real, t: real, u: real, v: real, w: real, x: real): real {
    p * (t * x - u * w) - q * (s * x - u * v) + r * (s * w - t * v)
  }

  /** The signed 3x3 minors of three rows: the vector orthogonal to all of them. */
  function Cross(u: Vec, v: Vec, w: Vec): Vec {
    Vec(Det3(u.y, u.z, u.w, v.y, v.z, v.w, w.y, w.z, w.w),
        -Det3(u.x, u.z, u.w, v.x, v.z, v.w, w.x, w.z, w.w),
        Det3(u.x, u.y, u.w, v.x, v.y, v.w, w.x, w.y, w.w),
        -Det3(u.x, u.y, u.z, v.x, v.y, v.z, w.x, w.y, w.z))
  }

  /** The determinant by expansion along the first row. */
  function Det(m: Mat): real { Dot(m.a, Cross(m.b, m.c, m.d)) }

  lemma Det3Swaps(p: real, q: real, r: real, s: real, t: real, u: real, v: real, w: real, x: real)
    ensures Det3(p, q, r, s, t, u, v, w, x) == -Det3(s, t, u, p, q, r, v, w, x)
    ensures Det3(p, q, r, s, t, u, v, w, x) == -Det3(p, q, r, v, w, x, s, t, u)
    ensures Det3(p, q, r, s, t, u, v, w, x) == Det3(p, s, v, q, t, w, r, u, x)
  {}

  lemma DotNegated(u: Vec, v: Vec, w: Vec)
    requires v.x == -w.x && v.y == -w.y && v.z == -w.z && v.w == -w.w
    ensures Dot(u, v) == -Dot(u, w)
  {}

  lemma SwapLast(a: Vec, b: Vec, c: Vec, d: Vec)
    ensures Det(Mat(a, b, d, c)) == -Det(Mat(a, b, c, d))
  {
    hide Det3, Dot;
    Det3Swaps(b.y, b.z, b.w, c.y, c.z, c.w, d.y, d.z, d.w);
    Det3Swaps(b.x, b.z, b.w, c.x, c.z, c.w, d.x, d.z, d.w);
    Det3Swaps(b.x, b.y, b.w, c.x, c.y, c.w, d.x, d.y, d.w);
    Det3Swaps(b.x, b.y, b.z, c.x, c.y, c.z, d.x, d.y, d.z);
    DotNegated(a, Cross(b, d, c), Cross(b, c, d));
  }

  lemma SwapMiddle(a: Vec, b: Vec, c: Vec, d: Vec)
    ensures Det(Mat(a, c, b, d)) == -Det(Mat(a, b, c, d))
  {
    hide Det3, Dot;
    Det3Swaps(b.y, b.z, b.w, c.y, c.z, c.w, d.y, d.z, d.w);
    Det3Swaps(b.x, b.z, b.w, c.x, c.z, c.w, d.x, d.z, d.w);
    Det3Swaps(b.x, b.y, b.w, c.x, c.y, c.w, d.x, d.y, d.w);
    Det3Swaps(b.x, b.y, b.z, c.x, c.y, c.z, d.x, d.y, d.z);
    DotNegated(a, Cross(c, b, d), Cross(b, c, d));
  }

  lemma Det3Minors(u: Vec, c: Vec, d: Vec)
    ensures Det3(u.y, u.z, u.w, c.y, c.z, c.w, d.y, d.z, d.w)
            == u.y * Minor(c.z, d.w, c.w, d.z) - u.z * Minor(c.y, d.w, c.w, d.y) + u.w * Minor(c.y, d.z, c.z, d.y)
    ensures Det3(u.x, u.z, u.w, c.x, c.z, c.w, d.x, d.z, d.w)
            == u.x * Minor(c.z, d.w, c.w, d.z) - u.z * Minor(c.x, d.w, c.w, d.x) + u.w * Minor(c.x, d.z, c.z, d.x)
    ensures Det3(u.x, u.y, u.w, c.x, c.y, c.w, d.x, d.y, d.w)
            == u.x * Minor(c.y, d.w, c.w, d.y) - u.y * Minor(c.x, d.w, c.w, d.x) + u.w * Minor(c.x, d.y, c.y, d.x)
    ensures Det3(u.x, u.y, u.z, c.x, c.y, c.z, d.x, d.y, d.z)
            == u.x * Minor(c.y, d.z, c.z, d.y) - u.y * Minor(c.x, d.z, c.z, d.x) + u.z * Minor(c.x, d.y, c.y, d.x)
  {}

  lemma SwapFirst(a: Vec, b: Vec, c: Vec, d: Vec)
    ensures Det(Mat(b, a, c, d)) == -Det(Mat(a, b, c, d))
  {
    hide Det3, Minor;
    Det3Minors(a, c, d);
    Det3Minors(b, c, d);
  }

  /** The cofactors of row i: what the other three rows make of any vector put in its place. */
  function Cofactors(m: Mat, i: nat): Vec
    requires i < 4
  {
    if i == 0 then Cross(m.b, m.c, m.d) else if i == 1 then Cross(m.a, m.d, m.c)
    else if i == 2 then Cross(m.a, m.b, m.d) else Cross(m.a, m.c, m.b)
  }

  function Swapped(m: Mat, i: nat, j: nat): Mat
    requires i < 4 && j < 4
  {
    m.Set(i, m.Row(j)).Set(j, m.Row(i))
  }

  /** Expansion along any row. */
  lemma DetRow(m: Mat, i: nat, u: Vec)
    requires i < 4
    ensures Det(m.Set(i, u)) == Dot(u, Cofactors(m, i))
  {
    var (a, b, c, d) := (m.a, m.b, m.c, m.d);
    assert forall p: Vec, q: Vec, r: Vec :: Dot(u, Cross(p, q, r)) == Det(Mat(u, p, q, r));
    hide Det, Dot, Cross;
    if i == 1 {
      SwapFirst(a, u, c, d);
      SwapLast(u, a, c, d);
    } else if i == 2 {
      SwapMiddle(a, b, u, d);
      SwapFirst(a, u, b, d);
    } else if i == 3 {
      SwapLast(a, b, c, u);
      SwapMiddle(a, b, u, c);
      SwapFirst(a, u, b, c);
      SwapLast(u, a, b, c);
    }
  }

  /** The determinant is alternating. */
  lemma DetSwapped(m: Mat, i: nat, j: nat)
    requires i < 4 && j < 4 && i != j
    ensures Det(Swapped(m, i, j)) == -Det(m)
  {
    hide Det;
    var (a, b, c, d) := (m.a, m.b, m.c, m.d);
    if i > j {
      DetSwapped(m, j, i);
      assert Swapped(m, i, j) == Swapped(m, j, i);
    } else if i == 0 && j == 1 {
      SwapFirst(a, b, c, d);
    } else if i == 1 && j == 2 {
      SwapMiddle(a, b, c, d);
    } else if i == 2 {
      SwapLast(a, b, c, d);
    } else if j == 2 {
      SwapFirst(a, b, c, d);
      SwapMiddle(b, a, c, d);
      SwapFirst(b, c, a, d);
    } else if i == 1 {
      SwapMiddle(a, b, c, d);
      SwapLast(a, c, b, d);
      SwapMiddle(a, c, d, b);
    } else {
      SwapFirst(a, b, c, d);
      SwapMiddle(b, a, c, d);
      SwapLast(b, c, a, d);
      SwapMiddle(b, c, d, a);
      SwapFirst(b, d, c, a);
    }
  }

  lemma EqualRows(m: Mat, i: nat, j: nat)
    requires i < 4 && j < 4 && i != j && m.Row(i) == m.Row(j)
    ensures Det(m) == 0.0
  {
    hide Det;
    DetSwapped(m, i, j);
    assert Swapped(m, i, j) == m;
  }

  /** ... and linear in each row. */
  lemma DetScaled(m: Mat, i: nat, k: real)
    requires i < 4
    ensures Det(m.Set(i, Scale(m.Row(i), k))) == Det(m) * k
  {
    hide Det, Dot, Cofactors, Scale;
    DetRow(m, i, Scale(m.Row(i), k));
    DetRow(m, i, m.Row(i));
    DotScale(m.Row(i), k, Cofactors(m, i));
    assert m.Set(i, m.Row(i)) == m;
  }

  lemma DetSubtracted(m: Mat, r: nat, i: nat, k: real)
    requires r < 4 && i < 4 && r != i
    ensures Det(m.Set(r, Minus(m.Row(r), m.Row(i), k))) == Det(m)
  {
    hide Det, Dot, Cofactors, Minus;
    DetRow(m, r, Minus(m.Row(r), m.Row(i), k));
    DetRow(m, r, m.Row(r));
    DetRow(m, r, m.Row(i));
    DotMinus(m.Row(r), m.Row(i), k, Cofactors(m, r));
    assert m.Set(r, m.Row(r)) == m;
    EqualRows(m.Set(r, m.Row(i)), r, i);
  }

  /** A row by the cofactors of the same row is the determinant; by those of another row, zero. */
  lemma RowExpansion(m: Mat, i: nat, j: nat)
    requires i < 4 && j < 4
    ensures Dot(m.Row(i), Cofactors(m, j)) == if i == j then Det(m) else 0.0
  {
    hide Det, Dot, Cofactors;
    DetRow(m, j, m.Row(i));
    if i == j {
      assert m.Set(j, m.Row(i)) == m;
    } else {
      EqualRows(m.Set(j, m.Row(i)), i, j);
    }
  }

  function CofactorMatrix(m: Mat): Mat { Mat(Cofactors(m, 0), Cofactors(m, 1), Cofactors(m, 2), Cofactors(m, 3)) }

  lemma DetTransposed(m: Mat)
    ensures Det(m.Transposed()) == Det(m)
  {}

  lemma CofactorsTransposed(m: Mat, i: nat)
    requires i < 4
    ensures Cofactors(m.Transposed(), i) == CofactorMatrix(m).Transposed().Row(i)
  {
    if i == 0 {} else if i == 1 {} else if i == 2 {} else {}
  }

  /** The cofactors over the determinant, transposed. */
  function Inverse(p: Mat): Mat
    requires Det(p) != 0.0
  {
    var k := 1.0 / Det(p);
    Mat(Scale(Cofactors(p, 0), k), Scale(Cofactors(p, 1), k),
        Scale(Cofactors(p, 2), k), Scale(Cofactors(p, 3), k)).Transposed()
  }

  lemma DotCommutes(u: Vec, v: Vec)
    ensures Dot(u, v) == Dot(v, u)
  {}

  lemma ScaledExpansion(p: Mat, i: nat, j: nat, k: real)
    requires i < 4 && j < 4 && k * Det(p) == 1.0
    ensures Dot(p.Row(i), Scale(Cofactors(p, j), k)) == if i == j then 1.0 else 0.0
  {
    hide Det, Dot, Cofactors, Scale;
    RowExpansion(p, i, j);
    DotCommutes(p.Row(i), Cofactors(p, j));
    DotCommutes(p.Row(i), Scale(Cofactors(p, j), k));
    DotScale(Cofactors(p, j), k, p.Row(i));
  }

  /** p times its cofactor inverse is the identity. */
  lemma InverseRight(p: Mat)
    requires Det(p) != 0.0
    ensures Product(p, Inverse(p)) == Identity()
  {
    hide Det, Dot, Cofactors, Scale;
    var k := 1.0 / Det(p);
    forall i: nat, j: nat | i < 4 && j < 4
      ensures Dot(p.Row(i), Scale(Cofactors(p, j), k)) == if i == j then 1.0 else 0.0
    {
      ScaledExpansion(p, i, j, k);
    }
    forall i: nat | i < 4 ensures Times(p.Row(i), Inverse(p)) == Unit(i) {}
  }

  lemma ScaleFields(u: Vec, k: real)
    ensures Scale(u, k).x == u.x * k && Scale(u, k).y == u.y * k && Scale(u, k).z == u.z * k && Scale(u, k).w == u.w * k
  {}

  lemma ScaleAt(m: Mat, k: real, i: nat)
    requires i < 4
    ensures Mat(Scale(m.a, k), Scale(m.b, k), Scale(m.c, k), Scale(m.d, k)).Transposed().Row(i)
            == Scale(m.Transposed().Row(i), k)
  {
    hide Scale;
    ScaleFields(m.a, k);
    ScaleFields(m.b, k);
    ScaleFields(m.c, k);
    ScaleFields(m.d, k);
    ScaleIs(m.Transposed().Row(i), k,
            Mat(Scale(m.a, k), Scale(m.b, k), Scale(m.c, k), Scale(m.d, k)).Transposed().Row(i));
  }

  /** ... and the same matrix undoes p from the left. */
  lemma InverseLeft(p: Mat)
    requires Det(p) != 0.0
    ensures Product(Inverse(p), p) == Identity()
  {
    hide Det, Dot, Cofactors, Scale;
    var k, t := 1.0 / Det(p), p.Transposed();
    DetTransposed(p);
    forall i: nat, j: nat | i < 4 && j < 4
      ensures Dot(Inverse(p).Row(i), t.Row(j)) == if i == j then 1.0 else 0.0
    {
      ScaledExpansion(t, j, i, k);
      CofactorsTransposed(p, i);
      ScaleAt(CofactorMatrix(p), k, i);
      DotCommutes(t.Row(j), Scale(Cofactors(t, i), k));
    }
    assert t.Row(0) == t.a && t.Row(1) == t.b && t.Row(2) == t.c && t.Row(3) == t.d;
    forall i: nat | i < 4 ensures Times(Inverse(p).Row(i), p) == Unit(i) {}
  }
}
