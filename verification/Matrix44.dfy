/** The two 4x4 inverses of math_Matrix44.h over exact reals: cofactors in straight-line code, and
    Gauss-Jordan elimination in place. Both give the inverse of module Determinant, or 0 for a zero determinant. */
module Matrix44 {
  import opened Determinant

  // ---------- the float[4][4] arrays and their values ----------

  ghost predicate Sized(s: array2<real>) { s.Length0 == 4 && s.Length1 == 4 }

  ghost function RowOf(s: array2<real>, i: nat): Vec
    requires Sized(s) && i < 4
    reads s
  {
    Vec(s[i, 0], s[i, 1], s[i, 2], s[i, 3])
  }

  ghost function Value(s: array2<real>): Mat
    requires Sized(s)
    reads s
  {
    Mat(RowOf(s, 0), RowOf(s, 1), RowOf(s, 2), RowOf(s, 3))
  }

  // ---------- cofactors in straight-line code ----------

  /** The determinant of the source, in its 24 terms. */
  function DetTerms(a11: real, a12: real, a13: real, a14: real,
      a21: real, a22: real, a23: real, a24: real,
      a31: real, a32: real, a33: real, a34: real,
      a41: real, a42: real, a43: real, a44: real): (det: real)
    ensures det == Det(Mat(Vec(a11, a12, a13, a14), Vec(a21, a22, a23, a24),
                           Vec(a31, a32, a33, a34), Vec(a41, a42, a43, a44)))
  {
    a11 * (a22 * a33 * a44 + a23 * a34 * a42 + a24 * a32 * a43)
    + a12 * (a21 * a34 * a43 + a23 * a31 * a44 + a24 * a33 * a41)
    + a13 * (a21 * a32 * a44 + a22 * a34 * a41 + a24 * a31 * a42)
    + a14 * (a21 * a33 * a42 + a22 * a31 * a43 + a23 * a32 * a41)
    - a11 * (a22 * a34 * a43 + a23 * a32 * a44 + a24 * a33 * a42)
    - a12 * (a21 * a33 * a44 + a23 * a34 * a41 + a24 * a31 * a43)
    - a13 * (a21 * a34 * a42 + a22 * a31 * a44 + a24 * a32 * a41)
    - a14 * (a21 * a32 * a43 + a22 * a33 * a41 + a23 * a31 * a42)
  }

  function Expand(p: real, x: real, q: real, y: real, r: real, z: real): real { p * x + q * y + r * z }

  // Each expansion below is one signed 3x3 minor; the four lemmas follow the columns of the result.

  lemma FirstCofactors(a21: real, a22: real, a23: real, a24: real,
      a31: real, a32: real, a33: real, a34: real, a41: real, a42: real, a43: real, a44: real)
    ensures Det3(a22, a23, a24, a32, a33, a34, a42, a43, a44)
            == Expand(a22, Minor(a33, a44, a34, a43), -a23, Minor(a32, a44, a34, a42), -a24, Minor(a33, a42, a32, a43))
    ensures -Det3(a21, a23, a24, a31, a33, a34, a41, a43, a44)
            == Expand(a23, Minor(a31, a44, a34, a41), a24, Minor(a33, a41, a31, a43), -a21, Minor(a33, a44, a34, a43))
    ensures Det3(a21, a22, a24, a31, a32, a34, a41, a42, a44)
            == Expand(a21, Minor(a32, a44, a34, a42), -a22, Minor(a31, a44, a34, a41), -a24, Minor(a32, a41, a31, a42))
    ensures -Det3(a21, a22, a23, a31, a32, a33, a41, a42, a43)
            == Expand(a21, Minor(a33, a42, a32, a43), -a22, Minor(a33, a41, a31, a43), a23, Minor(a32, a41, a31, a42))
  {}

  lemma SecondCofactors(a11: real, a12: real, a13: real, a14: real,
      a31: real, a32: real, a33: real, a34: real, a41: real, a42: real, a43: real, a44: real)
    ensures Det3(a12, a13, a14, a42, a43, a44, a32, a33, a34)
            == Expand(a13, Minor(a32, a44, a34, a42), a14, Minor(a33, a42, a32, a43), -a12, Minor(a33, a44, a34, a43))
    ensures -Det3(a11, a13, a14, a41, a43, a44, a31, a33, a34)
            == Expand(a11, Minor(a33, a44, a34, a43), -a13, Minor(a31, a44, a34, a41), -a14, Minor(a33, a41, a31, a43))
    ensures Det3(a11, a12, a14, a41, a42, a44, a31, a32, a34)
            == Expand(a12, Minor(a31, a44, a34, a41), a14, Minor(a32, a41, a31, a42), -a11, Minor(a32, a44, a34, a42))
    ensures -Det3(a11, a12, a13, a41, a42, a43, a31, a32, a33)
            == Expand(a12, Minor(a33, a41, a31, a43), -a13, Minor(a32, a41, a31, a42), -a11, Minor(a33, a42, a32, a43))
  {}

  lemma ThirdCofactors(a11: real, a12: real, a13: real, a14: real,
      a21: real, a22: real, a23: real, a24: real, a41: real, a42: real, a43: real, a44: real)
    ensures Det3(a12, a13, a14, a22, a23, a24, a42, a43, a44)
            == Expand(a12, Minor(a23, a44, a24, a43), a13, Minor(a24, a42, a22, a44), a14, Minor(a22, a43, a23, a42))
    ensures -Det3(a11, a13, a14, a21, a23, a24, a41, a43, a44)
            == Expand(a13, Minor(a21, a44, a24, a41), a14, Minor(a23, a41, a21, a43), -a11, Minor(a23, a44, a24, a43))
    ensures Det3(a11, a12, a14, a21, a22, a24, a41, a42, a44)
            == Expand(a14, Minor(a21, a42, a22, a41), -a11, Minor(a24, a42, a22, a44), -a12, Minor(a21, a44, a24, a41))
    ensures -Det3(a11, a12, a13, a21, a22, a23, a41, a42, a43)
            == Expand(-a13, Minor(a21, a42, a22, a41), -a11, Minor(a22, a43, a23, a42), -a12, Minor(a23, a41, a21, a43))
  {}

  lemma FourthCofactors(a11: real, a12: real, a13: real, a14: real,
      a21: real, a22: real, a23: real, a24: real, a31: real, a32: real, a33: real, a34: real)
    ensures Det3(a12, a13, a14, a32, a33, a34, a22, a23, a24)
            == Expand(a12, Minor(a24, a33, a23, a34), a13, Minor(a22, a34, a24, a32), a14, Minor(a23, a32, a22, a33))
    ensures -Det3(a11, a13, a14, a31, a33, a34, a21, a23, a24)
            == Expand(a13, Minor(a24, a31, a21, a34), a14, Minor(a21, a33, a23, a31), -a11, Minor(a24, a33, a23, a34))
    ensures Det3(a11, a12, a14, a31, a32, a34, a21, a22, a24)
            == Expand(a14, Minor(a22, a31, a21, a32), -a11, Minor(a22, a34, a24, a32), -a12, Minor(a24, a31, a21, a34))
    ensures -Det3(a11, a12, a13, a31, a32, a33, a21, a22, a23)
            == Expand(-a13, Minor(a22, a31, a21, a32), -a11, Minor(a23, a32, a22, a33), -a12, Minor(a21, a33, a23, a31))
  {}

  /** The entries before division, from eighteen shared 2x2 minors. */
  method CofactorEntries(a11: real, a12: real, a13: real, a14: real,
                         a21: real, a22: real, a23: real, a24: real,
                         a31: real, a32: real, a33: real, a34: real,
                         a41: real, a42: real, a43: real, a44: real)
    returns (b11: real, b12: real, b13: real, b14: real,
             b21: real, b22: real, b23: real, b24: real,
             b31: real, b32: real, b33: real, b34: real,
             b41: real, b42: real, b43: real, b44: real)
    ensures Mat(Vec(b11, b12, b13, b14), Vec(b21, b22, b23, b24), Vec(b31, b32, b33, b34), Vec(b41, b42, b43, b44))
            == CofactorMatrix(Mat(Vec(a11, a12, a13, a14), Vec(a21, a22, a23, a24),
                                  Vec(a31, a32, a33, a34), Vec(a41, a42, a43, a44))).Transposed()
  {
    hide Det3, Minor, Expand;
    var m33_44 := Minor(a33, a44, a34, a43);
    var m32_44 := Minor(a32, a44, a34, a42);
    var m33_42 := Minor(a33, a42, a32, a43);
    var m33_41 := Minor(a33, a41, a31, a43);
    var m31_44 := Minor(a31, a44, a34, a41);
    var m32_41 := Minor(a32, a41, a31, a42);
    var m23_44 := Minor(a23, a44, a24, a43);
    var m24_33 := Minor(a24, a33, a23, a34);
    var m24_42 := Minor(a24, a42, a22, a44);
    var m22_43 := Minor(a22, a43, a23, a42);
    var m22_34 := Minor(a22, a34, a24, a32);
    var m23_32 := Minor(a23, a32, a22, a33);
    var m21_44 := Minor(a21, a44, a24, a41);
    var m23_41 := Minor(a23, a41, a21, a43);
    var m24_31 := Minor(a24, a31, a21, a34);
    var m21_33 := Minor(a21, a33, a23, a31);
    var m21_42 := Minor(a21, a42, a22, a41);
    var m22_31 := Minor(a22, a31, a21, a32);
    b11 := Expand(a22, m33_44, -a23, m32_44, -a24, m33_42);
    b12 := Expand(a13, m32_44, a14, m33_42, -a12, m33_44);
    b13 := Expand(a12, m23_44, a13, m24_42, a14, m22_43);
    b14 := Expand(a12, m24_33, a13, m22_34, a14, m23_32);
    b21 := Expand(a23, m31_44, a24, m33_41, -a21, m33_44);
    b22 := Expand(a11, m33_44, -a13, m31_44, -a14, m33_41);
    b23 := Expand(a13, m21_44, a14, m23_41, -a11, m23_44);
    b24 := Expand(a13, m24_31, a14, m21_33, -a11, m24_33);
    b31 := Expand(a21, m32_44, -a22, m31_44, -a24, m32_41);
    b32 := Expand(a12, m31_44, a14, m32_41, -a11, m32_44);
    b33 := Expand(a14, m21_42, -a11, m24_42, -a12, m21_44);
    b34 := Expand(a14, m22_31, -a11, m22_34, -a12, m24_31);
    b41 := Expand(a21, m33_42, -a22, m33_41, a23, m32_41);
    b42 := Expand(a12, m33_41, -a13, m32_41, -a11, m33_42);
    b43 := Expand(-a13, m21_42, -a11, m22_43, -a12, m23_41);
    b44 := Expand(-a13, m22_31, -a11, m23_32, -a12, m21_33);
    FirstCofactors(a21, a22, a23, a24, a31, a32, a33, a34, a41, a42, a43, a44);
    SecondCofactors(a11, a12, a13, a14, a31, a32, a33, a34, a41, a42, a43, a44);
    ThirdCofactors(a11, a12, a13, a14, a21, a22, a23, a24, a41, a42, a43, a44);
    FourthCofactors(a11, a12, a13, a14, a21, a22, a23, a24, a31, a32, a33, a34);
  }

  lemma ScaledEntries(m: Mat, entries: Mat, inv: Mat, k: real)
    requires Det(m) != 0.0 && k == 1.0 / Det(m) && entries == CofactorMatrix(m).Transposed()
    requires inv.a == Scale(entries.a, k) && inv.b == Scale(entries.b, k)
    requires inv.c == Scale(entries.c, k) && inv.d == Scale(entries.d, k)
    ensures inv == Inverse(m)
  {
    hide Det, Cofactors, Scale;
    forall i: nat | i < 4 ensures inv.Row(i) == Inverse(m).Row(i) { ScaleAt(CofactorMatrix(m), k, i); }
    assert inv.Row(0) == Inverse(m).Row(0) && inv.Row(1) == Inverse(m).Row(1);
    assert inv.Row(2) == Inverse(m).Row(2) && inv.Row(3) == Inverse(m).Row(3);
  }

  method StoreRow(out: array2<real>, i: nat, v: Vec)
    requires Sized(out) && i < 4
    modifies out
    ensures forall r: nat :: r < 4 ==> RowOf(out, r) == if r == i then v else old(RowOf(out, r))
  {
    out[i, 0] := v.x;
    out[i, 1] := v.y;
    out[i, 2] := v.z;
    out[i, 3] := v.w;
  }

  method Store(out: array2<real>, m: Mat)
    requires Sized(out)
    modifies out
    ensures Value(out) == m
  {
    hide RowOf;
    StoreRow(out, 0, m.a);
    StoreRow(out, 1, m.b);
    StoreRow(out, 2, m.c);
    StoreRow(out, 3, m.d);
  }

  /** out may be p itself: every entry is read before any is written. */
  method InverseFast(out: array2<real>, p: array2<real>) returns (ok: int)
    requires Sized(out) && Sized(p)
    modifies out
    ensures ok == if Det(old(Value(p))) == 0.0 then 0 else 1
    ensures ok == 0 ==> Value(out) == old(Value(out))
    ensures ok == 1 ==> Value(out) == Inverse(old(Value(p)))
  {
    hide Det, DetTerms, Cofactors, Scale, Mat.Transposed;
    var a11, a12, a13, a14 := p[0, 0], p[0, 1], p[0, 2], p[0, 3];
    var a21, a22, a23, a24 := p[1, 0], p[1, 1], p[1, 2], p[1, 3];
    var a31, a32, a33, a34 := p[2, 0], p[2, 1], p[2, 2], p[2, 3];
    var a41, a42, a43, a44 := p[3, 0], p[3, 1], p[3, 2], p[3, 3];
    ghost var m := Mat(Vec(a11, a12, a13, a14), Vec(a21, a22, a23, a24),
                       Vec(a31, a32, a33, a34), Vec(a41, a42, a43, a44));
    var det := DetTerms(a11, a12, a13, a14, a21, a22, a23, a24, a31, a32, a33, a34, a41, a42, a43, a44);
    if det == 0.0 {
      return 0;
    }
    det := 1.0 / det;

    var b11, b12, b13, b14, b21, b22, b23, b24,
        b31, b32, b33, b34, b41, b42, b43, b44 := CofactorEntries(
      a11, a12, a13, a14, a21, a22, a23, a24, a31, a32, a33, a34, a41, a42, a43, a44);
    ghost var entries := Mat(Vec(b11, b12, b13, b14), Vec(b21, b22, b23, b24),
                             Vec(b31, b32, b33, b34), Vec(b41, b42, b43, b44));
    var inv := Mat(Scale(Vec(b11, b12, b13, b14), det), Scale(Vec(b21, b22, b23, b24), det),
      Scale(Vec(b31, b32, b33, b34), det), Scale(Vec(b41, b42, b43, b44), det));
    ScaledEntries(m, entries, inv, det);
    Store(out, inv);
    return 1;
  }

  // ---------- Gauss-Jordan elimination ----------

  function At(v: Vec, j: nat): real
    requires j < 4
  {
    if j == 0 then v.x else if j == 1 then v.y else if j == 2 then v.z else v.w
  }

  function Abs(x: real): real { if x < 0.0 then -x else x }

  /** The row with the largest entry of column i, from row i down. */
  method FindPivot(src: array2<real>, i: nat) returns (max: real, swp: nat)
    requires Sized(src) && i < 4
    ensures i <= swp < 4
    ensures max == Abs(src[swp, i])
    ensures forall k: nat :: i <= k < 4 ==> Abs(src[k, i]) <= max
  {
    max, swp := 0.0, i;
    var k := i;
    while k < 4
      invariant i <= k <= 4 && i <= swp < 4 && (k == i ==> swp == i)
      invariant max == if k == i then 0.0 else Abs(src[swp, i])
      invariant forall j: nat :: i <= j < k ==> Abs(src[j, i]) <= max
    {
      var ftmp := Abs(src[k, i]);
      if ftmp > max {
        max, swp := ftmp, k;
      }
      k := k + 1;
    }
  }

  lemma AtScale(u: Vec, k: real, c: nat)
    requires c < 4
    ensures At(Scale(u, k), c) == At(u, c) * k
  {}

  lemma AtMinus(u: Vec, v: Vec, k: real, c: nat)
    requires c < 4
    ensures At(Minus(u, v, k), c) == At(u, c) - At(v, c) * k
  {}

  method Copy(p: array2<real>) returns (src: array2<real>)
    requires Sized(p)
    ensures fresh(src) && Sized(src) && Value(src) == Value(p)
  {
    src := new real[4, 4];
    forall r, c | 0 <= r < 4 && 0 <= c < 4 {
      src[r, c] := p[r, c];
    }
  }

  method SwapRows(s: array2<real>, i: nat, j: nat)
    requires Sized(s) && i < 4 && j < 4
    modifies s
    ensures Value(s) == Swapped(old(Value(s)), i, j)
  {
    for k := 0 to 4
      invariant forall r, c :: 0 <= r < 4 && 0 <= c < 4 ==>
        s[r, c] == if c >= k then old(s[r, c]) else if r == j then old(s[i, c])
          else if r == i then old(s[j, c]) else old(s[r, c])
    {
      s[i, k], s[j, k] := s[j, k], s[i, k];
    }
    ByRows(s, Swapped(old(Value(s)), i, j));
  }

  method ScaleRow(s: array2<real>, i: nat, w: real)
    requires Sized(s) && i < 4
    modifies s
    ensures Value(s) == old(Value(s)).Set(i, Scale(old(Value(s)).Row(i), w))
  {
    hide Scale;
    ghost var u := RowOf(s, i);
    for j := 0 to 4
      invariant forall r, c :: 0 <= r < 4 && 0 <= c < 4 ==>
        s[r, c] == if r == i && c < j then At(Scale(u, w), c) else old(s[r, c])
    {
      AtScale(u, w, j);
      s[i, j] := s[i, j] * w;
    }
    ByRows(s, old(Value(s)).Set(i, Scale(u, w)));
  }

  method SubtractRow(s: array2<real>, k: nat, i: nat, w: real)
    requires Sized(s) && k < 4 && i < 4 && k != i
    modifies s
    ensures Value(s) == old(Value(s)).Set(k, Minus(old(Value(s)).Row(k), old(Value(s)).Row(i), w))
  {
    hide Minus;
    ghost var u, v := RowOf(s, k), RowOf(s, i);
    for j := 0 to 4
      invariant forall r, c :: 0 <= r < 4 && 0 <= c < 4 ==>
        s[r, c] == if r == k && c < j then At(Minus(u, v, w), c) else old(s[r, c])
    {
      AtMinus(u, v, w, j);
      s[k, j] := s[k, j] - s[i, j] * w;
    }
    ByRows(s, old(Value(s)).Set(k, Minus(u, v, w)));
  }

  lemma ByRows(s: array2<real>, m: Mat)
    requires Sized(s)
    requires forall r: nat :: r < 4 ==> RowOf(s, r) == m.Row(r)
    ensures Value(s) == m
  {
    assert RowOf(s, 0) == m.a && RowOf(s, 1) == m.b && RowOf(s, 2) == m.c && RowOf(s, 3) == m.d;
  }

  /** What every row operation keeps: inv times the original is src, and src is as singular as the original. */
  ghost predicate Reduces(src: Mat, inv: Mat, p: Mat) {
    Product(inv, p) == src && (Det(src) == 0.0 <==> Det(p) == 0.0)
  }

  lemma Verdict(src: Mat, inv: Mat, p: Mat)
    requires Reduces(src, inv, p)
    ensures Det(src) == 0.0 <==> Det(p) == 0.0
  {}

  lemma SwapReduces(src: Mat, inv: Mat, p: Mat, i: nat, j: nat)
    requires Reduces(src, inv, p) && i < 4 && j < 4 && i != j
    ensures Reduces(Swapped(src, i, j), Swapped(inv, i, j), p)
  {
    hide Det, Times;
    DetSwapped(src, i, j);
  }

  lemma ScaleReduces(src: Mat, inv: Mat, p: Mat, i: nat, k: real)
    requires Reduces(src, inv, p) && i < 4 && k != 0.0
    ensures Reduces(src.Set(i, Scale(src.Row(i), k)), inv.Set(i, Scale(inv.Row(i), k)), p)
  {
    hide Det, Times, Scale;
    DetScaled(src, i, k);
    TimesScale(inv.Row(i), k, p);
  }

  lemma SubtractReduces(src: Mat, inv: Mat, p: Mat, r: nat, i: nat, k: real)
    requires Reduces(src, inv, p) && r < 4 && i < 4 && r != i
    ensures Reduces(src.Set(r, Minus(src.Row(r), src.Row(i), k)), inv.Set(r, Minus(inv.Row(r), inv.Row(i), k)), p)
  {
    hide Det, Times, Minus;
    DetSubtracted(src, r, i, k);
    TimesMinus(inv.Row(r), inv.Row(i), k, p);
  }

  /** The first n columns are those of the identity. */
  ghost predicate UnitColumns(m: Mat, n: nat)
    requires n <= 4
  {
    forall r: nat, c: nat :: r < 4 && c < n ==> At(m.Row(r), c) == if r == c then 1.0 else 0.0
  }

  lemma AllColumns(m: Mat)
    requires UnitColumns(m, 4)
    ensures m == Identity()
  {
    forall r: nat | r < 4 ensures m.Row(r) == Unit(r) {
      var v := m.Row(r);
      assert At(v, 0) == v.x && At(v, 1) == v.y && At(v, 2) == v.z && At(v, 3) == v.w;
    }
    assert m.Row(0) == m.a && m.Row(1) == m.b && m.Row(2) == m.c && m.Row(3) == m.d;
  }

  lemma DetIdentity()
    ensures Det(Identity()) == 1.0
  {
    hide Det3, Dot;
    UnitMinors();
    DotUnit(Cross(Unit(1), Unit(2), Unit(3)));
  }

  lemma UnitMinors()
    ensures Det3(1.0, 0.0, 0.0, 0.0, 1.0, 0.0, 0.0, 0.0, 1.0) == 1.0
  {}

  lemma DotUnit(v: Vec)
    ensures Dot(Unit(0), v) == v.x
  {}

  /** Without a pivot in column i the remaining rows are dependent. */
  lemma NoPivot(m: Mat, i: nat)
    requires i < 4 && UnitColumns(m, i)
    requires forall k: nat :: i <= k < 4 ==> At(m.Row(k), i) == 0.0
    ensures Det(m) == 0.0
  {
    assert forall k: nat :: i <= k < 4 ==> forall c: nat :: c <= i ==> At(m.Row(k), c) == 0.0;
    ThinRows(m, i);
  }

  lemma ThinRows(m: Mat, i: nat)
    requires i < 4
    requires forall k: nat, c: nat :: i <= k < 4 && c <= i ==> At(m.Row(k), c) == 0.0
    ensures Det(m) == 0.0
  {
    assert At(m.d, 0) == At(m.Row(3), 0) == 0.0;
    if i == 0 {
      assert At(m.Row(0), 0) == At(m.Row(1), 0) == At(m.Row(2), 0) == 0.0;
    } else if i == 1 {
      assert At(m.Row(1), 0) == At(m.Row(2), 0) == At(m.Row(1), 1) == At(m.Row(2), 1) == At(m.Row(3), 1) == 0.0;
    } else if i == 2 {
      assert At(m.Row(2), 0) == At(m.Row(2), 1) == At(m.Row(2), 2) == At(m.Row(3), 1) == At(m.Row(3), 2) == 0.0;
    } else {
      assert At(m.Row(3), 1) == At(m.Row(3), 2) == At(m.Row(3), 3) == 0.0;
    }
  }

  lemma SwapColumns(m: Mat, i: nat, j: nat)
    requires i <= j < 4 && UnitColumns(m, i)
    ensures UnitColumns(Swapped(m, i, j), i)
  {
    hide At;
    var n := Swapped(m, i, j);
    forall r: nat, c: nat | r < 4 && c < i ensures At(n.Row(r), c) == if r == c then 1.0 else 0.0 {
      assert At(m.Row(r), c) == (if r == c then 1.0 else 0.0) && At(m.Row(i), c) == At(m.Row(j), c) == 0.0;
    }
  }

  lemma SwappedRow(m: Mat, i: nat, j: nat)
    requires i < 4 && j < 4
    ensures Swapped(m, i, j).Row(i) == m.Row(j)
  {}

  /** Column i is finished in row i and in the rows above k. */
  ghost predicate Eliminated(m: Mat, i: nat, k: nat)
    requires i < 4 && k <= 4
  {
    UnitColumns(m, i) && At(m.Row(i), i) == 1.0 && forall r: nat :: r < k && r != i ==> At(m.Row(r), i) == 0.0
  }

  lemma ScaleColumns(m: Mat, i: nat, w: real)
    requires i < 4 && UnitColumns(m, i) && At(m.Row(i), i) != 0.0 && w == 1.0 / At(m.Row(i), i)
    ensures Eliminated(m.Set(i, Scale(m.Row(i), w)), i, 0)
  {
    hide At, Scale;
    var n := m.Set(i, Scale(m.Row(i), w));
    AtScale(m.Row(i), w, i);
    forall r: nat, c: nat | r < 4 && c < i ensures At(n.Row(r), c) == if r == c then 1.0 else 0.0 {
      AtScale(m.Row(i), w, c);
      assert At(m.Row(r), c) == (if r == c then 1.0 else 0.0) && At(m.Row(i), c) == 0.0;
    }
  }

  lemma SubtractColumns(m: Mat, i: nat, k: nat, w: real)
    requires i < 4 && k < 4 && k != i && Eliminated(m, i, k) && w == At(m.Row(k), i)
    ensures Eliminated(m.Set(k, Minus(m.Row(k), m.Row(i), w)), i, k + 1)
  {
    hide At, Minus;
    var n := m.Set(k, Minus(m.Row(k), m.Row(i), w));
    AtMinus(m.Row(k), m.Row(i), w, i);
    forall r: nat, c: nat | r < 4 && c < i ensures At(n.Row(r), c) == if r == c then 1.0 else 0.0 {
      AtMinus(m.Row(k), m.Row(i), w, c);
      assert At(m.Row(r), c) == (if r == c then 1.0 else 0.0) && At(m.Row(i), c) == 0.0;
    }
    assert At(m.Row(i), i) * w == w;
    assert n.Row(k) == Minus(m.Row(k), m.Row(i), w);
    forall r: nat | r < k + 1 && r != i ensures At(n.Row(r), i) == 0.0 {
      if r < k {
        assert n.Row(r) == m.Row(r);
      } else {
        assert r == k;
      }
    }
    assert n.Row(i) == m.Row(i);
  }

  lemma SkipRow(m: Mat, i: nat)
    requires i < 4 && Eliminated(m, i, i)
    ensures Eliminated(m, i, i + 1)
  {}

  lemma ColumnDone(m: Mat, i: nat)
    requires i < 4 && Eliminated(m, i, 4)
    ensures UnitColumns(m, i + 1)
  {
    hide At, Mat.Row;
  }

  lemma Start(p: Mat)
    ensures Reduces(p, Identity(), p) && UnitColumns(p, 0)
  {
    TimesUnit(0, p);
    TimesUnit(1, p);
    TimesUnit(2, p);
    TimesUnit(3, p);
  }

  /** When src has become the identity, inv is the inverse. */
  lemma Finish(src: Mat, inv: Mat, p: Mat)
    requires Reduces(src, inv, p) && UnitColumns(src, 4)
    ensures Det(p) != 0.0 && Product(inv, p) == Identity() && inv == Inverse(p)
  {
    hide Det, Product, Inverse;
    AllColumns(src);
    DetIdentity();
    InverseRight(p);
    LeftIsRight(inv, p, Inverse(p));
  }

  /** A matrix of the array's entries has those entries. */
  lemma EntryOf(s: array2<real>, r: nat, c: nat)
    requires Sized(s) && r < 4 && c < 4
    ensures At(Value(s).Row(r), c) == s[r, c]
  {}

  lemma NoPivotBelow(s: array2<real>, i: nat)
    requires Sized(s) && i < 4 && UnitColumns(Value(s), i)
    requires forall k: nat :: i <= k < 4 ==> Abs(s[k, i]) <= 0.0
    ensures Det(Value(s)) == 0.0
  {
    hide Det, UnitColumns, At, Value;
    forall k: nat | i <= k < 4 ensures At(Value(s).Row(k), i) == 0.0 { EntryOf(s, k, i); }
    NoPivot(Value(s), i);
  }

  /** out may be p itself: the input is copied before out is written. */
  method InverseGaussJordan(out: array2<real>, p: array2<real>) returns (ok: int)
    requires Sized(out) && Sized(p)
    modifies out
    ensures ok == if Det(old(Value(p))) == 0.0 then 0 else 1
    ensures ok == 1 ==> Product(Value(out), old(Value(p))) == Identity()
    ensures ok == 1 ==> Value(out) == Inverse(old(Value(p)))
  {
    hide Product, Identity, Det, Reduces, Scale, Minus, Inverse, UnitColumns, Eliminated, Swapped;
    hide Mat.Set, Mat.Row, Value, At;
    ghost var m := Value(p);
    var src := Copy(p);
    Store(out, Identity());
    Start(m);
    for i := 0 to 4
      invariant Reduces(Value(src), Value(out), m) && UnitColumns(Value(src), i)
    {
      var max, swp := FindPivot(src, i);
      if max == 0.0 {
        NoPivotBelow(src, i);
        Verdict(Value(src), Value(out), m);
        return 0;
      }
      if swp != i {
        EntryOf(src, swp, i);
        SwappedRow(Value(src), i, swp);
        SwapReduces(Value(src), Value(out), m, i, swp);
        SwapColumns(Value(src), i, swp);
        SwapRows(src, i, swp);
        SwapRows(out, i, swp);
      }
      EntryOf(src, i, i);
      var w := 1.0 / src[i, i];
      ScaleReduces(Value(src), Value(out), m, i, w);
      ScaleColumns(Value(src), i, w);
      ScaleRow(src, i, w);
      ScaleRow(out, i, w);
      for k := 0 to 4
        invariant Reduces(Value(src), Value(out), m) && Eliminated(Value(src), i, k)
      {
        if k == i {
          SkipRow(Value(src), i);
        } else {
          EntryOf(src, k, i);
          w := src[k, i];
          SubtractReduces(Value(src), Value(out), m, k, i, w);
          SubtractColumns(Value(src), i, k, w);
          SubtractRow(src, k, i, w);
          SubtractRow(out, k, i, w);
        }
      }
      ColumnDone(Value(src), i);
    }
    Finish(Value(src), Value(out), m);
    return 1;
  }
}
