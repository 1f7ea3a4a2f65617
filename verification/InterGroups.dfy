/** The inter-instance groups of the distributed optimizer under any order of the dimensions: the code
    builds them from the expert dp groups and hands them to the attention layers too. */
module InterGroups {
  import opened Arith
  import opened MixedRadix
  import opened RankGroups
  import opened Sequences
  import opened Hierarchy
  import opened RankGenerator
  import opened ModelParallel
  import opened OptimizerInstances
  import opened TwoDims

  // ---- Arithmetic ----

  /** The attention groups span dimensions of sizes `a` and `b` and strides `sLo` and `sHi` and are cut into
      `n` pieces of `q`. Their pieces are blocks of the given size exactly in one of these cases: one piece,
      a trivial dimension, adjacent dimensions, or pieces made of whole runs of the lower dimension. */
  predicate Aligned(sLo: nat, a: nat, sHi: nat, b: nat, q: nat, n: nat, block: nat)
    requires 0 < n
  {
    || n == 1
    || (a == 1 && sHi * q == block)
    || (b == 1 && sLo * q == block)
    || (sHi == sLo * a && sLo * q == block)
    || (b % n == 0 && 0 < a && sHi * (q / a) == block)
  }

  lemma OffsetLinear(sLo: nat, a: nat, sHi: nat, x: nat)
    requires 0 < a && sHi == sLo * a
    ensures Offset(sLo, a, sHi, x) == sLo * x
  {
    DivModId(x, a);
    MulAssoc(sLo, a, x / a);
    assert sLo * (x % a + a * (x / a)) == sLo * (x % a) + sLo * (a * (x / a));
  }

  lemma OffsetDigits(sLo: nat, a: nat, sHi: nat, lo: nat, hi: nat)
    requires lo < a
    ensures Offset(sLo, a, sHi, lo + a * hi) == sLo * lo + sHi * hi
  {
    TwoDigits(lo, hi, a);
  }

  lemma PieceBelow(a: nat, b: nat, q: nat, n: nat, t: nat, rho: nat)
    requires 0 < a && 1 < b && 1 < n && q * n == a * b && q == rho + a * t && 0 < rho
    ensures t + 1 < b
  {
    MulMono(2, n, q);
    assert 2 * q == 2 * rho + a * (2 * t);
    if b <= 2 * t {
      MulMono(b, 2 * t, a);
    }
  }

  lemma WholeRuns(a: nat, b: nat, q: nat, n: nat, t: nat)
    requires 0 < a && 0 < n && q * n == a * b && q == a * t
    ensures b == t * n && b % n == 0
  {
    MulAssoc(a, t, n);
    CancelFactor(a, t * n, b);
    DivModUnique(b, n, t, 0);
  }

  lemma CancelFactor(a: nat, x: nat, y: nat)
    requires 0 < a && a * x == a * y
    ensures x == y
  {
    if x < y {
      MulMono(x + 1, y, a);
    } else if y < x {
      MulMono(y + 1, x, a);
    }
  }

  ghost predicate StepsByBlock(sLo: nat, a: nat, sHi: nat, b: nat, q: nat, block: nat)
    requires 0 < a
  {
    forall x: nat :: x + q < a * b ==> Offset(sLo, a, sHi, x + q) == Offset(sLo, a, sHi, x) + block
  }

  /** The first piece is one block long. */
  lemma FirstPieceStep(sLo: nat, a: nat, sHi: nat, b: nat, q: nat, n: nat, block: nat)
    requires 0 < a && 0 < q && 1 < n && q * n == a * b && StepsByBlock(sLo, a, sHi, b, q, block)
    ensures Offset(sLo, a, sHi, q) == block
  {
    MulMono(2, n, q);
    assert 0 + q < a * b;
    assert Offset(sLo, a, sHi, 0 + q) == Offset(sLo, a, sHi, 0) + block;
    OffsetDigits(sLo, a, sHi, 0, 0);
  }

  /** If a step of `q` positions is always a step of one block, the sizes are aligned. */
  lemma {:induction false} StepsAligned(sLo: nat, a: nat, sHi: nat, b: nat, q: nat, n: nat, block: nat)
    requires 0 < a && 0 < b && 0 < q && 1 < n && q * n == a * b && StepsByBlock(sLo, a, sHi, b, q, block)
    ensures Aligned(sLo, a, sHi, b, q, n, block)
  {
    FirstPieceStep(sLo, a, sHi, b, q, n, block);
    if a == 1 {
      OneColumn(sLo, sHi, q);
    } else if b == 1 {
      OneRow(sLo, a, sHi, q, n);
    } else if sHi == sLo * a {
      OffsetLinear(sLo, a, sHi, q);
    } else {
      ApartAligned(sLo, a, sHi, b, q, n, block);
    }
  }

  lemma OneColumn(sLo: nat, sHi: nat, q: nat)
    ensures Offset(sLo, 1, sHi, q) == sHi * q
  {
    OffsetDigits(sLo, 1, sHi, 0, q);
  }

  lemma OneRow(sLo: nat, a: nat, sHi: nat, q: nat, n: nat)
    requires 0 < a && 0 < q && 1 < n && q * n == a
    ensures Offset(sLo, a, sHi, q) == sLo * q
  {
    MulMono(2, n, q);
    OffsetDigits(sLo, a, sHi, q, 0);
  }

  /** Dimensions that are neither trivial nor adjacent: the pieces are whole runs of the lower one. */
  lemma ApartAligned(sLo: nat, a: nat, sHi: nat, b: nat, q: nat, n: nat, block: nat)
    requires 0 < a && 1 < b && 0 < q && 1 < n && q * n == a * b && StepsByBlock(sLo, a, sHi, b, q, block)
    requires Offset(sLo, a, sHi, q) == block && sHi != sLo * a
    ensures b % n == 0 && sHi * (q / a) == block
  {
    var t, rho := q / a, q % a;
    assert q == rho + a * t by {
      DivModId(q, a);
      assert t * a == a * t;
    }
    if rho != 0 {
      PieceBelow(a, b, q, n, t, rho);
      Carry(sLo, a, sHi, b, q, t, rho, block);
    }
    WholeRuns(a, b, q, n, t);
    OffsetDigits(sLo, a, sHi, 0, t);
  }

  lemma CarrySum(sLo: nat, a: nat, sHi: nat, t: nat, rho: nat)
    requires rho <= a && sHi * (t + 1) == sLo * (a - rho) + (sLo * rho + sHi * t)
    ensures sHi == sLo * a
  {
    assert sLo * (a - rho) + sLo * rho == sLo * a;
    assert sHi * (t + 1) == sHi * t + sHi;
  }

  lemma CarryPosition(a: nat, b: nat, q: nat, t: nat, rho: nat)
    requires 0 < rho < a && q == rho + a * t && t + 1 < b
    ensures a - rho + q == 0 + a * (t + 1) < a * b
  {
    MulMono(t + 2, b, a);
    assert a * (t + 2) == a * (t + 1) + a && a * (t + 1) == a * t + a;
  }

  lemma Carry(sLo: nat, a: nat, sHi: nat, b: nat, q: nat, t: nat, rho: nat, block: nat)
    requires 0 < rho < a && q == rho + a * t && t + 1 < b
    requires StepsByBlock(sLo, a, sHi, b, q, block) && Offset(sLo, a, sHi, q) == block
    ensures sHi == sLo * a
  {
    var x: nat := a - rho;
    CarryPosition(a, b, q, t, rho);
    assert Offset(sLo, a, sHi, x + q) == Offset(sLo, a, sHi, x) + block;
    OffsetDigits(sLo, a, sHi, 0, t + 1);
    OffsetDigits(sLo, a, sHi, x, 0);
    OffsetDigits(sLo, a, sHi, rho, t);
    CarrySum(sLo, a, sHi, t, rho);
  }

  lemma {:induction false} FirstPeer(s: nat, c: nat, n: nat, r: nat, p: nat, m: nat)
    requires 0 < s && 0 < c && 0 < n && p == r / s % (c * n) && m == s * (c * n)
    ensures 0 < s * c && 0 < m && r / m * m + r % m % (s * c) + s * p == r + s * (p % c)
  {
    var low := r % s;
    DivModProduct(r, s, c * n);
    TwoDigits(low, p, s);
    DivModProduct(low + s * p, s, c);
    DivModId(r, m);
  }

  /** An entry that lies the right number of strides from `r` is a peer of `r`. */
  lemma {:induction false} LinearPeer(s: nat, c: nat, n: nat, r: nat, p: nat, i: nat, e: nat)
    requires 0 < s && 0 < c && 0 < n && p == r / s % (c * n) && i < n
    requires e + s * p == r + s * (p % c + c * i)
    ensures 0 < s * c && 0 < s * c * n && e == Peers(r, s * c * n, s * c, n)[i]
  {
    MulAssoc(s, c, n);
    FirstPeer(s, c, n, r, p, s * c * n);
    MulAssoc(s, c, i);
    assert s * (p % c + c * i) == s * (p % c) + s * (c * i);
  }

  /** The coordinates of a rank in two dimensions of sizes `a` and `b`. */
  ghost predicate Coords(sLo: nat, a: nat, sHi: nat, b: nat, r: nat, x: nat, y: nat)
    requires 0 < sLo && 0 < a && 0 < sHi && 0 < b
  {
    x == r / sLo % a && y == r / sHi % b
  }

  lemma AdjacentCoords(sLo: nat, a: nat, sHi: nat, b: nat, r: nat, x: nat, y: nat)
    requires 0 < sLo && 0 < a && 0 < b && sHi == sLo * a && 0 < sHi && Coords(sLo, a, sHi, b, r, x, y)
    ensures x + a * y == r / sLo % (a * b)
  {
    DivModProduct(r, sLo, a);
    DivModProduct(r / sLo, a, b);
  }

  lemma PieceDigits(a: nat, t: nat, x: nat, y: nat, i: nat)
    requires x < a && 0 < t
    ensures 0 < a * t && (x + a * y) % (a * t) + a * t * i == x + a * (y % t + t * i)
  {
    TwoDigits(x, y, a);
    DivModProduct(x + a * y, a, t);
    MulAssoc(a, t, i);
    assert a * (y % t + t * i) == a * (y % t) + a * (t * i);
  }

  lemma TrivialLow(sLo: nat, sHi: nat, q: nat, n: nat, r: nat, y: nat, i: nat, e: nat)
    requires 0 < sHi && 0 < q && 0 < n && y == r / sHi % (q * n) && i < n
    requires e + Offset(sLo, 1, sHi, y) == r + Offset(sLo, 1, sHi, y % q + q * i)
    ensures 0 < sHi * q && 0 < sHi * q * n && e == Peers(r, sHi * q * n, sHi * q, n)[i]
  {
    OffsetDigits(sLo, 1, sHi, 0, y);
    OffsetDigits(sLo, 1, sHi, 0, y % q + q * i);
    LinearPeer(sHi, q, n, r, y, i, e);
  }

  lemma TrivialHigh(sLo: nat, a: nat, sHi: nat, q: nat, n: nat, r: nat, x: nat, i: nat, e: nat)
    requires 0 < sLo && 0 < q && 0 < n && 0 < a == q * n && x == r / sLo % a && i < n
    requires e + Offset(sLo, a, sHi, x) == r + Offset(sLo, a, sHi, x % q + q * i)
    ensures 0 < sLo * q && 0 < sLo * q * n && e == Peers(r, sLo * q * n, sLo * q, n)[i]
  {
    PieceEnd(q, n, a, x, i);
    OffsetDigits(sLo, a, sHi, x, 0);
    OffsetDigits(sLo, a, sHi, x % q + q * i, 0);
    LinearPeer(sLo, q, n, r, x, i, e);
  }

  lemma Adjacent(sLo: nat, a: nat, sHi: nat, q: nat, n: nat, r: nat, p: nat, i: nat, e: nat)
    requires 0 < sLo && 0 < a && 0 < q && 0 < n && sHi == sLo * a && p == r / sLo % (q * n) && i < n
    requires e + Offset(sLo, a, sHi, p) == r + Offset(sLo, a, sHi, p % q + q * i)
    ensures 0 < sLo * q && 0 < sLo * q * n && e == Peers(r, sLo * q * n, sLo * q, n)[i]
  {
    OffsetLinear(sLo, a, sHi, p);
    OffsetLinear(sLo, a, sHi, p % q + q * i);
    LinearPeer(sLo, q, n, r, p, i, e);
  }

  lemma WholePieces(sLo: nat, a: nat, sHi: nat, t: nat, n: nat, r: nat, x: nat, y: nat, i: nat, e: nat)
    requires 0 < sHi && x < a && 0 < t && 0 < n && y == r / sHi % (t * n) && i < n && 0 < a * t
    requires e + Offset(sLo, a, sHi, x + a * y) == r + Offset(sLo, a, sHi, (x + a * y) % (a * t) + a * t * i)
    ensures 0 < sHi * t && 0 < sHi * t * n && e == Peers(r, sHi * t * n, sHi * t, n)[i]
  {
    PieceDigits(a, t, x, y, i);
    OffsetDigits(sLo, a, sHi, x, y);
    OffsetDigits(sLo, a, sHi, x, y % t + t * i);
    LinearPeer(sHi, t, n, r, y, i, e);
  }

  /** With aligned sizes, the entry at the same place of another piece is a peer. */
  lemma {:induction false} AlignedPeer(sLo: nat, a: nat, sHi: nat, b: nat, q: nat, n: nat, block: nat, r: nat, x: nat, y: nat, i: nat, e: nat)
    requires 0 < sLo && 0 < a && 0 < sHi && 0 < b && 0 < q && 1 < n && q * n == a * b
    requires Aligned(sLo, a, sHi, b, q, n, block) && Coords(sLo, a, sHi, b, r, x, y) && i < n
    requires e + Offset(sLo, a, sHi, x + a * y) == r + Offset(sLo, a, sHi, (x + a * y) % q + q * i)
    ensures 0 < block && 0 < block * n && e == Peers(r, block * n, block, n)[i]
  {
    if a == 1 && sHi * q == block {
      TrivialLow(sLo, sHi, q, n, r, y, i, e);
    } else if b == 1 && sLo * q == block {
      TrivialHigh(sLo, a, sHi, q, n, r, x, i, e);
    } else if sHi == sLo * a && sLo * q == block {
      AdjacentCoords(sLo, a, sHi, b, r, x, y);
      Adjacent(sLo, a, sHi, q, n, r, x + a * y, i, e);
    } else {
      RunsOf(a, b, q, n);
      WholePieces(sLo, a, sHi, q / a, n, r, x, y, i, e);
    }
  }

  lemma PieceEnd(q: nat, n: nat, a: nat, x: nat, i: nat)
    requires 0 < q && q * n == a && x < a && i < n
    ensures x % q + q * i < a
  {
    TwoDigitsBound(x % q, i, q, n);
  }

  lemma RunsOf(a: nat, b: nat, q: nat, n: nat)
    requires 0 < a && 0 < b && 0 < n && q * n == a * b && b % n == 0
    ensures 0 < q / a && q == a * (q / a) && b == q / a * n
  {
    var t := b / n;
    DivModId(b, n);
    MulAssoc(a, t, n);
    CancelFactor(n, q, a * t);
    DivModUnique(q, a, t, 0);
    assert n * 0 == 0;
  }

  // ---- Groups of a factorisation ----

  /** The inter-instance group of a rank: its group under the mask, cut into `n` pieces of `c`, and from every
      piece the rank at the place of `r`. */
  ghost function InterGroup(sizes: seq<nat>, mask: seq<bool>, c: nat, n: nat, r: nat): (group: seq<nat>)
    requires |sizes| == |mask| && Positive(sizes) && 0 < c && 0 < n && GroupSize(sizes, mask) == c * n && r < Prod(sizes)
  {
    PartBound(sizes, mask, false, r);
    PartBound(sizes, mask, true, r);
    ProdTwo(c, n);
    OwnGroup(AllGroups(sizes, mask)[GroupOf(sizes, mask, r)], [c, n], 1, PosOf(sizes, mask, r))
  }

  lemma {:induction false} InterGroupAt(sizes: seq<nat>, mask: seq<bool>, c: nat, n: nat, r: nat, i: nat)
    requires |sizes| == |mask| && Positive(sizes) && 0 < c && 0 < n && GroupSize(sizes, mask) == c * n && r < Prod(sizes)
    requires i < n
    ensures |InterGroup(sizes, mask, c, n, r)| == n && PosOf(sizes, mask, r) % c + c * i < c * n
    ensures InterGroup(sizes, mask, c, n, r)[i] == RankAt(sizes, mask, GroupOf(sizes, mask, r), PosOf(sizes, mask, r) % c + c * i)
  {
    var g, p := GroupOf(sizes, mask, r), PosOf(sizes, mask, r);
    PartBound(sizes, mask, false, r);
    PartBound(sizes, mask, true, r);
    ProdTwo(c, n);
    InterIsStride(AllGroups(sizes, mask)[g], c, n, p, p % c, i);
  }

  /** Along one dimension the inter-instance group is the list of peers. */
  lemma {:induction false} OneHotInter(sizes: seq<nat>, j: nat, c: nat, n: nat, r: nat)
    requires Positive(sizes) && j < |sizes| && 0 < c && 0 < n && sizes[j] == c * n && r < Prod(sizes)
    ensures GroupSize(sizes, OneHot(|sizes|, j)) == c * n
    ensures 0 < StrideOf(sizes, j) * c * n && 0 < StrideOf(sizes, j) * c
    ensures InterGroup(sizes, OneHot(|sizes|, j), c, n, r) == Peers(r, StrideOf(sizes, j) * c * n, StrideOf(sizes, j) * c, n)
  {
    OneHotInterEntry(sizes, j, c, n, r, 0);
    var s := StrideOf(sizes, j);
    forall i | 0 <= i < n
      ensures InterGroup(sizes, OneHot(|sizes|, j), c, n, r)[i] == Peers(r, s * c * n, s * c, n)[i]
    {
      OneHotInterEntry(sizes, j, c, n, r, i);
    }
  }

  lemma {:induction false} OneHotInterEntry(sizes: seq<nat>, j: nat, c: nat, n: nat, r: nat, i: nat)
    requires Positive(sizes) && j < |sizes| && 0 < c && 0 < n && sizes[j] == c * n && r < Prod(sizes) && i < n
    ensures GroupSize(sizes, OneHot(|sizes|, j)) == c * n
    ensures 0 < StrideOf(sizes, j) * c * n && 0 < StrideOf(sizes, j) * c
    ensures |InterGroup(sizes, OneHot(|sizes|, j), c, n, r)| == n
    ensures InterGroup(sizes, OneHot(|sizes|, j), c, n, r)[i] == Peers(r, StrideOf(sizes, j) * c * n, StrideOf(sizes, j) * c, n)[i]
  {
    var mask, s := OneHot(|sizes|, j), StrideOf(sizes, j);
    var p := PosOf(sizes, mask, r);
    assert GroupSize(sizes, mask) == c * n by {
      OneHotCounts(sizes, j);
    }
    assert 0 < s by {
      ProdPositive(sizes[..j]);
    }
    OneHotPos(sizes, j, r);
    InterGroupAt(sizes, mask, c, n, r, i);
    OneHotEntry(sizes, j, c, n, r, p % c + c * i);
    LinearPeer(s, c, n, r, p, i, InterGroup(sizes, mask, c, n, r)[i]);
  }

  lemma OneHotEntry(sizes: seq<nat>, j: nat, c: nat, n: nat, r: nat, k: nat)
    requires Positive(sizes) && j < |sizes| && sizes[j] == c * n && r < Prod(sizes) && k < c * n
    ensures var mask, s := OneHot(|sizes|, j), StrideOf(sizes, j);
            RankAt(sizes, mask, GroupOf(sizes, mask, r), k) + s * PosOf(sizes, mask, r) == r + s * k
  {
    var mask := OneHot(|sizes|, j);
    var g, p := GroupOf(sizes, mask, r), PosOf(sizes, mask, r);
    RecombineSplit(sizes, mask, r);
    OneHotPos(sizes, j, r);
    OneHotOffset(sizes, j, g, p);
    OneHotOffset(sizes, j, g, k);
    DivModUnique(p, sizes[j], 0, p);
    DivModUnique(k, sizes[j], 0, k);
  }

  /** What is needed to cut the two-dimensional groups of a factorisation. */
  ghost predicate TwoCut(sizes: seq<nat>, lo: nat, hi: nat, q: nat, n: nat) {
    Positive(sizes) && lo < hi < |sizes| && 0 < q && 0 < n && q * n == sizes[lo] * sizes[hi]
  }

  lemma {:induction false} TwoHotEntry(sizes: seq<nat>, lo: nat, hi: nat, q: nat, n: nat, r: nat, i: nat, k: nat)
    requires TwoCut(sizes, lo, hi, q, n) && r < Prod(sizes) && i < n && k == PosOf(sizes, TwoHot(|sizes|, lo, hi), r) % q + q * i
    ensures GroupSize(sizes, TwoHot(|sizes|, lo, hi)) == q * n
    ensures var sLo, a, sHi := StrideOf(sizes, lo), sizes[lo], StrideOf(sizes, hi);
            var p := PosOf(sizes, TwoHot(|sizes|, lo, hi), r);
            && p < q * n && p == Coord(sizes, lo, r) + a * Coord(sizes, hi, r)
            && |InterGroup(sizes, TwoHot(|sizes|, lo, hi), q, n, r)| == n
            && InterGroup(sizes, TwoHot(|sizes|, lo, hi), q, n, r)[i] + Offset(sLo, a, sHi, p) == r + Offset(sLo, a, sHi, k)
  {
    var mask := TwoHot(|sizes|, lo, hi);
    var g, p := GroupOf(sizes, mask, r), PosOf(sizes, mask, r);
    TwoHotSize(sizes, lo, hi);
    InterGroupAt(sizes, mask, q, n, r, i);
    PartBound(sizes, mask, true, r);
    RecombineSplit(sizes, mask, r);
    TwoHotPos(sizes, lo, hi, r);
    TwoHotOffset(sizes, lo, hi, g, p);
    TwoHotOffset(sizes, lo, hi, g, k);
  }

  /** With aligned sizes the inter-instance group over two dimensions is the list of peers too. */
  lemma {:induction false} AlignedInter(sizes: seq<nat>, lo: nat, hi: nat, q: nat, n: nat, block: nat, r: nat)
    requires TwoCut(sizes, lo, hi, q, n) && r < Prod(sizes) && 1 < n
    requires Aligned(StrideOf(sizes, lo), sizes[lo], StrideOf(sizes, hi), sizes[hi], q, n, block)
    ensures GroupSize(sizes, TwoHot(|sizes|, lo, hi)) == q * n && 0 < block && 0 < block * n
    ensures InterGroup(sizes, TwoHot(|sizes|, lo, hi), q, n, r) == Peers(r, block * n, block, n)
  {
    var mask := TwoHot(|sizes|, lo, hi);
    AlignedEntry(sizes, lo, hi, q, n, block, r, 0);
    forall i | 0 <= i < n
      ensures InterGroup(sizes, mask, q, n, r)[i] == Peers(r, block * n, block, n)[i]
    {
      AlignedEntry(sizes, lo, hi, q, n, block, r, i);
    }
  }

  lemma {:induction false} AlignedEntry(sizes: seq<nat>, lo: nat, hi: nat, q: nat, n: nat, block: nat, r: nat, i: nat)
    requires TwoCut(sizes, lo, hi, q, n) && r < Prod(sizes) && 1 < n && i < n
    requires Aligned(StrideOf(sizes, lo), sizes[lo], StrideOf(sizes, hi), sizes[hi], q, n, block)
    ensures GroupSize(sizes, TwoHot(|sizes|, lo, hi)) == q * n && 0 < block && 0 < block * n
    ensures |InterGroup(sizes, TwoHot(|sizes|, lo, hi), q, n, r)| == n
    ensures InterGroup(sizes, TwoHot(|sizes|, lo, hi), q, n, r)[i] == Peers(r, block * n, block, n)[i]
  {
    ProdPositive(sizes[..lo]);
    ProdPositive(sizes[..hi]);
    TwoHotEntry(sizes, lo, hi, q, n, r, i, PosOf(sizes, TwoHot(|sizes|, lo, hi), r) % q + q * i);
    AlignedPeer(StrideOf(sizes, lo), sizes[lo], StrideOf(sizes, hi), sizes[hi], q, n, block,
                r, Coord(sizes, lo, r), Coord(sizes, hi, r), i, InterGroup(sizes, TwoHot(|sizes|, lo, hi), q, n, r)[i]);
  }

  /** Consecutive entries lie one block apart. */
  ghost predicate BlockSteps(group: seq<nat>, block: nat) {
    forall i :: 0 <= i && i + 1 < |group| ==> group[i + 1] == group[i] + block
  }

  lemma PeersStep(r: nat, block: nat, n: nat)
    requires 0 < block && 0 < block * n
    ensures BlockSteps(Peers(r, block * n, block, n), block)
  {
    forall i | 0 <= i && i + 1 < n
      ensures Peers(r, block * n, block, n)[i + 1] == Peers(r, block * n, block, n)[i] + block
    {
      assert block * (i + 1) == block * i + block;
    }
  }

  /** If the inter-instance group of the rank at position `x` goes by blocks, one piece further is one block
      further. */
  lemma {:induction false} PieceStep(sizes: seq<nat>, lo: nat, hi: nat, q: nat, n: nat, block: nat, x: nat, r: nat)
    requires TwoCut(sizes, lo, hi, q, n) && r < Prod(sizes) && x + q < q * n
    requires PosOf(sizes, TwoHot(|sizes|, lo, hi), r) == x && GroupSize(sizes, TwoHot(|sizes|, lo, hi)) == q * n
    requires BlockSteps(InterGroup(sizes, TwoHot(|sizes|, lo, hi), q, n, r), block)
    ensures var sLo, a, sHi := StrideOf(sizes, lo), sizes[lo], StrideOf(sizes, hi);
            Offset(sLo, a, sHi, x + q) == Offset(sLo, a, sHi, x) + block
  {
    var i := x / q;
    var group := InterGroup(sizes, TwoHot(|sizes|, lo, hi), q, n, r);
    var o, o' := Offset(StrideOf(sizes, lo), sizes[lo], StrideOf(sizes, hi), x), Offset(StrideOf(sizes, lo), sizes[lo], StrideOf(sizes, hi), x + q);
    NextPiece(x, q, n);
    assert |group| == n && group[i] + o == r + o by {
      TwoHotEntry(sizes, lo, hi, q, n, r, i, x);
    }
    assert group[i + 1] + o == r + o' by {
      TwoHotEntry(sizes, lo, hi, q, n, r, i + 1, x + q);
    }
    BlockStep(group, block, i, r, o, o');
  }

  lemma BlockStep(group: seq<nat>, block: nat, i: nat, r: nat, o: nat, o': nat)
    requires BlockSteps(group, block) && i + 1 < |group| && group[i] + o == r + o && group[i + 1] + o == r + o'
    ensures o' == o + block
  {
  }

  lemma NextPiece(x: nat, q: nat, n: nat)
    requires 0 < q && x + q < q * n
    ensures x / q + 1 < n && x % q + q * (x / q) == x && x % q + q * (x / q + 1) == x + q
  {
    DivModId(x, q);
    assert q * (x / q + 1) == q * (x / q) + q;
    DivBound(x + q, q, n);
    DivModUnique(x + q, q, x / q + 1, x % q);
  }

  /** The rank at a position of the first group. */
  lemma {:induction false} RankAtPosition(sizes: seq<nat>, lo: nat, hi: nat, x: nat) returns (r: nat)
    requires Positive(sizes) && lo < hi < |sizes| && x < sizes[lo] * sizes[hi]
    ensures r < Prod(sizes) && PosOf(sizes, TwoHot(|sizes|, lo, hi), r) == x
  {
    var mask := TwoHot(|sizes|, lo, hi);
    r := RankAt(sizes, mask, 0, x);
    TwoHotSize(sizes, lo, hi);
    CountsPositive(sizes, mask);
    RankAtBound(sizes, mask, 0, x);
    SplitRecombine(sizes, mask, 0, x);
  }

  /** With one piece the inter-instance group is the rank itself. */
  lemma {:induction false} SingleInter(sizes: seq<nat>, mask: seq<bool>, c: nat, r: nat)
    requires |sizes| == |mask| && Positive(sizes) && 0 < c && GroupSize(sizes, mask) == c * 1 && r < Prod(sizes)
    ensures InterGroup(sizes, mask, c, 1, r) == [r]
  {
    var p := PosOf(sizes, mask, r);
    InterGroupAt(sizes, mask, c, 1, r, 0);
    PartBound(sizes, mask, true, r);
    DivModUnique(p, c, 0, p);
    RecombineSplit(sizes, mask, r);
  }

  /** Everything the two sides are made of: attention groups over dimensions `lo` and `hi` of `a`, expert groups
      along dimension `j` of `e`, both cut into `n` pieces. */
  ghost predicate BothCut(a: seq<nat>, lo: nat, hi: nat, q: nat, e: seq<nat>, j: nat, k: nat, n: nat) {
    && TwoCut(a, lo, hi, q, n) && GroupSize(a, TwoHot(|a|, lo, hi)) == q * n
    && Positive(e) && j < |e| && 0 < k && e[j] == k * n && GroupSize(e, OneHot(|e|, j)) == k * n
    && Prod(a) == Prod(e)
  }

  ghost predicate SameInter(a: seq<nat>, lo: nat, hi: nat, q: nat, e: seq<nat>, j: nat, k: nat, n: nat, r: nat)
    requires BothCut(a, lo, hi, q, e, j, k, n) && r < Prod(a)
  {
    InterGroup(a, TwoHot(|a|, lo, hi), q, n, r) == InterGroup(e, OneHot(|e|, j), k, n, r)
  }

  lemma {:induction false} SameIfAligned(a: seq<nat>, lo: nat, hi: nat, q: nat, e: seq<nat>, j: nat, k: nat, n: nat, r: nat)
    requires BothCut(a, lo, hi, q, e, j, k, n) && r < Prod(a)
    requires Aligned(StrideOf(a, lo), a[lo], StrideOf(a, hi), a[hi], q, n, StrideOf(e, j) * k)
    ensures SameInter(a, lo, hi, q, e, j, k, n, r)
  {
    if n == 1 {
      SingleInter(a, TwoHot(|a|, lo, hi), q, r);
      SingleInter(e, OneHot(|e|, j), k, r);
    } else {
      AlignedInter(a, lo, hi, q, n, StrideOf(e, j) * k, r);
      OneHotInter(e, j, k, n, r);
    }
  }

  lemma {:induction false} StepIfSame(a: seq<nat>, lo: nat, hi: nat, q: nat, e: seq<nat>, j: nat, k: nat, n: nat, x: nat)
    requires BothCut(a, lo, hi, q, e, j, k, n) && x + q < a[lo] * a[hi]
    requires forall r :: 0 <= r < Prod(a) ==> SameInter(a, lo, hi, q, e, j, k, n, r)
    ensures var sLo, sHi := StrideOf(a, lo), StrideOf(a, hi);
            Offset(sLo, a[lo], sHi, x + q) == Offset(sLo, a[lo], sHi, x) + StrideOf(e, j) * k
  {
    var r := RankAtPosition(a, lo, hi, x);
    assert SameInter(a, lo, hi, q, e, j, k, n, r);
    OneHotInter(e, j, k, n, r);
    PeersStep(r, StrideOf(e, j) * k, n);
    PieceStep(a, lo, hi, q, n, StrideOf(e, j) * k, x, r);
  }

  /** Two factorisations of one world give every rank the same inter-instance group exactly when the
      attention side is aligned with the blocks of the expert side. */
  lemma {:induction false} SameInterIff(a: seq<nat>, lo: nat, hi: nat, q: nat, e: seq<nat>, j: nat, k: nat, n: nat)
    requires BothCut(a, lo, hi, q, e, j, k, n)
    ensures (forall r :: 0 <= r < Prod(a) ==> SameInter(a, lo, hi, q, e, j, k, n, r)) <==>
            Aligned(StrideOf(a, lo), a[lo], StrideOf(a, hi), a[hi], q, n, StrideOf(e, j) * k)
  {
    if Aligned(StrideOf(a, lo), a[lo], StrideOf(a, hi), a[hi], q, n, StrideOf(e, j) * k) {
      forall r | 0 <= r < Prod(a)
        ensures SameInter(a, lo, hi, q, e, j, k, n, r)
      {
        SameIfAligned(a, lo, hi, q, e, j, k, n, r);
      }
    } else if forall r :: 0 <= r < Prod(a) ==> SameInter(a, lo, hi, q, e, j, k, n, r) {
      forall x: nat | x + q < a[lo] * a[hi]
        ensures Offset(StrideOf(a, lo), a[lo], StrideOf(a, hi), x + q) == Offset(StrideOf(a, lo), a[lo], StrideOf(a, hi), x) + StrideOf(e, j) * k
      {
        StepIfSame(a, lo, hi, q, e, j, k, n, x);
      }
      StepsAligned(StrideOf(a, lo), a[lo], StrideOf(a, hi), a[hi], q, n, StrideOf(e, j) * k);
    }
  }

  // ---- Configurations ----

  /** Two factorisations over one completed order whose data-parallel sizes can be cut into `n` instances. */
  ghost predicate Cuttable(full: seq<Dim>, decoder: Sizes, expert: Sizes, n: nat) {
    && NoRepeat(full) && Dp in full && Cp in full && decoder.AllPositive() && expert.AllPositive()
    && Prod(OrderedSizes(decoder, full)) == Prod(OrderedSizes(expert, full))
    && 0 < n && decoder.dp * decoder.cp % n == 0 && expert.dp % n == 0
  }

  function Lower(full: seq<Dim>): nat
    requires Dp in full && Cp in full
  {
    if IndexOf(full, Dp) < IndexOf(full, Cp) then IndexOf(full, Dp) else IndexOf(full, Cp)
  }

  function Higher(full: seq<Dim>): nat
    requires Dp in full && Cp in full
  {
    if IndexOf(full, Dp) < IndexOf(full, Cp) then IndexOf(full, Cp) else IndexOf(full, Dp)
  }

  /** The condition, computed from the order and the sizes. */
  predicate InterAligned(full: seq<Dim>, decoder: Sizes, expert: Sizes, n: nat)
    requires Dp in full && Cp in full && 0 < n
  {
    var a, e := OrderedSizes(decoder, full), OrderedSizes(expert, full);
    var lo, hi := Lower(full), Higher(full);
    var stride: nat, share: nat := StrideOf(e, IndexOf(full, Dp)), expert.dp / n;
    Aligned(StrideOf(a, lo), a[lo], StrideOf(a, hi), a[hi], decoder.dp * decoder.cp / n, n, stride * share)
  }

  lemma DpMaskIsOneHot(full: seq<Dim>)
    requires NoRepeat(full) && Dp in full
    ensures MaskFor(full, [Dp]) == OneHot(|full|, IndexOf(full, Dp))
  {
    var i := IndexOf(full, Dp);
    forall j | 0 <= j < |full|
      ensures full[j] in [Dp] <==> j == i
    {
      assert full[j] == full[i] ==> j == i;
    }
  }

  lemma DpCpMaskIsTwoHot(full: seq<Dim>)
    requires NoRepeat(full) && Dp in full && Cp in full
    ensures Lower(full) < Higher(full) < |full|
    ensures MaskFor(full, [Dp, Cp]) == TwoHot(|full|, Lower(full), Higher(full))
  {
    var i, k := IndexOf(full, Dp), IndexOf(full, Cp);
    forall j | 0 <= j < |full|
      ensures full[j] in [Dp, Cp] <==> j == i || j == k
    {
      assert full[j] == full[i] ==> j == i;
      assert full[j] == full[k] ==> j == k;
    }
  }

  lemma DpCpProduct(full: seq<Dim>, sizes: Sizes)
    requires NoRepeat(full) && Dp in full && Cp in full && Lower(full) < Higher(full) < |full|
    ensures OrderedSizes(sizes, full)[Lower(full)] * OrderedSizes(sizes, full)[Higher(full)] == sizes.dp * sizes.cp
    ensures OrderedSizes(sizes, full)[IndexOf(full, Dp)] == sizes.dp
  {
    var d, c := OrderedSizes(sizes, full)[IndexOf(full, Dp)], OrderedSizes(sizes, full)[IndexOf(full, Cp)];
    assert d == sizes.dp && c == sizes.cp;
    assert d * c == c * d;
  }

  lemma BothCutBy(a: seq<nat>, lo: nat, hi: nat, q: nat, e: seq<nat>, j: nat, k: nat, n: nat)
    requires Positive(a) && lo < hi < |a| && Positive(e) && j < |e| && Prod(a) == Prod(e) && 0 < n
    requires 0 < q && q * n == a[lo] * a[hi] && 0 < k && k * n == e[j]
    ensures BothCut(a, lo, hi, q, e, j, k, n)
  {
    assert GroupSize(a, TwoHot(|a|, lo, hi)) == q * n by {
      TwoHotSize(a, lo, hi);
    }
    assert GroupSize(e, OneHot(|e|, j)) == k * n by {
      OneHotCounts(e, j);
    }
  }

  lemma {:induction false} CutSizes(full: seq<Dim>, decoder: Sizes, expert: Sizes, n: nat)
    requires Cuttable(full, decoder, expert, n)
    ensures Positive(OrderedSizes(decoder, full)) && Positive(OrderedSizes(expert, full))
    ensures BothCut(OrderedSizes(decoder, full), Lower(full), Higher(full), decoder.dp * decoder.cp / n,
                    OrderedSizes(expert, full), IndexOf(full, Dp), expert.dp / n, n)
  {
    DpCpMaskIsTwoHot(full);
    DpCpProduct(full, decoder);
    DpCpProduct(full, expert);
    assert 0 < decoder.dp * decoder.cp / n && decoder.dp * decoder.cp / n * n == decoder.dp * decoder.cp by {
      ExactQuotient(decoder.dp * decoder.cp, n);
    }
    assert 0 < expert.dp / n && expert.dp / n * n == expert.dp by {
      ExactQuotient(expert.dp, n);
    }
    BothCutBy(OrderedSizes(decoder, full), Lower(full), Higher(full), decoder.dp * decoder.cp / n,
              OrderedSizes(expert, full), IndexOf(full, Dp), expert.dp / n, n);
  }

  /** What a rank needs for its inter-instance groups to be defined on both sides. */
  ghost predicate Defined(full: seq<Dim>, decoder: Sizes, expert: Sizes, n: nat) {
    && Cuttable(full, decoder, expert, n)
    && Positive(OrderedSizes(decoder, full)) && Positive(OrderedSizes(expert, full))
    && 0 < decoder.dp * decoder.cp / n && 0 < expert.dp / n
    && GroupSize(OrderedSizes(decoder, full), MaskFor(full, [Dp, Cp])) == decoder.dp * decoder.cp / n * n
    && GroupSize(OrderedSizes(expert, full), MaskFor(full, [Dp])) == expert.dp / n * n
  }

  lemma CuttableDefined(full: seq<Dim>, decoder: Sizes, expert: Sizes, n: nat)
    requires Cuttable(full, decoder, expert, n)
    ensures Defined(full, decoder, expert, n)
  {
    CutSizes(full, decoder, expert, n);
    DpMaskIsOneHot(full);
    DpCpMaskIsTwoHot(full);
  }

  /** The inter-instance group of a rank that the attention dp-cp groups would give. */
  ghost function AttentionInter(full: seq<Dim>, decoder: Sizes, expert: Sizes, n: nat, r: nat): seq<nat>
    requires Cuttable(full, decoder, expert, n) && r < Prod(OrderedSizes(decoder, full))
  {
    CuttableDefined(full, decoder, expert, n);
    InterGroup(OrderedSizes(decoder, full), MaskFor(full, [Dp, Cp]), decoder.dp * decoder.cp / n, n, r)
  }

  /** The inter-instance group of a rank that is built, from the expert dp groups. */
  ghost function ExpertInter(full: seq<Dim>, decoder: Sizes, expert: Sizes, n: nat, r: nat): seq<nat>
    requires Cuttable(full, decoder, expert, n) && r < Prod(OrderedSizes(decoder, full))
  {
    CuttableDefined(full, decoder, expert, n);
    InterGroup(OrderedSizes(expert, full), MaskFor(full, [Dp]), expert.dp / n, n, r)
  }

  lemma {:induction false} SameInterMasks(full: seq<Dim>, decoder: Sizes, expert: Sizes, n: nat, r: nat)
    requires Cuttable(full, decoder, expert, n) && r < Prod(OrderedSizes(decoder, full))
    ensures BothCut(OrderedSizes(decoder, full), Lower(full), Higher(full), decoder.dp * decoder.cp / n,
                    OrderedSizes(expert, full), IndexOf(full, Dp), expert.dp / n, n)
    ensures AttentionInter(full, decoder, expert, n, r) == ExpertInter(full, decoder, expert, n, r) <==>
            SameInter(OrderedSizes(decoder, full), Lower(full), Higher(full), decoder.dp * decoder.cp / n,
                      OrderedSizes(expert, full), IndexOf(full, Dp), expert.dp / n, n, r)
  {
    CutSizes(full, decoder, expert, n);
    DpMaskIsOneHot(full);
    DpCpMaskIsTwoHot(full);
  }

  lemma {:induction false} AgreeIff(full: seq<Dim>, decoder: Sizes, expert: Sizes, n: nat)
    requires Cuttable(full, decoder, expert, n)
    ensures (forall r :: 0 <= r < Prod(OrderedSizes(decoder, full)) ==> AttentionInter(full, decoder, expert, n, r) == ExpertInter(full, decoder, expert, n, r)) <==>
            InterAligned(full, decoder, expert, n)
  {
    var a, e := OrderedSizes(decoder, full), OrderedSizes(expert, full);
    var q, k := decoder.dp * decoder.cp / n, expert.dp / n;
    CutSizes(full, decoder, expert, n);
    forall r | 0 <= r < Prod(a)
      ensures AttentionInter(full, decoder, expert, n, r) == ExpertInter(full, decoder, expert, n, r) <==>
              SameInter(a, Lower(full), Higher(full), q, e, IndexOf(full, Dp), k, n, r)
    {
      SameInterMasks(full, decoder, expert, n, r);
    }
    SameInterIff(a, Lower(full), Higher(full), q, e, IndexOf(full, Dp), k, n);
  }

  /** A configuration whose data-parallel sizes can be cut into `n` instances, under any order of distinct
      tokens. */
  ghost predicate Instanced(c: Config, n: nat) {
    && c.Valid() && c.Divides() && NoRepeat(c.order) && 0 < n
    && c.Decoder().dp * c.cp % n == 0 && c.Expert().dp % n == 0
  }

  lemma {:induction false} InstancedCuttable(c: Config, n: nat, full: seq<Dim>)
    requires Instanced(c, n) && full == Completed(c.order, TOKENS)
    ensures Cuttable(full, c.Decoder(), c.Expert(), n) && Prod(OrderedSizes(c.Decoder(), full)) == c.world
  {
    BothFactorTheWorld(c);
    AllTokens();
    CompletedProperties(c.order, TOKENS);
    OrderedSizesMultiply(c.Decoder(), c.order);
    OrderedSizesMultiply(c.Expert(), c.order);
  }

  /** For every configuration and every order of distinct tokens: attention and expert layers share the
      inter-instance group of every rank exactly when the sizes are aligned. */
  lemma {:induction false} InterGroupsAgreeIff(c: Config, n: nat, full: seq<Dim>)
    requires Instanced(c, n) && full == Completed(c.order, TOKENS)
    ensures Cuttable(full, c.Decoder(), c.Expert(), n) && Prod(OrderedSizes(c.Decoder(), full)) == c.world
    ensures (forall r :: 0 <= r < c.world ==>
               AttentionInter(full, c.Decoder(), c.Expert(), n, r) == ExpertInter(full, c.Decoder(), c.Expert(), n, r)) <==>
            InterAligned(full, c.Decoder(), c.Expert(), n)
  {
    InstancedCuttable(c, n, full);
    AgreeIff(full, c.Decoder(), c.Expert(), n);
  }

  /** The default order is aligned for every accepted configuration: cp and dp are adjacent. */
  lemma {:induction false} DefaultOrderAligned(c: Config, n: nat)
    requires Accepted(c, n)
    ensures c.Decoder().AllPositive() && InterAligned(DEFAULT_ORDER, c.Decoder(), c.Expert(), n)
  {
    var t := CutOf(c, n);
    CutConsistent(c, n);
    BothFactorTheWorld(c);
    DefaultIndices();
    DefaultStrides(t.tp, t.cp, t.dp, t.pp);
    ExpertStride(t.etp, t.ep, t.edp, t.pp);
  }

  lemma DefaultIndices()
    ensures IndexOf(DEFAULT_ORDER, Dp) == 3 && IndexOf(DEFAULT_ORDER, Cp) == 1
  {
    var o := DEFAULT_ORDER;
    assert o[1..] == [Cp, Ep, Dp, Pp] && o[1..][1..] == [Ep, Dp, Pp] && o[1..][1..][1..] == [Dp, Pp];
  }

  lemma DefaultStrides(tp: nat, cp: nat, dp: nat, pp: nat)
    ensures StrideOf([tp, cp, 1, dp, pp], 1) == tp && StrideOf([tp, cp, 1, dp, pp], 3) == tp * cp
  {
    assert [tp, cp, 1, dp, pp][..1] == [tp] && [tp, cp, 1, dp, pp][..3] == [tp, cp, 1];
    ProdThree(tp, cp, 1);
  }

  lemma ExpertStride(etp: nat, ep: nat, edp: nat, pp: nat)
    ensures StrideOf([etp, 1, ep, edp, pp], 3) == etp * ep
  {
    assert [etp, 1, ep, edp, pp][..3] == [etp, 1, ep];
    ProdThree(etp, 1, ep);
  }

  lemma ProdThree(a: nat, b: nat, c: nat)
    ensures Prod([a, b, c]) == a * (b * c) && Prod([a]) == a
  {
    ProdTwo(b, c);
    ProdTwo(a, b);
    assert [a, b, c][1..] == [b, c];
  }

  const OTHER: Config := Config(4, 1, 1, 1, 2, 1, [Tp, Dp, Cp, Ep, Pp])

  /** The order tp-dp-cp-ep-pp passes every check: dp = 4 on the attention side, ep = 2 and dp = 2 on the expert
      side, two instances. */
  lemma OtherOrderPasses()
    ensures Instanced(OTHER, 2) && OTHER.PpLast() && Completed(OTHER.order, TOKENS) == OTHER.order
    ensures Covers(OTHER.Decoder(), OTHER.order) && Covers(OTHER.Expert(), OTHER.order)
  {
    var o := OTHER.order;
    assert o[0] == Tp && o[1] == Dp && o[2] == Cp && o[3] == Ep && o[4] == Pp;
    forall d: Dim
      ensures d in o
    {
      match d
      case Tp =>
      case Cp =>
      case Ep =>
      case Dp =>
      case Pp =>
    }
  }

  /** There, attention and expert layers do not share the inter-instance groups. */
  lemma {:induction false} OtherOrderDisagrees(full: seq<Dim>)
    requires full == OTHER.order
    ensures Instanced(OTHER, 2) && Cuttable(full, OTHER.Decoder(), OTHER.Expert(), 2) && Prod(OrderedSizes(OTHER.Decoder(), full)) == 4
    ensures exists r :: 0 <= r < 4 && AttentionInter(full, OTHER.Decoder(), OTHER.Expert(), 2, r) != ExpertInter(full, OTHER.Decoder(), OTHER.Expert(), 2, r)
  {
    OtherOrderPasses();
    InterGroupsAgreeIff(OTHER, 2, full);
    OtherNotAligned(full);
  }

  lemma OtherNotAligned(full: seq<Dim>)
    requires full == [Tp, Dp, Cp, Ep, Pp] && Cuttable(full, OTHER.Decoder(), OTHER.Expert(), 2)
    ensures !InterAligned(full, OTHER.Decoder(), OTHER.Expert(), 2)
  {
    assert full[1..] == [Dp, Cp, Ep, Pp] && full[1..][1..] == [Cp, Ep, Pp];
    assert IndexOf(full, Dp) == 1 && IndexOf(full, Cp) == 2;
    var a, e := OrderedSizes(OTHER.Decoder(), full), OrderedSizes(OTHER.Expert(), full);
    assert a[..1] == [1] && a[..2] == [1, 4] && e[..1] == [1];
    ProdTwo(1, 4);
  }
}
