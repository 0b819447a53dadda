/** The diffusion layer of ARIA (section 2.4.3 of RFC 5794): a 16 x 16 binary matrix that is
    XOR-linear and its own inverse. */
module AriaDiffusion {
  import opened Bytes
  import opened Words

  datatype Quad = Quad(a: Col, b: Col, c: Col, d: Col)

  // ---- the diffusion layer of section 2.4.3 of RFC 5794 ----

  function Sum7(a: byte, b: byte, c: byte, d: byte, e: byte, f: byte, g: byte): byte {
    Xor(Xor(Xor(Xor(Xor(Xor(a, b), c), d), e), f), g)
  }

  /** The 16 x 16 binary matrix A: the input bytes x0 .. x15 are the bytes of a, b, c and d. */
  function Diffuse(x: Quad): Quad {
    var Col(x0, x1, x2, x3) := x.a;
    var Col(x4, x5, x6, x7) := x.b;
    var Col(x8, x9, x10, x11) := x.c;
    var Col(x12, x13, x14, x15) := x.d;
    Quad(Col(Sum7(x3, x4, x6, x8, x9, x13, x14), Sum7(x2, x5, x7, x8, x9, x12, x15),
             Sum7(x1, x4, x6, x10, x11, x12, x15), Sum7(x0, x5, x7, x10, x11, x13, x14)),
         Col(Sum7(x0, x2, x5, x8, x11, x14, x15), Sum7(x1, x3, x4, x9, x10, x14, x15),
             Sum7(x0, x2, x7, x9, x10, x12, x13), Sum7(x1, x3, x6, x8, x11, x12, x13)),
         Col(Sum7(x0, x1, x4, x7, x10, x13, x15), Sum7(x0, x1, x5, x6, x11, x12, x14),
             Sum7(x2, x3, x5, x6, x8, x13, x15), Sum7(x2, x3, x4, x7, x9, x12, x14)),
         Col(Sum7(x1, x2, x6, x7, x9, x11, x12), Sum7(x0, x3, x6, x7, x8, x10, x13),
             Sum7(x0, x3, x4, x5, x9, x11, x14), Sum7(x1, x2, x4, x5, x8, x10, x15)))
  }

  // The byte orders P1 (1032), P2 (2301) and P3 (3210) of a column.
  function Swap1(c: Col): Col { Col(c.b1, c.b0, c.b3, c.b2) }
  function Swap2(c: Col): Col { Col(c.b2, c.b3, c.b0, c.b1) }
  function Swap3(c: Col): Col { Col(c.b3, c.b2, c.b1, c.b0) }

  // Sums of two of the four byte orders.
  function Fold1(c: Col): Col { XorCol(c, Swap1(c)) }
  function Fold2(c: Col): Col { XorCol(c, Swap2(c)) }
  function Fold3(c: Col): Col { XorCol(c, Swap3(c)) }
  function Fold12(c: Col): Col { XorCol(Swap1(c), Swap2(c)) }
  function Fold13(c: Col): Col { XorCol(Swap1(c), Swap3(c)) }
  function Fold23(c: Col): Col { XorCol(Swap2(c), Swap3(c)) }

  function SumCol(a: Col, b: Col, c: Col, d: Col): Col { XorCol(XorCol(XorCol(a, b), c), d) }

  // Row by row, A is a symmetric 4 x 4 matrix of sums of byte orders.
  function RowA(x: Quad): Col { SumCol(Swap3(x.a), Fold2(x.b), Fold1(x.c), Fold12(x.d)) }
  function RowB(x: Quad): Col { SumCol(Fold2(x.a), Swap1(x.b), Fold3(x.c), Fold23(x.d)) }
  function RowC(x: Quad): Col { SumCol(Fold1(x.a), Fold3(x.b), Swap2(x.c), Fold13(x.d)) }
  function RowD(x: Quad): Col { SumCol(Fold12(x.a), Fold23(x.b), Fold13(x.c), x.d) }

  // Sum7 regrouped as the rows add their terms: three pairs and a single byte.
  lemma Regroup(a: byte, b: byte, c: byte, d: byte, e: byte, f: byte, g: byte)
    ensures Sum7(a, b, c, d, e, f, g) == Xor(Xor(Xor(a, Xor(b, c)), Xor(d, e)), Xor(f, g))
    ensures Sum7(a, b, c, d, e, f, g) == Xor(Xor(Xor(Xor(a, b), c), Xor(d, e)), Xor(f, g))
    ensures Sum7(a, b, c, d, e, f, g) == Xor(Xor(Xor(Xor(a, b), Xor(c, d)), e), Xor(f, g))
    ensures Sum7(a, b, c, d, e, f, g) == Xor(Xor(Xor(Xor(a, b), Xor(c, d)), Xor(e, f)), g)
  {
    hide Xor;
    XorAssoc(a, b, c);
    XorAssoc(Xor(Xor(a, b), c), d, e);
    XorAssoc(Xor(a, b), c, d);
    XorAssoc(Xor(Xor(Xor(Xor(a, b), c), d), e), f, g);
    XorAssoc(Xor(Xor(Xor(a, b), c), d), e, f);
  }

  lemma DiffuseRowA(x: Quad)
    ensures Diffuse(x).a == RowA(x)
  {
    hide Xor;
    Regroup(x.a.b3, x.b.b0, x.b.b2, x.c.b0, x.c.b1, x.d.b1, x.d.b2);
    Regroup(x.a.b2, x.b.b1, x.b.b3, x.c.b0, x.c.b1, x.d.b0, x.d.b3);
    XorComm(x.c.b1, x.c.b0);
    Regroup(x.a.b1, x.b.b0, x.b.b2, x.c.b2, x.c.b3, x.d.b0, x.d.b3);
    XorComm(x.b.b2, x.b.b0);
    XorComm(x.d.b3, x.d.b0);
    Regroup(x.a.b0, x.b.b1, x.b.b3, x.c.b2, x.c.b3, x.d.b1, x.d.b2);
    XorComm(x.b.b3, x.b.b1);
    XorComm(x.c.b3, x.c.b2);
    XorComm(x.d.b2, x.d.b1);
  }

  lemma DiffuseRowB(x: Quad)
    ensures Diffuse(x).b == RowB(x)
  {
    hide Xor;
    Regroup(x.a.b0, x.a.b2, x.b.b1, x.c.b0, x.c.b3, x.d.b2, x.d.b3);
    Regroup(x.a.b1, x.a.b3, x.b.b0, x.c.b1, x.c.b2, x.d.b2, x.d.b3);
    XorComm(x.d.b3, x.d.b2);
    Regroup(x.a.b0, x.a.b2, x.b.b3, x.c.b1, x.c.b2, x.d.b0, x.d.b1);
    XorComm(x.a.b2, x.a.b0);
    XorComm(x.c.b2, x.c.b1);
    Regroup(x.a.b1, x.a.b3, x.b.b2, x.c.b0, x.c.b3, x.d.b0, x.d.b1);
    XorComm(x.a.b3, x.a.b1);
    XorComm(x.c.b3, x.c.b0);
    XorComm(x.d.b1, x.d.b0);
  }

  lemma DiffuseRowC(x: Quad)
    ensures Diffuse(x).c == RowC(x)
  {
    hide Xor;
    Regroup(x.a.b0, x.a.b1, x.b.b0, x.b.b3, x.c.b2, x.d.b1, x.d.b3);
    Regroup(x.a.b0, x.a.b1, x.b.b1, x.b.b2, x.c.b3, x.d.b0, x.d.b2);
    XorComm(x.a.b1, x.a.b0);
    Regroup(x.a.b2, x.a.b3, x.b.b1, x.b.b2, x.c.b0, x.d.b1, x.d.b3);
    XorComm(x.b.b2, x.b.b1);
    XorComm(x.d.b3, x.d.b1);
    Regroup(x.a.b2, x.a.b3, x.b.b0, x.b.b3, x.c.b1, x.d.b0, x.d.b2);
    XorComm(x.a.b3, x.a.b2);
    XorComm(x.b.b3, x.b.b0);
    XorComm(x.d.b2, x.d.b0);
  }

  lemma DiffuseRowD(x: Quad)
    ensures Diffuse(x).d == RowD(x)
  {
    hide Xor;
    Regroup(x.a.b1, x.a.b2, x.b.b2, x.b.b3, x.c.b1, x.c.b3, x.d.b0);
    Regroup(x.a.b0, x.a.b3, x.b.b2, x.b.b3, x.c.b0, x.c.b2, x.d.b1);
    XorComm(x.b.b3, x.b.b2);
    Regroup(x.a.b0, x.a.b3, x.b.b0, x.b.b1, x.c.b1, x.c.b3, x.d.b2);
    XorComm(x.a.b3, x.a.b0);
    XorComm(x.c.b3, x.c.b1);
    Regroup(x.a.b1, x.a.b2, x.b.b0, x.b.b1, x.c.b0, x.c.b2, x.d.b3);
    XorComm(x.a.b2, x.a.b1);
    XorComm(x.b.b1, x.b.b0);
    XorComm(x.c.b2, x.c.b0);
  }

  const ZERO: Col := Col(0, 0, 0, 0)

  /** Every byte is the sum of all four. */
  function All(x: Col): Col {
    var t := Xor(Xor(x.b0, x.b1), Xor(x.b2, x.b3));
    Col(t, t, t, t)
  }

  lemma PairSums(p: byte, q: byte, r: byte, s: byte)
    ensures Xor(Xor(p, q), Xor(r, s)) == Xor(Xor(p, r), Xor(q, s)) == Xor(Xor(p, s), Xor(q, r))
  {
    hide Xor;
    XorSwap(p, q, r, s);
    XorComm(r, s);
    XorSwap(p, q, s, r);
  }

  /** Products of the entries of the matrix, entry by entry. */
  lemma FoldProducts(x: Col)
    ensures Fold1(Fold1(x)) == Fold2(Fold2(x)) == Fold3(Fold3(x)) == Fold12(Fold12(x)) == Fold13(Fold13(x))
    ensures Fold13(Fold13(x)) == Fold23(Fold23(x)) == ZERO
    ensures Fold1(Fold2(x)) == Fold1(Fold3(x)) == Fold1(Fold12(x)) == Fold1(Fold13(x)) == Fold2(Fold1(x))
    ensures Fold2(Fold1(x)) == Fold2(Fold3(x)) == Fold2(Fold12(x)) == Fold2(Fold23(x)) == Fold3(Fold1(x))
    ensures Fold3(Fold1(x)) == Fold3(Fold2(x)) == Fold3(Fold13(x)) == Fold3(Fold23(x)) == Fold12(Fold1(x))
    ensures Fold12(Fold1(x)) == Fold12(Fold2(x)) == Fold12(Fold13(x)) == Fold12(Fold23(x)) == Fold13(Fold1(x))
    ensures Fold13(Fold1(x)) == Fold13(Fold3(x)) == Fold13(Fold12(x)) == Fold13(Fold23(x)) == Fold23(Fold2(x))
    ensures Fold23(Fold2(x)) == Fold23(Fold3(x)) == Fold23(Fold12(x)) == Fold23(Fold13(x)) == All(x)
    ensures Fold1(Swap2(x)) == Fold1(Swap3(x)) == Swap1(Fold23(x)) == Swap2(Fold1(x)) == Fold23(Swap1(x))
    ensures Fold23(Swap1(x)) == Swap3(Fold1(x)) == Fold23(x)
    ensures Fold2(Swap1(x)) == Fold2(Swap3(x)) == Swap1(Fold2(x)) == Fold13(Swap2(x)) == Swap2(Fold13(x))
    ensures Swap2(Fold13(x)) == Swap3(Fold2(x)) == Fold13(x)
    ensures Fold3(Swap1(x)) == Fold3(Swap2(x)) == Swap1(Fold3(x)) == Fold12(Swap3(x)) == Swap2(Fold3(x))
    ensures Swap2(Fold3(x)) == Swap3(Fold12(x)) == Fold12(x)
    ensures Swap1(Swap1(x)) == Swap2(Swap2(x)) == Swap3(Swap3(x)) == x
  {
    hide Xor;
    var Col(p, q, r, s) := x;
    PairSums(p, q, r, s);
    XorComm(p, q);
    XorComm(p, r);
    XorComm(p, s);
    XorComm(q, r);
    XorComm(q, s);
    XorComm(r, s);
    XorComm(Xor(p, q), Xor(r, s));
    XorComm(Xor(p, r), Xor(q, s));
    XorComm(Xor(p, s), Xor(q, r));
    XorZero(Xor(p, q));
    XorZero(Xor(p, r));
    XorZero(Xor(p, s));
    XorZero(Xor(q, r));
    XorZero(Xor(q, s));
    XorZero(Xor(r, s));
  }

  lemma ColZero(x: Col)
    ensures XorCol(x, ZERO) == x && XorCol(ZERO, x) == x && XorCol(x, x) == ZERO
  {
    hide Xor;
    XorZero(x.b0);
    XorZero(x.b1);
    XorZero(x.b2);
    XorZero(x.b3);
  }

  lemma ColSwap(a: Col, b: Col, c: Col, d: Col)
    ensures XorCol(XorCol(a, b), XorCol(c, d)) == XorCol(XorCol(a, c), XorCol(b, d))
  {
    hide Xor;
    XorSwap(a.b0, b.b0, c.b0, d.b0);
    XorSwap(a.b1, b.b1, c.b1, d.b1);
    XorSwap(a.b2, b.b2, c.b2, d.b2);
    XorSwap(a.b3, b.b3, c.b3, d.b3);
  }

  /** Two pairs of equal terms cancel, however they are ordered. */
  lemma CancelPairs(u: Col, v: Col)
    ensures SumCol(u, u, v, v) == ZERO
    ensures SumCol(u, v, u, v) == ZERO
    ensures SumCol(u, v, v, u) == ZERO
  {
    hide XorCol;
    ColZero(u);
    ColZero(v);
    XorColComm(u, v);
    XorColCancel(u, v);
    XorColCancel(v, u);
  }

  lemma SingleTerm(u: Col)
    ensures SumCol(u, ZERO, ZERO, ZERO) == u && SumCol(ZERO, u, ZERO, ZERO) == u
    ensures SumCol(ZERO, ZERO, u, ZERO) == u && SumCol(ZERO, ZERO, ZERO, u) == u
  {
    hide XorCol;
    ColZero(u);
    ColZero(ZERO);
  }

  // The product of row i and column j of the matrix with itself is the identity.

  lemma KernelRowA(x: Col)
    ensures SumCol(Swap3(Swap3(x)), Fold2(Fold2(x)), Fold1(Fold1(x)), Fold12(Fold12(x))) == x
    ensures SumCol(Swap3(Fold2(x)), Fold2(Swap1(x)), Fold1(Fold3(x)), Fold12(Fold23(x))) == ZERO
    ensures SumCol(Swap3(Fold1(x)), Fold2(Fold3(x)), Fold1(Swap2(x)), Fold12(Fold13(x))) == ZERO
    ensures SumCol(Swap3(Fold12(x)), Fold2(Fold23(x)), Fold1(Fold13(x)), Fold12(x)) == ZERO
  {
    hide XorCol, Swap1, Swap2, Swap3, Fold1, Fold2, Fold3, Fold12, Fold13, Fold23, All;
    FoldProducts(x);
    SingleTerm(x);
    CancelPairs(Fold12(x), All(x));
    CancelPairs(Fold13(x), All(x));
    CancelPairs(Fold23(x), All(x));
  }

  lemma KernelRowB(x: Col)
    ensures SumCol(Fold2(Swap3(x)), Swap1(Fold2(x)), Fold3(Fold1(x)), Fold23(Fold12(x))) == ZERO
    ensures SumCol(Fold2(Fold2(x)), Swap1(Swap1(x)), Fold3(Fold3(x)), Fold23(Fold23(x))) == x
    ensures SumCol(Fold2(Fold1(x)), Swap1(Fold3(x)), Fold3(Swap2(x)), Fold23(Fold13(x))) == ZERO
    ensures SumCol(Fold2(Fold12(x)), Swap1(Fold23(x)), Fold3(Fold13(x)), Fold23(x)) == ZERO
  {
    hide XorCol, Swap1, Swap2, Swap3, Fold1, Fold2, Fold3, Fold12, Fold13, Fold23, All;
    FoldProducts(x);
    SingleTerm(x);
    CancelPairs(All(x), Fold12(x));
    CancelPairs(All(x), Fold23(x));
    CancelPairs(Fold13(x), All(x));
  }

  lemma KernelRowC(x: Col)
    ensures SumCol(Fold1(Swap3(x)), Fold3(Fold2(x)), Swap2(Fold1(x)), Fold13(Fold12(x))) == ZERO
    ensures SumCol(Fold1(Fold2(x)), Fold3(Swap1(x)), Swap2(Fold3(x)), Fold13(Fold23(x))) == ZERO
    ensures SumCol(Fold1(Fold1(x)), Fold3(Fold3(x)), Swap2(Swap2(x)), Fold13(Fold13(x))) == x
    ensures SumCol(Fold1(Fold12(x)), Fold3(Fold23(x)), Swap2(Fold13(x)), Fold13(x)) == ZERO
  {
    hide XorCol, Swap1, Swap2, Swap3, Fold1, Fold2, Fold3, Fold12, Fold13, Fold23, All;
    FoldProducts(x);
    SingleTerm(x);
    CancelPairs(All(x), Fold12(x));
    CancelPairs(All(x), Fold13(x));
    CancelPairs(Fold23(x), All(x));
  }

  lemma KernelRowD(x: Col)
    ensures SumCol(Fold12(Swap3(x)), Fold23(Fold2(x)), Fold13(Fold1(x)), Fold12(x)) == ZERO
    ensures SumCol(Fold12(Fold2(x)), Fold23(Swap1(x)), Fold13(Fold3(x)), Fold23(x)) == ZERO
    ensures SumCol(Fold12(Fold1(x)), Fold23(Fold3(x)), Fold13(Swap2(x)), Fold13(x)) == ZERO
    ensures SumCol(Fold12(Fold12(x)), Fold23(Fold23(x)), Fold13(Fold13(x)), x) == x
  {
    hide XorCol, Swap1, Swap2, Swap3, Fold1, Fold2, Fold3, Fold12, Fold13, Fold23, All;
    FoldProducts(x);
    SingleTerm(x);
    CancelPairs(All(x), Fold13(x));
    CancelPairs(All(x), Fold23(x));
    CancelPairs(Fold12(x), All(x));
  }

  lemma SumColXor(a: Col, b: Col, c: Col, d: Col, a': Col, b': Col, c': Col, d': Col)
    ensures SumCol(XorCol(a, a'), XorCol(b, b'), XorCol(c, c'), XorCol(d, d'))
         == XorCol(SumCol(a, b, c, d), SumCol(a', b', c', d'))
  {
    hide XorCol;
    ColSwap(a, a', b, b');
    ColSwap(XorCol(a, b), XorCol(a', b'), c, c');
    ColSwap(XorCol(XorCol(a, b), c), XorCol(XorCol(a', b'), c'), d, d');
  }

  lemma SwapXor(u: Col, v: Col)
    ensures Swap1(XorCol(u, v)) == XorCol(Swap1(u), Swap1(v))
    ensures Swap2(XorCol(u, v)) == XorCol(Swap2(u), Swap2(v))
    ensures Swap3(XorCol(u, v)) == XorCol(Swap3(u), Swap3(v))
  {
    hide Xor;
  }

  /** Every entry of the matrix is additive. */
  lemma EntryXor(u: Col, v: Col)
    ensures Fold1(XorCol(u, v)) == XorCol(Fold1(u), Fold1(v))
    ensures Fold2(XorCol(u, v)) == XorCol(Fold2(u), Fold2(v))
    ensures Fold3(XorCol(u, v)) == XorCol(Fold3(u), Fold3(v))
    ensures Fold12(XorCol(u, v)) == XorCol(Fold12(u), Fold12(v))
    ensures Fold13(XorCol(u, v)) == XorCol(Fold13(u), Fold13(v))
    ensures Fold23(XorCol(u, v)) == XorCol(Fold23(u), Fold23(v))
  {
    hide XorCol, Swap1, Swap2, Swap3;
    SwapXor(u, v);
    ColSwap(u, v, Swap1(u), Swap1(v));
    ColSwap(u, v, Swap2(u), Swap2(v));
    ColSwap(u, v, Swap3(u), Swap3(v));
    ColSwap(Swap1(u), Swap1(v), Swap2(u), Swap2(v));
    ColSwap(Swap1(u), Swap1(v), Swap3(u), Swap3(v));
    ColSwap(Swap2(u), Swap2(v), Swap3(u), Swap3(v));
  }

  lemma EntrySum(t: Col, u: Col, v: Col, w: Col)
    ensures Swap1(SumCol(t, u, v, w)) == SumCol(Swap1(t), Swap1(u), Swap1(v), Swap1(w))
    ensures Swap2(SumCol(t, u, v, w)) == SumCol(Swap2(t), Swap2(u), Swap2(v), Swap2(w))
    ensures Swap3(SumCol(t, u, v, w)) == SumCol(Swap3(t), Swap3(u), Swap3(v), Swap3(w))
    ensures Fold1(SumCol(t, u, v, w)) == SumCol(Fold1(t), Fold1(u), Fold1(v), Fold1(w))
    ensures Fold2(SumCol(t, u, v, w)) == SumCol(Fold2(t), Fold2(u), Fold2(v), Fold2(w))
    ensures Fold3(SumCol(t, u, v, w)) == SumCol(Fold3(t), Fold3(u), Fold3(v), Fold3(w))
    ensures Fold12(SumCol(t, u, v, w)) == SumCol(Fold12(t), Fold12(u), Fold12(v), Fold12(w))
    ensures Fold13(SumCol(t, u, v, w)) == SumCol(Fold13(t), Fold13(u), Fold13(v), Fold13(w))
    ensures Fold23(SumCol(t, u, v, w)) == SumCol(Fold23(t), Fold23(u), Fold23(v), Fold23(w))
  {
    hide XorCol, Swap1, Swap2, Swap3, Fold1, Fold2, Fold3, Fold12, Fold13, Fold23;
    SwapXor(t, u);
    SwapXor(XorCol(t, u), v);
    SwapXor(XorCol(XorCol(t, u), v), w);
    EntryXor(t, u);
    EntryXor(XorCol(t, u), v);
    EntryXor(XorCol(XorCol(t, u), v), w);
  }

  function XorQuad(x: Quad, y: Quad): Quad {
    Quad(XorCol(x.a, y.a), XorCol(x.b, y.b), XorCol(x.c, y.c), XorCol(x.d, y.d))
  }

  lemma XorQuadCancel(x: Quad, y: Quad)
    ensures XorQuad(XorQuad(y, x), x) == y && XorQuad(x, y) == XorQuad(y, x)
  {
    hide XorCol;
    XorColCancel(x.a, y.a);
    XorColCancel(x.b, y.b);
    XorColCancel(x.c, y.c);
    XorColCancel(x.d, y.d);
    XorColComm(x.a, y.a);
    XorColComm(x.b, y.b);
    XorColComm(x.c, y.c);
    XorColComm(x.d, y.d);
  }

  lemma DiffuseRows(x: Quad)
    ensures Diffuse(x) == Quad(RowA(x), RowB(x), RowC(x), RowD(x))
  {
    hide Diffuse, RowA, RowB, RowC, RowD;
    DiffuseRowA(x);
    DiffuseRowB(x);
    DiffuseRowC(x);
    DiffuseRowD(x);
  }

  /** The diffusion layer is XOR-linear. */
  lemma DiffuseLinear(x: Quad, y: Quad)
    ensures Diffuse(XorQuad(x, y)) == XorQuad(Diffuse(x), Diffuse(y))
  {
    hide Diffuse, SumCol, XorCol, Swap1, Swap2, Swap3, Fold1, Fold2, Fold3, Fold12, Fold13, Fold23;
    DiffuseRows(x);
    DiffuseRows(y);
    DiffuseRows(XorQuad(x, y));
    EntryXor(x.a, y.a);
    EntryXor(x.b, y.b);
    EntryXor(x.c, y.c);
    EntryXor(x.d, y.d);
    SwapXor(x.a, y.a);
    SwapXor(x.b, y.b);
    SwapXor(x.c, y.c);
    SumColXor(Swap3(x.a), Fold2(x.b), Fold1(x.c), Fold12(x.d), Swap3(y.a), Fold2(y.b), Fold1(y.c), Fold12(y.d));
    SumColXor(Fold2(x.a), Swap1(x.b), Fold3(x.c), Fold23(x.d), Fold2(y.a), Swap1(y.b), Fold3(y.c), Fold23(y.d));
    SumColXor(Fold1(x.a), Fold3(x.b), Swap2(x.c), Fold13(x.d), Fold1(y.a), Fold3(y.b), Swap2(y.c), Fold13(y.d));
    SumColXor(Fold12(x.a), Fold23(x.b), Fold13(x.c), x.d, Fold12(y.a), Fold23(y.b), Fold13(y.c), y.d);
  }

  /** A sum of rows is a sum of columns. */
  lemma SumColTranspose(p: Quad, q: Quad, r: Quad, s: Quad)
    ensures SumCol(SumCol(p.a, p.b, p.c, p.d), SumCol(q.a, q.b, q.c, q.d),
                   SumCol(r.a, r.b, r.c, r.d), SumCol(s.a, s.b, s.c, s.d))
         == SumCol(SumCol(p.a, q.a, r.a, s.a), SumCol(p.b, q.b, r.b, s.b),
                   SumCol(p.c, q.c, r.c, s.c), SumCol(p.d, q.d, r.d, s.d))
  {
    hide XorCol;
    var pq, pqr := XorQuad(p, q), XorQuad(XorQuad(p, q), r);
    SumColXor(p.a, p.b, p.c, p.d, q.a, q.b, q.c, q.d);
    SumColXor(pq.a, pq.b, pq.c, pq.d, r.a, r.b, r.c, r.d);
    SumColXor(pqr.a, pqr.b, pqr.c, pqr.d, s.a, s.b, s.c, s.d);
  }

  lemma InvolutionRowA(x: Quad)
    ensures RowA(Diffuse(x)) == x.a
  {
    hide Diffuse, SumCol, Swap1, Swap2, Swap3, Fold1, Fold2, Fold3, Fold12, Fold13, Fold23;
    DiffuseRows(x);
    EntrySum(Swap3(x.a), Fold2(x.b), Fold1(x.c), Fold12(x.d));
    EntrySum(Fold2(x.a), Swap1(x.b), Fold3(x.c), Fold23(x.d));
    EntrySum(Fold1(x.a), Fold3(x.b), Swap2(x.c), Fold13(x.d));
    EntrySum(Fold12(x.a), Fold23(x.b), Fold13(x.c), x.d);
    SumColTranspose(Quad(Swap3(Swap3(x.a)), Swap3(Fold2(x.b)), Swap3(Fold1(x.c)), Swap3(Fold12(x.d))),
                    Quad(Fold2(Fold2(x.a)), Fold2(Swap1(x.b)), Fold2(Fold3(x.c)), Fold2(Fold23(x.d))),
                    Quad(Fold1(Fold1(x.a)), Fold1(Fold3(x.b)), Fold1(Swap2(x.c)), Fold1(Fold13(x.d))),
                    Quad(Fold12(Fold12(x.a)), Fold12(Fold23(x.b)), Fold12(Fold13(x.c)), Fold12(x.d)));
    KernelRowA(x.a);
    KernelRowA(x.b);
    KernelRowA(x.c);
    KernelRowA(x.d);
    SingleTerm(x.a);
  }

  lemma InvolutionRowB(x: Quad)
    ensures RowB(Diffuse(x)) == x.b
  {
    hide Diffuse, SumCol, Swap1, Swap2, Swap3, Fold1, Fold2, Fold3, Fold12, Fold13, Fold23;
    DiffuseRows(x);
    EntrySum(Swap3(x.a), Fold2(x.b), Fold1(x.c), Fold12(x.d));
    EntrySum(Fold2(x.a), Swap1(x.b), Fold3(x.c), Fold23(x.d));
    EntrySum(Fold1(x.a), Fold3(x.b), Swap2(x.c), Fold13(x.d));
    EntrySum(Fold12(x.a), Fold23(x.b), Fold13(x.c), x.d);
    SumColTranspose(Quad(Fold2(Swap3(x.a)), Fold2(Fold2(x.b)), Fold2(Fold1(x.c)), Fold2(Fold12(x.d))),
                    Quad(Swap1(Fold2(x.a)), Swap1(Swap1(x.b)), Swap1(Fold3(x.c)), Swap1(Fold23(x.d))),
                    Quad(Fold3(Fold1(x.a)), Fold3(Fold3(x.b)), Fold3(Swap2(x.c)), Fold3(Fold13(x.d))),
                    Quad(Fold23(Fold12(x.a)), Fold23(Fold23(x.b)), Fold23(Fold13(x.c)), Fold23(x.d)));
    KernelRowB(x.a);
    KernelRowB(x.b);
    KernelRowB(x.c);
    KernelRowB(x.d);
    SingleTerm(x.b);
  }

  lemma InvolutionRowC(x: Quad)
    ensures RowC(Diffuse(x)) == x.c
  {
    hide Diffuse, SumCol, Swap1, Swap2, Swap3, Fold1, Fold2, Fold3, Fold12, Fold13, Fold23;
    DiffuseRows(x);
    EntrySum(Swap3(x.a), Fold2(x.b), Fold1(x.c), Fold12(x.d));
    EntrySum(Fold2(x.a), Swap1(x.b), Fold3(x.c), Fold23(x.d));
    EntrySum(Fold1(x.a), Fold3(x.b), Swap2(x.c), Fold13(x.d));
    EntrySum(Fold12(x.a), Fold23(x.b), Fold13(x.c), x.d);
    SumColTranspose(Quad(Fold1(Swap3(x.a)), Fold1(Fold2(x.b)), Fold1(Fold1(x.c)), Fold1(Fold12(x.d))),
                    Quad(Fold3(Fold2(x.a)), Fold3(Swap1(x.b)), Fold3(Fold3(x.c)), Fold3(Fold23(x.d))),
                    Quad(Swap2(Fold1(x.a)), Swap2(Fold3(x.b)), Swap2(Swap2(x.c)), Swap2(Fold13(x.d))),
                    Quad(Fold13(Fold12(x.a)), Fold13(Fold23(x.b)), Fold13(Fold13(x.c)), Fold13(x.d)));
    KernelRowC(x.a);
    KernelRowC(x.b);
    KernelRowC(x.c);
    KernelRowC(x.d);
    SingleTerm(x.c);
  }

  lemma InvolutionRowD(x: Quad)
    ensures RowD(Diffuse(x)) == x.d
  {
    hide Diffuse, SumCol, Swap1, Swap2, Swap3, Fold1, Fold2, Fold3, Fold12, Fold13, Fold23;
    DiffuseRows(x);
    EntrySum(Swap3(x.a), Fold2(x.b), Fold1(x.c), Fold12(x.d));
    EntrySum(Fold2(x.a), Swap1(x.b), Fold3(x.c), Fold23(x.d));
    EntrySum(Fold1(x.a), Fold3(x.b), Swap2(x.c), Fold13(x.d));
    EntrySum(Fold12(x.a), Fold23(x.b), Fold13(x.c), x.d);
    SumColTranspose(Quad(Fold12(Swap3(x.a)), Fold12(Fold2(x.b)), Fold12(Fold1(x.c)), Fold12(Fold12(x.d))),
                    Quad(Fold23(Fold2(x.a)), Fold23(Swap1(x.b)), Fold23(Fold3(x.c)), Fold23(Fold23(x.d))),
                    Quad(Fold13(Fold1(x.a)), Fold13(Fold3(x.b)), Fold13(Swap2(x.c)), Fold13(Fold13(x.d))),
                    Quad(Fold12(x.a), Fold23(x.b), Fold13(x.c), x.d));
    KernelRowD(x.a);
    KernelRowD(x.b);
    KernelRowD(x.c);
    KernelRowD(x.d);
    SingleTerm(x.d);
  }

  /** The diffusion layer is its own inverse. */
  lemma DiffuseInvolution(x: Quad)
    ensures Diffuse(Diffuse(x)) == x
  {
    hide Diffuse, RowA, RowB, RowC, RowD;
    DiffuseRows(Diffuse(x));
    InvolutionRowA(x);
    InvolutionRowB(x);
    InvolutionRowC(x);
    InvolutionRowD(x);
  }
}
