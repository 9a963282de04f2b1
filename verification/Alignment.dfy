/** PCR digests are taken over a concatenation of values without their lengths. Which values it binds depends on
    where each value starts: exactly those that start, and are as long, as in a bank of full digests. */
module Alignment {
  import opened Basics
  import opened Hashing
  import opened PcrSelection

  /** Where the value of PCR `n` starts if every value is `size` bytes long. */
  function Offset(keys: set<nat>, n: nat, size: nat): nat {
    if n == 0 then 0 else Offset(keys, n - 1, size) + if n - 1 in keys then size else 0
  }

  /** The value of PCR `i` starts and ends where it does in a bank of full digests. */
  predicate Aligned(p: map<nat, Bytes>, i: nat, size: nat) {
    i in p && |p[i]| == size && |Concat(p, i)| == Offset(p.Keys, i, size)
  }

  lemma {:induction false} BlocksOffset(p: map<nat, Bytes>, size: nat, n: nat)
    requires Blocks(p, size)
    ensures |Concat(p, n)| == Offset(p.Keys, n, size)
  {
    if n > 0 {
      BlocksOffset(p, size, n - 1);
    }
  }

  /** A value is found in the concatenation at its own start. */
  lemma {:induction false} Window(p: map<nat, Bytes>, i: nat, n: nat)
    requires i in p && i < n
    ensures |Concat(p, i)| + |p[i]| <= |Concat(p, n)|
    ensures Concat(p, n)[|Concat(p, i)|..|Concat(p, i)| + |p[i]|] == p[i]
  {
    if i < n - 1 {
      Window(p, i, n - 1);
    }
  }

  /** Equal concatenations agree wherever a value of one starts where a value of the other does. */
  lemma SameWindow(p: map<nat, Bytes>, q: map<nat, Bytes>, i: nat, m: nat, size: nat)
    requires Concat(p, NUM_PCRS) == Concat(q, NUM_PCRS) && Blocks(q, size)
    requires i in p && i < NUM_PCRS && m in q && m < NUM_PCRS
    requires |p[i]| == size && |Concat(p, i)| == Offset(q.Keys, m, size)
    ensures p[i] == q[m]
  {
    Window(p, i, NUM_PCRS);
    Window(q, m, NUM_PCRS);
    BlocksOffset(q, size, m);
  }

  /** Equal digests bind every aligned value, unless the two concatenations collided. */
  lemma AlignedBinds(h: Hash, a: HashAlg, p: map<nat, Bytes>, q: map<nat, Bytes>, i: nat, size: nat)
    requires DigestOf(h, a, p) == DigestOf(h, a, q) && p.Keys == q.Keys && Blocks(q, size)
    requires i < NUM_PCRS && Aligned(p, i, size)
    ensures p[i] == q[i] || Collision(h, a, Concat(p, NUM_PCRS), Concat(q, NUM_PCRS))
  {
    if Concat(p, NUM_PCRS) == Concat(q, NUM_PCRS) {
      SameWindow(p, q, i, i, size);
    }
  }

  // ----- The other half: nothing else is bound

  function Piece(s: Bytes, from: nat, length: nat): Bytes {
    if from + length <= |s| then s[from..from + length] else []
  }

  /** `s` cut into values with the lengths of those in `p`. */
  function Sliced(s: Bytes, p: map<nat, Bytes>): map<nat, Bytes> {
    map i | i in p :: Piece(s, |Concat(p, i)|, |p[i]|)
  }

  ghost predicate SameShape(p: map<nat, Bytes>, q: map<nat, Bytes>) {
    p.Keys == q.Keys && forall i | i in p :: |p[i]| == |q[i]|
  }

  // In the next lemmas `n` stands for the number of PCRs.

  lemma SlicedAt(s: Bytes, p: map<nat, Bytes>, i: nat, n: nat)
    requires i in p && i < n && |s| == |Concat(p, n)|
    ensures |Concat(p, i)| + |p[i]| <= |s| && Sliced(s, p)[i] == s[|Concat(p, i)|..|Concat(p, i)| + |p[i]|]
  {
    Window(p, i, n);
  }

  lemma SlicedShape(s: Bytes, p: map<nat, Bytes>, n: nat)
    requires (forall i | i in p :: i < n) && |s| == |Concat(p, n)|
    ensures SameShape(p, Sliced(s, p))
  {
    forall i | i in p ensures |Sliced(s, p)[i]| == |p[i]| {
      SlicedAt(s, p, i, n);
    }
  }

  lemma {:induction false} ConcatSliced(s: Bytes, p: map<nat, Bytes>, k: nat, n: nat)
    requires |s| == |Concat(p, n)| && k <= n
    ensures |Concat(p, k)| <= |s| && Concat(Sliced(s, p), k) == s[..|Concat(p, k)|]
  {
    if k > 0 {
      ConcatSliced(s, p, k - 1, n);
      if k - 1 in p {
        SlicedAt(s, p, k - 1, n);
        var from := |Concat(p, k - 1)|;
        assert s[..from] + s[from..from + |p[k - 1]|] == s[..from + |p[k - 1]|];
      }
    }
  }

  /** A single mark tells values apart that start at different places. */
  lemma MarkedDiffer(p: map<nat, Bytes>, z: map<nat, Bytes>, i: nat, n: nat, s: Bytes)
    requires |s| == |Concat(p, n)| == |Concat(z, n)| && i in p && i in z && i < n && z[i] != []
    requires forall k | 0 <= k < |s| :: s[k] == if k == |Concat(z, i)| then 1 else 0
    requires |p[i]| != |z[i]| || |Concat(p, i)| != |Concat(z, i)|
    ensures Sliced(s, p)[i] != Sliced(s, z)[i]
  {
    SlicedAt(s, p, i, n);
    SlicedAt(s, z, i, n);
    assert Sliced(s, z)[i][0] == s[|Concat(z, i)|];
    if |p[i]| == |z[i]| {
      assert Sliced(s, p)[i][0] == s[|Concat(p, i)|];
    }
  }

  /** Values of the shape of `p` that concatenate like a bank of full digests, and yet differ from it at PCR `i`. */
  lemma Misread(p: map<nat, Bytes>, i: nat, size: nat, n: nat) returns (p': map<nat, Bytes>, q: map<nat, Bytes>)
    requires (forall j | j in p :: j < n) && i in p && size > 0 && |Concat(p, n)| == Offset(p.Keys, n, size)
    requires !Aligned(p, i, size)
    ensures SameShape(p, p') && p.Keys == q.Keys && Blocks(q, size)
    ensures Concat(p', n) == Concat(q, n) && p'[i] != q[i]
  {
    var z: map<nat, Bytes> := map j | j in p :: Zeros(size);
    assert z.Keys == p.Keys && Blocks(z, size);
    BlocksOffset(z, size, n);
    BlocksOffset(z, size, i);
    var total, mark := |Concat(z, n)|, |Concat(z, i)|;
    var s: Bytes := seq(total, k => if k == mark then 1 else 0);
    p', q := Sliced(s, p), Sliced(s, z);
    MarkedDiffer(p, z, i, n, s);
    SlicedShape(s, p, n);
    SlicedShape(s, z, n);
    ConcatSliced(s, p, n, n);
    ConcatSliced(s, z, n, n);
  }

  /** Whether a shape of values binds PCR `i`: whatever full digests concatenate to such values, they agree there. */
  ghost predicate Binds(p: map<nat, Bytes>, i: nat, size: nat)
    requires i in p
  {
    forall p': map<nat, Bytes>, q: map<nat, Bytes> {:trigger SameShape(p, p'), Blocks(q, size)} ::
      SameShape(p, p') && p.Keys == q.Keys && Blocks(q, size) && Concat(p', NUM_PCRS) == Concat(q, NUM_PCRS)
      ==> p'[i] == q[i]
  }

  lemma {:induction false} SameShapeConcat(p: map<nat, Bytes>, q: map<nat, Bytes>, n: nat)
    requires SameShape(p, q)
    ensures |Concat(p, n)| == |Concat(q, n)|
  {
    if n > 0 {
      SameShapeConcat(p, q, n - 1);
    }
  }

  /** For every shape that full digests can take, exactly the aligned values are bound. */
  lemma AlignmentExact(p: map<nat, Bytes>, i: nat, size: nat)
    requires InMask(p.Keys) && i in p && size > 0 && |Concat(p, NUM_PCRS)| == Offset(p.Keys, NUM_PCRS, size)
    ensures Aligned(p, i, size) <==> Binds(p, i, size)
  {
    if Aligned(p, i, size) {
      forall p': map<nat, Bytes>, q: map<nat, Bytes>
        | SameShape(p, p') && p.Keys == q.Keys && Blocks(q, size) && Concat(p', NUM_PCRS) == Concat(q, NUM_PCRS)
        ensures p'[i] == q[i]
      {
        SameShapeConcat(p, p', i);
        SameWindow(p', q, i, i, size);
      }
    } else {
      var p', q := Misread(p, i, size, NUM_PCRS);
      assert SameShape(p, p') && Blocks(q, size);
    }
  }

  // ----- Regrouping within a window

  lemma {:induction false} ConcatPrefix(q: map<nat, Bytes>, a: nat, b: nat)
    requires a <= b
    ensures Concat(q, a) <= Concat(q, b)
  {
    if a < b {
      ConcatPrefix(q, a, b - 1);
    }
  }

  /** The values from PCR `a` up to, but not including, PCR `b`. */
  function Between(q: map<nat, Bytes>, a: nat, b: nat): (s: Bytes)
    requires a <= b
    ensures Concat(q, a) + s == Concat(q, b)
  {
    ConcatPrefix(q, a, b);
    Concat(q, b)[|Concat(q, a)|..]
  }

  /** The values of `q`, regrouped within `lo`..`hi` so that PCR `i` shows the value of PCR `m`: PCR `lo` takes what
      comes before it, PCR `hi` what comes after it, and the others in between take nothing. Outside nothing changes. */
  function Regrouped(q: map<nat, Bytes>, lo: nat, i: nat, hi: nat, m: nat): map<nat, Bytes>
    requires lo < i < hi && lo <= m <= hi && m in q
  {
    map j | j in q ::
      if j < lo || j > hi then q[j]
      else if j == lo then Between(q, lo, m)
      else if j == i then q[m]
      else if j == hi then Between(q, m + 1, hi + 1)
      else []
  }

  lemma {:induction false} ConcatRegrouped(q: map<nat, Bytes>, lo: nat, i: nat, hi: nat, m: nat, n: nat)
    requires lo < i < hi && lo <= m <= hi && lo in q && i in q && hi in q && m in q
    ensures Concat(Regrouped(q, lo, i, hi, m), n)
            == Concat(q, if n <= lo || n > hi then n else if n <= i then m else m + 1)
  {
    if n > 0 {
      ConcatRegrouped(q, lo, i, hi, m, n - 1);
    }
  }

  /** Any PCR with others on both sides can be made to show any value of the window, and the rest is as it was. */
  lemma RegroupedShows(q: map<nat, Bytes>, lo: nat, i: nat, hi: nat, m: nat)
    requires lo < i < hi < NUM_PCRS && lo <= m <= hi && lo in q && i in q && hi in q && m in q
    ensures var p := Regrouped(q, lo, i, hi, m);
            && p.Keys == q.Keys && Concat(p, NUM_PCRS) == Concat(q, NUM_PCRS) && p[i] == q[m]
            && forall j | j in q && (j < lo || j > hi) :: p[j] == q[j]
  {
    ConcatRegrouped(q, lo, i, hi, m, NUM_PCRS);
  }
}
