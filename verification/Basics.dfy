/** Byte strings, results and hash functions shared by every component. */
module Basics {

  type byte = x: int | 0 <= x < 256

  /** Go strings and byte slices are both byte strings. */
  type Bytes = seq<byte>

  datatype Option<+T> = None | Some(value: T)

  datatype Result<+T, +E> = Ok(value: T) | Err(error: E)

  /** The bytes of an ASCII literal. */
  function Ascii(s: string): (b: Bytes)
    ensures |b| == |s|
  {
    seq(|s|, i requires 0 <= i < |s| => s[i] as int % 256)
  }

  predicate Digit(b: byte) {
    48 <= b <= 57
  }

  predicate AllDigits(s: Bytes) {
    forall i | 0 <= i < |s| :: Digit(s[i])
  }

  /** The number that decimal digits stand for. */
  function Value(s: Bytes): nat
    requires AllDigits(s)
  {
    if s == [] then 0 else 10 * Value(s[..|s| - 1]) + (s[|s| - 1] - 48) as nat
  }

  function Pow10(n: nat): nat {
    if n == 0 then 1 else 10 * Pow10(n - 1)
  }

  lemma TenTimes(x: nat, y: nat)
    ensures x * (10 * y) == 10 * (x * y)
  {
  }

  /** Decimal notation: one digit stands for itself, and putting digits after others multiplies those by a power of
      ten. */
  lemma {:induction false} DecimalPlaces(s: Bytes, t: Bytes, d: byte)
    requires AllDigits(s) && AllDigits(t) && Digit(d)
    ensures Value([d]) == d - 48
    ensures AllDigits(s + t) && Value(s + t) == Value(s) * Pow10(|t|) + Value(t)
  {
    assert [d][..0] == [];
    if t == [] {
      assert s + t == s;
    } else {
      var front, last := t[..|t| - 1], t[|t| - 1];
      assert (s + t)[..|s + t| - 1] == s + front;
      DecimalPlaces(s, front, d);
      TenTimes(Value(s), Pow10(|front|));
    }
  }

  /** No element occurs twice. */
  ghost predicate Distinct<T>(s: seq<T>) {
    forall i, j | 0 <= i < j < |s| :: s[i] != s[j]
  }

  function Elements<T(==)>(s: seq<T>): set<T> {
    set x | x in s
  }

  /** A sequence has at least as many positions as elements, and exactly as many when it is distinct. */
  lemma {:induction false} ElementsSize<T>(s: seq<T>)
    ensures |Elements(s)| <= |s|
    ensures |Elements(s)| == |s| <==> Distinct(s)
  {
    if s == [] {
      assert Elements(s) == {};
    } else {
      var front, last := s[..|s| - 1], s[|s| - 1];
      ElementsSize(front);
      assert Elements(s) == Elements(front) + {last};
      if last in front {
        assert Elements(s) == Elements(front);
        var i :| 0 <= i < |front| && front[i] == last;
        assert s[i] == s[|s| - 1];
      } else if Distinct(front) {
        assert Distinct(s);
      } else {
        var i, j :| 0 <= i < j < |front| && front[i] == front[j];
        assert s[i] == s[j];
      }
    }
  }
}

/** Hash algorithms by their TPM identifiers, and ideal hash functions. */
module Hashing {
  import opened Basics

  /** `NoAlg` stands for the zero identifier and for every algorithm this code does not know. */
  datatype HashAlg = NoAlg | SHA1 | SHA256 | SHA384 | SHA512

  function DigestSize(a: HashAlg): nat {
    match a
    case NoAlg => 0
    case SHA1 => 20
    case SHA256 => 32
    case SHA384 => 48
    case SHA512 => 64
  }

  /** TPM_ALG_ID values. */
  function AlgId(a: HashAlg): nat {
    match a
    case NoAlg => 0
    case SHA1 => 4
    case SHA256 => 11
    case SHA384 => 12
    case SHA512 => 13
  }

  type Hash = (HashAlg, Bytes) -> Bytes

  ghost predicate ProperHash(h: Hash) {
    forall a, m :: |h(a, m)| == DigestSize(a)
  }

  /** No two different messages among `ms` have the same digest. */
  ghost predicate NoCollision(h: Hash, a: HashAlg, ms: set<Bytes>) {
    forall x, y {:trigger h(a, x), h(a, y)} | x in ms && y in ms && h(a, x) == h(a, y) :: x == y
  }

  /** Among `ms` there is neither a collision nor a preimage of the zero register. */
  ghost predicate SoundOn(h: Hash, a: HashAlg, ms: set<Bytes>) {
    && NoCollision(h, a, ms)
    && forall m | m in ms :: h(a, m) != Zeros(DigestSize(a))
  }

  /** An explicit pair of different messages with the same digest. */
  ghost predicate Collision(h: Hash, a: HashAlg, x: Bytes, y: Bytes) {
    x != y && h(a, x) == h(a, y)
  }

  function Zeros(n: nat): (z: Bytes)
    ensures |z| == n
  {
    seq(n, i => 0)
  }

  /** Equal-length first blocks make concatenation injective. */
  lemma ConcatSplit(a: Bytes, b: Bytes, c: Bytes, d: Bytes)
    requires |a| == |c|
    requires a + b == c + d
    ensures a == c && b == d
  {
    assert a == (a + b)[..|a|] && b == (a + b)[|a|..];
    assert c == (c + d)[..|c|] && d == (c + d)[|c|..];
  }

  /** All blocks are `n` bytes long. */
  ghost predicate Sized(ds: seq<Bytes>, n: nat) {
    forall i | 0 <= i < |ds| :: |ds[i]| == n
  }

  /** The value of a register that held `reg` before it was extended with each digest in turn. */
  function Fold(h: Hash, a: HashAlg, reg: Bytes, ds: seq<Bytes>): Bytes {
    if ds == [] then reg
    else h(a, Fold(h, a, reg, ds[..|ds| - 1]) + ds[|ds| - 1])
  }

  /** The messages hashed while computing `Fold`. */
  ghost function FoldMessages(h: Hash, a: HashAlg, reg: Bytes, ds: seq<Bytes>): set<Bytes> {
    if ds == [] then {}
    else FoldMessages(h, a, reg, ds[..|ds| - 1]) + {Fold(h, a, reg, ds[..|ds| - 1]) + ds[|ds| - 1]}
  }

  lemma FoldSnoc(h: Hash, a: HashAlg, reg: Bytes, ds: seq<Bytes>, d: Bytes)
    ensures Fold(h, a, reg, ds + [d]) == h(a, Fold(h, a, reg, ds) + d)
  {
    assert (ds + [d])[..|ds|] == ds;
  }

  lemma {:induction false} FoldAppend(h: Hash, a: HashAlg, reg: Bytes, ds: seq<Bytes>, es: seq<Bytes>)
    ensures Fold(h, a, reg, ds + es) == Fold(h, a, Fold(h, a, reg, ds), es)
  {
    if es == [] {
      assert ds + es == ds;
    } else {
      var front, last := es[..|es| - 1], es[|es| - 1];
      FoldAppend(h, a, reg, ds, front);
      assert ds + es == (ds + front) + [last];
      FoldSnoc(h, a, reg, ds + front, last);
    }
  }

  /** A register value determines every digest that was extended into it since it was zero, in order. */
  lemma {:induction false} FoldInjective(h: Hash, a: HashAlg, ds: seq<Bytes>, es: seq<Bytes>, ms: set<Bytes>)
    requires ProperHash(h)
    requires Sized(ds, DigestSize(a)) && Sized(es, DigestSize(a))
    requires FoldMessages(h, a, Zeros(DigestSize(a)), ds) <= ms
    requires FoldMessages(h, a, Zeros(DigestSize(a)), es) <= ms
    requires SoundOn(h, a, ms)
    requires Fold(h, a, Zeros(DigestSize(a)), ds) == Fold(h, a, Zeros(DigestSize(a)), es)
    ensures ds == es
  {
    var zero := Zeros(DigestSize(a));
    if ds != [] && es != [] {
      var df, dl := ds[..|ds| - 1], ds[|ds| - 1];
      var ef, el := es[..|es| - 1], es[|es| - 1];
      FoldLength(h, a, df);
      FoldLength(h, a, ef);
      ConcatSplit(Fold(h, a, zero, df), dl, Fold(h, a, zero, ef), el);
      FoldInjective(h, a, df, ef, ms);
      assert ds == df + [dl] && es == ef + [el];
    }
  }

  lemma FoldLength(h: Hash, a: HashAlg, ds: seq<Bytes>)
    requires ProperHash(h)
    ensures |Fold(h, a, Zeros(DigestSize(a)), ds)| == DigestSize(a)
  {
  }
}
