/** Vocabulary shared by every layer of the model: bytes, options, machine-word
    limits, and the few arithmetic facts about sectors and clusters that the
    proofs of the other modules lean on. */
module Basics {
  type Byte = x: int | 0 <= x < 256

  datatype Option<+T> = None | Some(value: T)

  /** The error cases of `FsError` / `FileError` that the modelled code returns. */
  datatype Error =
    | Io
    | Corrupt
    | StorageFull
    | RootDirectoryFull
    | FileTooLarge
    | InvalidSeek
    | ReadOnly
    | ReadOnlyFile
    | FileLocked
    | NotFound
    | NotADirectory
    | IsADirectory
    | AlreadyExists
    | DirectoryNotEmpty
    | InvalidInput
    | PermissionDenied
    | Unsupported

  datatype Result<+T> = Ok(value: T) | Err(error: Error)

  const U32_MAX: nat := 0xFFFF_FFFF
  const U64_MAX: nat := 0xFFFF_FFFF_FFFF_FFFF

  function Min(a: int, b: int): int { if a <= b then a else b }

  function Max(a: int, b: int): int { if a >= b then a else b }

  /** `s` with `data` written over the positions starting at `at`. */
  function Splice<T>(s: seq<T>, at: nat, data: seq<T>): (r: seq<T>)
    requires at + |data| <= |s|
    ensures |r| == |s|
    ensures forall p {:trigger r[p]} :: 0 <= p < |s| ==> r[p] == if at <= p < at + |data| then data[p - at] else s[p]
  {
    s[..at] + data + s[at + |data|..]
  }

  /** The unit (sector, cluster) of size `n` that position `p` falls in. Named, like the offset there
      and the size of several units below, to keep division and products out of other proofs. */
  function Unit(p: nat, n: nat): nat
    requires n > 0
  {
    p / n
  }

  function Within(p: nat, n: nat): (w: nat)
    requires n > 0
    ensures w < n
  {
    p % n
  }

  /** The size of `k` units: `k * n`, by repeated addition. */
  function Units(k: nat, n: nat): nat
  {
    if k == 0 then 0 else Units(k - 1, n) + n
  }

  /** Units of units: `(k * m) * n == k * (m * n)`. */
  lemma {:induction false} UnitsAssoc(k: nat, m: nat, n: nat)
    ensures Units(Units(k, m), n) == Units(k, Units(m, n))
  {
    if k == 0 {
    } else {
      UnitsAssoc(k - 1, m, n);
      UnitsSplit(Units(k - 1, m), m, n);
    }
  }

  /** Rust's saturating `u32` arithmetic. */
  function SatAdd(a: nat, b: nat): nat { Min(a + b, U32_MAX) }

  function SatSub(a: nat, b: nat): nat { if a < b then 0 else a - b }

  function SatMul(a: nat, b: nat): nat { Min(Units(a, b), U32_MAX) }

  lemma {:induction false} UnitsIsProduct(k: nat, n: nat)
    ensures Units(k, n) == k * n
  {
    if k == 0 {
    } else {
      UnitsIsProduct(k - 1, n);
      MulSplit(k, 1, n);
    }
  }

  /** A position lies in unit `u` of size `n` exactly when its quotient is `u`,
      and its offset there is its remainder. */
  lemma {:induction false} UnitOf(p: nat, u: nat, n: nat)
    requires n > 0
    ensures u * n <= p < u * n + n <==> Unit(p, n) == u
    ensures u * n <= p < u * n + n ==> p - u * n == Within(p, n)
  {
    assert p == (p / n) * n + p % n;
    if p / n < u {
      assert (p / n + 1) * n <= u * n by { MulMono(p / n + 1, u, n); }
    } else if p / n > u {
      assert (u + 1) * n <= (p / n) * n by { MulMono(u + 1, p / n, n); }
    }
  }

  lemma UnitIsQuotient(p: nat, n: nat)
    requires n > 0
    ensures Unit(p, n) == p / n && Within(p, n) == p % n
  {
    UnitOf(p, p / n, n);
  }

  lemma {:induction false} UnitsOf(p: nat, u: nat, n: nat)
    requires n > 0
    ensures Units(u, n) <= p < Units(u, n) + n <==> Unit(p, n) == u
    ensures Units(u, n) <= p < Units(u, n) + n ==> p - Units(u, n) == Within(p, n)
  {
    UnitsIsProduct(u, n);
    UnitOf(p, u, n);
  }

  lemma MulMono(a: nat, b: nat, n: nat)
    requires a <= b
    ensures a * n <= b * n
  {
  }

  lemma {:induction false} UnitsMono(a: nat, b: nat, n: nat)
    requires a <= b
    ensures Units(a, n) <= Units(b, n)
  {
    if a >= b {
    } else {
      UnitsMono(a, b - 1, n);
    }
  }

  lemma {:induction false} UnitsSplit(a: nat, b: nat, n: nat)
    ensures Units(a + b, n) == Units(a, n) + Units(b, n)
  {
    if b == 0 {
    } else {
      UnitsSplit(a, b - 1, n);
    }
  }

  lemma MulSplit(a: int, b: int, n: int)
    ensures (a + b) * n == a * n + b * n
    ensures (a - b) * n == a * n - b * n
  {
  }

  lemma {:induction false} DivMono(a: nat, b: nat, n: nat)
    requires n > 0 && a <= b
    ensures Unit(a, n) <= Unit(b, n)
  {
    UnitOf(a, a / n, n);
    UnitOf(b, b / n, n);
    if a / n > b / n {
      MulMono(b / n + 1, a / n, n);
    }
  }

  /** Rust's `div_ceil` on unsigned words: the fewest units of size `n` that cover `a`. */
  function DivCeil(a: nat, n: nat): nat
    requires n > 0
  {
    if Within(a, n) == 0 then Unit(a, n) else Unit(a, n) + 1
  }

  lemma DivCeilCovers(a: nat, n: nat)
    requires n > 0
    ensures a <= Units(DivCeil(a, n), n) < a + n
  {
    UnitsOf(a, Unit(a, n), n);
    UnitsSplit(Unit(a, n), 1, n);
  }

  lemma DivCeilLeast(a: nat, n: nat, k: nat)
    requires n > 0
    ensures DivCeil(a, n) <= k <==> a <= Units(k, n)
  {
    DivCeilCovers(a, n);
    if DivCeil(a, n) <= k {
      UnitsMono(DivCeil(a, n), k, n);
    } else {
      UnitsMono(k + 1, DivCeil(a, n), n);
    }
  }

  lemma DivCeilUnits(k: nat, n: nat)
    requires n > 0
    ensures DivCeil(Units(k, n), n) == k
  {
    DivCeilLeast(Units(k, n), n, k);
    if k > 0 {
      DivCeilLeast(Units(k, n), n, k - 1);
    }
  }

  /** A part is no larger than the whole. */
  lemma {:induction false} SubsetSize<T>(a: set<T>, b: set<T>)
    requires a <= b
    ensures |a| <= |b|
  {
    if x :| x in a {
      SubsetSize(a - {x}, b - {x});
    }
  }

  // ---------------------------------------------------------------- bits

  /** The number whose bits, lowest first, are these. */
  function FromBits(bits: seq<bool>): nat {
    if bits == [] then 0 else (if bits[0] then 1 else 0) + 2 * FromBits(bits[1..])
  }

  /** The lowest `n` bits of a number. */
  function ToBits(x: nat, n: nat): (bits: seq<bool>)
    ensures |bits| == n
  {
    if n == 0 then [] else [x % 2 == 1] + ToBits(x / 2, n - 1)
  }

  /** 2 to the `n`. */
  function BitWeight(n: nat): nat { if n == 0 then 1 else 2 * BitWeight(n - 1) }

  lemma {:induction false} BitsRoundTrip(x: nat, n: nat)
    requires x < BitWeight(n)
    ensures FromBits(ToBits(x, n)) == x
  {
    if n == 0 {
    } else {
      BitsRoundTrip(x / 2, n - 1);
      assert ToBits(x, n)[1..] == ToBits(x / 2, n - 1);
    }
  }

  /** Bits moved down by one place, the lowest to the top. */
  function RotatedRight(bits: seq<bool>): seq<bool>
    requires bits != []
  {
    bits[1..] + [bits[0]]
  }

  lemma {:induction false} FromBitsPush(bits: seq<bool>, top: bool)
    ensures FromBits(bits + [top]) == FromBits(bits) + if top then BitWeight(|bits|) else 0
  {
    if bits == [] {
    } else {
      FromBitsPush(bits[1..], top);
      assert (bits + [top])[1..] == bits[1..] + [top];
    }
  }

  /** A rotation of `n` bits in numbers. */
  lemma RotatedIs(x: nat, n: nat)
    requires 0 < n && x < BitWeight(n)
    ensures FromBits(RotatedRight(ToBits(x, n))) == x / 2 + x % 2 * BitWeight(n - 1)
  {
    FromBitsPush(ToBits(x, n)[1..], x % 2 == 1);
    BitsRoundTrip(x / 2, n - 1);
    assert ToBits(x, n)[1..] == ToBits(x / 2, n - 1);
  }

  lemma PlusTwo(x: nat)
    requires x / 2 % 2 == 0
    ensures (x + 2) % 2 == x % 2 && (x + 2) / 2 % 2 == 1 && (x + 2) / 4 == x / 4
  {
    assert (x + 2) / 2 == x / 2 + 1;
  }

  lemma TwoBits(x: nat, n: nat)
    requires n > 1
    ensures ToBits(x, n) == [x % 2 == 1, x / 2 % 2 == 1] + ToBits(x / 4, n - 2)
  {
    assert x / 2 / 2 == x / 4;
    assert ToBits(x / 2, n - 1) == [x / 2 % 2 == 1] + ToBits(x / 2 / 2, n - 2);
  }

  /** A number with bit 1 clear, and the same with it raised. */
  lemma BitOne(x: nat, n: nat)
    requires x / 2 % 2 == 0 && n > 1
    ensures ToBits(x, n) == ToBits(x, n)[1 := false] == ToBits(x + 2, n)[1 := false]
    ensures ToBits(x + 2, n) == ToBits(x + 2, n)[1 := true] == ToBits(x, n)[1 := true]
  {
    PlusTwo(x);
    TwoBits(x, n);
    TwoBits(x + 2, n);
  }
}
