/**
The integer conversions of the primitives typekit: which of them RTT may apply by itself, and what
they do to values.
*/
module IntegerConversions {

  datatype IntType = Int8 | UInt8 | Int16 | UInt16 | Int32 | UInt32 | Int64 | UInt64 {
    function Bits(): nat {
      match this
      case Int8 => 8 case UInt8 => 8 case Int16 => 16 case UInt16 => 16
      case Int32 => 32 case UInt32 => 32 case Int64 => 64 case UInt64 => 64
    }

    predicate Signed() { Int8? || Int16? || Int32? || Int64? }

    /** The number of values, two to the power of the width. */
    function Modulus(): (m: int)
      ensures m > 0
    {
      match Bits()
      case 8 => 0x100
      case 16 => 0x1_0000
      case 32 => 0x1_0000_0000
      case _ => 0x1_0000_0000_0000_0000
    }

    function Min(): int { if Signed() then -(Modulus() / 2) else 0 }
    function Max(): int { if Signed() then Modulus() / 2 - 1 else Modulus() - 1 }
    predicate Holds(v: int) { Min() <= v <= Max() }
  }

  function Pow2(n: nat): nat {
    if n == 0 then 1 else 2 * Pow2(n - 1)
  }

  lemma {:induction false} Pow2Sum(m: nat, n: nat)
    ensures Pow2(m + n) == Pow2(m) * Pow2(n)
  {
    if m == 0 {
    } else {
      Pow2Sum(m - 1, n);
      assert Pow2(m) * Pow2(n) == 2 * (Pow2(m - 1) * Pow2(n));
    }
  }

  lemma Squared(n: nat, v: int, w: int)
    requires Pow2(n) == v && v * v == w
    ensures Pow2(n + n) == w
  {
    Pow2Sum(n, n);
  }

  lemma ModulusIsPow2(t: IntType)
    ensures t.Modulus() == Pow2(t.Bits())
  {
    var n := t.Bits();
    assert n == 8 || n == 16 || n == 32 || n == 64;
    Squared(4, 0x10, 0x100);
    if n > 8 { Squared(8, 0x100, 0x1_0000); }
    if n > 16 { Squared(16, 0x1_0000, 0x1_0000_0000); }
    if n > 32 { Squared(32, 0x1_0000_0000, 0x1_0000_0000_0000_0000); }
  }

  /** The values of a type of n bits: two to the n of them, half of them negative if the type is signed. */
  lemma Ranges(t: IntType)
    ensures t.Max() - t.Min() + 1 == Pow2(t.Bits())
    ensures t.Min() == if t.Signed() then -t.Max() - 1 else 0
  {
    ModulusIsPow2(t);
  }

  /** The ranges of the fixed-width integer types of C++. */
  lemma LiteralRanges(v: int)
    ensures Int8.Holds(v) <==> -128 <= v <= 127
    ensures UInt8.Holds(v) <==> 0 <= v <= 255
    ensures Int16.Holds(v) <==> -32768 <= v <= 32767
    ensures UInt16.Holds(v) <==> 0 <= v <= 65535
    ensures Int32.Holds(v) <==> -2147483648 <= v <= 2147483647
    ensures UInt32.Holds(v) <==> 0 <= v <= 4294967295
    ensures Int64.Holds(v) <==> -9223372036854775808 <= v <= 9223372036854775807
    ensures UInt64.Holds(v) <==> 0 <= v <= 18446744073709551615
  {
  }

  /** static_cast to an integer type: the value of the type that is congruent modulo two to the width. */
  function Cast(to: IntType, v: int): int {
    var r := v % to.Modulus();
    if r > to.Max() then r - to.Modulus() else r
  }

  /** A registered conversion and whether it is automatic. */
  datatype Constructor = Constructor(source: IntType, automatic: bool)

  /** The constructors of each type, in the order of their registration. */
  function ConstructorsOf(to: IntType): seq<Constructor> {
    match to
    case Int8 =>
      [Constructor(Int16, false), Constructor(Int32, false), Constructor(Int64, false), Constructor(UInt8, false),
       Constructor(UInt16, false), Constructor(UInt32, false), Constructor(UInt64, false)]
    case UInt8 =>
      [Constructor(Int8, false), Constructor(Int16, false), Constructor(Int32, false), Constructor(Int64, false),
       Constructor(UInt16, false), Constructor(UInt32, false), Constructor(UInt64, false)]
    case Int16 =>
      [Constructor(UInt8, true), Constructor(UInt16, false), Constructor(UInt32, false), Constructor(UInt64, false),
       Constructor(Int8, true), Constructor(Int32, false), Constructor(Int64, false)]
    case UInt16 =>
      [Constructor(Int8, false), Constructor(Int16, false), Constructor(Int32, false), Constructor(Int64, false),
       Constructor(UInt8, true), Constructor(UInt32, false), Constructor(UInt64, false)]
    case Int32 =>
      [Constructor(UInt8, true), Constructor(UInt16, true), Constructor(UInt32, false), Constructor(UInt64, false),
       Constructor(Int8, true), Constructor(Int16, true), Constructor(Int64, false)]
    case UInt32 =>
      [Constructor(Int8, false), Constructor(Int16, false), Constructor(Int32, false), Constructor(Int64, false),
       Constructor(UInt8, true), Constructor(UInt16, true), Constructor(UInt64, false)]
    case Int64 =>
      [Constructor(UInt8, true), Constructor(UInt16, true), Constructor(UInt32, true), Constructor(UInt64, false),
       Constructor(Int8, true), Constructor(Int16, true), Constructor(Int32, true)]
    case UInt64 =>
      [Constructor(Int8, false), Constructor(Int16, false), Constructor(Int32, false), Constructor(Int64, false),
       Constructor(UInt8, true), Constructor(UInt16, true), Constructor(UInt32, true)]
  }

  predicate Automatic(source: IntType, to: IntType) {
    Constructor(source, true) in ConstructorsOf(to)
  }

  predicate Included(source: IntType, to: IntType) { to.Min() <= source.Min() && source.Max() <= to.Max() }

  /** The table has the one conversion of source to `to`, with the right flag. */
  predicate RowCorrect(source: IntType, to: IntType) {
    && (Constructor(source, true) in ConstructorsOf(to) <==> source != to && Included(source, to))
    && (Constructor(source, false) in ConstructorsOf(to) <==> source != to && !Included(source, to))
  }

  lemma RowsCorrect(source: IntType, to: IntType)
    ensures RowCorrect(source, to)
  {
    match to.Bits()
    case 32 => RowsOf32BitsCorrect(source, to);
    case 64 => RowsOf64BitsCorrect(source, to);
    case _ => NarrowRowsCorrect(source, to);
  }

  lemma NarrowRowsCorrect(source: IntType, to: IntType)
    requires to.Bits() <= 16
    ensures RowCorrect(source, to)
  {
    match to
    case Int8 => assert RowCorrect(source, Int8);
    case UInt8 => assert RowCorrect(source, UInt8);
    case Int16 => assert RowCorrect(source, Int16);
    case UInt16 => assert RowCorrect(source, UInt16);
  }

  lemma RowsOf32BitsCorrect(source: IntType, to: IntType)
    requires to.Bits() == 32
    ensures RowCorrect(source, to)
  {
    match to
    case Int32 => assert RowCorrect(source, Int32);
    case UInt32 => assert RowCorrect(source, UInt32);
  }

  lemma RowsOf64BitsCorrect(source: IntType, to: IntType)
    requires to.Bits() == 64
    ensures RowCorrect(source, to)
  {
    match to
    case Int64 => assert RowCorrect(source, Int64);
    case UInt64 => assert RowCorrect(source, UInt64);
  }

  lemma IncludedIffAllValues(source: IntType, to: IntType)
    ensures Included(source, to) <==> forall v :: source.Holds(v) ==> to.Holds(v)
  {
    assert source.Holds(source.Min());
    assert source.Holds(source.Max());
  }

  /** Between any two types exactly one conversion is registered, and it is automatic iff no value can be lost. */
  lemma AutomaticIffIncluded(source: IntType, to: IntType)
    ensures source != to ==>
              (Constructor(source, true) in ConstructorsOf(to) <==> Constructor(source, false) !in ConstructorsOf(to))
    ensures Automatic(source, to) <==> source != to && (forall v :: source.Holds(v) ==> to.Holds(v))
  {
    RowsCorrect(source, to);
    IncludedIffAllValues(source, to);
  }

  /** A cast yields a value of the type, and leaves values of the type alone. */
  lemma CastHolds(to: IntType, v: int)
    ensures to.Holds(Cast(to, v))
    ensures to.Holds(v) ==> Cast(to, v) == v
  {
    if to.Holds(v) {
      UniqueResidue(v, to.Modulus(), if v < 0 then -1 else 0, if v < 0 then v + to.Modulus() else v);
    }
  }

  /** A cast yields the one value of the type that is congruent modulo two to the width. */
  lemma CastIff(to: IntType, v: int, w: int)
    ensures Pow2(to.Bits()) > 0
    ensures w == Cast(to, v) <==> to.Holds(w) && (v - w) % Pow2(to.Bits()) == 0
  {
    ModulusIsPow2(to);
    CastHolds(to, v);
    var m := to.Modulus();
    var q := CastResidue(to, v);
    if w == Cast(to, v) {
      UniqueResidue(v - w, m, q, 0);
    } else if to.Holds(w) && (v - w) % m == 0 {
      assert v == w + m * ((v - w) / m);
      CastIsUnique(to, v, w, (v - w) / m, q);
    }
  }

  lemma CastIsUnique(to: IntType, v: int, w: int, t: int, q: int)
    requires to.Holds(w) && v == w + to.Modulus() * t && v == Cast(to, v) + to.Modulus() * q
    ensures w == Cast(to, v)
  {
    MulAtLeast(to.Modulus(), t - q);
    assert to.Modulus() * (t - q) == Cast(to, v) - w;
  }

  /** A value converted from the first type of a chain to the last, one type after the other. */
  function ConvertAlong(chain: seq<IntType>, v: int): int {
    if chain == [] then v else ConvertAlong(chain[1..], Cast(chain[0], v))
  }

  predicate AutomaticChain(source: IntType, chain: seq<IntType>)
    decreases |chain|
  {
    chain == [] || (Automatic(source, chain[0]) && AutomaticChain(chain[0], chain[1..]))
  }

  /** Automatic conversions never change a value, however many RTT applies, so any two ways agree. */
  lemma {:induction false} AutomaticChainPreserves(source: IntType, chain: seq<IntType>, v: int)
    requires AutomaticChain(source, chain) && source.Holds(v)
    ensures ConvertAlong(chain, v) == v
    ensures chain != [] ==> chain[|chain| - 1].Holds(v)
    decreases |chain|
  {
    if chain == [] {
    } else {
      AutomaticIffIncluded(source, chain[0]);
      CastHolds(chain[0], v);
      AutomaticChainPreserves(chain[0], chain[1..], v);
    }
  }

  /** Converting to a type and explicitly back is the identity iff the type is at least as wide. */
  lemma BackAndForthIffWideEnough(source: IntType, to: IntType)
    ensures (forall v | source.Holds(v) :: Cast(source, Cast(to, v)) == v) <==> source.Bits() <= to.Bits()
  {
    if source.Bits() <= to.Bits() {
      forall v | source.Holds(v) ensures Cast(source, Cast(to, v)) == v {
        WideCastKeepsResidue(source, to, v);
        CastHolds(source, v);
      }
    } else {
      var v := to.Modulus();
      assert source.Holds(v);
      assert Cast(to, v) == 0 && Cast(source, 0) == 0;
    }
  }

  lemma WiderIsMultiple(source: IntType, to: IntType) returns (k: int)
    requires source.Bits() <= to.Bits()
    ensures to.Modulus() == source.Modulus() * k
  {
    k := if to.Bits() == source.Bits() then 1
         else if to.Bits() == 16 then 0x100
         else if to.Bits() == 32 then (if source.Bits() == 8 then 0x100_0000 else 0x1_0000)
         else if source.Bits() == 8 then 0x100_0000_0000_0000
         else if source.Bits() == 16 then 0x1_0000_0000_0000
         else 0x1_0000_0000;
  }

  lemma CastResidue(to: IntType, v: int) returns (t: int)
    ensures v == Cast(to, v) + to.Modulus() * t
  {
    var m := to.Modulus();
    t := if v % m > to.Max() then v / m + 1 else v / m;
    assert v == m * (v / m) + v % m;
  }

  /** Casting through a wider type does not change the residue modulo the narrower width. */
  lemma WideCastKeepsResidue(source: IntType, to: IntType, v: int)
    requires source.Bits() <= to.Bits()
    ensures Cast(source, Cast(to, v)) == Cast(source, v)
  {
    var k := WiderIsMultiple(source, to);
    var t := CastResidue(to, v);
    MulAssociative(source.Modulus(), k, t);
    SameResidue(Cast(to, v), source.Modulus(), k * t);
  }

  lemma MulAssociative(a: int, b: int, c: int)
    ensures a * b * c == a * (b * c)
  {
  }

  lemma SameResidue(c: int, m: int, t: int)
    requires m > 0
    ensures (c + m * t) % m == c % m
  {
    UniqueResidue(c + m * t, m, c / m + t, c % m);
  }

  lemma UniqueResidue(x: int, m: int, q: int, r: int)
    requires m > 0 && 0 <= r < m && x == m * q + r
    ensures x % m == r
  {
    assert x == m * (x / m) + x % m;
    MulAtLeast(m, x / m - q);
  }

  lemma MulAtLeast(m: int, d: int)
    requires m > 0
    ensures d >= 1 ==> m * d >= m
    ensures d <= -1 ==> m * d <= -m
  {
  }
}
