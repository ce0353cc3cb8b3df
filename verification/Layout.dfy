/** The size of a signal value, computed from its recursive type description. */
module Layout {
  import opened Words

  datatype BaseType = U8 | S8 | U16 | S16 | U32 | S32 | U64 | S64 | Real32 | Real64 | Complex32 | Complex64

  function Width(t: BaseType): (w: nat)
    ensures w in {1, 2, 4, 8, 16}
  {
    match t
    case U8 | S8 => 1
    case U16 | S16 => 2
    case U32 | S32 | Real32 => 4
    case U64 | S64 | Real64 | Complex32 => 8
    case Complex64 => 16
  }

  /** The optional "dimensions" member. Only a single linear dimension counts; its start, delta and
      size are 32-bit integers that default to 0, 0 and 1. */
  datatype Dimensions = NoDimensions | Linear(start: int, delta: int, size: int) | Unsupported

  datatype Kind =
    | Missing
    | Base(base: BaseType)
    | BitField(bits: Node)
    | Array(count: Word64, element: Node)
    | Struct(members: seq<Node>)
    | DynamicArray
    | Unknown

  datatype Node = Node(dimensions: Dimensions, kind: Kind)

  /** How often the described value is repeated; None when the dimensions are not supported. A
      negative size is converted to an unsigned 64-bit number. */
  function Repetitions(d: Dimensions): Option<Word64> {
    match d
    case NoDimensions => Some(1)
    case Linear(start, delta, size) => if start == 1 && delta == 0 then Some(Wrap(size)) else None
    case Unsupported => None
  }

  /** The widths of the scalar leaves of a value in transmission order; what is not supported
      contributes no leaf. */
  function Leaves(n: Node): seq<nat>
    decreases n, 1
  {
    match Repetitions(n.dimensions)
    case None => []
    case Some(k) =>
      match n.kind
      case Base(b) => Repeat([Width(b)], k)
      case BitField(sub) => Repeat(Leaves(sub), k)
      case Array(count, sub) => Repeat(Leaves(sub), k * count)
      case Struct(members) => Repeat(AllLeaves(members), k)
      case Missing | DynamicArray | Unknown => []
  }

  function AllLeaves(ns: seq<Node>): seq<nat>
    decreases ns, 0
  {
    if ns == [] then [] else AllLeaves(ns[..|ns| - 1]) + Leaves(ns[|ns| - 1])
  }

  function Repeat(s: seq<nat>, k: nat): seq<nat>
    decreases k
  {
    if k == 0 then [] else Repeat(s, k - 1) + s
  }

  function Sum(s: seq<nat>): nat {
    if s == [] then 0 else Sum(s[..|s| - 1]) + s[|s| - 1]
  }

  /** Size of a value in bytes, as a 64-bit number. */
  function ValueSize(n: Node): Word64 {
    Wrap(Sum(Leaves(n)))
  }

  lemma {:induction false} SumConcat(a: seq<nat>, b: seq<nat>)
    ensures Sum(a + b) == Sum(a) + Sum(b)
  {
    if b == [] {
      assert a + b == a;
    } else {
      assert (a + b)[..|a + b| - 1] == a + b[..|b| - 1];
      SumConcat(a, b[..|b| - 1]);
    }
  }

  lemma {:induction false} SumRepeat(s: seq<nat>, k: nat)
    ensures Sum(Repeat(s, k)) == Sum(s) * k
    decreases k
  {
    if k != 0 {
      SumRepeat(s, k - 1);
      SumConcat(Repeat(s, k - 1), s);
      assert Sum(s) * (k - 1) + Sum(s) == Sum(s) * k;
    }
  }

  /** Wrapping the factor first does not matter. */
  lemma WrapRepeat(s: seq<nat>, k: nat)
    ensures Wrap(Wrap(Sum(s)) * k) == Wrap(Sum(Repeat(s, k)))
  {
    SumRepeat(s, k);
    WrapMul(Sum(s), k);
  }

  lemma BaseSize(b: BaseType)
    ensures Sum(Leaves(Node(NoDimensions, Base(b)))) == Width(b)
  {
    SumRepeat([Width(b)], 1);
    assert [Width(b)][..0] == [];
    assert Sum([Width(b)]) == Width(b);
  }

  lemma BitFieldSize(bits: Node)
    ensures Sum(Leaves(Node(NoDimensions, BitField(bits)))) == Sum(Leaves(bits))
  {
    SumRepeat(Leaves(bits), 1);
  }

  /** Wrapping keeps divisibility by a width, which divides 2^64. */
  lemma WrapDivisible2(m: nat)
    ensures Wrap(2 * m) % 2 == 0
  {
    var q := (2 * m) / 0x1_0000_0000_0000_0000;
    assert Wrap(2 * m) == 2 * (m - 0x8000000000000000 * q);
  }

  lemma WrapDivisible4(m: nat)
    ensures Wrap(4 * m) % 4 == 0
  {
    var q := (4 * m) / 0x1_0000_0000_0000_0000;
    assert Wrap(4 * m) == 4 * (m - 0x4000000000000000 * q);
  }

  lemma WrapDivisible8(m: nat)
    ensures Wrap(8 * m) % 8 == 0
  {
    var q := (8 * m) / 0x1_0000_0000_0000_0000;
    assert Wrap(8 * m) == 8 * (m - 0x2000000000000000 * q);
  }

  lemma WrapDivisible16(m: nat)
    ensures Wrap(16 * m) % 16 == 0
  {
    var q := (16 * m) / 0x1_0000_0000_0000_0000;
    assert Wrap(16 * m) == 16 * (m - 0x1000000000000000 * q);
  }

  /** Wrapping a multiple of a width gives zero or a positive multiple of it. */
  lemma WidthMultiple(b: BaseType, m: nat)
    ensures var v := Wrap(Width(b) * m); v % Width(b) == 0 && (v != 0 ==> v >= Width(b))
  {
    hide Wrap;
    if Width(b) == 1 {
    } else if Width(b) == 2 {
      WrapDivisible2(m);
      assert Width(b) * m == 2 * m;
    } else if Width(b) == 4 {
      WrapDivisible4(m);
      assert Width(b) * m == 4 * m;
    } else if Width(b) == 8 {
      WrapDivisible8(m);
      assert Width(b) * m == 8 * m;
    } else {
      WrapDivisible16(m);
      assert Width(b) * m == 16 * m;
    }
  }

  function Times(d: Dimensions): nat {
    Repetitions(d).GetOr(0)
  }

  /** A scalar or bit field of any dimensions: its size is zero or a positive multiple of the width
      of its base type. */
  lemma ScalarSizeMultiple(n: Node, b: BaseType)
    requires n.kind == Base(b) || (n.kind.BitField? && n.kind.bits.kind == Base(b))
    ensures ValueSize(n) % Width(b) == 0 && (ValueSize(n) != 0 ==> ValueSize(n) >= Width(b))
  {
    hide Wrap, Width, Leaves, Sum;
    if n.kind.Base? {
      ScalarSum(n, b);
      WidthMultiple(b, Times(n.dimensions));
    } else {
      BitFieldSum(n, b);
      WidthMultiple(b, Times(n.kind.bits.dimensions) * Times(n.dimensions));
    }
  }

  lemma BitFieldSum(n: Node, b: BaseType)
    requires n.kind.BitField? && n.kind.bits.kind == Base(b)
    ensures Sum(Leaves(n)) == Width(b) * (Times(n.kind.bits.dimensions) * Times(n.dimensions))
  {
    hide Width;
    var bits := n.kind.bits;
    BitFieldRepeats(n);
    ScalarSum(bits, b);
    Associate(Width(b), Times(bits.dimensions), Times(n.dimensions));
  }

  lemma BitFieldRepeats(n: Node)
    requires n.kind.BitField?
    ensures Sum(Leaves(n)) == Sum(Leaves(n.kind.bits)) * Times(n.dimensions)
  {
    if Repetitions(n.dimensions).Some? {
      SumRepeat(Leaves(n.kind.bits), Times(n.dimensions));
    }
  }

  lemma ScalarSum(n: Node, b: BaseType)
    requires n.kind == Base(b)
    ensures Sum(Leaves(n)) == Width(b) * Times(n.dimensions)
  {
    hide Width;
    if Repetitions(n.dimensions).Some? {
      SumRepeat([Width(b)], Times(n.dimensions));
      assert [Width(b)][..0] == [];
      assert Sum([Width(b)]) == Width(b);
    }
  }

  lemma Associate(a: nat, b: nat, c: nat)
    ensures a * b * c == a * (b * c)
  {
  }

  lemma WordArraySize(k: Word64)
    ensures Sum(Leaves(Node(NoDimensions, Array(k, Node(NoDimensions, Base(U64)))))) == 8 * k
  {
    var element := Node(NoDimensions, Base(U64));
    BaseSize(U64);
    SumRepeat(Leaves(element), 1 * k);
  }

  lemma ScaledSum(a: nat, b: nat, k: nat)
    ensures Wrap(Wrap(a * k) + Wrap(Wrap(b) * k)) == Wrap((a + b) * k)
  {
    var x, y := a * k, b * k;
    assert x + y == (a + b) * k;
    WrapMul(b, k);
    WrapAdd(x, Wrap(y));
    WrapAdd(y, x);
  }

  lemma ArraySize(s: nat, k: nat, elements: nat)
    ensures Wrap(Wrap(Wrap(s) * k) * elements) == Wrap(Wrap(s) * (k * elements))
  {
    var w := Wrap(s);
    WrapMul(w * k, elements);
    assert w * k * elements == w * (k * elements);
  }

  /** The recursive computation in wrapping 64-bit arithmetic gives the sum of the leaf widths,
      modulo 2^64, for every description. */
  method GetDataTypeSize(n: Node) returns (size: Word64)
    ensures size == Wrap(Sum(Leaves(n)))
    decreases n, 1
  {
    hide Sum, Repeat, Wrap;
    var count: Word64 := 1;
    match n.dimensions {
      case NoDimensions =>
      case Linear(start, delta, k) =>
        if start != 1 || delta != 0 {
          NoLeaves();
          return 0;
        }
        count := Wrap(k);
      case Unsupported =>
        NoLeaves();
        return 0;
    }
    assert Repetitions(n.dimensions) == Some(count);
    match n.kind {
      case Base(b) =>
        ScalarSum(n, b);
        return Wrap(Width(b) * count);
      case BitField(sub) =>
        size := GetDataTypeSize(sub);
        WrapRepeat(Leaves(sub), count);
        return Wrap(size * count);
      case Array(elements, sub) =>
        size := GetDataTypeSize(sub);
        WrapRepeat(Leaves(sub), count * elements);
        ArraySize(Sum(Leaves(sub)), count, elements);
        return Wrap(Wrap(size * count) * elements);
      case Struct(members) =>
        size := StructSize(members, count);
        SumRepeat(AllLeaves(members), count);
      case Missing | DynamicArray | Unknown =>
        NoLeaves();
        return 0;
    }
  }

  lemma NoLeaves()
    ensures Wrap(Sum([])) == 0
  {
  }

  /** The accumulating loop over the members of a struct. It multiplies member by member by the
      repetition count, where the layout repeats the whole struct. */
  method StructSize(members: seq<Node>, count: Word64) returns (size: Word64)
    ensures size == Wrap(Sum(AllLeaves(members)) * count)
    decreases members, 0
  {
    size := 0;
    for i := 0 to |members|
      invariant size == Wrap(Sum(AllLeaves(members[..i])) * count)
    {
      var s := GetDataTypeSize(members[i]);
      size := Wrap(size + Wrap(s * count));
      AddMember(members, i, count);
    }
    assert members[..|members|] == members;
  }

  lemma AddMember(members: seq<Node>, i: nat, count: nat)
    requires i < |members|
    ensures Wrap(Wrap(Sum(AllLeaves(members[..i])) * count) + Wrap(Wrap(Sum(Leaves(members[i]))) * count))
         == Wrap(Sum(AllLeaves(members[..i + 1])) * count)
  {
    assert members[..i + 1][..i] == members[..i];
    SumConcat(AllLeaves(members[..i]), Leaves(members[i]));
    ScaledSum(Sum(AllLeaves(members[..i])), Sum(Leaves(members[i])), count);
  }

  // ------------------------------------------------------------------ laws of the value size

  /** Widths by what the types hold: the numbers of an n-bit type are those below 256^width, a
      complex number is two reals, and signed, unsigned and real types of a size are equally wide. */
  lemma WidthsHold()
    ensures Pow256(Width(U8)) == 0x100 && Pow256(Width(U16)) == 0x1_0000
    ensures Pow256(Width(U32)) == 0x1_0000_0000 && Pow256(Width(U64)) == 0x1_0000_0000_0000_0000
    ensures Width(S8) == Width(U8) && Width(S16) == Width(U16)
    ensures Width(S32) == Width(Real32) == Width(U32) && Width(S64) == Width(Real64) == Width(U64)
    ensures Width(Complex32) == 2 * Width(Real32) && Width(Complex64) == 2 * Width(Real64)
  {
    Pow256Values();
    assert Pow256(1) == 0x100 && Pow256(2) == 0x1_0000;
  }

  /** A linear dimension that starts at 1 with delta 0 repeats a value of any kind; with other
      dimensions the value has no size. */
  lemma DimensionSize(start: int, delta: int, size: int, kind: Kind)
    ensures ValueSize(Node(Linear(start, delta, size), kind))
         == if start == 1 && delta == 0 then Wrap(ValueSize(Node(NoDimensions, kind)) * Wrap(size)) else 0
    ensures ValueSize(Node(Unsupported, kind)) == 0
  {
    hide Wrap, Sum;
    NoLeaves();
    if start == 1 && delta == 0 {
      RepeatedSum(Wrap(size), kind, Linear(start, delta, size));
      WrapMul(Sum(Leaves(Node(NoDimensions, kind))), Wrap(size));
    }
  }

  lemma RepeatedSum(k: Word64, kind: Kind, d: Dimensions)
    requires Repetitions(d) == Some(k)
    ensures Sum(Leaves(Node(d, kind))) == Sum(Leaves(Node(NoDimensions, kind))) * k
  {
    hide Repeat, Leaves, Sum;
    var s, c := Part(kind), Parts(kind);
    AsParts(d, k, kind);
    AsParts(NoDimensions, 1, kind);
    SumRepeat(s, k * c);
    SumRepeat(s, 1 * c);
    Rearrange(Sum(s), k, c);
  }

  lemma Rearrange(x: nat, k: nat, c: nat)
    ensures x * (k * c) == x * (1 * c) * k
  {
    assert x * (k * c) == x * c * k;
  }

  /** The leaves of a value of a kind are some leaves, repeated. */
  function Part(kind: Kind): seq<nat> {
    match kind
    case Base(b) => [Width(b)]
    case BitField(sub) => Leaves(sub)
    case Array(_, sub) => Leaves(sub)
    case Struct(members) => AllLeaves(members)
    case Missing | DynamicArray | Unknown => []
  }

  function Parts(kind: Kind): nat {
    if kind.Array? then kind.count else 1
  }

  lemma AsParts(d: Dimensions, k: Word64, kind: Kind)
    requires Repetitions(d) == Some(k)
    ensures Leaves(Node(d, kind)) == Repeat(Part(kind), k * Parts(kind))
  {
    hide Width;
    EmptyRepeated(k);
    assert k * 1 == k;
  }

  lemma {:induction false} EmptyRepeated(k: nat)
    ensures Repeat([], k) == []
  {
    if k != 0 {
      EmptyRepeated(k - 1);
    }
  }

  /** An array is as long as its elements together. */
  lemma ArrayMultiplies(count: Word64, element: Node)
    ensures ValueSize(Node(NoDimensions, Array(count, element))) == Wrap(ValueSize(element) * count)
  {
    hide Wrap, Sum, Repeat;
    WrapRepeat(Leaves(element), 1 * count);
  }

  /** A struct is as long as its members together. */
  lemma StructAdds(members: seq<Node>, last: Node)
    ensures ValueSize(Node(NoDimensions, Struct([]))) == 0
    ensures ValueSize(Node(NoDimensions, Struct(members + [last])))
         == Wrap(ValueSize(Node(NoDimensions, Struct(members))) + ValueSize(last))
  {
    hide Wrap;
    OnceRepeated(AllLeaves([]));
    OnceRepeated(AllLeaves(members));
    OnceRepeated(AllLeaves(members + [last]));
    assert (members + [last])[..|members|] == members;
    SumConcat(AllLeaves(members), Leaves(last));
    WrapSum(Sum(AllLeaves(members)), Sum(Leaves(last)));
    NoLeaves();
  }

  lemma OnceRepeated(s: seq<nat>)
    ensures Repeat(s, 1) == s
  {
    assert Repeat(s, 0) == [];
    assert Repeat(s, 1) == Repeat(s, 0) + s;
  }

  lemma WrapSum(a: nat, b: nat)
    ensures Wrap(Wrap(a) + Wrap(b)) == Wrap(a + b)
  {
    WrapAdd(a, Wrap(b));
    WrapAdd(b, a);
  }
}
