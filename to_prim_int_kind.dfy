/**
 The type-to-kind reflector: `ToPrimIntKind::to_prim_int_kind()`. Rust
 selects one impl per primitive integer type at compile time; here the
 closed set of those types is a datatype of type tags, and the trait
 method is a total function of the tag alone.
 */
module ToPrimIntKind {
  import opened Kinds
  import opened FromStr

  /** The twelve primitive integer types that implement the trait, by their Rust names. */
  datatype PrimIntType =
    | u8 | u16 | u32 | u64 | u128 | usize
    | i8 | i16 | i32 | i64 | i128 | isize

  /** Every implementing type, in the order the impls are generated. */
  function AllTypes(): (ts: seq<PrimIntType>)
    ensures |ts| == 12
    ensures forall t :: t in ts
    ensures forall i, j :: 0 <= i < j < |ts| ==> ts[i] != ts[j]
  {
    var ts := [u8, u16, u32, u64, u128, usize, i8, i16, i32, i64, i128, isize];
    assert forall t :: t in ts by {
      forall t ensures t in ts {
        assert ts[Ordinal(ToKind(t))] == t;
      }
    }
    ts
  }

  /** The type's identifier as written in Rust source (`stringify!($t)`). */
  function TypeName(t: PrimIntType): (n: string)
    ensures 2 <= |n| <= 5
    ensures forall j :: 0 <= j < |n| ==> IsNameChar(n[j])
  {
    match t
    case u8 => "u8"
    case u16 => "u16"
    case u32 => "u32"
    case u64 => "u64"
    case u128 => "u128"
    case usize => "usize"
    case i8 => "i8"
    case i16 => "i16"
    case i32 => "i32"
    case i64 => "i64"
    case i128 => "i128"
    case isize => "isize"
  }

  /** `<t as ToPrimIntKind>::to_prim_int_kind()`: the kind named by the type's own identifier. */
  function ToKind(t: PrimIntType): (k: PrimIntKind)
    ensures Name(k) == TypeName(t)
  {
    match t
    case u8 => U8
    case u16 => U16
    case u32 => U32
    case u64 => U64
    case u128 => U128
    case usize => Usize
    case i8 => I8
    case i16 => I16
    case i32 => I32
    case i64 => I64
    case i128 => I128
    case isize => Isize
  }

  /** The impls follow the variant table position by position. */
  lemma ToKindFollowsTable()
    ensures |AllTypes()| == |AllKinds()|
    ensures forall i :: 0 <= i < |AllTypes()| ==> ToKind(AllTypes()[i]) == AllKinds()[i]
  {
    var ts := AllTypes();
    assert ts == [u8, u16, u32, u64, u128, usize, i8, i16, i32, i64, i128, isize];
    forall i | 0 <= i < |ts| ensures ToKind(ts[i]) == AllKinds()[i] {
      assert Ordinal(ToKind(ts[i])) == i;
    }
  }

  /** Distinct types give distinct kinds. */
  lemma ToKindInjective(t1: PrimIntType, t2: PrimIntType)
    ensures ToKind(t1) == ToKind(t2) ==> t1 == t2
  {
  }

  /** The twelve type identifiers are pairwise distinct. */
  lemma TypeNameInjective(t1: PrimIntType, t2: PrimIntType)
    ensures TypeName(t1) == TypeName(t2) <==> t1 == t2
  {
    NameInjective(ToKind(t1), ToKind(t2));
    ToKindInjective(t1, t2);
  }

  /** Every kind is the kind of some type. */
  lemma ToKindSurjective(k: PrimIntKind)
    ensures exists t :: ToKind(t) == k
  {
    ToKindFollowsTable();
    var t := AllTypes()[Ordinal(k)];
    assert ToKind(t) == k;
  }

  /** The reflector and the parser agree: parsing a type's name yields that type's kind. */
  lemma ParseTypeName(t: PrimIntType)
    ensures Parse(TypeName(t)) == Ok(ToKind(t))
  {
    ParseName(ToKind(t));
  }

  /** A 32-bit signed integer reflects to I32, whose name is "i32". */
  lemma ToKindI32()
    ensures ToKind(i32) == I32 && Name(ToKind(i32)) == "i32"
  {
  }
}
