/**
 The kind registry: the closed enumeration of Rust's twelve primitive
 integer kinds, their fixed order, and the canonical lowercase name of each.
 */
module Kinds {

  /** The kind of a primitive integer type; variants in declaration order. */
  datatype PrimIntKind =
    | U8 | U16 | U32 | U64 | U128 | Usize
    | I8 | I16 | I32 | I64 | I128 | Isize

  /** The position of a kind in the declaration order (its implicit discriminant). */
  function Ordinal(k: PrimIntKind): (i: nat)
    ensures i < 12
  {
    match k
    case U8 => 0
    case U16 => 1
    case U32 => 2
    case U64 => 3
    case U128 => 4
    case Usize => 5
    case I8 => 6
    case I16 => 7
    case I32 => 8
    case I64 => 9
    case I128 => 10
    case Isize => 11
  }

  /** Every kind, once each, in the order the parser tries them. */
  function AllKinds(): (ks: seq<PrimIntKind>)
    ensures |ks| == 12
    ensures forall k :: ks[Ordinal(k)] == k
    ensures forall i :: 0 <= i < |ks| ==> Ordinal(ks[i]) == i
  {
    [U8, U16, U32, U64, U128, Usize, I8, I16, I32, I64, I128, Isize]
  }

  predicate IsNameChar(c: char) {
    ('a' <= c <= 'z') || ('0' <= c <= '9')
  }

  /** The kind's token, as `stringify!` spells the Rust type it names. */
  function Name(k: PrimIntKind): (n: string)
    ensures 2 <= |n| <= 5
    ensures n[0] == (if Ordinal(k) < 6 then 'u' else 'i')
    ensures forall j :: 0 <= j < |n| ==> IsNameChar(n[j])
  {
    match k
    case U8 => "u8"
    case U16 => "u16"
    case U32 => "u32"
    case U64 => "u64"
    case U128 => "u128"
    case Usize => "usize"
    case I8 => "i8"
    case I16 => "i16"
    case I32 => "i32"
    case I64 => "i64"
    case I128 => "i128"
    case Isize => "isize"
  }

  /** The registry holds exactly the twelve kinds, each exactly once. */
  lemma AllKindsExhaustive()
    ensures |AllKinds()| == 12
    ensures forall k :: k in AllKinds()
    ensures forall i, j :: 0 <= i < j < |AllKinds()| ==> AllKinds()[i] != AllKinds()[j]
  {
    var ks := AllKinds();
    forall k ensures k in ks {
      assert ks[Ordinal(k)] == k;
    }
    forall i, j | 0 <= i < j < |ks| ensures ks[i] != ks[j] {
      assert Ordinal(ks[i]) == i && Ordinal(ks[j]) == j;
    }
  }

  /** Canonical names are pairwise distinct: Name is injective. */
  lemma NameInjective(a: PrimIntKind, b: PrimIntKind)
    ensures Name(a) == Name(b) <==> a == b
  {
    if Name(a) == Name(b) {
      var n := Name(a);
      match a
      case U8 => assert n[1] == '8' && |n| == 2;
      case U16 => assert n[1..] == "16";
      case U32 => assert n[1..] == "32";
      case U64 => assert n[1..] == "64";
      case U128 => assert n[1..] == "128";
      case Usize => assert n[1..] == "size";
      case I8 => assert n[1] == '8' && |n| == 2;
      case I16 => assert n[1..] == "16";
      case I32 => assert n[1..] == "32";
      case I64 => assert n[1..] == "64";
      case I128 => assert n[1..] == "128";
      case Isize => assert n[1..] == "size";
    }
  }
}
