# prim_int_kind in Dafny

A model of the Rust crate `prim_int_kind`. The crate names the kind of a
primitive integer type as a closed enumeration of twelve variants. It
converts to that enumeration in two ways:

- **From text** (`FromStr for PrimIntKind`). The input is compared as a whole
  string, case-sensitively, with the twelve type names `u8, u16, u32, u64,
  u128, usize, i8, i16, i32, i64, i128, isize`, in that order. The first name
  that equals the input gives the kind. Any other input gives the unit error
  `PrimIntKindParsingError`.
- **From a type** (`ToPrimIntKind::to_prim_int_kind()`). Each of the twelve
  primitive integer types has an impl that returns its own variant.

Everything is pure, and the model is a set of functions and lemmas in three
modules, one per source file:

- `Kinds` (`kinds.dfy`, src/lib.rs). The `PrimIntKind` datatype; `AllKinds`,
  the fixed order; `Ordinal`, a kind's position in that order; `Name`, the
  kind's token.
- `FromStr` (`from_str.dfy`, src/from_str.rs). `Result`, the unit
  `ParseError`, and `Parse`. `Parse` is `Scan` over `AllKinds()`: a
  left-to-right walk through the guard chain, where `eq_str` is whole-string
  `==`.
- `ToPrimIntKind` (`to_prim_int_kind.dfy`, src/to_prim_int_kind.rs).
  `PrimIntType` is the closed set of implementing types. Its constructors are
  spelt like the Rust type identifiers. `TypeName` is `stringify!($t)` and
  `ToKind` is the trait method.

Two properties hold by construction and have no lemma of their own:

- Determinism. `Parse` and `ToKind` are Dafny functions, so the same input
  always gives the same result and no hidden state exists.
- `to_prim_int_kind` takes no runtime argument. `ToKind` reads only the type
  tag.

The derived `PartialEq`/`Eq` on the enum is Dafny's structural equality on
datatypes. `AllKindsExhaustive` shows that the twelve variants are pairwise
unequal.

The crate documentation calls `"u16".parse()` in one example
(src/lib.rs:23-24) and the const-context `PrimIntKind::from_str("u16")` in
another (src/lib.rs:47-51). Both call the same `from_str`, so `ParseU16`
covers both.

## Model

| member | source | states |
|---|---|---|
| `Kinds.AllKinds` | src/from_str.rs:94 | the candidate list has twelve entries, and position `Ordinal(k)` holds `k` for every kind |
| `Kinds.Name` | src/from_str.rs:7-44 | every token is 2 to 5 characters of lower-case letters and digits, and starts with `u` for the six unsigned kinds and `i` for the six signed ones |
| `Kinds.AllKindsExhaustive` | src/lib.rs:54-67 | the enumeration is closed: exactly twelve variants, each listed once, with no duplicates |
| `Kinds.Ordinal` | src/lib.rs:54-67 | each kind's position in the declaration order lies in 0..11; with `AllKinds` it is a bijection onto those positions |
| `Kinds.NameInjective` | src/from_str.rs:94 | two kinds have the same name exactly when they are the same kind, so the twelve names are pairwise distinct |
| `FromStr.Scan` | src/from_str.rs:97-103 | a guard chain over any candidate list: success gives a candidate whose name equals the input, and failure happens exactly when no candidate's name equals it |
| `FromStr.Parse` | src/from_str.rs:79-104 | a successful parse returns a kind whose name is the input, and the parse fails exactly when the input is no kind's name |
| `FromStr.ScanFirstMatch` | src/from_str.rs:98-101 | the first guard that holds decides the result: the earliest candidate whose name equals the input is returned |
| `FromStr.ParseName` | src/from_str.rs:94-100 | round trip: parsing the name of any kind returns `Ok` of that kind |
| `FromStr.ParseOk` | src/from_str.rs:100 | `Parse(s) == Ok(k)` holds exactly when `s` is `Name(k)`, with no trimming, folding or prefix match |
| `FromStr.ParseRejects` | src/from_str.rs:102 | an input equal to none of the twelve names gives the single error value `PrimIntKindParsingError` |
| `FromStr.ScanOrderIrrelevant` | src/from_str.rs:97-101 | a scan in any order over a list that holds every kind gives the same result as `Parse`, so the guard order cannot change the outcome |
| `FromStr.ParseU16` | src/from_str.rs:118-122 | "u16" parses to `Ok(U16)` |
| `FromStr.ParseU8AndIsize` | src/from_str.rs:94 | "u8", the first name tried, parses to `Ok(U8)`, and "isize", the last, parses to `Ok(Isize)` |
| `FromStr.ParseRejectsUpperCase` | src/from_str.rs:124-129 | "U16" and "U8" are rejected, because matching is case-sensitive |
| `FromStr.ParseRejectsForeignChar` | src/from_str.rs:100-102 | an input holding a character that is neither a lower-case letter nor a digit, such as a space, is rejected |
| `FromStr.ParseRejectsNonNames` | src/from_str.rs:102 | "", " u16", "u16 ", "uint16", "u17" and "int32" are all rejected with the unit error |
| `ToPrimIntKind.AllTypes` | src/to_prim_int_kind.rs:54 | the list of implementing types has twelve entries, holds every `PrimIntType`, and has no duplicates, so the impls cover exactly the closed set of twelve types |
| `ToPrimIntKind.TypeName` | src/to_prim_int_kind.rs:54 | every type identifier is 2 to 5 characters of lower-case letters and digits |
| `ToPrimIntKind.TypeNameInjective` | src/to_prim_int_kind.rs:54 | two types have the same identifier exactly when they are the same type |
| `ToPrimIntKind.ToKind` | src/to_prim_int_kind.rs:63-70 | total on the twelve types; each type's kind is the kind whose name is the type's own identifier |
| `ToPrimIntKind.ToKindFollowsTable` | src/to_prim_int_kind.rs:3-40 | the twelve impls follow the variant table: the i-th type maps to the i-th kind |
| `ToPrimIntKind.ToKindInjective` | src/to_prim_int_kind.rs:3-40 | distinct types give distinct kinds |
| `ToPrimIntKind.ToKindSurjective` | src/to_prim_int_kind.rs:54 | every kind is the kind of some type; with injectivity, `ToKind` is a bijection |
| `ToPrimIntKind.ParseTypeName` | src/to_prim_int_kind.rs:64-67 | the reflector and the parser agree: parsing a type's name gives `Ok` of that type's kind |
| `ToPrimIntKind.ToKindI32` | src/to_prim_int_kind.rs:28-30 | `i32` reflects to `I32`, and the name of `I32` is "i32" |

## Left out

- The `macro_rules!` machinery (`impl_trait!`, `prim_int_kind_variant!` and the recursive `@MATCH`/`@PRIM_INTS` arms). The model states what their expansion does. It does not model the expansion step itself.
- The `const_trait_impl` gating and the split between `impl const` and plain `impl` (src/from_str.rs:61-77, src/lib.rs:2-5). This is a build configuration choice and no behaviour depends on it.
- The `Display` text of the error and the `Debug` derives. These are formatting done by other crates.
- `konst::eq_str` is not part of this model. It is taken to be whole-string equality.
- Compile-time rejection of types that have no `ToPrimIntKind` impl. Dafny cannot express a missing impl, so the closed `PrimIntType` datatype stands in for it.
- The README include and the doctest scaffolding in src/lib.rs. Only the stated examples are modelled, as `ParseU16`.
