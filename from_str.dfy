/**
 The name-to-kind resolver: `FromStr for PrimIntKind`. The input is compared,
 whole-string and case-sensitively, with each canonical name in the fixed
 order of the registry; the first name that equals it decides the kind, and
 an input equal to none of them is rejected with the unit parsing error.
 */
module FromStr {
  import opened Kinds

  datatype Result<T, E> = Ok(value: T) | Err(error: E)

  /** The parsing error carries no data: there is exactly one error value. */
  datatype ParseError = PrimIntKindParsingError

  /** True when `s` is the canonical name of some kind. */
  ghost predicate IsKindName(s: string) {
    exists k :: Name(k) == s
  }

  /**
   The guard chain over the candidate list `ks`, tried left to right:
   the first candidate whose name equals `s` is returned. A failure is
   always the one `ParseError` value; the datatype already guarantees that,
   and the last ensures only spells it out for the solver.
   */
  function Scan(s: string, ks: seq<PrimIntKind>): (r: Result<PrimIntKind, ParseError>)
    ensures r.Ok? ==> r.value in ks && Name(r.value) == s
    ensures r.Err? <==> forall k :: k in ks ==> Name(k) != s
    ensures r.Err? ==> r.error == PrimIntKindParsingError
  {
    if ks == [] then Err(PrimIntKindParsingError)
    else if s == Name(ks[0]) then Ok(ks[0])
    else Scan(s, ks[1..])
  }

  /** `PrimIntKind::from_str(s)`, equivalently `s.parse::<PrimIntKind>()`. */
  function Parse(s: string): (r: Result<PrimIntKind, ParseError>)
    ensures r.Ok? ==> s == Name(r.value)
    ensures r.Err? <==> !IsKindName(s)
  {
    AllKindsExhaustive();
    var r := Scan(s, AllKinds());
    assert r.Err? ==> forall k :: Name(k) != s by {
      if r.Err? {
        forall k ensures Name(k) != s {
          assert k in AllKinds();
        }
      }
    }
    r
  }

  /** First match wins: the scan returns the earliest candidate whose name equals `s`. */
  lemma {:induction false} ScanFirstMatch(s: string, ks: seq<PrimIntKind>, i: nat)
    requires i < |ks| && Name(ks[i]) == s
    requires forall j :: 0 <= j < i ==> Name(ks[j]) != s
    ensures Scan(s, ks) == Ok(ks[i])
  {
    if i > 0 {
      assert Name(ks[0]) != s;
      forall j | 0 <= j < i - 1 ensures Name(ks[1..][j]) != s {
        assert ks[1..][j] == ks[j + 1];
      }
      ScanFirstMatch(s, ks[1..], i - 1);
    }
  }

  /** Round trip: every kind's name parses back to that kind. */
  lemma ParseName(k: PrimIntKind)
    ensures Parse(Name(k)) == Ok(k)
  {
    var ks := AllKinds();
    forall j | 0 <= j < Ordinal(k) ensures Name(ks[j]) != Name(k) {
      NameInjective(ks[j], k);
    }
    ScanFirstMatch(Name(k), ks, Ordinal(k));
  }

  /** A successful parse succeeds exactly on the kind's own name: no trimming, no prefixes. */
  lemma ParseOk(s: string, k: PrimIntKind)
    ensures Parse(s) == Ok(k) <==> s == Name(k)
  {
    if s == Name(k) {
      ParseName(k);
    }
  }

  /** Any input that is none of the twelve names yields the single error value. */
  lemma ParseRejects(s: string)
    requires forall k :: Name(k) != s
    ensures Parse(s) == Err(PrimIntKindParsingError)
  {
  }

  /**
   Because the names are distinct, the order of the guards cannot change the
   outcome: a scan over any list that holds every kind agrees with Parse.
   */
  lemma ScanOrderIrrelevant(s: string, ks: seq<PrimIntKind>)
    requires forall k :: k in ks
    ensures Scan(s, ks) == Parse(s)
  {
    var r := Scan(s, ks);
    if r.Ok? {
      ParseOk(s, r.value);
    } else {
      assert forall k :: Name(k) != s by {
        forall k ensures Name(k) != s {
          assert k in ks;
        }
      }
    }
  }

  /** The unit test `it_works` and the crate-level examples: "u16" parses to U16. */
  lemma ParseU16()
    ensures Parse("u16") == Ok(U16)
  {
    ParseName(U16);
  }

  /** The first and last names of the candidate list parse to their kinds. */
  lemma ParseU8AndIsize()
    ensures Parse("u8") == Ok(U8)
    ensures Parse("isize") == Ok(Isize)
  {
    ParseName(U8);
    ParseName(Isize);
  }

  /** Matching is case-sensitive: "U16" is rejected. */
  lemma ParseRejectsUpperCase()
    ensures Parse("U16") == Err(PrimIntKindParsingError)
    ensures Parse("U8") == Err(PrimIntKindParsingError)
  {
    forall k ensures Name(k) != "U16" && Name(k) != "U8" {
      assert Name(k)[0] != 'U';
    }
  }

  /** Whitespace is never trimmed: an input holding a character outside the name alphabet is rejected. */
  lemma ParseRejectsForeignChar(s: string, j: nat)
    requires j < |s| && !IsNameChar(s[j])
    ensures Parse(s) == Err(PrimIntKindParsingError)
  {
    forall k ensures Name(k) != s {
      if j < |Name(k)| {
        assert IsNameChar(Name(k)[j]);
      }
    }
  }

  /** Empty, padded, misspelt and synonym tokens are rejected. */
  lemma ParseRejectsNonNames()
    ensures Parse("") == Err(PrimIntKindParsingError)
    ensures Parse(" u16") == Err(PrimIntKindParsingError)
    ensures Parse("u16 ") == Err(PrimIntKindParsingError)
    ensures Parse("uint16") == Err(PrimIntKindParsingError)
    ensures Parse("u17") == Err(PrimIntKindParsingError)
    ensures Parse("int32") == Err(PrimIntKindParsingError)
  {
    assert forall k :: |Name(k)| != 0 && |Name(k)| != 6;
    ParseRejectsForeignChar(" u16", 0);
    ParseRejectsForeignChar("u16 ", 3);
    forall k ensures Name(k) != "u17" && Name(k) != "int32" {
      match k
      case U16 => assert Name(k)[2] == '6';
      case I32 => assert |Name(k)| == 3;
      case _ =>
    }
  }
}
