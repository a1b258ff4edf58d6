/** FieldRequest: a request for one field, identified by a field identifier,
    with a pack size and the names of the groups the field should belong to,
    and the order used to keep field requests in sorted containers.

    The field identifier is a type parameter Fid; its operator< is passed in as
    fidLess, and its operator== is Dafny equality on Fid. */
module FieldRequests {
  import opened Wrappers
  import opened Orders
  import opened Bits

  /** The requirement the constructor aborts on, in the order it checks them. */
  datatype FieldRequestError =
    | PackSizeBelowOne       // ps < 1
    | PackSizeNotPowerOfTwo  // (ps & (ps-1)) != 0

  datatype FieldRequest<Fid> = FieldRequest(fid: Fid, packSize: int, groups: seq<string>)

  /** The main constructor: the pack size must be a positive power of two. */
  function MakeFieldRequest<Fid>(fid: Fid, groups: seq<string>, ps: int)
    : (res: Result<FieldRequest<Fid>, FieldRequestError>)
    ensures res.Ok? <==> ps >= 1 && IsPowerOfTwo(ps)
    ensures res == Err(PackSizeBelowOne) <==> ps < 1
    ensures res == Err(PackSizeNotPowerOfTwo) <==> ps >= 1 && !IsPowerOfTwo(ps)
    ensures res.Ok? ==> res.value == FieldRequest(fid, ps, groups)
  {
    if ps < 1 then Err(PackSizeBelowOne)
    else
      PowerOfTwoTest(ps);
      if BitAnd(ps, ps - 1) != 0 then Err(PackSizeNotPowerOfTwo)
      else Ok(FieldRequest(fid, ps, groups))
  }

  /** FieldRequest(fid, ps = 1): in no group. */
  function FieldRequestOf<Fid>(fid: Fid, ps: int := 1)
    : (res: Result<FieldRequest<Fid>, FieldRequestError>)
    ensures res.Ok? <==> ps >= 1 && IsPowerOfTwo(ps)
    ensures res.Ok? ==> res.value == FieldRequest(fid, ps, [])
  {
    MakeFieldRequest(fid, [], ps)
  }

  /** FieldRequest(fid, groups): pack size 1, which always succeeds. */
  function FieldRequestInGroups<Fid>(fid: Fid, groups: seq<string>)
    : (res: Result<FieldRequest<Fid>, FieldRequestError>)
    ensures res == Ok(FieldRequest(fid, 1, groups))
  {
    assert Pow2(0) == 1;
    MakeFieldRequest(fid, groups, 1)
  }

  /** FieldRequest(fid, group, ps = 1): in exactly one group. */
  function FieldRequestInGroup<Fid>(fid: Fid, group: string, ps: int := 1)
    : (res: Result<FieldRequest<Fid>, FieldRequestError>)
    ensures res.Ok? <==> ps >= 1 && IsPowerOfTwo(ps)
    ensures res.Ok? ==> res.value == FieldRequest(fid, ps, [group])
  {
    MakeFieldRequest(fid, [group], ps)
  }

  /** FieldRequest(name, layout, units, grid, groups, ps = 1). The identifier
      is built by makeFid, standing for FieldIdentifier's own constructor. */
  function FieldRequestOfParts<Fid, Layout, Units>(
    makeFid: (string, Layout, Units, string) -> Fid,
    name: string, layout: Layout, u: Units, grid: string, groups: seq<string>, ps: int := 1)
    : (res: Result<FieldRequest<Fid>, FieldRequestError>)
    ensures res.Ok? <==> ps >= 1 && IsPowerOfTwo(ps)
    ensures res.Ok? ==> res.value == FieldRequest(makeFid(name, layout, u, grid), ps, groups)
  {
    MakeFieldRequest(makeFid(name, layout, u, grid), groups, ps)
  }

  /** FieldRequest(name, layout, units, grid, ps = 1): in no group. */
  function FieldRequestOfPartsNoGroups<Fid, Layout, Units>(
    makeFid: (string, Layout, Units, string) -> Fid,
    name: string, layout: Layout, u: Units, grid: string, ps: int := 1)
    : (res: Result<FieldRequest<Fid>, FieldRequestError>)
    ensures res.Ok? <==> ps >= 1 && IsPowerOfTwo(ps)
    ensures res.Ok? ==> res.value == FieldRequest(makeFid(name, layout, u, grid), ps, [])
  {
    MakeFieldRequest(makeFid(name, layout, u, grid), [], ps)
  }

  /** FieldRequest(name, layout, units, grid, group, ps = 1): in one group. */
  function FieldRequestOfPartsInGroup<Fid, Layout, Units>(
    makeFid: (string, Layout, Units, string) -> Fid,
    name: string, layout: Layout, u: Units, grid: string, group: string, ps: int := 1)
    : (res: Result<FieldRequest<Fid>, FieldRequestError>)
    ensures res.Ok? <==> ps >= 1 && IsPowerOfTwo(ps)
    ensures res.Ok? ==> res.value == FieldRequest(makeFid(name, layout, u, grid), ps, [group])
  {
    MakeFieldRequest(makeFid(name, layout, u, grid), [group], ps)
  }

  /** A pack size of 3 is refused, as not a power of two. */
  lemma PackSizeThreeRejected<Fid>(fid: Fid, groups: seq<string>)
    ensures MakeFieldRequest(fid, groups, 3) == Err(PackSizeNotPowerOfTwo)
  {
    assert BitAnd(3, 2) == 2;
  }

  /** operator<(FieldRequest, FieldRequest): lexicographic on the identifier,
      the pack size and the groups list (itself compared lexicographically). */
  function FieldLess<Fid(==)>(fidLess: (Fid, Fid) -> bool, lhs: FieldRequest<Fid>, rhs: FieldRequest<Fid>)
    : (less: bool)
    ensures fidLess(lhs.fid, rhs.fid) ==> less
    ensures less ==> fidLess(lhs.fid, rhs.fid) || lhs.fid == rhs.fid
    ensures lhs.fid == rhs.fid && lhs.packSize < rhs.packSize ==> less
    ensures less && !fidLess(lhs.fid, rhs.fid) ==> lhs.packSize <= rhs.packSize
    ensures lhs.fid == rhs.fid && !fidLess(lhs.fid, rhs.fid) && lhs.packSize == rhs.packSize ==>
              (less <==> LexLess(StrLess, lhs.groups, rhs.groups))
  {
    if fidLess(lhs.fid, rhs.fid) then true
    else if lhs.fid == rhs.fid then
      if lhs.packSize < rhs.packSize then true
      else if lhs.packSize == rhs.packSize then LexLess(StrLess, lhs.groups, rhs.groups)
      else false
    else false
  }

  lemma FieldLessIrreflexive<Fid(!new)>(fidLess: (Fid, Fid) -> bool, a: FieldRequest<Fid>)
    requires IsStrictTotalOrder(fidLess)
    ensures !FieldLess(fidLess, a, a)
  {
    StrLessIsStrictTotal();
    LexLessIrreflexive(StrLess, a.groups);
  }

  lemma FieldLessTransitive<Fid(!new)>(fidLess: (Fid, Fid) -> bool,
                                       a: FieldRequest<Fid>, b: FieldRequest<Fid>, c: FieldRequest<Fid>)
    requires IsStrictTotalOrder(fidLess)
    requires FieldLess(fidLess, a, b) && FieldLess(fidLess, b, c)
    ensures FieldLess(fidLess, a, c)
  {
    if a.fid == b.fid == c.fid && a.packSize == b.packSize == c.packSize {
      StrLessIsStrictTotal();
      LexLessTransitive(StrLess, a.groups, b.groups, c.groups);
    }
  }

  lemma FieldLessConnected<Fid(!new)>(fidLess: (Fid, Fid) -> bool, a: FieldRequest<Fid>, b: FieldRequest<Fid>)
    requires IsStrictTotalOrder(fidLess)
    requires a != b
    ensures FieldLess(fidLess, a, b) || FieldLess(fidLess, b, a)
  {
    if a.fid == b.fid && a.packSize == b.packSize {
      StrLessIsStrictTotal();
      LexLessConnected(StrLess, a.groups, b.groups);
    }
  }

  lemma FieldLessAsymmetric<Fid(!new)>(fidLess: (Fid, Fid) -> bool, a: FieldRequest<Fid>, b: FieldRequest<Fid>)
    requires IsStrictTotalOrder(fidLess)
    requires FieldLess(fidLess, a, b)
    ensures !FieldLess(fidLess, b, a)
  {
    if FieldLess(fidLess, b, a) {
      FieldLessTransitive(fidLess, a, b, a);
      FieldLessIrreflexive(fidLess, a);
    }
  }

  /** With the same identifier and pack size, the first group name where the
      two lists differ decides. */
  lemma FieldLessByFirstDifferentGroup<Fid(!new)>(fidLess: (Fid, Fid) -> bool,
                                                  a: FieldRequest<Fid>, b: FieldRequest<Fid>, i: nat)
    requires IsStrictTotalOrder(fidLess)
    requires a.fid == b.fid && a.packSize == b.packSize
    requires i < |a.groups| && i < |b.groups| && a.groups[..i] == b.groups[..i]
    requires StrLess(a.groups[i], b.groups[i])
    ensures FieldLess(fidLess, a, b) && !FieldLess(fidLess, b, a)
  {
    StrLessIsStrictTotal();
    if StrLess(b.groups[i], a.groups[i]) {
      StrLessTransitive(a.groups[i], b.groups[i], a.groups[i]);
      StrLessIrreflexive(a.groups[i]);
    }
    LexLessFirstDifference(StrLess, a.groups, b.groups, i);
    LexLessFirstDifferenceNot(StrLess, b.groups, a.groups, i);
  }
}
