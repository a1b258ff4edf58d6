/** GroupRequest: a request for a named group of fields on a grid, possibly
    stated relative to another group, and the order used to keep group
    requests in sorted containers. */
module GroupRequests {
  import opened Wrappers
  import opened Orders
  import opened RequestEnums

  /** The requirement the constructor aborts on, in the order it checks them. */
  datatype GroupRequestError =
    | PackSizeBelowOne     // pack_size < 1
    | RelativeTypeIsNone   // a relative is given, but the relationship is None
    | ExcludeWithoutChild  // an exclusion list is given for a non-Child relationship
    | NestedRelative       // the relative has a relative of its own

  /** The relative, held by a std::shared_ptr in C++, is an inline optional copy. */
  datatype GroupRequest = GroupRequest(
    name: string,
    grid: string,
    packSize: int,
    relative: Option<GroupRequest>,
    bundling: Bundling,
    relativeType: Relationship,
    exclude: seq<string>)

  /** How many relatives are nested below a request. */
  function Depth(g: GroupRequest): nat {
    match g.relative
    case None => 0
    case Some(p) => 1 + Depth(p)
  }

  /** What every request built by the constructors satisfies: a pack size of at
      least 1, a relationship exactly when there is a relative, an exclusion
      list only for a Child, and a relative without a relative of its own. */
  predicate WellFormed(g: GroupRequest) {
    && g.packSize >= 1
    && match g.relative
       case None => g.relativeType == Relationship.None && g.exclude == []
       case Some(p) =>
         && g.relativeType != Relationship.None
         && (g.exclude == [] || g.relativeType == Child)
         && p.relative.None?
         && WellFormed(p)
  }

  /** The main constructor. Without a relative, the relationship and the
      exclusion list passed in are not stored. With one, the relative is copied
      into the request. */
  function MakeGroupRequest(name: string, grid: string, ps: int, b: Bundling,
                            r: Option<GroupRequest>, t: Relationship, excl: seq<string>)
    : (res: Result<GroupRequest, GroupRequestError>)
    ensures res.Ok? <==>
              ps >= 1 && (r.Some? ==> t != Relationship.None && (excl == [] || t == Child) && r.value.relative.None?)
    ensures res == Err(PackSizeBelowOne) <==> ps < 1
    ensures res == Err(RelativeTypeIsNone) <==> ps >= 1 && r.Some? && t == Relationship.None
    ensures res == Err(ExcludeWithoutChild) <==>
              ps >= 1 && r.Some? && t != Relationship.None && excl != [] && t != Child
    ensures res == Err(NestedRelative) <==>
              ps >= 1 && r.Some? && t != Relationship.None && (excl == [] || t == Child) && r.value.relative.Some?
    ensures res.Ok? ==>
              && res.value.name == name && res.value.grid == grid && res.value.packSize == ps
              && res.value.bundling == b && res.value.relative == r
              && res.value.relativeType == (if r.Some? then t else Relationship.None)
              && res.value.exclude == (if r.Some? then excl else [])
              && Depth(res.value) <= 1
  {
    if ps < 1 then Err(PackSizeBelowOne)
    else match r
      case None => Ok(GroupRequest(name, grid, ps, r, b, Relationship.None, []))
      case Some(p) =>
        if t == Relationship.None then Err(RelativeTypeIsNone)
        else if excl != [] && t != Child then Err(ExcludeWithoutChild)
        else if p.relative.Some? then Err(NestedRelative)
        else Ok(GroupRequest(name, grid, ps, r, b, t, excl))
  }

  /** GroupRequest(name, grid, ps, b = NotNeeded): no relative. */
  function MakeGroupRequestWithPackSize(name: string, grid: string, ps: int, b: Bundling := NotNeeded)
    : (res: Result<GroupRequest, GroupRequestError>)
    ensures res.Ok? <==> ps >= 1
    ensures res.Err? ==> res.error == PackSizeBelowOne
    ensures res.Ok? ==> res.value == GroupRequest(name, grid, ps, Option.None, b, Relationship.None, [])
  {
    MakeGroupRequest(name, grid, ps, b, Option.None, Relationship.None, [])
  }

  /** GroupRequest(name, grid, b = NotNeeded): pack size 1, no relative. */
  function MakeGroupRequestDefault(name: string, grid: string, b: Bundling := NotNeeded)
    : (res: Result<GroupRequest, GroupRequestError>)
    ensures res == Ok(GroupRequest(name, grid, 1, Option.None, b, Relationship.None, []))
  {
    MakeGroupRequestWithPackSize(name, grid, 1, b)
  }

  lemma {:induction false} WellFormedDepth(g: GroupRequest)
    requires WellFormed(g)
    ensures Depth(g) <= 1
  {
    match g.relative
    case None =>
    case Some(p) => assert Depth(p) == 0;
  }

  /** Built from well-formed parts, the constructor yields a well-formed request. */
  lemma MakeGroupRequestWellFormed(name: string, grid: string, ps: int, b: Bundling,
                                   r: Option<GroupRequest>, t: Relationship, excl: seq<string>)
    requires r.Some? ==> WellFormed(r.value)
    requires MakeGroupRequest(name, grid, ps, b, r, t, excl).Ok?
    ensures WellFormed(MakeGroupRequest(name, grid, ps, b, r, t, excl).value)
  {
  }

  /** Every well-formed request is what the constructor builds from its own
      fields: the constructor's checks describe exactly the well-formed requests. */
  lemma MakeGroupRequestOfWellFormed(g: GroupRequest)
    requires WellFormed(g)
    ensures MakeGroupRequest(g.name, g.grid, g.packSize, g.bundling, g.relative, g.relativeType, g.exclude) == Ok(g)
  {
  }

  /** Same (name, grid, pack size) key. */
  predicate SameKey(a: GroupRequest, b: GroupRequest) {
    a.name == b.name && a.grid == b.grid && a.packSize == b.packSize
  }

  /** Lexicographic order on the (name, grid, pack size) key. */
  predicate KeyLess(a: GroupRequest, b: GroupRequest) {
    || StrLess(a.name, b.name)
    || (a.name == b.name && StrLess(a.grid, b.grid))
    || (a.name == b.name && a.grid == b.grid && a.packSize < b.packSize)
  }

  /** operator<(GroupRequest, GroupRequest): lexicographic on name, grid and
      pack size; then a request without a relative comes first; bundling and
      relationship are compared only when both requests have a relative that
      neither is less than the other. The exclusion list is never compared.
      The contract states the key and relative-presence steps; GroupLessByRelative
      and GroupLessTieBreak state the steps through the relatives. */
  function GroupLess(lhs: GroupRequest, rhs: GroupRequest): (less: bool)
    ensures KeyLess(lhs, rhs) ==> less
    ensures less ==> KeyLess(lhs, rhs) || SameKey(lhs, rhs)
    ensures SameKey(lhs, rhs) && lhs.relative.None? ==> (less <==> rhs.relative.Some?)
    ensures SameKey(lhs, rhs) && lhs.relative.Some? && rhs.relative.None? ==> !less
    decreases Depth(lhs) + Depth(rhs)
  {
    StrLessIrreflexive(lhs.name);
    StrLessIrreflexive(lhs.grid);
    if StrLess(lhs.name, rhs.name) then true
    else if lhs.name == rhs.name then
      if StrLess(lhs.grid, rhs.grid) then true
      else if lhs.grid == rhs.grid then
        if lhs.packSize < rhs.packSize then true
        else if lhs.packSize == rhs.packSize then
          if lhs.relative.None? then rhs.relative.Some?
          else if rhs.relative.Some? then
            if GroupLess(lhs.relative.value, rhs.relative.value) then true
            else if !GroupLess(rhs.relative.value, lhs.relative.value) then
              lhs.bundling.Etoi() < rhs.bundling.Etoi() ||
              (lhs.bundling.Etoi() == rhs.bundling.Etoi() &&
               lhs.relativeType.Etoi() < rhs.relativeType.Etoi())
            else false
          else false
        else false
      else false
    else false
  }

  /** When neither of two requests is less than the other: same name, grid and
      pack size, and either both without a relative, or both with equivalent
      relatives and the same bundling and relationship. */
  predicate GroupEquivalent(a: GroupRequest, b: GroupRequest)
    decreases a
  {
    && SameKey(a, b)
    && match (a.relative, b.relative)
       case (None, None) => true
       case (Some(pa), Some(pb)) =>
         a.bundling == b.bundling && a.relativeType == b.relativeType && GroupEquivalent(pa, pb)
       case _ => false
  }

  lemma {:induction false} GroupEquivalentReflexive(a: GroupRequest)
    ensures GroupEquivalent(a, a)
  {
    if a.relative.Some? {
      GroupEquivalentReflexive(a.relative.value);
    }
  }

  lemma {:induction false} GroupEquivalentSymmetric(a: GroupRequest, b: GroupRequest)
    requires GroupEquivalent(a, b)
    ensures GroupEquivalent(b, a)
  {
    if a.relative.Some? {
      GroupEquivalentSymmetric(a.relative.value, b.relative.value);
    }
  }

  lemma {:induction false} GroupEquivalentTransitive(a: GroupRequest, b: GroupRequest, c: GroupRequest)
    requires GroupEquivalent(a, b) && GroupEquivalent(b, c)
    ensures GroupEquivalent(a, c)
  {
    if a.relative.Some? {
      GroupEquivalentTransitive(a.relative.value, b.relative.value, c.relative.value);
    }
  }

  lemma {:induction false} GroupLessIrreflexive(a: GroupRequest)
    ensures !GroupLess(a, a)
    decreases Depth(a)
  {
    StrLessIrreflexive(a.name);
    StrLessIrreflexive(a.grid);
    if a.relative.Some? {
      GroupLessIrreflexive(a.relative.value);
    }
  }

  /** Neither request is less than the other exactly when they are equivalent. */
  lemma {:induction false} GroupIncomparableIffEquivalent(a: GroupRequest, b: GroupRequest)
    ensures !GroupLess(a, b) && !GroupLess(b, a) <==> GroupEquivalent(a, b)
    decreases Depth(a) + Depth(b)
  {
    StrLessIrreflexive(a.name);
    StrLessIrreflexive(a.grid);
    StrLessConnected(a.name, b.name);
    StrLessConnected(a.grid, b.grid);
    BundlingEtoiInjective(a.bundling, b.bundling);
    RelationshipEtoiInjective(a.relativeType, b.relativeType);
    if a.relative.Some? && b.relative.Some? {
      GroupIncomparableIffEquivalent(a.relative.value, b.relative.value);
    }
  }

  lemma {:induction false} GroupLessEquivalentRight(a: GroupRequest, b: GroupRequest, c: GroupRequest)
    requires GroupLess(a, b) && GroupEquivalent(b, c)
    ensures GroupLess(a, c)
    decreases Depth(a) + Depth(b)
  {
    if SameKey(a, b) && a.relative.Some? && b.relative.Some?
    {
      StrLessIrreflexive(a.name);
      StrLessIrreflexive(a.grid);
      var ra, rb, rc := a.relative.value, b.relative.value, c.relative.value;
      if GroupLess(ra, rb) {
        GroupLessEquivalentRight(ra, rb, rc);
      } else {
        GroupIncomparableIffEquivalent(ra, rb);
        GroupEquivalentTransitive(ra, rb, rc);
        GroupIncomparableIffEquivalent(ra, rc);
      }
    }
  }

  lemma {:induction false} GroupLessEquivalentLeft(a: GroupRequest, b: GroupRequest, c: GroupRequest)
    requires GroupEquivalent(a, b) && GroupLess(b, c)
    ensures GroupLess(a, c)
    decreases Depth(b) + Depth(c)
  {
    if SameKey(b, c) && b.relative.Some? && c.relative.Some?
    {
      StrLessIrreflexive(b.name);
      StrLessIrreflexive(b.grid);
      var ra, rb, rc := a.relative.value, b.relative.value, c.relative.value;
      if GroupLess(rb, rc) {
        GroupLessEquivalentLeft(ra, rb, rc);
      } else {
        GroupIncomparableIffEquivalent(rb, rc);
        GroupEquivalentTransitive(ra, rb, rc);
        GroupIncomparableIffEquivalent(ra, rc);
      }
    }
  }

  lemma {:induction false} GroupLessTransitive(a: GroupRequest, b: GroupRequest, c: GroupRequest)
    requires GroupLess(a, b) && GroupLess(b, c)
    ensures GroupLess(a, c)
    decreases Depth(a) + Depth(b) + Depth(c)
  {
    if StrLess(a.name, b.name) && StrLess(b.name, c.name) {
      StrLessTransitive(a.name, b.name, c.name);
    } else if a.name == b.name == c.name {
      if StrLess(a.grid, b.grid) && StrLess(b.grid, c.grid) {
        StrLessTransitive(a.grid, b.grid, c.grid);
      } else if a.grid == b.grid == c.grid && a.packSize == b.packSize == c.packSize
                && a.relative.Some?
      {
        var ra, rb, rc := a.relative.value, b.relative.value, c.relative.value;
        if GroupLess(ra, rb) && GroupLess(rb, rc) {
          GroupLessTransitive(ra, rb, rc);
        } else if GroupLess(ra, rb) {
          GroupIncomparableIffEquivalent(rb, rc);
          GroupLessEquivalentRight(ra, rb, rc);
        } else if GroupLess(rb, rc) {
          GroupIncomparableIffEquivalent(ra, rb);
          GroupLessEquivalentLeft(ra, rb, rc);
        } else {
          GroupIncomparableIffEquivalent(ra, rb);
          GroupIncomparableIffEquivalent(rb, rc);
          GroupEquivalentTransitive(ra, rb, rc);
          GroupIncomparableIffEquivalent(ra, rc);
        }
      }
    }
  }

  lemma GroupLessAsymmetric(a: GroupRequest, b: GroupRequest)
    requires GroupLess(a, b)
    ensures !GroupLess(b, a)
  {
    if GroupLess(b, a) {
      GroupLessTransitive(a, b, a);
      GroupLessIrreflexive(a);
    }
  }

  /** Two requests without relatives and with the same key are equivalent,
      whatever their bundling, relationship and exclusion lists. */
  lemma GroupLessIgnoresBundlingWithoutRelatives(a: GroupRequest, b: GroupRequest)
    requires SameKey(a, b) && a.relative.None? && b.relative.None?
    ensures !GroupLess(a, b) && !GroupLess(b, a)
  {
    StrLessIrreflexive(a.name);
    StrLessIrreflexive(a.grid);
  }

  /** The exclusion list of a request never takes part in the comparison. */
  lemma GroupLessIgnoresExclude(a: GroupRequest, b: GroupRequest, e: seq<string>)
    ensures GroupLess(a.(exclude := e), b) == GroupLess(a, b)
    ensures GroupLess(b, a.(exclude := e)) == GroupLess(b, a)
  {
    assert Depth(a.(exclude := e)) == Depth(a);
  }

  /** The order is not total: "tracers" on "dyn_grid" requested once with
      bundling Required and once with Preferred gives two different requests,
      neither less than the other, so a sorted container keeps only one. */
  lemma GroupLessNotTotal()
    ensures var r1 := MakeGroupRequestDefault("tracers", "dyn_grid", Required).value;
            var r2 := MakeGroupRequestDefault("tracers", "dyn_grid", Preferred).value;
            r1 != r2 && !GroupLess(r1, r2) && !GroupLess(r2, r1)
  {
    var r1 := MakeGroupRequestDefault("tracers", "dyn_grid", Required).value;
    var r2 := MakeGroupRequestDefault("tracers", "dyn_grid", Preferred).value;
    GroupLessIgnoresBundlingWithoutRelatives(r1, r2);
  }

  /** The order is a strict weak order: irreflexive, transitive, and "neither
      is less" is an equivalence relation. */
  lemma GroupLessIsStrictWeakOrder()
    ensures Irreflexive(GroupLess) && Transitive(GroupLess)
    ensures forall a, b :: !GroupLess(a, b) && !GroupLess(b, a) <==> GroupEquivalent(a, b)
    ensures forall a :: GroupEquivalent(a, a)
    ensures forall a, b :: GroupEquivalent(a, b) ==> GroupEquivalent(b, a)
    ensures forall a, b, c :: GroupEquivalent(a, b) && GroupEquivalent(b, c) ==> GroupEquivalent(a, c)
  {
    forall a ensures !GroupLess(a, a) && GroupEquivalent(a, a) {
      GroupLessIrreflexive(a);
      GroupEquivalentReflexive(a);
    }
    forall a, b, c | GroupLess(a, b) && GroupLess(b, c) ensures GroupLess(a, c) {
      GroupLessTransitive(a, b, c);
    }
    forall a, b ensures !GroupLess(a, b) && !GroupLess(b, a) <==> GroupEquivalent(a, b) {
      GroupIncomparableIffEquivalent(a, b);
    }
    forall a, b | GroupEquivalent(a, b) ensures GroupEquivalent(b, a) {
      GroupEquivalentSymmetric(a, b);
    }
    forall a, b, c | GroupEquivalent(a, b) && GroupEquivalent(b, c) ensures GroupEquivalent(a, c) {
      GroupEquivalentTransitive(a, b, c);
    }
  }

  /** A relative that has a relative of its own is refused. */
  lemma NestedRelativeRejected(inner: GroupRequest, name: string, grid: string)
    requires inner.relative.Some?
    ensures MakeGroupRequest(name, grid, 1, NotNeeded, Some(inner), Alias, []) == Err(NestedRelative)
  {
  }

  /** An exclusion list for an Alias is refused. */
  lemma ExcludeOnAliasRejected(base: GroupRequest, name: string, grid: string, excl: seq<string>)
    requires base.relative.None? && excl != []
    ensures MakeGroupRequest(name, grid, 1, NotNeeded, Some(base), Alias, excl) == Err(ExcludeWithoutChild)
  {
  }

  /** Group pack sizes need not be powers of two: 3 is accepted. */
  lemma GroupPackSizeThreeAccepted(name: string, grid: string)
    ensures MakeGroupRequestWithPackSize(name, grid, 3).Ok?
  {
  }

  /** With the same key and equivalent relatives, bundling decides first and
      then the relationship, both in declaration order of the enumerators. */
  lemma GroupLessTieBreak(a: GroupRequest, b: GroupRequest)
    requires SameKey(a, b) && a.relative.Some? && b.relative.Some?
    requires GroupEquivalent(a.relative.value, b.relative.value)
    ensures GroupLess(a, b) <==>
              || a.bundling.Etoi() < b.bundling.Etoi()
              || (a.bundling == b.bundling && a.relativeType.Etoi() < b.relativeType.Etoi())
  {
    StrLessIrreflexive(a.name);
    StrLessIrreflexive(a.grid);
    GroupIncomparableIffEquivalent(a.relative.value, b.relative.value);
    BundlingEtoiInjective(a.bundling, b.bundling);
  }

  /** With the same key and equivalent relatives, a request whose bundling is
      Required sorts before one whose bundling is Preferred. */
  lemma GroupLessRequiredBeforePreferred(a: GroupRequest, b: GroupRequest)
    requires SameKey(a, b) && a.relative.Some? && b.relative.Some?
    requires GroupEquivalent(a.relative.value, b.relative.value)
    requires a.bundling == Required && b.bundling == Preferred
    ensures GroupLess(a, b) && !GroupLess(b, a)
  {
    GroupLessTieBreak(a, b);
    GroupEquivalentSymmetric(a.relative.value, b.relative.value);
    GroupLessTieBreak(b, a);
  }

  /** Two Child requests "subset" of "tracers" on "dyn_grid" that exclude
      different fields ("qv" and "qc") are different requests neither of which
      is less, so a sorted container keeps only one of them. */
  lemma GroupLessIgnoresExcludeExample()
    ensures var base := MakeGroupRequestDefault("tracers", "dyn_grid").value;
            var r1 := MakeGroupRequest("subset", "dyn_grid", 1, NotNeeded, Some(base), Child, ["qv"]);
            var r2 := MakeGroupRequest("subset", "dyn_grid", 1, NotNeeded, Some(base), Child, ["qc"]);
            && r1.Ok? && r2.Ok? && r1.value != r2.value
            && !GroupLess(r1.value, r2.value) && !GroupLess(r2.value, r1.value)
  {
    var base := MakeGroupRequestDefault("tracers", "dyn_grid").value;
    var r1 := MakeGroupRequest("subset", "dyn_grid", 1, NotNeeded, Some(base), Child, ["qv"]).value;
    var r2 := MakeGroupRequest("subset", "dyn_grid", 1, NotNeeded, Some(base), Child, ["qc"]).value;
    assert r1.exclude != r2.exclude;
    GroupEquivalentReflexive(r1);
    GroupLessIgnoresExclude(r1, r1, r2.exclude);
    GroupLessIrreflexive(r1);
    assert r1.(exclude := r2.exclude) == r2;
  }

  /** With the same key and relatives on both sides, the relatives' order
      decides first: a smaller relative makes the request less, a larger
      relative makes it not less. */
  lemma GroupLessByRelative(a: GroupRequest, b: GroupRequest)
    requires SameKey(a, b) && a.relative.Some? && b.relative.Some?
    ensures GroupLess(a.relative.value, b.relative.value) ==> GroupLess(a, b)
    ensures GroupLess(b.relative.value, a.relative.value) ==> !GroupLess(a, b)
  {
    StrLessIrreflexive(a.name);
    StrLessIrreflexive(a.grid);
    if GroupLess(b.relative.value, a.relative.value) {
      GroupLessAsymmetric(b.relative.value, a.relative.value);
    }
  }
}
