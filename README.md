# Field and group requests

A model of the request layer of the SCREAM field manager
(`components/scream/src/share/field/field_request.hpp`): the structs through which
an atmosphere process declares the fields (`FieldRequest`) and the groups of
fields (`GroupRequest`) it needs before any field storage exists, the checks
their constructors make, and the two `operator<` that let requests be kept in
sorted containers.

Everything in the header is pure: constructors validate their arguments and
initialise the members once, and the comparisons are nested conditionals. The
model is therefore made of datatypes, functions and lemmas.

- `wrappers.dfy` (`Wrappers`): `Option` (the nullable relative) and `Result`
  (a constructor that either builds a request or names the requirement
  `EKAT_REQUIRE_MSG` aborts on).
- `orders.dfy` (`Orders`): strict total orders, `LexLess` (what
  `std::lexicographical_compare` computes, hence `<` on `std::list`) and
  `StrLess` (`<` on `std::string`), proved to be strict total orders.
- `bits.dfy` (`Bits`): `&` on non-negative integers and the proof that
  `(ps & (ps-1)) == 0` with `ps >= 1` holds exactly for powers of two.
- `request_enums.dfy` (`RequestEnums`): `Bundling`, `Relationship`, `etoi`
  (as a member `Etoi` of each enumeration) and `e2str`.
- `group_request.dfy` (`GroupRequests`): `GroupRequest`, its three
  constructors, the invariant they establish, and its `operator<` (`GroupLess`).
- `field_request.dfy` (`FieldRequests`): `FieldRequest` over an identifier type
  `Fid`, its six constructors, and its `operator<` (`FieldLess`).

What is proved:

- `MakeGroupRequest` succeeds exactly when the pack size is at least 1 and,
  when a relative is given, the relationship is not `None`, an exclusion list
  comes only with `Child`, and the relative has no relative of its own; each
  failure is reported as the first check that fails. A successful request
  stores the relative it was given (a copy), has nesting depth at most 1, and
  keeps no relationship and no exclusion list when there is no relative. Built from
  a well-formed relative (or none) the request is well formed, and every
  well-formed request is what the constructor builds from its own members.
- `MakeFieldRequest` succeeds exactly when the pack size is a positive power
  of two, and then stores the identifier, pack size and groups it was given.
  Group requests get no power-of-two check: a pack size of 3 is accepted for a
  group and refused for a field.
- `FieldLess` is a strict total order whenever the identifier order is one.
- `GroupLess` is irreflexive, asymmetric and transitive, and "neither is less"
  is exactly the equivalence `GroupEquivalent`: same name, grid and pack size,
  and either no relatives on both sides, or equivalent relatives with the same
  bundling and relationship. So it is a strict weak order but not a total one:
  two requests without relatives that differ only in bundling are equivalent,
  and the exclusion list never takes part. With equivalent relatives, bundling
  and then relationship decide, in the declaration order of the enumerators;
  otherwise the relatives' own order decides.
- Strings and groups lists compare by their first differing element.

Three consequences of the code as written:

- The group constructor checks only `pack_size >= 1`; unlike `FieldRequest` it
  makes no power-of-two check (line 54).
- `operator<` on groups is a strict weak order, not a total one
  (`GroupLessIsStrictWeakOrder`, `GroupLessNotTotal`,
  `GroupLessIgnoresExcludeExample`).
- Without a relative, the constructor ignores the relationship and exclusion
  arguments (lines 55-69).

## Model

| member | source | states |
|---|---|---|
| RequestEnums.Bundling.Etoi | components/scream/src/share/field/field_request.hpp:9-13 | the underlying int of a bundling value lies in 0..2 |
| RequestEnums.Relationship.Etoi | components/scream/src/share/field/field_request.hpp:16-21 | the underlying int of a relationship lies in 0..3 |
| RequestEnums.BundlingEtoiOrder | components/scream/src/share/field/field_request.hpp:9-13 | Required, Preferred, NotNeeded have increasing underlying ints |
| RequestEnums.RelationshipEtoiOrder | components/scream/src/share/field/field_request.hpp:16-21 | None, Alias, Parent, Child have increasing underlying ints |
| RequestEnums.E2Str | components/scream/src/share/field/field_request.hpp:23-31 | each relationship prints as a non-empty name that is never "INVALID" |
| RequestEnums.BundlingEtoiInjective | components/scream/src/share/field/field_request.hpp:114-121 | two bundling values have the same underlying int exactly when they are equal |
| RequestEnums.RelationshipEtoiInjective | components/scream/src/share/field/field_request.hpp:114-121 | two relationships have the same underlying int exactly when they are equal |
| RequestEnums.E2StrInjective | components/scream/src/share/field/field_request.hpp:23-31 | two relationships print the same exactly when they are equal, and none prints as "INVALID" |
| Bits.BitAnd | components/scream/src/share/field/field_request.hpp:173 | `a & b` on non-negative ints is at most each operand |
| Bits.PowerOfTwoTest | components/scream/src/share/field/field_request.hpp:172-174 | for n at least 1, `(n & (n-1)) == 0` holds exactly when n is 2^k for some k |
| Orders.LexLess | components/scream/src/share/field/field_request.hpp:217 | lexicographic comparison: a less sequence is non-empty, and a proper prefix is less than the longer sequence |
| Orders.StrLess | components/scream/src/share/field/field_request.hpp:128 | string comparison: a less string is non-empty, and a proper prefix is less than the longer string |
| Orders.LexLessIrreflexive | components/scream/src/share/field/field_request.hpp:217 | lexicographic comparison of a sequence with itself is false when the element order is irreflexive |
| Orders.LexLessTransitive | components/scream/src/share/field/field_request.hpp:217 | lexicographic comparison is transitive when the element order is a strict total order |
| Orders.LexLessConnected | components/scream/src/share/field/field_request.hpp:217 | two different sequences are ordered one way or the other when the element order is a strict total order |
| Orders.LexLessFirstDifference | components/scream/src/share/field/field_request.hpp:217 | where two sequences first differ, a smaller element of the left one makes it less |
| Orders.LexLessFirstDifferenceNot | components/scream/src/share/field/field_request.hpp:217 | where two sequences first differ, a larger element of the left one makes it not less, for an irreflexive element order |
| Orders.StrLessIrreflexive | components/scream/src/share/field/field_request.hpp:128 | no string is less than itself |
| Orders.StrLessTransitive | components/scream/src/share/field/field_request.hpp:128 | string comparison is transitive |
| Orders.StrLessConnected | components/scream/src/share/field/field_request.hpp:128 | two strings are equal or ordered one way or the other |
| Orders.StrLessIsStrictTotal | components/scream/src/share/field/field_request.hpp:128-133 | string comparison is a strict total order |
| Orders.StrLessFirstDifference | components/scream/src/share/field/field_request.hpp:128-133 | strings compare by their first differing character, in ascending order: the one with the smaller character is less and not the reverse |
| GroupRequests.MakeGroupRequest | components/scream/src/share/field/field_request.hpp:50-70 | succeeds iff ps >= 1 and, with a relative, relationship not None, exclusions only for Child, relative without relative; each error is the first failing check; on success stores name, grid, ps, bundling and the relative as given, relationship and exclusions only with a relative, and has depth at most 1 |
| GroupRequests.MakeGroupRequestWithPackSize | components/scream/src/share/field/field_request.hpp:73-76 | succeeds iff ps >= 1, and then has no relative, relationship None and no exclusions |
| GroupRequests.MakeGroupRequestDefault | components/scream/src/share/field/field_request.hpp:77-80 | always succeeds with pack size 1, no relative, relationship None and no exclusions |
| GroupRequests.WellFormedDepth | components/scream/src/share/field/field_request.hpp:64-68 | a well-formed request nests relatives at most one level deep |
| GroupRequests.MakeGroupRequestWellFormed | components/scream/src/share/field/field_request.hpp:50-70 | a request built from a well-formed relative (or none) is well formed |
| GroupRequests.MakeGroupRequestOfWellFormed | components/scream/src/share/field/field_request.hpp:50-70 | every well-formed request is what the constructor builds from its own members |
| GroupRequests.NestedRelativeRejected | components/scream/src/share/field/field_request.hpp:67-68 | a relative that has a relative is refused with NestedRelative |
| GroupRequests.ExcludeOnAliasRejected | components/scream/src/share/field/field_request.hpp:60-61 | an exclusion list with an Alias relationship is refused |
| GroupRequests.GroupPackSizeThreeAccepted | components/scream/src/share/field/field_request.hpp:54 | a group pack size of 3 is accepted (no power-of-two check) |
| GroupRequests.GroupLess | components/scream/src/share/field/field_request.hpp:125-152 | a smaller (name, grid, pack size) key makes a request less; a request that is less never has a larger key; with the same key, a request without a relative is less exactly when the other has one, and one with a relative is never less than one without |
| GroupRequests.GroupLessIrreflexive | components/scream/src/share/field/field_request.hpp:125-152 | no group request is less than itself |
| GroupRequests.GroupIncomparableIffEquivalent | components/scream/src/share/field/field_request.hpp:137-151 | neither request is less than the other exactly when they are GroupEquivalent |
| GroupRequests.GroupEquivalentReflexive | components/scream/src/share/field/field_request.hpp:137-151 | every request is equivalent to itself |
| GroupRequests.GroupEquivalentSymmetric | components/scream/src/share/field/field_request.hpp:137-151 | equivalence of requests is symmetric |
| GroupRequests.GroupEquivalentTransitive | components/scream/src/share/field/field_request.hpp:137-151 | equivalence of requests is transitive |
| GroupRequests.GroupLessEquivalentRight | components/scream/src/share/field/field_request.hpp:125-152 | a request less than b is less than every request equivalent to b |
| GroupRequests.GroupLessEquivalentLeft | components/scream/src/share/field/field_request.hpp:125-152 | every request equivalent to a is less than what a is less than |
| GroupRequests.GroupLessTransitive | components/scream/src/share/field/field_request.hpp:125-152 | group comparison is transitive, through the recursion on the relatives |
| GroupRequests.GroupLessAsymmetric | components/scream/src/share/field/field_request.hpp:125-152 | if a is less than b then b is not less than a |
| GroupRequests.GroupLessIsStrictWeakOrder | components/scream/src/share/field/field_request.hpp:125-152 | the group order is irreflexive and transitive, and incomparability is an equivalence relation |
| GroupRequests.GroupLessIgnoresBundlingWithoutRelatives | components/scream/src/share/field/field_request.hpp:137-138 | with the same key and no relatives, neither request is less, whatever the bundling |
| GroupRequests.GroupLessIgnoresExclude | components/scream/src/share/field/field_request.hpp:125-152 | changing a request's exclusion list never changes a comparison |
| GroupRequests.GroupLessNotTotal | components/scream/src/share/field/field_request.hpp:137-138 | "tracers" on "dyn_grid" with Required and with Preferred bundling are different requests neither of which is less |
| GroupRequests.GroupLessTieBreak | components/scream/src/share/field/field_request.hpp:139-145 | with the same key and equivalent relatives, a is less than b exactly when its bundling int is smaller, or the bundling is equal and its relationship int is smaller |
| GroupRequests.GroupLessByRelative | components/scream/src/share/field/field_request.hpp:139-142 | with the same key and relatives on both sides, a smaller relative makes the request less and a larger relative makes it not less |
| GroupRequests.GroupLessRequiredBeforePreferred | components/scream/src/share/field/field_request.hpp:139-145 | with the same key and equivalent relatives, Required bundling sorts before Preferred and not the reverse |
| GroupRequests.GroupLessIgnoresExcludeExample | components/scream/src/share/field/field_request.hpp:125-152 | two Child requests of one relative that exclude different fields are different requests neither of which is less |
| FieldRequests.MakeFieldRequest | components/scream/src/share/field/field_request.hpp:166-175 | succeeds iff ps is a positive power of two, fails with PackSizeBelowOne iff ps < 1 and with PackSizeNotPowerOfTwo otherwise, and stores fid, ps and groups as given |
| FieldRequests.FieldRequestOf | components/scream/src/share/field/field_request.hpp:178-180 | with default pack size 1 and no groups; succeeds iff ps is a positive power of two |
| FieldRequests.FieldRequestInGroups | components/scream/src/share/field/field_request.hpp:181-183 | pack size 1 with the given groups, always succeeds |
| FieldRequests.FieldRequestInGroup | components/scream/src/share/field/field_request.hpp:184-186 | the single given group; succeeds iff ps is a positive power of two |
| FieldRequests.FieldRequestOfParts | components/scream/src/share/field/field_request.hpp:187-190 | identifier built from name, layout, units and grid, the given groups; succeeds iff ps is a positive power of two |
| FieldRequests.FieldRequestOfPartsNoGroups | components/scream/src/share/field/field_request.hpp:191-194 | identifier built from its parts, no groups; succeeds iff ps is a positive power of two |
| FieldRequests.FieldRequestOfPartsInGroup | components/scream/src/share/field/field_request.hpp:195-198 | identifier built from its parts, one group; succeeds iff ps is a positive power of two |
| FieldRequests.PackSizeThreeRejected | components/scream/src/share/field/field_request.hpp:173-174 | a field pack size of 3 is refused as not a power of two |
| FieldRequests.FieldLess | components/scream/src/share/field/field_request.hpp:208-221 | a smaller identifier makes a request less; a request that is less has a smaller or equal identifier and, unless its identifier is smaller, a pack size no larger; with equal identifier and pack size, it is less exactly when its groups list is lexicographically less |
| FieldRequests.FieldLessIrreflexive | components/scream/src/share/field/field_request.hpp:208-221 | no field request is less than itself, given a strict total identifier order |
| FieldRequests.FieldLessTransitive | components/scream/src/share/field/field_request.hpp:208-221 | field comparison is transitive, given a strict total identifier order |
| FieldRequests.FieldLessConnected | components/scream/src/share/field/field_request.hpp:208-221 | two different field requests are ordered one way or the other, given a strict total identifier order |
| FieldRequests.FieldLessAsymmetric | components/scream/src/share/field/field_request.hpp:208-221 | if a is less than b then b is not less than a |
| FieldRequests.FieldLessByFirstDifferentGroup | components/scream/src/share/field/field_request.hpp:216-217 | with the same identifier and pack size, the request whose first differing group name is smaller is less, and not the reverse |

## Left out

- FieldIdentifier, FieldLayout and Units are not part of this model: the identifier is a type parameter with Dafny equality for its `==` and an order passed in as `fidLess`; the lemmas about `FieldLess` assume that order is a strict total order. FieldIdentifier's constructor is the parameter `makeFid`.
- The relative is held through a `std::shared_ptr`; the model stores it as an inline optional value, so sharing and aliasing of the relative are not modelled.
- `EKAT_REQUIRE_MSG` aborts; the model returns an error naming the failed requirement instead.
- When no relative is given, the C++ constructor leaves `relative_type` unassigned; the model stores `None`. The order reads it only when both requests have relatives.
- The "INVALID" fallback of `e2str` is reached only by out-of-range enum values, which a Dafny datatype cannot hold.
- Pack sizes are unbounded integers rather than 32-bit `int`: the only arithmetic is `ps-1` after `ps >= 1` has been checked, which cannot overflow.
- Strings are compared by character code point; `std::string` compares bytes as unsigned char, which for UTF-8 names gives the same order.
- Member access after construction (the structs have public, mutable members) is not modelled; `WellFormed` states what the constructors establish.
- Registry deduplication and merging, and resolution of the request graph, are not part of the header and not part of this model.
