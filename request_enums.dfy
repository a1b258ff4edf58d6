/** The two enumerations of field_request.hpp, their underlying integer
    values (etoi) and the printable names of relationships (e2str). */
module RequestEnums {

  /** Whether the fields of a group must, should, or need not be stored as one
      bundled allocation. */
  datatype Bundling = Required | Preferred | NotNeeded {

    /** The underlying int of the enumerator: its position in the declaration. */
    function Etoi(): (i: int)
      ensures 0 <= i < 3
    {
      match this
      case Required => 0
      case Preferred => 1
      case NotNeeded => 2
    }
  }

  /** How a requested group relates to its relative group. For Parent, the
      relative is the parent of the requested group. */
  datatype Relationship = None | Alias | Parent | Child {

    /** The underlying int of the enumerator: its position in the declaration. */
    function Etoi(): (i: int)
      ensures 0 <= i < 4
    {
      match this
      case None => 0
      case Alias => 1
      case Parent => 2
      case Child => 3
    }
  }

  /** The printable name of a relationship. */
  function E2Str(rt: Relationship): (s: string)
    ensures |s| > 0 && s != "INVALID"
  {
    match rt
    case None => "None"
    case Alias => "Alias"
    case Child => "Child"
    case Parent => "Parent"
  }

  /** Distinct enumerators have distinct underlying ints, so comparing the ints
      compares the enumerators. */
  lemma BundlingEtoiInjective(a: Bundling, b: Bundling)
    ensures a.Etoi() == b.Etoi() <==> a == b
  {
  }

  lemma RelationshipEtoiInjective(a: Relationship, b: Relationship)
    ensures a.Etoi() == b.Etoi() <==> a == b
  {
  }

  /** Every relationship prints as its own name, unlike any other, and never as
      the fallback "INVALID". */
  lemma E2StrInjective(a: Relationship, b: Relationship)
    ensures E2Str(a) == E2Str(b) <==> a == b
    ensures E2Str(a) != "INVALID"
  {
  }

  /** The underlying ints follow the declaration order. */
  lemma BundlingEtoiOrder()
    ensures Required.Etoi() < Preferred.Etoi() < NotNeeded.Etoi()
  {
  }

  lemma RelationshipEtoiOrder()
    ensures None.Etoi() < Alias.Etoi() < Parent.Etoi() < Child.Etoi()
  {
  }
}
