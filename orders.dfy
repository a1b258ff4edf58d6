/** Strict orders, and the lexicographic order that std::lexicographical_compare
    (and hence operator< on std::string and on std::list) computes. */
module Orders {

  ghost predicate Irreflexive<T(!new)>(lt: (T, T) -> bool) {
    forall x :: !lt(x, x)
  }

  ghost predicate Transitive<T(!new)>(lt: (T, T) -> bool) {
    forall x, y, z :: lt(x, y) && lt(y, z) ==> lt(x, z)
  }

  /** Any two distinct values are ordered one way or the other. */
  ghost predicate Connected<T(!new)>(lt: (T, T) -> bool) {
    forall x, y :: x != y ==> lt(x, y) || lt(y, x)
  }

  ghost predicate IsStrictTotalOrder<T(!new)>(lt: (T, T) -> bool) {
    Irreflexive(lt) && Transitive(lt) && Connected(lt)
  }

  /** std::lexicographical_compare(a, b) with the element order lt: walk both
      sequences; the first position where one element is less decides; a
      proper prefix is less than the longer sequence. */
  function LexLess<T>(lt: (T, T) -> bool, a: seq<T>, b: seq<T>): (less: bool)
    ensures less ==> |b| > 0
    ensures |a| < |b| && a == b[..|a|] ==> less
    decreases |a|
  {
    if |b| == 0 then false
    else if |a| == 0 then true
    else if lt(a[0], b[0]) then true
    else if lt(b[0], a[0]) then false
    else
      assert |a| < |b| && a == b[..|a|] ==> a[1..] == b[1..][..|a| - 1];
      LexLess(lt, a[1..], b[1..])
  }

  lemma {:induction false} LexLessIrreflexive<T(!new)>(lt: (T, T) -> bool, a: seq<T>)
    requires Irreflexive(lt)
    ensures !LexLess(lt, a, a)
    decreases |a|
  {
    if |a| > 0 {
      LexLessIrreflexive(lt, a[1..]);
    }
  }

  lemma {:induction false} LexLessTransitive<T(!new)>(lt: (T, T) -> bool, a: seq<T>, b: seq<T>, c: seq<T>)
    requires IsStrictTotalOrder(lt)
    requires LexLess(lt, a, b) && LexLess(lt, b, c)
    ensures LexLess(lt, a, c)
    decreases |a|
  {
    if |a| > 0 && !lt(a[0], b[0]) && !lt(b[0], c[0]) {
      assert a[0] == b[0] == c[0];
      LexLessTransitive(lt, a[1..], b[1..], c[1..]);
    }
  }

  lemma {:induction false} LexLessConnected<T(!new)>(lt: (T, T) -> bool, a: seq<T>, b: seq<T>)
    requires IsStrictTotalOrder(lt)
    requires a != b
    ensures LexLess(lt, a, b) || LexLess(lt, b, a)
    decreases |a|
  {
    if |a| > 0 && |b| > 0 && a[0] == b[0] {
      assert a == [a[0]] + a[1..] && b == [b[0]] + b[1..];
      LexLessConnected(lt, a[1..], b[1..]);
    }
  }

  /** The first position where the sequences differ decides: if the element
      of a there is less, a is less. */
  lemma {:induction false} LexLessFirstDifference<T>(lt: (T, T) -> bool, a: seq<T>, b: seq<T>, i: nat)
    requires i < |a| && i < |b| && a[..i] == b[..i]
    requires lt(a[i], b[i])
    ensures LexLess(lt, a, b)
    decreases i
  {
    if i > 0 {
      assert a[0] == a[..i][0] && b[0] == b[..i][0];
      assert a[1..][..i - 1] == a[..i][1..] && b[1..][..i - 1] == b[..i][1..];
      LexLessFirstDifference(lt, a[1..], b[1..], i - 1);
    }
  }

  /** ... and if the element of b there is less (and not the other way round),
      a is not less, whenever lt is irreflexive. */
  lemma {:induction false} LexLessFirstDifferenceNot<T(!new)>(lt: (T, T) -> bool, a: seq<T>, b: seq<T>, i: nat)
    requires Irreflexive(lt)
    requires i < |a| && i < |b| && a[..i] == b[..i]
    requires lt(b[i], a[i]) && !lt(a[i], b[i])
    ensures !LexLess(lt, a, b)
    decreases i
  {
    if i > 0 {
      assert a[0] == a[..i][0] && b[0] == b[..i][0];
      assert a[1..][..i - 1] == a[..i][1..] && b[1..][..i - 1] == b[..i][1..];
      LexLessFirstDifferenceNot(lt, a[1..], b[1..], i - 1);
    }
  }

  /** The order of characters (by code point). */
  function CharLess(x: char, y: char): bool {
    x < y
  }

  /** operator< on std::string. */
  function StrLess(a: string, b: string): (less: bool)
    ensures less ==> |b| > 0
    ensures |a| < |b| && a == b[..|a|] ==> less
  {
    LexLess(CharLess, a, b)
  }

  lemma CharLessIsStrictTotal()
    ensures IsStrictTotalOrder(CharLess)
  {
  }

  lemma StrLessIrreflexive(a: string)
    ensures !StrLess(a, a)
  {
    CharLessIsStrictTotal();
    LexLessIrreflexive(CharLess, a);
  }

  lemma StrLessTransitive(a: string, b: string, c: string)
    requires StrLess(a, b) && StrLess(b, c)
    ensures StrLess(a, c)
  {
    CharLessIsStrictTotal();
    LexLessTransitive(CharLess, a, b, c);
  }

  lemma StrLessConnected(a: string, b: string)
    ensures a == b || StrLess(a, b) || StrLess(b, a)
  {
    CharLessIsStrictTotal();
    if a != b {
      LexLessConnected(CharLess, a, b);
    }
  }

  /** operator< on std::string is a strict total order. */
  lemma StrLessIsStrictTotal()
    ensures IsStrictTotalOrder(StrLess)
  {
    forall a ensures !StrLess(a, a) {
      StrLessIrreflexive(a);
    }
    forall a, b, c | StrLess(a, b) && StrLess(b, c) ensures StrLess(a, c) {
      StrLessTransitive(a, b, c);
    }
    forall a, b | a != b ensures StrLess(a, b) || StrLess(b, a) {
      StrLessConnected(a, b);
    }
  }

  /** Strings compare by their first differing character, in ascending order. */
  lemma StrLessFirstDifference(a: string, b: string, i: nat)
    requires i < |a| && i < |b| && a[..i] == b[..i] && a[i] < b[i]
    ensures StrLess(a, b) && !StrLess(b, a)
  {
    CharLessIsStrictTotal();
    LexLessFirstDifference(CharLess, a, b, i);
    LexLessFirstDifferenceNot(CharLess, b, a, i);
  }
}
