/**
  * version.cc: comparison of dotted version numbers, where missing components count as zero, and
  * comparison with a version that ends in a wildcard.
  */
module Version {

  type Components = seq<nat>

  /** Component `i` of the version extended with zeros. */
  function At(v: Components, i: nat): nat { if i < |v| then v[i] else 0 }

  /** Lexicographic order of the zero-extended versions. */
  ghost predicate LessAt(a: Components, b: Components, i: nat) {
    At(a, i) < At(b, i) && forall j: nat :: j < i ==> At(a, j) == At(b, j)
  }

  ghost predicate Less(a: Components, b: Components) { exists i: nat :: LessAt(a, b, i) }

  ghost predicate Same(a: Components, b: Components) { forall i: nat :: At(a, i) == At(b, i) }

  /** The sign of a comparison: what the code should return. */
  ghost function Order(a: Components, b: Components): int { if Less(a, b) then -1 else if Less(b, a) then 1 else 0 }

  lemma NotBoth(a: Components, b: Components)
    ensures !(Less(a, b) && Less(b, a)) && (Same(a, b) ==> !Less(a, b) && !Less(b, a))
  {
    forall i: nat, j: nat | LessAt(a, b, i) && LessAt(b, a, j) ensures false {}
  }

  method CompareVersionComponents(a: Components, b: Components) returns (r: int)
    ensures r == Order(a, b) && (r == 0 <==> Same(a, b))
  {
    NotBoth(a, b);
    var count := if |a| < |b| then |a| else |b|;
    var i := 0;
    while i < count
      invariant i <= count && forall j: nat :: j < i ==> At(a, j) == At(b, j)
    {
      if a[i] > b[i] {
        assert LessAt(b, a, i);
        return 1;
      }
      if a[i] < b[i] {
        assert LessAt(a, b, i);
        return -1;
      }
      i := i + 1;
    }
    if |a| > |b| {
      i := count;
      while i < |a|
        invariant count <= i <= |a| && forall j: nat :: j < i ==> At(a, j) == At(b, j)
      {
        if a[i] > 0 {
          assert LessAt(b, a, i);
          return 1;
        }
        i := i + 1;
      }
    } else if |a| < |b| {
      i := count;
      while i < |b|
        invariant count <= i <= |b| && forall j: nat :: j < i ==> At(a, j) == At(b, j)
      {
        if b[i] > 0 {
          assert LessAt(a, b, i);
          return -1;
        }
        i := i + 1;
      }
    }
    assert Same(a, b);
    return 0;
  }

  // ---------------------------------------------------------------- a total preorder

  lemma {:induction false} FirstDifference(a: Components, b: Components, n: nat) returns (i: nat)
    requires exists j: nat :: j <= n && At(a, j) != At(b, j)
    ensures LessAt(a, b, i) || LessAt(b, a, i)
    decreases n
  {
    if exists j: nat :: j < n && At(a, j) != At(b, j) {
      i := FirstDifference(a, b, n - 1);
    } else {
      i := n;
    }
  }

  /** Exactly one of less, the same, and greater. */
  lemma Trichotomy(a: Components, b: Components)
    ensures Order(a, b) == -Order(b, a) && (Order(a, b) == 0 <==> Same(a, b))
  {
    NotBoth(a, b);
    if !Same(a, b) {
      var j: nat :| At(a, j) != At(b, j);
      var i := FirstDifference(a, b, j);
    }
  }

  lemma Transitive(a: Components, b: Components, c: Components)
    requires Order(a, b) <= 0 && Order(b, c) <= 0
    ensures Order(a, c) <= 0 && (Order(a, c) == 0 ==> Order(a, b) == Order(b, c) == 0)
  {
    Trichotomy(a, b);
    Trichotomy(b, c);
    Trichotomy(a, c);
    if Less(a, b) {
      var i: nat :| LessAt(a, b, i);
      if Less(b, c) {
        var j: nat :| LessAt(b, c, j);
        assert LessAt(a, c, if i < j then i else j);
      } else {
        assert LessAt(a, c, i);
      }
    } else if Less(b, c) {
      var j: nat :| LessAt(b, c, j);
      assert LessAt(a, c, j);
    }
  }

  /** Versions that differ only in trailing zeros cannot be told apart by comparing. */
  lemma SameCompareAlike(a: Components, b: Components, c: Components)
    requires Order(a, b) == 0
    ensures Order(a, c) == Order(b, c)
  {
    Trichotomy(a, b);
    assert forall i: nat :: LessAt(a, c, i) <==> LessAt(b, c, i);
    assert forall i: nat :: LessAt(c, a, i) <==> LessAt(c, b, i);
  }

  // ---------------------------------------------------------------- wildcards

  /** The numbers before the wildcard are the first components, missing ones counting as zero. */
  ghost predicate Matches(v: Components, numbers: Components) {
    forall i :: 0 <= i < |numbers| ==> At(v, i) == numbers[i]
  }

  ghost function WildcardOrder(v: Components, numbers: Components): int {
    if Matches(v, numbers) then 0 else Order(v, numbers)
  }

  /** A version that matches is not smaller. */
  lemma MatchingIsNotLess(v: Components, numbers: Components)
    requires Matches(v, numbers)
    ensures !Less(v, numbers)
  {
    forall i: nat ensures !LessAt(v, numbers, i) {
      assert i < |numbers| ==> At(v, i) == At(numbers, i);
    }
  }

  method CompareToWildcard(v: Components, numbers: Components) returns (r: int)
    ensures r == 0 <==> Matches(v, numbers)
    ensures r != 0 ==> r == Order(v, numbers)
    ensures r == WildcardOrder(v, numbers)
  {
    var comparison := CompareVersionComponents(v, numbers);
    if comparison == -1 || comparison == 0 {
      if Matches(v, numbers) { MatchingIsNotLess(v, numbers); }
      assert comparison == 0 ==> Same(v, numbers) && Matches(v, numbers) by {
        forall i | comparison == 0 && 0 <= i < |numbers| ensures At(v, i) == numbers[i] {
          assert At(numbers, i) == numbers[i];
        }
      }
      return comparison;
    }
    var count := if |v| < |numbers| then |v| else |numbers|;
    var i := 0;
    while i < count
      invariant i <= count && forall j :: 0 <= j < i ==> v[j] == numbers[j]
    {
      if v[i] != numbers[i] {
        assert At(v, i) != numbers[i];
        return 1;
      }
      i := i + 1;
    }
    ghost var k: nat :| LessAt(numbers, v, k);
    assert k < |v| && k >= count;
    return 0;
  }

  /** A greater version never compares smaller with the same wildcard. */
  lemma WildcardIsMonotone(a: Components, b: Components, numbers: Components)
    requires Order(a, b) <= 0
    ensures WildcardOrder(a, numbers) <= WildcardOrder(b, numbers)
  {
    Trichotomy(a, numbers);
    Trichotomy(b, numbers);
    Trichotomy(a, b);
    if Order(b, numbers) < 0 {
      Transitive(a, b, numbers);
      if Matches(b, numbers) { MatchingIsNotLess(b, numbers); }
      if Matches(a, numbers) { MatchingIsNotLess(a, numbers); }
    } else if Matches(b, numbers) && Less(numbers, a) {
      MatchesBetween(numbers, a, b);
    } else if Order(b, numbers) == 0 {
      forall i | 0 <= i < |numbers| ensures At(b, i) == numbers[i] { assert At(b, i) == At(numbers, i); }
    }
  }

  /** What lies between a version's numbers and a match of theirs matches too. */
  lemma {:induction false} MatchesBetween(numbers: Components, a: Components, b: Components)
    requires Less(numbers, a) && Order(a, b) <= 0 && Matches(b, numbers)
    ensures Matches(a, numbers)
  {
    Trichotomy(a, b);
    var i: nat :| LessAt(numbers, a, i);
    forall j: nat | LessAt(a, b, j) ensures i >= |numbers| {}
    forall j | 0 <= j < |numbers| ensures At(a, j) == numbers[j] { assert At(numbers, j) == At(a, j); }
  }
}
