/** Searching a list in which some of the elements are not known yet. */
module FindWithUnknown {

  /** The first known element from `lo` on that is not less than the value; `hi` if there is none. */
  function FirstNotLess<T, V>(s: seq<T>, lo: nat, hi: nat, value: V, isUnknown: T -> bool, lessThan: (T, V) -> bool)
    : (i: nat)
    requires lo <= hi <= |s|
    ensures lo <= i <= hi
    ensures forall j :: lo <= j < i ==> isUnknown(s[j]) || lessThan(s[j], value)
    ensures i < hi ==> !isUnknown(s[i]) && !lessThan(s[i], value)
    decreases hi - lo
  {
    if lo == hi || !(isUnknown(s[lo]) || lessThan(s[lo], value)) then lo
    else FirstNotLess(s, lo + 1, hi, value, isUnknown, lessThan)
  }

  method LinearLowerBound<T, V>(s: seq<T>, begin0: nat, end: nat, value: V, isUnknown: T -> bool,
                                lessThan: (T, V) -> bool)
    returns (begin: nat)
    requires begin0 <= end <= |s|
    ensures begin == FirstNotLess(s, begin0, end, value, isUnknown, lessThan)
  {
    begin := begin0;
    while begin < end
      invariant begin0 <= begin <= end
      invariant FirstNotLess(s, begin, end, value, isUnknown, lessThan)
             == FirstNotLess(s, begin0, end, value, isUnknown, lessThan)
    {
      if isUnknown(s[begin]) {
        begin := begin + 1;
      } else if lessThan(s[begin], value) {
        begin := begin + 1;
      } else {
        return;
      }
    }
  }

  /** Among the known elements, those that are less than the value come first. */
  ghost predicate Partitioned<T, V>(s: seq<T>, value: V, isUnknown: T -> bool, lessThan: (T, V) -> bool) {
    forall i, j :: 0 <= i < j < |s| && !isUnknown(s[i]) && !isUnknown(s[j]) && lessThan(s[j], value) ==>
      lessThan(s[i], value)
  }

  /** Bisection, which goes on element by element where it meets an unknown one. Wherever the unknown elements
      are, the result is the one of the search through the whole list. */
  method LowerBound<T, V>(s: seq<T>, value: V, isUnknown: T -> bool, lessThan: (T, V) -> bool) returns (begin: nat)
    requires Partitioned(s, value, isUnknown, lessThan)
    ensures begin == FirstNotLess(s, 0, |s|, value, isUnknown, lessThan)
  {
    begin := 0;
    var n: nat := |s|;
    ghost var end: nat := |s|;
    while n > 0
      invariant begin + n == end <= |s|
      invariant forall i :: 0 <= i < begin ==> isUnknown(s[i]) || lessThan(s[i], value)
      invariant end < |s| ==> !isUnknown(s[end]) && !lessThan(s[end], value)
      decreases n
    {
      var half := n / 2;
      var middle := begin + half;
      if isUnknown(s[middle]) {
        var upTo := begin + n;
        begin := LinearLowerBound(s, begin, upTo, value, isUnknown, lessThan);
        return;
      }
      if lessThan(s[middle], value) {
        begin := middle + 1;
        n := n - (half + 1);
      } else {
        n := half;
        end := middle;
      }
    }
  }

  // ----- inserting -----

  ghost predicate StrictWeakOrder<T(!new)>(lessThan: (T, T) -> bool) {
    && (forall x :: !lessThan(x, x))
    && (forall x, y, z :: lessThan(x, y) && lessThan(y, z) ==> lessThan(x, z))
    && (forall x, y, z :: !lessThan(x, y) && !lessThan(y, z) ==> !lessThan(x, z))
  }

  /** No known element is less than a known one in front of it. */
  ghost predicate Ordered<T>(s: seq<T>, isUnknown: T -> bool, lessThan: (T, T) -> bool) {
    forall i, j :: 0 <= i < j < |s| && !isUnknown(s[i]) && !isUnknown(s[j]) ==> !lessThan(s[j], s[i])
  }

  lemma OrderedIsPartitioned<T(!new)>(s: seq<T>, value: T, isUnknown: T -> bool, lessThan: (T, T) -> bool)
    requires StrictWeakOrder(lessThan) && Ordered(s, isUnknown, lessThan)
    ensures Partitioned(s, value, isUnknown, lessThan)
  {
    forall i, j | 0 <= i < j < |s| && !isUnknown(s[i]) && !isUnknown(s[j]) && lessThan(s[j], value)
      ensures lessThan(s[i], value)
    {
      assert !lessThan(s[j], s[i]);
    }
  }

  /** A value that is inserted where the search ended keeps the known elements in order, in front of its equals. */
  lemma InsertingKeepsOrder<T(!new)>(s: seq<T>, value: T, isUnknown: T -> bool, lessThan: (T, T) -> bool)
    requires StrictWeakOrder(lessThan) && Ordered(s, isUnknown, lessThan)
    ensures
      var k := FirstNotLess(s, 0, |s|, value, isUnknown, lessThan);
      && Ordered(s[..k] + [value] + s[k..], isUnknown, lessThan)
      && (forall i :: k <= i < |s| && !isUnknown(s[i]) ==> !lessThan(s[i], value))
  {
    var k := FirstNotLess(s, 0, |s|, value, isUnknown, lessThan);
    forall i | k <= i < |s| && !isUnknown(s[i]) ensures !lessThan(s[i], value) {
      if i > k { assert !lessThan(s[i], s[k]); }
    }
    Inserted(s, k, value, isUnknown, lessThan);
  }

  lemma Inserted<T(!new)>(s: seq<T>, k: nat, value: T, isUnknown: T -> bool, lessThan: (T, T) -> bool)
    requires k <= |s| && StrictWeakOrder(lessThan) && Ordered(s, isUnknown, lessThan)
    requires forall i :: 0 <= i < k && !isUnknown(s[i]) ==> lessThan(s[i], value)
    requires forall i :: k <= i < |s| && !isUnknown(s[i]) ==> !lessThan(s[i], value)
    ensures Ordered(s[..k] + [value] + s[k..], isUnknown, lessThan)
  {
    var longer := s[..k] + [value] + s[k..];
    forall i, j | 0 <= i < j < |longer| && !isUnknown(longer[i]) && !isUnknown(longer[j])
      ensures !lessThan(longer[j], longer[i])
    {
      if j == k {
        assert longer[i] == s[i];
      } else if i == k {
        assert longer[j] == s[j - 1];
      } else {
        assert longer[i] == s[if i < k then i else i - 1] && longer[j] == s[if j < k then j else j - 1];
      }
    }
  }
}
