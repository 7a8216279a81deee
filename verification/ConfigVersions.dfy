/** The order on configuration versions: dotted numbers, missing parts count as zero, and no version at
    all is the lowest. */
module ConfigVersions {

  const MAX_INT := 0x7FFF_FFFF_FFFF_FFFF
  const MIN_INT := -0x8000_0000_0000_0000

  function Split(s: string): (parts: seq<string>)
    ensures parts != []
  {
    if s == "" then [""]
    else
      var rest := Split(s[1..]);
      if s[0] == '.' then [""] + rest else [[s[0]] + rest[0]] + rest[1..]
  }

  predicate AllDigits(s: string) {
    forall i :: 0 <= i < |s| ==> '0' <= s[i] <= '9'
  }

  function Digit(c: char): nat
    requires '0' <= c <= '9'
  {
    (c as int) - ('0' as int)
  }

  function Digits(s: string): nat
    requires AllDigits(s)
  {
    if s == "" then 0 else Digits(s[..|s| - 1]) * 10 + Digit(s[|s| - 1])
  }

  function Clamp(n: int): int {
    if n > MAX_INT then MAX_INT else if n < MIN_INT then MIN_INT else n
  }

  /** A number that does not parse counts as zero, one that is too large as the nearest 64-bit number. */
  function Atoi(s: string): int {
    var signed := s != "" && (s[0] == '-' || s[0] == '+');
    var digits := if signed then s[1..] else s;
    if digits == "" || !AllDigits(digits) then 0
    else
      var n: int := Digits(digits);
      Clamp(if s[0] == '-' then -n else n)
  }

  function PartAt(version: string, i: nat): int {
    if i < |Split(version)| then Atoi(Split(version)[i]) else 0
  }

  ghost predicate SameUpTo(a: string, b: string, n: nat) {
    forall i: nat :: i < n ==> PartAt(a, i) == PartAt(b, i)
  }

  ghost predicate LowerAt(a: string, b: string, n: nat) {
    SameUpTo(a, b, n) && PartAt(a, n) < PartAt(b, n)
  }

  ghost predicate Lower(a: string, b: string) {
    b != "" && (a == "" || exists n: nat :: LowerAt(a, b, n))
  }

  ghost predicate Same(a: string, b: string) {
    (a == "" <==> b == "") && forall i: nat :: PartAt(a, i) == PartAt(b, i)
  }

  method CompareConfigVersions(left: string, right: string) returns (c: int)
    ensures c == -1 || c == 0 || c == 1
    ensures c == -1 <==> Lower(left, right)
    ensures c == 1 <==> Lower(right, left)
    ensures c == 0 <==> Same(left, right)
  {
    if left == right {
      c := 0;
    } else if left == "" {
      c := -1;
    } else if right == "" {
      c := 1;
    } else {
      c := CompareParts(left, right);
    }
    Exclusive(left, right);
    Exclusive(right, left);
  }

  method CompareParts(left: string, right: string) returns (c: int)
    requires left != "" && right != ""
    ensures c == -1 || c == 0 || c == 1
    ensures c == -1 ==> exists i: nat :: LowerAt(left, right, i)
    ensures c == 1 ==> exists i: nat :: LowerAt(right, left, i)
    ensures c == 0 ==> forall i: nat :: PartAt(left, i) == PartAt(right, i)
  {
    var a, b := Split(left), Split(right);
    var length := if |b| > |a| then |b| else |a|;
    for i := 0 to length
      invariant SameUpTo(left, right, i)
    {
      var av := if i < |a| then Atoi(a[i]) else 0;
      var bv := if i < |b| then Atoi(b[i]) else 0;
      assert av == PartAt(left, i) && bv == PartAt(right, i);
      if av < bv {
        assert LowerAt(left, right, i);
        return -1;
      }
      if av > bv {
        assert LowerAt(right, left, i);
        return 1;
      }
    }
    forall i: nat
      ensures PartAt(left, i) == PartAt(right, i)
    {
      assert i < length ==> PartAt(left, i) == PartAt(right, i);
    }
    return 0;
  }

  lemma LowerAtExcludes(a: string, b: string, n: nat, m: nat)
    requires LowerAt(a, b, n)
    ensures !LowerAt(b, a, m)
  {
    assert m <= n || n < m;
    assert n < m ==> PartAt(a, n) != PartAt(b, n);
    assert m < n ==> PartAt(a, m) == PartAt(b, m);
  }

  /** At most one of lower, same and higher holds. */
  lemma Exclusive(a: string, b: string)
    ensures Lower(a, b) ==> !Lower(b, a) && !Same(a, b)
    ensures Same(a, b) <==> Same(b, a)
  {
    if a != "" && b != "" && Lower(a, b) {
      var n: nat :| LowerAt(a, b, n);
      assert PartAt(a, n) != PartAt(b, n);
      forall m: nat
        ensures !LowerAt(b, a, m)
      {
        LowerAtExcludes(a, b, n, m);
      }
    }
  }

  lemma SameThenLower(a: string, b: string, c: string)
    requires Same(a, b)
    ensures Lower(b, c) ==> Lower(a, c)
    ensures Lower(c, b) ==> Lower(c, a)
  {
    if a != "" && Lower(b, c) {
      var n: nat :| LowerAt(b, c, n);
      assert LowerAt(a, c, n);
    }
    if c != "" && Lower(c, b) {
      var n: nat :| LowerAt(c, b, n);
      assert LowerAt(c, a, n);
    }
  }

  lemma LowerAtChain(a: string, b: string, c: string, n: nat, m: nat)
    requires LowerAt(a, b, n) && LowerAt(b, c, m)
    ensures LowerAt(a, c, if n < m then n else m)
  {
    var k := if n < m then n else m;
    forall i: nat | i < k
      ensures PartAt(a, i) == PartAt(c, i)
    {
      assert PartAt(a, i) == PartAt(b, i) && PartAt(b, i) == PartAt(c, i);
    }
    assert PartAt(a, k) <= PartAt(b, k) <= PartAt(c, k);
  }

  lemma LowerThenLower(a: string, b: string, c: string)
    requires Lower(a, b) && Lower(b, c)
    ensures Lower(a, c)
  {
    if a != "" {
      var n: nat :| LowerAt(a, b, n);
      var m: nat :| LowerAt(b, c, m);
      LowerAtChain(a, b, c, n, m);
    }
  }

  /** Lower is transitive, also through versions that are the same. */
  lemma Transitive(a: string, b: string, c: string)
    ensures Lower(a, b) && Lower(b, c) ==> Lower(a, c)
    ensures Same(a, b) && Lower(b, c) ==> Lower(a, c)
    ensures Lower(a, b) && Same(b, c) ==> Lower(a, c)
    ensures Same(a, b) && Same(b, c) ==> Same(a, c)
  {
    if Lower(a, b) && Lower(b, c) {
      LowerThenLower(a, b, c);
    }
    if Same(a, b) {
      SameThenLower(a, b, c);
    }
    if Same(b, c) {
      Exclusive(b, c);
      SameThenLower(c, b, a);
    }
  }

  /** Any two versions compare. */
  lemma Total(a: string, b: string)
    ensures Lower(a, b) || Same(a, b) || Lower(b, a)
  {
    if a != "" && b != "" && !Same(a, b) {
      var k: nat :| PartAt(a, k) != PartAt(b, k);
      FirstDifference(a, b, k);
    }
  }

  lemma {:induction false} FirstDifference(a: string, b: string, k: nat)
    requires a != "" && b != "" && PartAt(a, k) != PartAt(b, k)
    ensures Lower(a, b) || Lower(b, a)
    decreases k
  {
    if SameUpTo(a, b, k) {
      assert LowerAt(a, b, k) || LowerAt(b, a, k);
    } else {
      var j: nat :| j < k && PartAt(a, j) != PartAt(b, j);
      FirstDifference(a, b, j);
    }
  }
}
