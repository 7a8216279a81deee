/** What the order on configuration versions means for versions that are written as dotted numbers. */
module DottedVersions {
  import opened ConfigVersions

  function DigitOf(d: nat): (c: char)
    requires d < 10
    ensures '0' <= c <= '9' && c as int - '0' as int == d
  {
    "0123456789"[d]
  }

  /** The decimal spelling of a number. */
  function Decimal(n: nat): string {
    if n < 10 then [DigitOf(n)] else Decimal(n / 10) + [DigitOf(n % 10)]
  }

  /** The numbers with dots between them. */
  function Dotted(numbers: seq<nat>): string
    requires numbers != []
  {
    if |numbers| == 1 then Decimal(numbers[0]) else Decimal(numbers[0]) + "." + Dotted(numbers[1..])
  }

  /** Missing numbers count as zero. */
  function Padded(numbers: seq<nat>, i: nat): nat {
    if i < |numbers| then numbers[i] else 0
  }

  // ---------- one number ----------

  lemma DigitsAppend(s: string, c: char)
    requires AllDigits(s) && '0' <= c <= '9'
    ensures AllDigits(s + [c]) && Digits(s + [c]) == Digits(s) * 10 + (c as int - '0' as int)
  {
    assert (s + [c])[..|s|] == s;
  }

  /** Reading back the decimal spelling of a number gives the number. */
  lemma {:induction false} DigitsOfDecimal(n: nat)
    ensures Decimal(n) != "" && AllDigits(Decimal(n)) && Digits(Decimal(n)) == n
  {
    if n < 10 {
      assert [] + [DigitOf(n)] == [DigitOf(n)];
      DigitsAppend([], DigitOf(n));
    } else {
      DigitsOfDecimal(n / 10);
      DigitsAppend(Decimal(n / 10), DigitOf(n % 10));
    }
  }

  lemma AtoiOfDigits(s: string)
    requires s != "" && AllDigits(s)
    ensures Atoi(s) == if Digits(s) <= 0x7FFF_FFFF_FFFF_FFFF then Digits(s) else 0x7FFF_FFFF_FFFF_FFFF
    ensures Atoi("+" + s) == Atoi(s)
    ensures Atoi("-" + s) == if Digits(s) <= 0x8000_0000_0000_0000 then -(Digits(s) as int)
                              else -0x8000_0000_0000_0000
  {
    assert ("+" + s)[1..] == s && ("-" + s)[1..] == s;
  }

  /** So does the parser, with a plus sign or none, and with a minus sign it gives the negative number; what is
      out of the range of 64 bits gives the nearest number that is in it. */
  lemma AtoiOfDecimal(n: nat)
    ensures Atoi(Decimal(n)) == if n <= 0x7FFF_FFFF_FFFF_FFFF then n else 0x7FFF_FFFF_FFFF_FFFF
    ensures Atoi("+" + Decimal(n)) == Atoi(Decimal(n))
    ensures Atoi("-" + Decimal(n)) == if n <= 0x8000_0000_0000_0000 then -(n as int)
                                       else -0x8000_0000_0000_0000
  {
    DigitsOfDecimal(n);
    AtoiOfDigits(Decimal(n));
  }

  /** A zero in front changes nothing. */
  lemma {:induction false} LeadingZero(s: string)
    requires AllDigits(s)
    ensures Digits("0" + s) == Digits(s)
  {
    if s == "" {
      assert "0" + s == "0" && "0"[..0] == "";
    } else {
      LeadingZero(s[..|s| - 1]);
      assert "0" + s == ("0" + s[..|s| - 1]) + [s[|s| - 1]];
      DigitsAppend("0" + s[..|s| - 1], s[|s| - 1]);
    }
  }

  /** What is not a number counts as zero. */
  lemma NotANumber(s: string, i: nat)
    requires i < |s| && !('0' <= s[i] <= '9') && (i == 0 ==> |s| == 1 || (s[0] != '-' && s[0] != '+'))
    ensures Atoi(s) == Atoi("") == 0
  {
    if s[0] == '-' || s[0] == '+' {
      assert i > 0 ==> s[1..][i - 1] == s[i];
    }
  }

  // ---------- the parts ----------

  lemma {:induction false} SplitFirst(part: string, rest: string)
    requires '.' !in part
    ensures Split(part) == [part] && Split(part + "." + rest) == [part] + Split(rest)
  {
    if part == "" {
      assert part + "." + rest == ['.'] + rest;
    } else {
      SplitFirst(part[1..], rest);
      assert (part + "." + rest)[1..] == part[1..] + "." + rest;
      assert [part[0]] + part[1..] == part;
    }
  }

  /** Splitting a dotted version gives back the spellings of its numbers. */
  lemma {:induction false} SplitOfDotted(numbers: seq<nat>)
    requires numbers != []
    ensures |Split(Dotted(numbers))| == |numbers|
    ensures forall i :: 0 <= i < |numbers| ==> Split(Dotted(numbers))[i] == Decimal(numbers[i])
  {
    DigitsOfDecimal(numbers[0]);
    if |numbers| == 1 {
      SplitFirst(Decimal(numbers[0]), "");
    } else {
      SplitFirst(Decimal(numbers[0]), Dotted(numbers[1..]));
      SplitOfDotted(numbers[1..]);
    }
  }

  lemma DottedIsNonempty(numbers: seq<nat>)
    requires numbers != []
    ensures Dotted(numbers) != ""
  {
    DigitsOfDecimal(numbers[0]);
  }

  lemma PartOfSplit(version: string, i: nat, n: nat)
    requires i < |Split(version)| && Split(version)[i] == Decimal(n) && n <= 0x7FFF_FFFF_FFFF_FFFF
    ensures PartAt(version, i) == n
  {
    AtoiOfDecimal(n);
  }

  lemma PartOfDotted(numbers: seq<nat>, i: nat)
    requires numbers != [] && forall k :: 0 <= k < |numbers| ==> numbers[k] <= 0x7FFF_FFFF_FFFF_FFFF
    ensures PartAt(Dotted(numbers), i) == Padded(numbers, i)
  {
    SplitOfDotted(numbers);
    if i < |numbers| {
      PartOfSplit(Dotted(numbers), i, numbers[i]);
    }
  }

  // ---------- the order ----------

  ghost predicate LowerNumbersAt(a: seq<nat>, b: seq<nat>, k: nat) {
    Padded(a, k) < Padded(b, k) && forall i: nat :: i < k ==> Padded(a, i) == Padded(b, i)
  }

  ghost predicate Spells(s: string, numbers: seq<nat>) {
    s != "" && forall i: nat :: PartAt(s, i) == Padded(numbers, i)
  }

  lemma DottedSpells(numbers: seq<nat>)
    requires numbers != [] && forall k :: 0 <= k < |numbers| ==> numbers[k] <= 0x7FFF_FFFF_FFFF_FFFF
    ensures Spells(Dotted(numbers), numbers)
  {
    DottedIsNonempty(numbers);
    forall i: nat
      ensures PartAt(Dotted(numbers), i) == Padded(numbers, i)
    {
      PartOfDotted(numbers, i);
    }
  }

  lemma SpelledOrder(s: string, t: string, a: seq<nat>, b: seq<nat>)
    requires Spells(s, a) && Spells(t, b)
    ensures Lower(s, t) <==> exists k: nat :: LowerNumbersAt(a, b, k)
    ensures Same(s, t) <==> forall i: nat :: Padded(a, i) == Padded(b, i)
  {
    if k: nat :| LowerAt(s, t, k) {
      assert LowerNumbersAt(a, b, k);
    }
    if k: nat :| LowerNumbersAt(a, b, k) {
      assert LowerAt(s, t, k);
    }
  }

  /** Dotted versions compare as the numbers that they spell, and not as text: the first number that differs
      decides, with zeros where a version is shorter. */
  lemma DottedOrder(a: seq<nat>, b: seq<nat>)
    requires a != [] && forall k :: 0 <= k < |a| ==> a[k] <= 0x7FFF_FFFF_FFFF_FFFF
    requires b != [] && forall k :: 0 <= k < |b| ==> b[k] <= 0x7FFF_FFFF_FFFF_FFFF
    ensures Lower(Dotted(a), Dotted(b)) <==> exists k: nat :: LowerNumbersAt(a, b, k)
    ensures Same(Dotted(a), Dotted(b)) <==> forall i: nat :: Padded(a, i) == Padded(b, i)
  {
    DottedSpells(a);
    DottedSpells(b);
    SpelledOrder(Dotted(a), Dotted(b), a, b);
  }

  /** No version at all is lower than any other and the same as itself only. */
  lemma EmptyIsLowest(s: string)
    ensures (Lower("", s) <==> s != "") && !Lower(s, "") && (Same("", s) <==> s == "")
  {
  }

  lemma SpelledOut()
    ensures Dotted([9]) == "9" && Dotted([10]) == "10"
    ensures Dotted([1, 9]) == "1.9" && Dotted([1, 10]) == "1.10" && Dotted([1, 0]) == "1.0" && Dotted([1]) == "1"
  {
    assert Decimal(10) == Decimal(1) + "0";
    assert [1, 9][1..] == [9] && [1, 10][1..] == [10] && [1, 0][1..] == [0];
  }

  /** Ten comes after nine, as a whole version and as a part of one. */
  lemma TenComesAfterNine()
    ensures Lower("9", "10") && Lower("1.9", "1.10")
  {
    SpelledOut();
    DottedOrder([9], [10]);
    assert LowerNumbersAt([9], [10], 0);
    DottedOrder([1, 9], [1, 10]);
    assert LowerNumbersAt([1, 9], [1, 10], 1);
  }

  /** A zero at the end does not count. */
  lemma ZeroAtTheEnd()
    ensures Same("1.0", "1")
  {
    SpelledOut();
    DottedOrder([1, 0], [1]);
  }
}
