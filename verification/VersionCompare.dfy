/** Comparison of dotted version strings such as "1.4.0.12". */
module VersionCompare {
  import opened TextBasics

  const DIGIT_BASE := 10

  /** The parts between the separators; there is always at least one, possibly empty. */
  function Split(s: string, separator: char): (parts: seq<string>)
    ensures parts != []
  {
    if s == "" then [""]
    else
      var parts := Split(s[1..], separator);
      if s[0] == separator then [""] + parts else [[s[0]] + parts[0]] + parts[1..]
  }

  function Join(parts: seq<string>, separator: char): string
    requires parts != []
  {
    if |parts| == 1 then parts[0] else parts[0] + [separator] + Join(parts[1..], separator)
  }

  function Count(s: string, c: char): nat {
    if s == "" then 0 else (if s[0] == c then 1 else 0) + Count(s[1..], c)
  }

  /** Splitting loses nothing, leaves no separator in a part, and makes one part more than separators. */
  lemma {:induction false} SplitIsExact(s: string, separator: char)
    ensures var parts := Split(s, separator);
      && Join(parts, separator) == s
      && |parts| == Count(s, separator) + 1
      && forall i | 0 <= i < |parts| :: separator !in parts[i]
  {
    if s != "" {
      SplitIsExact(s[1..], separator);
      var rest, parts := Split(s[1..], separator), Split(s, separator);
      if s[0] == separator {
        assert parts[1..] == rest;
      } else {
        assert parts[1..] == rest[1..];
        assert s == [s[0]] + s[1..];
      }
    }
  }

  /** So a string without separators is one part, and a separator ends a part. */
  lemma {:induction false} SplitAtFirst(part: string, later: string, separator: char)
    requires separator !in part
    ensures Split(part, separator) == [part]
    ensures Split(part + [separator] + later, separator) == [part] + Split(later, separator)
  {
    var s := part + [separator] + later;
    if part == "" {
      assert s[1..] == later;
    } else {
      SplitAtFirst(part[1..], later, separator);
      assert s[1..] == part[1..] + [separator] + later;
      assert part == [part[0]] + part[1..];
      assert ([part[1..]] + Split(later, separator))[1..] == Split(later, separator);
    }
  }

  /** Splitting takes apart exactly what was joined. */
  lemma {:induction false} SplitOfJoined(parts: seq<string>, separator: char)
    requires parts != [] && forall i | 0 <= i < |parts| :: separator !in parts[i]
    ensures Split(Join(parts, separator), separator) == parts
  {
    if |parts| == 1 {
      SplitAtFirst(parts[0], "", separator);
    } else {
      SplitOfJoined(parts[1..], separator);
      SplitAtFirst(parts[0], Join(parts[1..], separator), separator);
    }
  }

  function TrimLeft(s: string): string {
    if s != "" && IsSpace(s[0]) then TrimLeft(s[1..]) else s
  }

  function TrimRight(s: string): string {
    if s != "" && IsSpace(s[|s| - 1]) then TrimRight(s[..|s| - 1]) else s
  }

  predicate AllDigits(s: string) {
    forall i | 0 <= i < |s| :: '0' <= s[i] <= '9'
  }

  predicate IsNumeral(s: string) {
    s != "" && AllDigits(s)
  }

  function Numeral(s: string): nat
    requires AllDigits(s)
  {
    if s == "" then 0
    else DIGIT_BASE * Numeral(s[..|s| - 1]) + (s[|s| - 1] as int - '0' as int)
  }

  /** Conversion to a 32-bit unsigned number: 0 for anything that is not a numeral in range. */
  function ToUInt(s: string): (n: nat)
    ensures n < UINT_MODULUS
  {
    var trimmed := TrimRight(TrimLeft(s));
    var digits := if trimmed != "" && trimmed[0] == '+' then trimmed[1..] else trimmed;
    if IsNumeral(digits) && Numeral(digits) < UINT_MODULUS then Numeral(digits) else 0
  }

  function PowerOfTen(n: nat): nat {
    if n == 0 then 1 else 10 * PowerOfTen(n - 1)
  }

  lemma NumeralGrows(s: string, digit: char)
    requires AllDigits(s) && '0' <= digit <= '9'
    ensures AllDigits(s + [digit])
    ensures Numeral(s + [digit]) == 10 * Numeral(s) + (digit as int - '0' as int)
  {
    assert (s + [digit])[..|s|] == s;
  }

  /** What a numeral counts for when `digits` more digits follow it. */
  function Shifted(n: nat, digits: nat): nat {
    n * PowerOfTen(digits)
  }

  lemma ShiftedByOneMore(n: nat, digits: nat)
    ensures Shifted(n, digits + 1) == 10 * Shifted(n, digits)
  {
    assert n * (10 * PowerOfTen(digits)) == 10 * (n * PowerOfTen(digits));
  }

  /** A numeral is positional: the first part counts for as many powers of ten as digits follow. */
  lemma {:induction false} NumeralIsPositional(left: string, right: string)
    requires AllDigits(left) && AllDigits(right)
    ensures AllDigits(left + right)
    ensures Numeral(left + right) == Shifted(Numeral(left), |right|) + Numeral(right)
    decreases |right|
  {
    if right == "" {
      assert left + right == left;
    } else {
      var earlier, digit := right[..|right| - 1], right[|right| - 1];
      NumeralIsPositional(left, earlier);
      NumeralGrows(earlier, digit);
      NumeralGrows(left + earlier, digit);
      assert right == earlier + [digit] && left + right == left + earlier + [digit];
      ShiftedByOneMore(Numeral(left), |earlier|);
    }
  }

  function Decimal(n: nat): (s: string)
    ensures IsNumeral(s)
  {
    var digit := ('0' as int + n % DIGIT_BASE) as char;
    if n < DIGIT_BASE then [digit] else Decimal(n / DIGIT_BASE) + [digit]
  }

  lemma {:induction false} NumeralOfDecimal(n: nat)
    ensures Numeral(Decimal(n)) == n
  {
    var digit := ('0' as int + n % DIGIT_BASE) as char;
    if n < DIGIT_BASE {
      assert Decimal(n)[..0] == "";
    } else {
      NumeralOfDecimal(n / DIGIT_BASE);
      assert (Decimal(n / DIGIT_BASE) + [digit])[..|Decimal(n / DIGIT_BASE)|] == Decimal(n / DIGIT_BASE);
    }
  }

  lemma {:induction false} TrimLeftDropsSpace(s: string) returns (dropped: string)
    ensures IsBlank(dropped) && s == dropped + TrimLeft(s)
  {
    if s != "" && IsSpace(s[0]) {
      var later := TrimLeftDropsSpace(s[1..]);
      dropped := [s[0]] + later;
      JoinedNotBlank([s[0]], later);
      assert s == [s[0]] + s[1..] == dropped + TrimLeft(s[1..]);
    } else {
      dropped := "";
    }
  }

  lemma {:induction false} TrimRightDropsSpace(s: string) returns (dropped: string)
    ensures IsBlank(dropped) && s == TrimRight(s) + dropped
  {
    if s != "" && IsSpace(s[|s| - 1]) {
      var earlier := TrimRightDropsSpace(s[..|s| - 1]);
      dropped := earlier + [s[|s| - 1]];
      JoinedNotBlank(earlier, [s[|s| - 1]]);
      assert s == s[..|s| - 1] + [s[|s| - 1]] == TrimRight(s[..|s| - 1]) + dropped;
    } else {
      dropped := "";
    }
  }

  lemma {:induction false} TrimLeftOfPadded(left: string, s: string)
    requires IsBlank(left) && s != "" && !IsSpace(s[0])
    ensures TrimLeft(left + s) == s
  {
    if left == "" {
      assert left + s == s;
    } else {
      assert (left + s)[1..] == left[1..] + s;
      TrimLeftOfPadded(left[1..], s);
    }
  }

  lemma {:induction false} TrimRightOfPadded(s: string, right: string)
    requires IsBlank(right) && s != "" && !IsSpace(s[|s| - 1])
    ensures TrimRight(s + right) == s
    decreases |right|
  {
    if right == "" {
      assert s + right == s;
    } else {
      assert (s + right)[..|s + right| - 1] == s + right[..|right| - 1];
      TrimRightOfPadded(s, right[..|right| - 1]);
    }
  }

  /** A numeral, with a plus sign before it or not. */
  function Signed(plus: bool, digits: string): string {
    if plus then "+" + digits else digits
  }

  /** A numeral in range is converted, with or without a plus sign and white space around it. */
  lemma ToUIntOfPadded(left: string, plus: bool, digits: string, right: string)
    requires IsBlank(left) && IsBlank(right) && IsNumeral(digits)
    ensures ToUInt(left + (Signed(plus, digits) + right))
         == if Numeral(digits) < UINT_MODULUS then Numeral(digits) else 0
  {
    var s := Signed(plus, digits);
    assert digits[0] in digits && s[|s| - 1] == digits[|digits| - 1];
    assert (s + right)[0] == s[0];
    TrimLeftOfPadded(left, s + right);
    TrimRightOfPadded(s, right);
    assert plus ==> s[1..] == digits;
  }

  /** Everything else is converted to 0: a field that is not 0 comes from such a numeral. */
  lemma ToUIntElseZero(s: string) returns (left: string, plus: bool, digits: string, right: string)
    requires ToUInt(s) != 0
    ensures IsBlank(left) && IsBlank(right) && IsNumeral(digits)
    ensures s == left + (Signed(plus, digits) + right) && ToUInt(s) == Numeral(digits)
  {
    left := TrimLeftDropsSpace(s);
    right := TrimRightDropsSpace(TrimLeft(s));
    var trimmed := TrimRight(TrimLeft(s));
    plus := trimmed != "" && trimmed[0] == '+';
    digits := if plus then trimmed[1..] else trimmed;
    assert Signed(plus, digits) == trimmed;
  }

  /** So conversion reads back the decimal form of every number in range, and of no other. */
  lemma ToUIntOfDecimal(n: nat)
    ensures ToUInt(Decimal(n)) == if n < UINT_MODULUS then n else 0
  {
    NumeralOfDecimal(n);
    ToUIntOfPadded("", false, Decimal(n), "");
    assert "" + (Decimal(n) + "") == Decimal(n);
  }

  function Fields(version: string): seq<nat> {
    var parts := Split(version, '.');
    seq(|parts|, i requires 0 <= i < |parts| => ToUInt(parts[i]))
  }

  const INVALID_VERSION := -2

  /** Field by field, the first difference decides. */
  function CompareFields(a: seq<nat>, b: seq<nat>): int
    requires |a| == |b| == 4
  {
    if a[0] > b[0] then 1
    else if a[0] < b[0] then -1
    else if a[1] > b[1] then 1
    else if a[1] < b[1] then -1
    else if a[2] > b[2] then 1
    else if a[2] < b[2] then -1
    else if a[3] > b[3] then 1
    else if a[3] < b[3] then -1
    else 0
  }

  function Compare(version1: string, version2: string): int {
    var a, b := Fields(version1), Fields(version2);
    if |a| != 4 || |b| != 4 then INVALID_VERSION else CompareFields(a, b)
  }

  predicate HasFourParts(version: string) {
    Count(version, '.') == 3
  }

  /** Four fields, read as the digits of one number in base 2^32. */
  function Pack(a: seq<nat>): nat
    requires |a| == 4
  {
    ((a[0] * UINT_MODULUS + a[1]) * UINT_MODULUS + a[2]) * UINT_MODULUS + a[3]
  }

  function Rank(version: string): nat {
    var a := Fields(version);
    if |a| != 4 then 0 else Pack(a)
  }

  function Sign(n: int): int {
    if n > 0 then 1 else if n < 0 then -1 else 0
  }

  lemma FieldCount(version: string)
    ensures |Fields(version)| == 4 <==> HasFourParts(version)
  {
    SplitIsExact(version, '.');
  }

  lemma CompareFieldsIsOrderOfPacked(a: seq<nat>, b: seq<nat>)
    requires |a| == |b| == 4
    requires forall i | 0 <= i < 4 :: a[i] < UINT_MODULUS && b[i] < UINT_MODULUS
    ensures CompareFields(a, b) == Sign(Pack(a) - Pack(b))
    ensures CompareFields(a, b) == 0 <==> a == b
  {
  }

  /**
   Invalid exactly when a version lacks its three dots; otherwise the order of the ranks, which
   are equal only for equal fields.
   */
  lemma CompareIsOrderOfRanks(version1: string, version2: string)
    ensures Compare(version1, version2) == INVALID_VERSION
       <==> !HasFourParts(version1) || !HasFourParts(version2)
    ensures HasFourParts(version1) && HasFourParts(version2) ==>
      && Compare(version1, version2) == Sign(Rank(version1) - Rank(version2))
      && (Rank(version1) == Rank(version2) <==> Fields(version1) == Fields(version2))
  {
    FieldCount(version1);
    FieldCount(version2);
    if HasFourParts(version1) && HasFourParts(version2) {
      CompareFieldsIsOrderOfPacked(Fields(version1), Fields(version2));
    }
  }

  /** The number that four parts stand for, the first part first. */
  function NumberOf(p0: string, p1: string, p2: string, p3: string): nat {
    ((ToUInt(p0) * 0x1_0000_0000 + ToUInt(p1)) * 0x1_0000_0000 + ToUInt(p2)) * 0x1_0000_0000 + ToUInt(p3)
  }

  predicate NoDots(p0: string, p1: string, p2: string, p3: string) {
    '.' !in p0 && '.' !in p1 && '.' !in p2 && '.' !in p3
  }

  lemma RankOfParts(p0: string, p1: string, p2: string, p3: string)
    requires NoDots(p0, p1, p2, p3)
    ensures var version := p0 + "." + p1 + "." + p2 + "." + p3;
      HasFourParts(version) && Rank(version) == NumberOf(p0, p1, p2, p3)
  {
    JoinOfFour(p0, p1, p2, p3);
    SplitOfJoined([p0, p1, p2, p3], '.');
    FieldCount(p0 + "." + p1 + "." + p2 + "." + p3);
  }

  /** Four parts against four parts: the numbers they stand for are compared, first part first. */
  lemma CompareOfParts(
    p0: string, p1: string, p2: string, p3: string, q0: string, q1: string, q2: string, q3: string)
    requires NoDots(p0, p1, p2, p3) && NoDots(q0, q1, q2, q3)
    ensures var m, n := NumberOf(p0, p1, p2, p3), NumberOf(q0, q1, q2, q3);
      Compare(p0 + "." + p1 + "." + p2 + "." + p3, q0 + "." + q1 + "." + q2 + "." + q3)
        == if m > n then 1 else if m < n then -1 else 0
  {
    RankOfParts(p0, p1, p2, p3);
    RankOfParts(q0, q1, q2, q3);
    CompareIsOrderOfRanks(p0 + "." + p1 + "." + p2 + "." + p3, q0 + "." + q1 + "." + q2 + "." + q3);
  }

  /** Every version is such four parts, or comparing it is invalid. */
  lemma CompareIsInvalidIff(version1: string, version2: string)
    ensures Compare(version1, version2) == -2 <==> !(IsFourParts(version1) && IsFourParts(version2))
  {
    FourPartsIff(version1);
    FourPartsIff(version2);
    CompareIsOrderOfRanks(version1, version2);
  }

  ghost predicate IsFourParts(version: string) {
    exists p0, p1, p2, p3: string ::
      NoDots(p0, p1, p2, p3) && version == p0 + "." + p1 + "." + p2 + "." + p3
  }

  lemma FourPartsIff(version: string)
    ensures IsFourParts(version) <==> HasFourParts(version)
  {
    if HasFourParts(version) {
      SplitIsExact(version, '.');
      var parts := Split(version, '.');
      assert parts == [parts[0], parts[1], parts[2], parts[3]];
      JoinOfFour(parts[0], parts[1], parts[2], parts[3]);
      assert NoDots(parts[0], parts[1], parts[2], parts[3]);
    }
    if IsFourParts(version) {
      var p0, p1, p2, p3 :| NoDots(p0, p1, p2, p3) && version == p0 + "." + p1 + "." + p2 + "." + p3;
      RankOfParts(p0, p1, p2, p3);
    }
  }

  lemma JoinOfFour(p0: string, p1: string, p2: string, p3: string)
    ensures Join([p0, p1, p2, p3], '.') == p0 + "." + p1 + "." + p2 + "." + p3
  {
    var parts := [p0, p1, p2, p3];
    assert parts[1..] == [p1, p2, p3] && [p1, p2, p3][1..] == [p2, p3] && [p2, p3][1..] == [p3];
    assert Join([p2, p3], '.') == p2 + "." + p3;
    assert Join([p1, p2, p3], '.') == p1 + "." + (p2 + "." + p3);
    assert Join(parts, '.') == p0 + "." + (p1 + "." + (p2 + "." + p3));
  }

  /** So comparison is a total order on the versions with four parts, up to equal fields. */
  lemma CompareIsTotalOrder(a: string, b: string, c: string)
    requires HasFourParts(a) && HasFourParts(b) && HasFourParts(c)
    ensures Compare(a, b) == -Compare(b, a)
    ensures Compare(a, b) <= 0 && Compare(b, c) <= 0 ==> Compare(a, c) <= 0
    ensures Compare(a, b) == 0 <==> Fields(a) == Fields(b)
  {
    CompareIsOrderOfRanks(a, b);
    CompareIsOrderOfRanks(b, a);
    CompareIsOrderOfRanks(b, c);
    CompareIsOrderOfRanks(a, c);
  }
}
