/** Shared vocabulary: fixed-width integer ranges, Option, and a few facts
    about finite sets used by the ledger, the page layout and the handlers. */
module Common {

  const U8: nat := 0x100
  const U16: nat := 0x1_0000
  const U32: nat := 0x1_0000_0000
  const U64: nat := 0x1_0000_0000_0000_0000

  type uint8 = x: int | 0 <= x < 0x100
  type uint16 = x: int | 0 <= x < 0x1_0000
  type uint32 = x: int | 0 <= x < 0x1_0000_0000
  type uint64 = x: int | 0 <= x < 0x1_0000_0000_0000_0000
  type byte = uint8

  datatype Option<T> = None | Some(value: T)

  /** A set of integers other than the empty set has a member. */
  lemma NonEmptyHasElement(s: set<int>)
    requires s != {}
    ensures exists y: int :: y in s
  {
    if forall y: int :: y !in s {
      assert false;
    }
  }

  /** The greatest element of a non-empty finite set. */
  ghost function MaxOf(s: set<int>): (r: int)
    requires s != {}
    ensures r in s
    ensures forall x :: x in s ==> x <= r
  {
    NonEmptyHasElement(s);
    var y :| y in s;
    if s == {y} then y
    else
      var m := MaxOf(s - {y});
      assert forall x :: x in s ==> x == y || x in s - {y};
      if y < m then m else y
  }

  /** The least element of a non-empty finite set. */
  ghost function MinOf(s: set<int>): (r: int)
    requires s != {}
    ensures r in s
    ensures forall x :: x in s ==> r <= x
  {
    NonEmptyHasElement(s);
    var y :| y in s;
    if s == {y} then y
    else
      var m := MinOf(s - {y});
      assert forall x :: x in s ==> x == y || x in s - {y};
      if m < y then m else y
  }

  lemma {:induction false} SubsetCardinality<T>(a: set<T>, b: set<T>)
    requires a <= b
    ensures |a| <= |b|
  {
    if a != {} {
      if forall x: T :: x !in a {
        assert false;
      }
      var x :| x in a;
      SubsetCardinality(a - {x}, b - {x});
    }
  }

  lemma StrictSubsetCardinality<T>(a: set<T>, b: set<T>, y: T)
    requires a <= b && y in b && y !in a
    ensures |a| < |b|
  {
    SubsetCardinality(a, b - {y});
  }

  function DecimalDigit(d: nat): (c: char)
    requires d < 10
    ensures '0' <= c <= '9' && c as int - '0' as int == d
  {
    ['0', '1', '2', '3', '4', '5', '6', '7', '8', '9'][d]
  }

  predicate AllDigits(s: string) {
    forall k :: 0 <= k < |s| ==> '0' <= s[k] <= '9'
  }

  /** The number a string of decimal digits denotes, most significant
      digit first. */
  function DecimalValue(s: string): nat
    requires AllDigits(s)
  {
    if |s| == 0 then 0
    else DecimalValue(s[..|s| - 1]) * 10 + (s[|s| - 1] as int - '0' as int)
  }

  /** Decimal rendering of a natural number, as std::to_string prints it:
      digits only, no leading zero, denoting n. */
  function DecimalString(n: nat): (s: string)
    ensures |s| >= 1 && AllDigits(s)
    ensures |s| > 1 ==> s[0] != '0'
    ensures DecimalValue(s) == n
  {
    if n < 10 then [DecimalDigit(n)]
    else
      var front := DecimalString(n / 10);
      var s := front + [DecimalDigit(n % 10)];
      assert s[..|s| - 1] == front;
      s
  }

  /** The smallest element of a non-empty set: where an ordered container's
      iteration starts. */
  method Lowest(ks: set<int>) returns (m: int)
    requires ks != {}
    ensures m in ks && forall j :: j in ks ==> m <= j
  {
    ghost var lowest := MinOf(ks);
    m :| m in ks && forall j :: j in ks ==> m <= j;
  }

  /** The greatest element of a non-empty set: the last entry of an ordered
      container. */
  method Highest(ks: set<int>) returns (m: int)
    requires ks != {}
    ensures m in ks && forall j :: j in ks ==> j <= m
  {
    ghost var highest := MaxOf(ks);
    m :| m in ks && forall j :: j in ks ==> j <= m;
  }
}
