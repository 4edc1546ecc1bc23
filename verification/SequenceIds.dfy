/** Status sequence identifiers (pkg/services/util.go). They are snowflake numbers written in
    decimal: 41 bits of time above 10 bits of node above 12 bits of step. */
module SequenceIds {
  import opened Wrappers

  const EPOCH := 1288834974657
  const TIME_UNIT := 0x40_0000  // 1 << (node bits + step bits)
  const NODE_UNIT := 0x1000     // 1 << step bits
  const NODE_COUNT := 0x400     // 1 << node bits
  const INT64_MIN := -0x8000_0000_0000_0000
  const INT64_MAX := 0x7fff_ffff_ffff_ffff

  // The shifts and masks of the snowflake accessors; Euclidean division and remainder agree
  // with an arithmetic shift and a mask on every two's complement integer, negative ones too.
  function Time(id: int): int { id / TIME_UNIT + EPOCH }

  function Node(id: int): int { id / NODE_UNIT % NODE_COUNT }

  function Step(id: int): int { id % NODE_UNIT }

  function Digits(s: string): Option<nat>
  {
    if s == [] then Some(0)
    else
      var last := s[|s| - 1];
      match Digits(s[..|s| - 1])
      case Some(high) => if '0' <= last <= '9' then Some(10 * high + (last - '0') as int) else None
      case None => None
  }

  /** A signed decimal 64-bit integer, as the snowflake library parses it. */
  function Parse(s: string): Option<int>
  {
    var signed := s != [] && (s[0] == '+' || s[0] == '-');
    var digits := if signed then s[1..] else s;
    if digits == [] then None
    else
      match Digits(digits)
      case None => None
      case Some(n) =>
        var v := if signed && s[0] == '-' then -1 * n else n;
        if INT64_MIN <= v <= INT64_MAX then Some(v) else None
  }

  /** compareSequenceIDs: is the first identifier newer than the second? */
  function Compare(a: string, b: string): Result<bool>
  {
    if a != "" && b == "" then Ok(true)
    else
      match (Parse(a), Parse(b))
      case (Some(x), Some(y)) =>
        if Node(x) != Node(y) then Err
        else if Time(x) != Time(y) then Ok(Time(x) > Time(y))
        else Ok(Step(x) > Step(y))
      case _ => Err
  }

  /** The three bit fields make up the whole number. */
  lemma Fields(id: int)
    ensures id == (Time(id) - EPOCH) * TIME_UNIT + Node(id) * NODE_UNIT + Step(id)
    ensures 0 <= Node(id) < NODE_COUNT && 0 <= Step(id) < NODE_UNIT
  {
    var high := id / NODE_UNIT;
    assert high == (high / NODE_COUNT) * NODE_COUNT + Node(id);
    assert high / NODE_COUNT == id / TIME_UNIT;
  }

  /** Comparing time and then step is comparing the numbers themselves, and numbers of two
      nodes are never compared. */
  lemma CompareIsIntegerOrder(a: string, b: string)
    requires !(a != "" && b == "")
    ensures Compare(a, b).Ok? <==>
            Parse(a).Some? && Parse(b).Some? && Node(Parse(a).value) == Node(Parse(b).value)
    ensures Compare(a, b).Ok? ==> Compare(a, b).value == (Parse(a).value > Parse(b).value)
  {
    if Compare(a, b).Ok? {
      Fields(Parse(a).value);
      Fields(Parse(b).value);
    }
  }

  ghost predicate Newer(a: string, b: string) { Compare(a, b) == Ok(true) }

  /** Being newer is a strict order, and total on the numbers of one node. */
  lemma NewerIsStrictOrder(a: string, b: string, c: string)
    ensures !Newer(a, a)
    ensures Newer(a, b) ==> !Newer(b, a)
    ensures Newer(a, b) && Newer(b, c) ==> Newer(a, c)
    ensures (match (Parse(a), Parse(b))
             case (Some(x), Some(y)) => x != y && Node(x) == Node(y) ==> Newer(a, b) || Newer(b, a)
             case _ => true)
  {
    assert Parse("").None?;
    if a != "" { CompareIsIntegerOrder(a, a); }
    if b != "" { CompareIsIntegerOrder(a, b); }
    if c != "" { CompareIsIntegerOrder(b, c); CompareIsIntegerOrder(a, c); }
    if a != "" { CompareIsIntegerOrder(b, a); }
  }

  // Which statuses can be followed by a newer one

  function Digit(d: nat): (c: char)
    requires d < 10
    ensures '0' <= c <= '9' && (c - '0') as int == d
  {
    '0' + d as char
  }

  function Decimal(n: nat): string
  {
    (if n < 10 then "" else Decimal(n / 10)) + [Digit(n % 10)]
  }

  lemma OneMoreDigit(high: string, n: nat, d: nat)
    requires Digits(high) == Some(n) && d < 10
    ensures Digits(high + [Digit(d)]) == Some(10 * n + d)
  {
    var s := high + [Digit(d)];
    assert s[..|s| - 1] == high && s[|s| - 1] == Digit(d);
  }

  lemma {:induction false} DecimalDigits(n: nat)
    ensures Digits(Decimal(n)) == Some(n)
    ensures Decimal(n) != [] && '0' <= Decimal(n)[0] <= '9'
  {
    if n < 10 {
      OneMoreDigit("", 0, n);
      assert Decimal(n) == [] + [Digit(n)];
    } else {
      DecimalDigits(n / 10);
      OneMoreDigit(Decimal(n / 10), n / 10, n % 10);
      assert Decimal(n)[0] == Decimal(n / 10)[0];
    }
  }

  lemma ParseDigits(d: string, n: nat)
    requires d != [] && '0' <= d[0] <= '9' && Digits(d) == Some(n)
    ensures n <= INT64_MAX ==> Parse(d) == Some(n) && Parse(['+'] + d) == Some(n)
    ensures n <= -INT64_MIN ==> Parse(['-'] + d) == Some(-1 * n)
  {
    assert (['+'] + d)[1..] == d;
    assert (['-'] + d)[1..] == d;
  }

  /** A decimal number is read as itself, and a sign in front of it counts. */
  lemma ParseReads(n: nat)
    ensures n <= INT64_MAX ==> Parse(Decimal(n)) == Some(n) && Parse(['+'] + Decimal(n)) == Some(n)
    ensures n <= -INT64_MIN ==> Parse(['-'] + Decimal(n)) == Some(-1 * n)
  {
    DecimalDigits(n);
    ParseDigits(Decimal(n), n);
  }

  lemma {:induction false} OnlyDigits(s: string)
    ensures Digits(s).Some? <==> forall i :: 0 <= i < |s| ==> '0' <= s[i] <= '9'
  {
    if s != [] {
      OnlyDigits(s[..|s| - 1]);
      assert s == s[..|s| - 1] + [s[|s| - 1]];
    }
  }

  /** Nothing but digits behind a sign or none is read. */
  lemma ParsesDigitsOnly(s: string)
    ensures Parse(s).Some? ==>
              s != [] && var digits := if s[0] == '+' || s[0] == '-' then s[1..] else s;
              digits != [] && forall i :: 0 <= i < |digits| ==> '0' <= digits[i] <= '9'
  {
    OnlyDigits(s);
    if s != [] { OnlyDigits(s[1..]); }
  }

  /** The greatest number of a node. */
  function LastOf(node: int): int { (INT64_MAX / TIME_UNIT) * TIME_UNIT + node * NODE_UNIT + NODE_UNIT - 1 }

  lemma LastIsLast(node: int, x: int)
    requires 0 <= node < NODE_COUNT
    ensures 0 <= LastOf(node) <= INT64_MAX && Node(LastOf(node)) == node
    ensures x <= INT64_MAX && Node(x) == node ==> x <= LastOf(node)
  {
    Fields(x);
    Fields(LastOf(node));
  }

  /** The identifier is empty, or a number that is not the last one of its node. */
  predicate LetsIn(id: string)
  {
    id == "" || (Parse(id).Some? && Parse(id).value != LastOf(Node(Parse(id).value)))
  }

  /** Something is newer exactly than those. */
  lemma LetsInIff(id: string)
    ensures (exists later :: Newer(later, id)) <==> LetsIn(id)
  {
    if id == "" {
      assert Newer("1", id);
    } else if Parse(id).Some? {
      var x := Parse(id).value;
      Fields(x);
      LastIsLast(Node(x), x);
      var last := Decimal(LastOf(Node(x)));
      DecimalDigits(LastOf(Node(x)));
      assert Parse(last) == Some(LastOf(Node(x)));
      CompareIsIntegerOrder(last, id);
      if x != LastOf(Node(x)) { assert Newer(last, id); }
      forall later ensures Newer(later, id) ==> LetsIn(id) {
        CompareIsIntegerOrder(later, id);
        if Newer(later, id) { LastIsLast(Node(x), Parse(later).value); }
      }
    }
  }
}
