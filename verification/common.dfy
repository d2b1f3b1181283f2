/** Small shared vocabulary: optional values and the 32-bit `int` of C#. */
module Common {

  /** A value that may be absent: C# `null` / nullable, JavaScript `null` or `undefined`. */
  datatype Option<+T> = None | Some(value: T) {

    /** The carried value, or `default` when absent. */
    function GetOr(default: T): T {
      match this
      case Some(v) => v
      case None => default
    }
  }

  const TwoTo31: int := 0x8000_0000
  const TwoTo32: int := 0x1_0000_0000

  /** The values of a C# `int`. */
  type Int32 = x: int | -TwoTo31 <= x < TwoTo31

  /** C# unchecked `int` arithmetic: the result of an operation reduced modulo 2^32
      into the signed range. */
  function Wrap32(x: int): (r: Int32)
    ensures (x - r) % TwoTo32 == 0
    ensures -TwoTo31 <= x < TwoTo31 ==> r == x
  {
    ((x + TwoTo31) % TwoTo32) - TwoTo31
  }

  /** Multiplying both sides keeps a congruence modulo 2^32. */
  lemma CongruentTimes(a: int, b: int, c: int)
    requires (a - b) % TwoTo32 == 0
    ensures (a * c - b * c) % TwoTo32 == 0
  {
    var q := (a - b) / TwoTo32;
    assert a - b == q * TwoTo32;
    assert a * c - b * c == (a - b) * c == (q * c) * TwoTo32;
  }

  /** Congruence modulo 2^32 is transitive. */
  lemma CongruentTrans(a: int, b: int, c: int)
    requires (a - b) % TwoTo32 == 0 && (b - c) % TwoTo32 == 0
    ensures (a - c) % TwoTo32 == 0
  {
    var p, q := (a - b) / TwoTo32, (b - c) / TwoTo32;
    assert a - c == (p + q) * TwoTo32;
  }

  function Min(a: int, b: int): int { if a <= b then a else b }

  function Max(a: int, b: int): int { if a <= b then b else a }

  /** A set with no members is the empty set. */
  lemma NoMemberEmpty(s: set<int>)
    requires forall x :: x !in s
    ensures s == {}
  {
    assert forall x :: x in s <==> x in {};
  }

  /** A non-empty set has a member, so a member can be picked from it. */
  lemma NonEmptyHasMember(s: set<int>)
    requires s != {}
    ensures exists x :: x in s
  {
    if forall x :: x !in s {
      NoMemberEmpty(s);
    }
  }
}
