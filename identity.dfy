/** Identity handles: the process-wide counters and the decimal rendering used in IDs. */
module Identity {

  /** An explicit ID allocator; it stands for the class-level COUNT attribute that
      every new node (and every new element) reads and then increments. */
  class IdCounter {
    var next: nat

    constructor ()
      ensures next == 0
    {
      next := 0;
    }

    /** Returns the current counter value and increments the counter. */
    method Take() returns (id: nat)
      modifies this`next
      ensures id == old(next) && next == old(next) + 1
    {
      id := next;
      next := next + 1;
    }
  }

  function DigitChar(d: nat): (c: char)
    requires d < 10
    ensures '0' <= c <= '9'
  {
    (48 + d) as char
  }

  /** The decimal representation of n, as Python's str.format renders an int. */
  function Decimal(n: nat): (s: string)
    ensures |s| >= 1
    ensures forall i :: 0 <= i < |s| ==> '0' <= s[i] <= '9'
    decreases n
  {
    if n < 10 then [DigitChar(n)] else Decimal(n / 10) + [DigitChar(n % 10)]
  }

  /** Distinct numbers render as distinct strings. */
  lemma {:induction false} DecimalInjective(a: nat, b: nat)
    requires Decimal(a) == Decimal(b)
    ensures a == b
    decreases a
  {
    var s := Decimal(a);
    if a >= 10 && b >= 10 {
      var pa, pb := Decimal(a / 10), Decimal(b / 10);
      assert s == pa + [DigitChar(a % 10)] == pb + [DigitChar(b % 10)];
      assert DigitChar(a % 10) == s[|s| - 1] == DigitChar(b % 10);
      assert pa == s[..|s| - 1] == pb;
      DecimalInjective(a / 10, b / 10);
    }
  }

  /** An identifier string: a fixed tag followed by a number in decimal. */
  function Tagged(tag: string, n: nat): (s: string)
    ensures |s| > |tag| && s[..|tag|] == tag
    ensures s[|tag|..] == Decimal(n)
  {
    tag + Decimal(n)
  }

  /** Under one tag, the identifier string determines the number. */
  lemma TaggedInjective(tag: string, a: nat, b: nat)
    requires Tagged(tag, a) == Tagged(tag, b)
    ensures a == b
  {
    DecimalInjective(a, b);
  }
}
