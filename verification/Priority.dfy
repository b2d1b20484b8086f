/** Log priorities: smaller is more urgent, named levels are multiples of 100, and everything
    from NOTSET up counts as not set. */
module Priority {

  const INFO: int := 600
  const NOTSET: int := 800

  /** Integer division as C does it, towards zero. */
  function Quotient(a: int, b: int): int
    requires b > 0
  {
    if a >= 0 then a / b else -(-a / b)
  }

  /** The index by which the name and severity tables are read. */
  function Level(priority: int): int {
    Quotient(priority + 1, 100)
  }

  lemma LevelMonotone(p: int, q: int)
    requires p <= q
    ensures Level(p) <= Level(q)
  {
    if q + 1 < 0 {
      assert -(q + 1) / 100 <= -(p + 1) / 100;
    }
  }

  lemma LevelExact(k: nat)
    ensures Level(100 * k) == k
  {
    assert 100 * k <= 100 * k + 1 < 100 * (k + 1);
  }

  function Name(priority: int): string {
    var level := Level(priority);
    ["FATAL", "ALERT", "CRIT", "ERROR", "WARN", "NOTICE", "INFO", "DEBUG", "NOTSET"]
      [if level < 0 || level > 8 then 8 else level]
  }

  /** The nine names and the priorities that have them. */
  lemma NameLaw(p: int)
    ensures Name(p) == "FATAL" <==> -100 <= p <= 98
    ensures Name(p) == "ALERT" <==> 99 <= p <= 198
    ensures Name(p) == "CRIT" <==> 199 <= p <= 298
    ensures Name(p) == "ERROR" <==> 299 <= p <= 398
    ensures Name(p) == "WARN" <==> 399 <= p <= 498
    ensures Name(p) == "NOTICE" <==> 499 <= p <= 598
    ensures Name(p) == "INFO" <==> 599 <= p <= 698
    ensures Name(p) == "DEBUG" <==> 699 <= p <= 798
    ensures Name(p) == "NOTSET" <==> p < -100 || p > 798
  {
  }
}
