/**
 * The delivery pointer's meaning: from a base, how far the held seqs run on
 * without a gap. The store's `through` is always such a closure.
 */
module Closure {

  /** The held seqs a walk from b can still meet. */
  function Above(b: int, held: set<int>): set<int> {
    set q | q in held && b < q
  }

  /** Walk up from b while the next seq is held. */
  function Close(b: int, held: set<int>): (t: int)
    ensures b <= t
    decreases |Above(b, held)|
  {
    if b + 1 in held then
      assert Above(b, held) == Above(b + 1, held) + {b + 1};
      Close(b + 1, held)
    else
      b
  }

  /** Where the walk stops: all held on the way, nothing held just above. */
  lemma {:induction false} CloseStops(b: int, held: set<int>)
    ensures Close(b, held) + 1 !in held
    ensures forall q :: b < q <= Close(b, held) ==> q in held
    decreases |Above(b, held)|
  {
    if b + 1 in held {
      assert Above(b, held) == Above(b + 1, held) + {b + 1};
      CloseStops(b + 1, held);
    }
  }

  /** No point from b up whose successor is not held lies below Close(b, held). */
  lemma CloseIsLeast(b: int, held: set<int>, t: int)
    requires b <= t && t + 1 !in held
    ensures Close(b, held) <= t
  {
    CloseStops(b, held);
    assert t < Close(b, held) ==> t + 1 in held;
  }

  /** The three defining facts determine the value. */
  lemma CloseIsUnique(b: int, held: set<int>, t: int)
    requires b <= t && t + 1 !in held
    requires forall q :: b < q <= t ==> q in held
    ensures t == Close(b, held)
  {
    CloseIsLeast(b, held, t);
    CloseStops(b, held);
    assert Close(b, held) < t ==> Close(b, held) + 1 in held;
  }

  /** More base or more held seqs never move the pointer back. */
  lemma CloseIsMonotone(b: int, held: set<int>, c: int, more: set<int>)
    requires b <= c && held <= more
    ensures Close(b, held) <= Close(c, more)
  {
    var t := Close(c, more);
    CloseStops(c, more);
    assert t + 1 !in held;
    CloseIsLeast(b, held, t);
  }

  /** Closing again from any point already reached gains nothing. */
  lemma CloseAbsorbs(b: int, held: set<int>, c: int)
    requires b <= c <= Close(b, held)
    ensures Close(c, held) == Close(b, held)
  {
    CloseStops(b, held);
    CloseIsUnique(c, held, Close(b, held));
  }

  /**
   * Raising a pointer step by step, to a reported loss and over what newly
   * arrived, lands where one closure over everything lands.
   */
  lemma CloseInSteps(b: int, held: set<int>, raise: int, more: set<int>)
    requires held <= more
    ensures var c := Close(b, held);
            Close(if c < raise then raise else c, more) == Close(if b < raise then raise else b, more)
  {
    var c := Close(b, held);
    if raise <= c {
      var m := if b < raise then raise else b;
      CloseIsMonotone(b, held, m, more);
      CloseAbsorbs(m, more, c);
    }
  }
}
