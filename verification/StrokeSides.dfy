/** The two sides of a stroke: going back along a path is going out along the path
    reversed, caps, joins and lengths included. */
module StrokeSides {
  import opened Strokers

  function Reversed(ps: seq<Point>): (r: seq<Point>)
    ensures |r| == |ps| && forall i :: 0 <= i < |ps| ==> r[i] == ps[|ps| - 1 - i]
  {
    seq(|ps|, i requires 0 <= i < |ps| => ps[|ps| - 1 - i])
  }

  /** A distance does not depend on which way it is measured. */
  ghost predicate Symmetric(st: Style) {
    forall p, q :: st.dist(p, q) == st.dist(q, p)
  }

  lemma TurnedBack(ps: seq<Point>)
    ensures Reversed(Reversed(ps)) == ps
  {
  }

  lemma NeighboursReversed(ps: seq<Point>, i: nat)
    requires i < |ps|
    ensures Prev(Reversed(ps), i) == Next(ps, |ps| - 1 - i) && Next(Reversed(ps), i) == Prev(ps, |ps| - 1 - i)
  {
  }

  /** The join on the way back is the join of the reversed path. */
  lemma JoinReversed(st: Style, ps: seq<Point>, i: nat)
    requires Symmetric(st) && i < |ps|
    ensures JoinUp(st, Reversed(ps), i) == JoinDown(st, ps, |ps| - 1 - i)
  {
    hide Reversed, Prev, Next;
    NeighboursReversed(ps, i);
  }

  lemma {:induction false} JoinsReversed(st: Style, ps: seq<Point>, i: nat, hi: nat)
    requires Symmetric(st) && i <= hi <= |ps|
    ensures JoinsUp(st, Reversed(ps), i, hi) == JoinsDown(st, ps, |ps| - i, |ps| - hi)
    decreases hi - i
  {
    hide Symmetric, Reversed, JoinUp, JoinDown;
    if i < hi {
      JoinReversed(st, ps, i);
      JoinsReversed(st, ps, i + 1, hi);
    }
  }

  /** The way out: the first cap and the joins of one side. */
  function WayOut(st: Style, ps: seq<Point>): seq<Point>
    requires |ps| >= 2
  {
    CapStart(st, ps) + JoinsUp(st, ps, 1, |ps| - 1)
  }

  /** The way back is the way out along the reversed path. */
  lemma WayBackIs(st: Style, ps: seq<Point>)
    requires Symmetric(st) && |ps| >= 2
    ensures WayBack(st, ps) == WayOut(st, Reversed(ps))
  {
    hide JoinsUp, JoinsDown, Reversed;
    JoinsReversed(st, ps, 1, |ps| - 1);
  }

  /** An open path and the same path reversed have one outline, begun at either cap. */
  lemma OpenReversed(st: Style, ps: seq<Point>)
    requires Symmetric(st) && |ps| >= 2
    ensures AroundOpen(st, ps) == WayOut(st, ps) + WayOut(st, Reversed(ps))
    ensures AroundOpen(st, Reversed(ps)) == WayOut(st, Reversed(ps)) + WayOut(st, ps)
  {
    hide Symmetric, CapStart, JoinsUp, WayBack, Reversed;
    WayBackIs(st, ps);
    WayBackIs(st, Reversed(ps));
    TurnedBack(ps);
  }

  /** A ring has the same two contours as the ring reversed, the other way round. */
  lemma RingReversed(st: Style, ps: seq<Point>)
    requires Symmetric(st)
    ensures JoinsDown(st, ps, |ps|, 0) == JoinsUp(st, Reversed(ps), 0, |ps|)
    ensures JoinsDown(st, Reversed(ps), |ps|, 0) == JoinsUp(st, ps, 0, |ps|)
  {
    hide Symmetric, JoinsUp, JoinsDown, Reversed;
    JoinsReversed(st, ps, 0, |ps|);
    JoinsReversed(st, Reversed(ps), 0, |ps|);
    TurnedBack(ps);
  }
}
