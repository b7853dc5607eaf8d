// Civil time to UTC by iteration (backend/src/relativeDates.ts). Times are milliseconds; a zone is the
// function from a UTC instant to its offset.
module CivilTime {

  /** The loop from a guess, with some rounds left: stop as soon as the guess no longer moves. */
  function Settle(offset: int -> int, civil: int, guess: int, rounds: nat): int
    decreases rounds
  {
    if rounds == 0 then guess
    else
      var next := civil - offset(guess);
      if next == guess then guess else Settle(offset, civil, next, rounds - 1)
  }

  function CivilToUtc(offset: int -> int, civil: int): int {
    Settle(offset, civil, civil - offset(civil), 3)
  }

  method ComputeCivilToUtc(offset: int -> int, civil: int) returns (guess: int)
    ensures guess == CivilToUtc(offset, civil)
  {
    guess := civil - offset(civil);
    for round := 0 to 3
      invariant Settle(offset, civil, guess, 3 - round) == CivilToUtc(offset, civil)
    {
      var next := civil - offset(guess);
      if next == guess { break; }
      guess := next;
    }
  }

  /** The instant reads as this civil time. */
  predicate Reads(offset: int -> int, instant: int, civil: int) {
    instant + offset(instant) == civil
  }

  function Other(a: int, b: int, x: int): int {
    if x == a then b else a
  }

  /** The civil time, taken for UTC, is nearer than m to every instant that could read as it. */
  ghost predicate Within(offset: int -> int, m: int) {
    forall t :: -m <= offset(t) <= m
  }

  /** Around a civil time the zone uses no more than two offsets, whatever it does further away. */
  ghost predicate TwoOffsetsNear(offset: int -> int, civil: int, m: int, a: int, b: int) {
    forall t :: civil - m <= t <= civil + m ==> offset(t) == a || offset(t) == b
  }

  /** Where the zone uses two offsets nearby, three rounds are enough: the result reads as the civil time whenever
      some instant does; a civil time that is skipped gives the civil time minus the offset that is not in
      force at it read as UTC. */
  lemma {:induction false} ThreeRoundsAreEnough(offset: int -> int, m: int, a: int, b: int, civil: int)
    requires Within(offset, m) && TwoOffsetsNear(offset, civil, m, a, b)
    ensures Reads(offset, CivilToUtc(offset, civil), civil) <==> exists t :: Reads(offset, t, civil)
    ensures !(exists t :: Reads(offset, t, civil)) ==> CivilToUtc(offset, civil) == civil - Other(a, b, offset(civil))
  {
    var x := offset(civil);
    assert -m <= x <= m;
    var y := Other(a, b, x);
    var g, h := civil - x, civil - y;
    OnlyTwoReadings(offset, m, a, b, civil);
    assert CivilToUtc(offset, civil) == Settle(offset, civil, g, 3);
    if offset(g) != x {
      assert -m <= offset(g) <= m && offset(g) == y;
      assert Settle(offset, civil, g, 3) == Settle(offset, civil, h, 2);
      if offset(h) == x {
        assert civil - offset(h) == g;
        assert Settle(offset, civil, h, 2) == Settle(offset, civil, g, 1);
        assert Settle(offset, civil, g, 1) == Settle(offset, civil, h, 0);
        forall t ensures !Reads(offset, t, civil) {}
      }
    }
  }

  lemma {:induction false} OnlyTwoReadings(offset: int -> int, m: int, a: int, b: int, civil: int)
    requires Within(offset, m) && TwoOffsetsNear(offset, civil, m, a, b)
    ensures forall t :: Reads(offset, t, civil) ==> t == civil - a || t == civil - b
  {
    forall t | Reads(offset, t, civil) ensures t == civil - a || t == civil - b {
      assert -m <= offset(t) <= m;
    }
  }

  // ---------------------------------------------------------------- zones that change again and again

  /** The offset in force at an instant: that of the last change at or before it, or the initial one. */
  function InForce(changes: seq<(int, int)>, initial: int, t: int): int {
    if changes == [] then initial
    else if changes[|changes| - 1].0 <= t then changes[|changes| - 1].1
    else InForce(changes[..|changes| - 1], initial, t)
  }

  /** The zone changes at these instants, in order and at least d apart, to these offsets. */
  ghost predicate Zone(offset: int -> int, changes: seq<(int, int)>, initial: int, d: nat) {
    (forall t :: offset(t) == InForce(changes, initial, t))
    && (forall i, j :: 0 <= i < j < |changes| ==> changes[i].0 + d <= changes[j].0)
  }

  /** The change nearest to a civil time, if one is near: the only one there is. */
  lemma {:induction false} OneChangeNear(changes: seq<(int, int)>, initial: int, m: nat, civil: int) returns (a: int, b: int)
    requires forall i, j :: 0 <= i < j < |changes| ==> changes[i].0 + 2 * m <= changes[j].0
    ensures forall t :: civil - m <= t <= civil + m ==> InForce(changes, initial, t) == a || InForce(changes, initial, t) == b
  {
    if changes == [] {
      a, b := initial, initial;
    } else {
      var front, last := changes[..|changes| - 1], changes[|changes| - 1];
      if last.0 <= civil - m {
        a, b := last.1, last.1;
      } else if civil + m < last.0 {
        a, b := OneChangeNear(front, initial, m, civil);
      } else {
        a, b := InForce(front, initial, civil - m), last.1;
        forall t | civil - m <= t < last.0 ensures InForce(changes, initial, t) == a { NoChangeBetween(front, initial, civil - m, t); }
      }
    }
  }

  lemma {:induction false} NoChangeBetween(changes: seq<(int, int)>, initial: int, s: int, t: int)
    requires s <= t && forall i :: 0 <= i < |changes| ==> !(s < changes[i].0 <= t)
    ensures InForce(changes, initial, s) == InForce(changes, initial, t)
  {
    if changes != [] && t < changes[|changes| - 1].0 { NoChangeBetween(changes[..|changes| - 1], initial, s, t); }
  }

  /** A zone may change any number of times to any offsets: while changes are at least twice the largest
      offset apart, the conversion finds an instant that reads as the civil time whenever there is one. */
  lemma {:induction false} EveryCivilTime(offset: int -> int, changes: seq<(int, int)>, initial: int, m: nat, d: nat, civil: int)
    requires Within(offset, m) && Zone(offset, changes, initial, d) && 2 * m <= d
    ensures Reads(offset, CivilToUtc(offset, civil), civil) <==> exists t :: Reads(offset, t, civil)
  {
    var a, b := OneChangeNear(changes, initial, m, civil);
    ThreeRoundsAreEnough(offset, m, a, b, civil);
  }

  /** The conversion of this civil time finds an instant that reads as it if there is one. */
  ghost predicate Converts(offset: int -> int, civil: int) {
    (exists t :: Reads(offset, t, civil)) ==> Reads(offset, CivilToUtc(offset, civil), civil)
  }

  /** Every zone with offsets up to m and changes at least d apart converts every civil time. */
  ghost predicate AllConvert(m: nat, d: nat) {
    forall offset, changes, initial, civil :: Within(offset, m) && Zone(offset, changes, initial, d) ==> Converts(offset, civil)
  }

  /** Two changes one short of twice the largest offset apart. */
  function Hasty(m: nat): int -> int {
    t => if t < 1 - m then 0 else if t < m then m else 0 - m
  }

  function HastyChanges(m: nat): seq<(int, int)> {
    var from: int, to: int := 1 - m, m;
    [(from, to), (to, -to)]
  }

  /** Between its two changes three rounds only go back and forth, past the instant that reads as 0. */
  lemma {:induction false} HastyDoesNotConvert(m: nat)
    requires m > 0
    ensures Within(Hasty(m), m) && Zone(Hasty(m), HastyChanges(m), 0, 2 * m - 1) && !Converts(Hasty(m), 0)
  {
    var z, changes := Hasty(m), HastyChanges(m);
    forall t ensures z(t) == InForce(changes, 0, t) {
      assert InForce(changes[..1], 0, t) == if 1 - m <= t then m else 0;
    }
    assert Reads(z, m, 0);
    var back: int := 0 - m;
    assert CivilToUtc(z, 0) == Settle(z, 0, back, 3) == Settle(z, 0, 0, 2) == Settle(z, 0, back, 1) == Settle(z, 0, 0, 0);
  }

  /** Twice the largest offset is the least distance between changes at which three rounds are always enough. */
  lemma {:induction false} AllConvertExactly(m: nat, d: nat)
    ensures AllConvert(m, d) <==> 2 * m <= d
  {
    if 2 * m <= d {
      forall offset, changes, initial, civil | Within(offset, m) && Zone(offset, changes, initial, d) ensures Converts(offset, civil) {
        EveryCivilTime(offset, changes, initial, m, d, civil);
      }
    } else {
      HastyDoesNotConvert(m);
      assert Zone(Hasty(m), HastyChanges(m), 0, d);
    }
  }

  /** A zone that changes once, at an instant, from one offset to another. */
  ghost predicate ChangesAt(offset: int -> int, change: int, a: int, b: int) {
    forall t :: offset(t) == if t < change then a else b
  }

  /** When the clock goes forward, exactly the civil times between the two readings of the change are
      skipped. */
  lemma {:induction false} SkippedExactly(offset: int -> int, change: int, a: int, b: int, civil: int)
    requires ChangesAt(offset, change, a, b)
    ensures !(exists t :: Reads(offset, t, civil)) <==> change + a <= civil < change + b
    ensures change + a <= civil < change + b ==> CivilToUtc(offset, civil) == civil - (if civil < change then b else a)
  {
    if civil < change + a {
      assert Reads(offset, civil - a, civil);
    }
    if civil >= change + b {
      assert Reads(offset, civil - b, civil);
    }
    var m := (if a < 0 then -a else a) + (if b < 0 then -b else b);
    ThreeRoundsAreEnough(offset, m, a, b, civil);
  }

  /** When the clock goes back, a civil time that occurs twice gives the later instant if it comes, read as
      UTC, at or after the change, and the earlier one otherwise: east of Greenwich the second occurrence,
      west of it the first. */
  lemma {:induction false} RepeatedTimeIs(offset: int -> int, change: int, a: int, b: int, civil: int)
    requires ChangesAt(offset, change, a, b) && change + b <= civil < change + a
    ensures Reads(offset, civil - a, civil) && Reads(offset, civil - b, civil) && civil - a < civil - b
    ensures CivilToUtc(offset, civil) == if civil < change then civil - a else civil - b
    ensures (b >= 0 ==> CivilToUtc(offset, civil) == civil - b) && (a <= 0 ==> CivilToUtc(offset, civil) == civil - a)
  {
    assert CivilToUtc(offset, civil) == Settle(offset, civil, civil - offset(civil), 3);
  }
}
