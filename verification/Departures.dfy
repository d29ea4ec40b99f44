/**
 The departures of a cohort's tolerated members, spread over the boundaries between its stages. The
 profile of n participants tolerates f = floor((n - 1) / 3) members and selects max(f + 1, 2) of the
 first max(f + 1, 2) + f positions; position 0 is the organizer.
 */
module Departures {
  datatype Boundary =
    | BeforeConfirmation | BeforeOffer | BeforeSelection
    | BeforeSetupVerification | BeforeCloseResponse | BeforeTargetVote

  const BOUNDARIES := [BeforeConfirmation, BeforeOffer, BeforeSelection,
                       BeforeSetupVerification, BeforeCloseResponse, BeforeTargetVote]

  datatype Departure = Departure(boundary: Boundary, position: nat)

  datatype Result<+T> = Ok(value: T) | Error

  datatype Schedule = Schedule(departures: seq<Departure>, selected: seq<nat>)

  function Faults(participants: nat): nat {
    if participants == 0 then 0 else (participants - 1) / 3
  }

  function Contributors(faults: nat): nat {
    if faults + 1 < 2 then 2 else faults + 1
  }

  // ----- Rounding -----

  /** The boundary of the index-th of `faults` departures among boundaries 0 to last: halves round up. */
  function Rounded(index: nat, last: nat, faults: nat): nat
    requires faults >= 1
  {
    if faults == 1 then last else (2 * index * last + (faults - 1)) / (2 * (faults - 1))
  }

  lemma QuotientBounds(a: nat, d: nat)
    requires d > 0
    ensures (a / d) * d <= a < (a / d) * d + d
  {
    assert a == (a / d) * d + a % d;
  }

  lemma Scale(p: int, q: int, d: nat)
    requires p <= q
    ensures p * d <= q * d
  {
  }

  lemma QuotientSteps(a: nat, b: nat, d: nat)
    requires d > 0 && a + d <= b
    ensures a / d + 1 <= b / d
  {
    QuotientBounds(a, d);
    QuotientBounds(b, d);
    if b / d <= a / d {
      Scale(b / d, a / d, d);
    }
  }

  lemma QuotientIs(a: nat, d: nat, q: nat)
    requires d > 0 && q * d <= a < q * d + d
    ensures a / d == q
  {
    QuotientBounds(a, d);
    if a / d < q {
      Scale(a / d + 1, q, d);
    } else if q < a / d {
      Scale(q + 1, a / d, d);
    }
  }

  /** The rounded quotient is nearest to i * last / (faults - 1), and halves go up. */
  lemma RoundedIsNearest(i: nat, last: nat, faults: nat)
    requires faults > 1
    ensures var d, scaled := faults - 1, 2 * (faults - 1) * Rounded(i, last, faults);
            2 * i * last - d < scaled <= 2 * i * last + d
  {
    var d := faults - 1;
    QuotientBounds(2 * i * last + d, 2 * d);
    assert Rounded(i, last, faults) * (2 * d) == 2 * d * Rounded(i, last, faults);
  }

  lemma RoundingSteps(i: nat, last: nat, faults: nat)
    requires 1 < faults <= last + 1
    ensures Rounded(i, last, faults) < Rounded(i + 1, last, faults)
  {
    var d := faults - 1;
    assert 2 * (i + 1) * last + d == 2 * i * last + d + 2 * last;
    QuotientSteps(2 * i * last + d, 2 * (i + 1) * last + d, 2 * d);
  }

  /** While there are at least as many boundaries as departures, no two departures share one. */
  lemma {:induction false} RoundingIncreases(i: nat, j: nat, last: nat, faults: nat)
    requires 1 <= faults <= last + 1 && i < j < faults
    ensures Rounded(i, last, faults) < Rounded(j, last, faults)
    decreases j - i
  {
    RoundingSteps(i, last, faults);
    if i + 1 < j {
      RoundingIncreases(i + 1, j, last, faults);
    }
  }

  lemma RoundingEnds(last: nat, faults: nat)
    requires faults >= 1
    ensures Rounded(faults - 1, last, faults) == last
    ensures faults > 1 ==> Rounded(0, last, faults) == 0
  {
    if faults > 1 {
      var d := faults - 1;
      assert 2 * d * last + d == last * (2 * d) + d;
      QuotientIs(2 * d * last + d, 2 * d, last);
      QuotientIs(d, 2 * d, 0);
    }
  }

  lemma RoundingStays(i: nat, last: nat, faults: nat)
    requires 1 <= faults <= last + 1 && i < faults
    ensures Rounded(i, last, faults) <= last
  {
    RoundingEnds(last, faults);
    if i < faults - 1 {
      RoundingIncreases(i, faults - 1, last, faults);
    }
  }

  lemma QuotientNeverFalls(a: nat, b: nat, d: nat)
    requires d > 0 && a <= b
    ensures a / d <= b / d
  {
    QuotientBounds(a, d);
    QuotientBounds(b, d);
    if b / d < a / d {
      Scale(b / d + 1, a / d, d);
    }
  }

  lemma RoundingNeverFalls(i: nat, last: nat, faults: nat)
    requires faults > 1
    ensures Rounded(i, last, faults) <= Rounded(i + 1, last, faults)
  {
    var d := faults - 1;
    assert 2 * (i + 1) * last + d == 2 * i * last + d + 2 * last;
    QuotientNeverFalls(2 * i * last + d, 2 * (i + 1) * last + d, 2 * d);
  }

  /** No two departures share a boundary. */
  ghost predicate Apart(last: nat, faults: nat)
    requires faults >= 1
  {
    forall i: nat, j: nat | i < j < faults :: Rounded(i, last, faults) != Rounded(j, last, faults)
  }

  lemma {:induction false} ApartClimbs(n: nat, last: nat, faults: nat)
    requires n < faults && Apart(last, faults)
    ensures Rounded(n, last, faults) >= n
  {
    if n > 0 {
      ApartClimbs(n - 1, last, faults);
      RoundingNeverFalls(n - 1, last, faults);
      assert Rounded(n - 1, last, faults) != Rounded(n, last, faults);
    }
  }

  /** The departures keep apart exactly when there are at least as many boundaries. */
  lemma ApartExactlyWithEnoughBoundaries(last: nat, faults: nat)
    requires faults >= 1
    ensures Apart(last, faults) <==> faults <= last + 1
  {
    if faults <= last + 1 {
      forall i: nat, j: nat | i < j < faults ensures Rounded(i, last, faults) != Rounded(j, last, faults) {
        RoundingIncreases(i, j, last, faults);
      }
    }
    if Apart(last, faults) {
      ApartClimbs(faults - 1, last, faults);
      RoundingEnds(last, faults);
    }
  }

  // ----- Lists of positions -----

  predicate Distinct(xs: seq<nat>) {
    forall i, j | 0 <= i < j < |xs| :: xs[i] != xs[j]
  }

  function Without(xs: seq<nat>, taken: set<nat>): seq<nat> {
    if xs == [] then []
    else Without(xs[..|xs| - 1], taken) + if xs[|xs| - 1] in taken then [] else [xs[|xs| - 1]]
  }

  lemma {:induction false} WithoutKeeps(xs: seq<nat>, taken: set<nat>)
    ensures forall x :: x in Without(xs, taken) <==> x in xs && x !in taken
    ensures Distinct(xs) ==> Distinct(Without(xs, taken))
  {
    if xs != [] {
      var front, last := xs[..|xs| - 1], xs[|xs| - 1];
      WithoutKeeps(front, taken);
      assert xs == front + [last];
    }
  }

  /** Taking away k positions removes at most k. */
  lemma {:induction false} WithoutSize(xs: seq<nat>, taken: set<nat>)
    requires Distinct(xs)
    ensures |Without(xs, taken)| + |taken| >= |xs|
  {
    if xs != [] {
      var front, last := xs[..|xs| - 1], xs[|xs| - 1];
      if last in taken {
        WithoutIgnores(front, taken, last);
        WithoutSize(front, taken - {last});
      } else {
        WithoutSize(front, taken);
      }
    }
  }

  lemma {:induction false} WithoutIgnores(xs: seq<nat>, taken: set<nat>, x: nat)
    requires x !in xs
    ensures Without(xs, taken) == Without(xs, taken - {x})
  {
    if xs != [] {
      WithoutIgnores(xs[..|xs| - 1], taken, x);
      assert xs[|xs| - 1] != x;
    }
  }

  function Positions(from: nat, count: nat): (positions: seq<nat>)
    ensures |positions| == count && Distinct(positions)
    ensures Ascending(positions) && forall i | 0 <= i < count :: positions[i] == from + i
    ensures forall x :: x in positions <==> from <= x < from + count
  {
    var positions := seq(count, i requires 0 <= i < count => from + i);
    assert forall x | from <= x < from + count :: x in positions by {
      forall x | from <= x < from + count ensures x in positions {
        assert positions[x - from] == x;
      }
    }
    positions
  }

  function SetOf(xs: seq<nat>): set<nat> {
    set x | x in xs
  }

  lemma {:induction false} SetOfDistinct(xs: seq<nat>)
    requires Distinct(xs)
    ensures |SetOf(xs)| == |xs|
  {
    if xs != [] {
      var front, last := xs[..|xs| - 1], xs[|xs| - 1];
      SetOfDistinct(front);
      assert SetOf(xs) == SetOf(front) + {last} && last !in SetOf(front);
    }
  }

  // ----- The schedule -----

  predicate LeavesBeforeOffer(boundary: Boundary) {
    boundary == BeforeConfirmation || boundary == BeforeOffer
  }

  function BoundaryOf(index: nat, faults: nat): Boundary
    requires index < faults <= |BOUNDARIES|
  {
    RoundingStays(index, |BOUNDARIES| - 1, faults);
    BOUNDARIES[Rounded(index, |BOUNDARIES| - 1, faults)]
  }

  /** The boundaries of all departures, in stage order. */
  function Spread(faults: nat): seq<Boundary>
    requires 1 <= faults <= |BOUNDARIES|
  {
    seq(faults, i requires 0 <= i < faults => BoundaryOf(i, faults))
  }

  function Leaving(boundaries: seq<Boundary>): nat {
    if boundaries == [] then 0
    else Leaving(boundaries[..|boundaries| - 1]) + if LeavesBeforeOffer(boundaries[|boundaries| - 1]) then 1 else 0
  }

  lemma {:induction false} LeavingFits(boundaries: seq<Boundary>, i: nat)
    requires i <= |boundaries|
    ensures Leaving(boundaries[..i]) <= Leaving(boundaries) && Leaving(boundaries[..i]) <= i
  {
    if i < |boundaries| {
      LeavingFits(boundaries[..|boundaries| - 1], i);
      assert boundaries[..|boundaries| - 1][..i] == boundaries[..i];
    } else {
      assert boundaries[..i] == boundaries;
      if i > 0 {
        LeavingFits(boundaries[..i - 1], i - 1);
        assert boundaries[..i - 1][..i - 1] == boundaries[..i - 1];
      }
    }
  }

  /** Every other eligible position from the second never offers. */
  function Unoffered(count: nat): (unoffered: seq<nat>)
    ensures |unoffered| == count && Distinct(unoffered)
  {
    seq(count, i requires 0 <= i < count => 2 + 2 * i)
  }

  /** What a departure at a boundary must be of: the position and the selection. */
  predicate Fits(departure: Departure, selected: seq<nat>, participants: nat, faults: nat) {
    && 1 <= departure.position < participants
    && match departure.boundary
       case BeforeConfirmation => departure.position !in selected && departure.position < Contributors(faults) + faults
       case BeforeOffer => departure.position !in selected && departure.position < Contributors(faults) + faults
       case BeforeSelection => departure.position in selected
       case BeforeTargetVote => departure.position in selected
       case _ => departure.position !in selected
  }

  function PositionsOf(departures: seq<Departure>): seq<nat> {
    seq(|departures|, i requires 0 <= i < |departures| => departures[i].position)
  }

  predicate SelectedFirst(selected: seq<nat>, participants: nat, faults: nat) {
    && |selected| == Contributors(faults) && Distinct(selected) && 0 in selected
    && forall position | position in selected :: position < Contributors(faults) + faults <= participants
  }

  /** The first eligible positions that offer. */
  function TheSelected(faults: nat, unoffered: set<nat>): seq<nat> {
    var offered := Without(Positions(0, Contributors(faults) + faults), unoffered);
    if |offered| < Contributors(faults) then offered else offered[..Contributors(faults)]
  }

  method SelectedPositions(participants: nat, faults: nat, unoffered: seq<nat>) returns (selected: seq<nat>)
    requires faults >= 1 && 3 * faults + 1 <= participants
    requires |unoffered| <= faults && Distinct(unoffered) && 0 !in unoffered
    ensures SelectedFirst(selected, participants, faults)
    ensures forall position | position in unoffered :: position !in selected
    ensures forall p: nat, q | p < q && q in selected && p !in selected :: p in unoffered
    ensures Ascending(selected)
    ensures selected == TheSelected(faults, SetOf(unoffered))
  {
    var eligible := Positions(0, Contributors(faults) + faults);
    var offered := Without(eligible, SetOf(unoffered));
    WithoutKeeps(eligible, SetOf(unoffered));
    WithoutSize(eligible, SetOf(unoffered));
    SetOfDistinct(unoffered);
    FirstStays(eligible, SetOf(unoffered));
    selected := offered[..Contributors(faults)];
    assert forall position | position in selected :: position in offered;
    assert selected[0] == 0;
    WithoutAscends(eligible, SetOf(unoffered));
    PrefixTakesTheSmallest(offered, Contributors(faults));
  }

  predicate Ascending(xs: seq<nat>) {
    forall i, j | 0 <= i < j < |xs| :: xs[i] < xs[j]
  }

  lemma {:induction false} WithoutAscends(xs: seq<nat>, taken: set<nat>)
    requires Ascending(xs)
    ensures Ascending(Without(xs, taken))
  {
    if xs != [] {
      var front, last := xs[..|xs| - 1], xs[|xs| - 1];
      WithoutAscends(front, taken);
      WithoutKeeps(front, taken);
      var kept := Without(front, taken);
      forall i | 0 <= i < |kept| ensures kept[i] < last {
        assert kept[i] in front;
      }
    }
  }

  lemma PrefixTakesTheSmallest(xs: seq<nat>, n: nat)
    requires Ascending(xs) && n <= |xs|
    ensures forall p, q | p < q && q in xs[..n] && p in xs :: p in xs[..n]
  {
    forall p, q | p < q && q in xs[..n] && p in xs ensures p in xs[..n] {
      var i :| 0 <= i < |xs| && xs[i] == p;
      var j :| 0 <= j < n && xs[j] == q;
      assert i < n && xs[..n][i] == p;
    }
  }

  lemma {:induction false} FirstStays(xs: seq<nat>, taken: set<nat>)
    requires xs != [] && xs[0] !in taken
    ensures Without(xs, taken) != [] && Without(xs, taken)[0] == xs[0]
  {
    if |xs| > 1 {
      FirstStays(xs[..|xs| - 1], taken);
    } else {
      assert Without(xs[..0], taken) == [];
    }
  }

  /** While at most as many positions were claimed as departures passed, one of these remains. */
  lemma SomeRemain(candidates: seq<nat>, fixed: set<nat>, claimed: set<nat>)
    requires Distinct(candidates) && |claimed| < |candidates|
    requires forall x | x in candidates :: x !in fixed
    ensures Without(candidates, fixed + claimed) != []
    ensures forall x | x in Without(candidates, fixed + claimed) :: x in candidates && x !in fixed && x !in claimed
  {
    WithoutSize(candidates, claimed);
    WithoutKeeps(candidates, claimed);
    WithoutKeeps(candidates, fixed + claimed);
    var x := Without(candidates, claimed)[0];
    assert x in Without(candidates, claimed);
    assert x in Without(candidates, fixed + claimed);
  }

  /** Passed over in the selection because of leaving before its offer. */
  predicate LeftBeforeOffering(departures: seq<Departure>, position: nat) {
    exists i | 0 <= i < |departures| ::
      departures[i].position == position && LeavesBeforeOffer(departures[i].boundary)
  }

  /** The departure that takes the m-th position that never offers. */
  lemma {:induction false} WhoLeaves(boundaries: seq<Boundary>, m: nat) returns (i: nat)
    requires m < Leaving(boundaries)
    ensures i < |boundaries| && LeavesBeforeOffer(boundaries[i]) && Leaving(boundaries[..i]) == m
  {
    var n := |boundaries| - 1;
    if m < Leaving(boundaries[..n]) {
      i := WhoLeaves(boundaries[..n], m);
      assert boundaries[..n][..i] == boundaries[..i];
    } else {
      i := n;
    }
  }

  /** What a schedule promises of a cohort that tolerates this many departures. */
  ghost predicate Schedules(schedule: Schedule, participants: nat, faults: nat)
    requires 1 <= faults <= |BOUNDARIES|
  {
    var departures, selected := schedule.departures, schedule.selected;
    && SelectedFirst(selected, participants, faults)
    && |departures| == faults
    && (forall i | 0 <= i < faults :: departures[i].boundary == Spread(faults)[i])
    && Distinct(PositionsOf(departures))
    && (forall i | 0 <= i < faults :: Fits(departures[i], selected, participants, faults))
    && forall p: nat, q | p < q && q in selected && p !in selected :: LeftBeforeOffering(departures, p)
  }

  lemma UnofferedLeft(cohort: Cohort, boundaries: seq<Boundary>, departures: seq<Departure>, position: nat)
    requires cohort.unoffered == Unoffered(Leaving(boundaries)) && position in cohort.unoffered
    requires |departures| == |boundaries| && AllFit(departures, boundaries, cohort)
    ensures LeftBeforeOffering(departures, position)
  {
    var m :| 0 <= m < |cohort.unoffered| && cohort.unoffered[m] == position;
    var i := WhoLeaves(boundaries, m);
    assert departures[i].position == position;
  }

  /** Who is selected, for every number of departures. */
  function AllSelected(faults: nat): seq<nat> {
    match faults
    case 1 => [0, 1]
    case 2 => [0, 1, 3]
    case 3 => [0, 1, 3, 4]
    case 4 => [0, 1, 3, 4, 5]
    case 5 => [0, 1, 3, 5, 6, 7]
    case _ => [0, 1, 3, 5, 6, 7, 8]
  }

  /** Who leaves when, for every number of departures. */
  function AllDepartures(participants: nat, faults: nat): seq<Departure>
    requires participants > 0
  {
    var confirmation, offer := Departure(BeforeConfirmation, 2), Departure(BeforeOffer, 4);
    var setup := Departure(BeforeSetupVerification, 2 * faults + 1);
    var close := Departure(BeforeCloseResponse, participants - 1);
    match faults
    case 1 => [Departure(BeforeTargetVote, 1)]
    case 2 => [confirmation, Departure(BeforeTargetVote, 3)]
    case 3 => [confirmation, setup, Departure(BeforeTargetVote, 4)]
    case 4 => [confirmation, Departure(BeforeSelection, 4), setup, Departure(BeforeTargetVote, 5)]
    case 5 => [confirmation, offer, setup, close, Departure(BeforeTargetVote, 7)]
    case _ => [confirmation, offer, Departure(BeforeSelection, 6), setup, close, Departure(BeforeTargetVote, 8)]
  }

  lemma WithoutTwo(m: nat)
    requires m >= 3
    ensures Without(Positions(0, m), {2}) == [0, 1] + Positions(3, m - 3)
  {
    WithoutKeeps(Positions(0, m), {2});
    WithoutAscends(Positions(0, m), {2});
    AscendingUnique(Without(Positions(0, m), {2}), [0, 1] + Positions(3, m - 3));
  }

  lemma WithoutTwoAndFour(m: nat)
    requires m >= 5
    ensures Without(Positions(0, m), {2, 4}) == [0, 1, 3] + Positions(5, m - 5)
  {
    WithoutKeeps(Positions(0, m), {2, 4});
    WithoutAscends(Positions(0, m), {2, 4});
    AscendingUnique(Without(Positions(0, m), {2, 4}), [0, 1, 3] + Positions(5, m - 5));
  }

  lemma UnofferedIs(count: nat)
    requires count <= 2
    ensures SetOf(Unoffered(count)) == if count == 0 then {} else if count == 1 then {2} else {2, 4}
  {
    var unoffered := Unoffered(count);
    if count > 0 {
      assert unoffered[0] == 2 && unoffered[0] in unoffered;
    }
    if count > 1 {
      assert unoffered[1] == 4 && unoffered[1] in unoffered;
    }
  }

  lemma LeavingIs(faults: nat)
    requires 1 <= faults <= 6
    ensures Leaving(Spread(faults)) == if faults == 1 then 0 else if faults <= 4 then 1 else 2
    ensures faults >= 2 ==> Leaving(Spread(faults)[..0]) == 0
    ensures faults >= 5 ==> Leaving(Spread(faults)[..1]) == 1
  {
    SpreadIs(faults);
    LeavingCounts(Spread(faults), if faults == 1 then 0 else if faults <= 4 then 1 else 2);
  }

  lemma LeavingCounts(boundaries: seq<Boundary>, n: nat)
    requires n <= 2 && n <= |boundaries|
    requires forall k | 0 <= k < |boundaries| :: LeavesBeforeOffer(boundaries[k]) <==> k < n
    ensures Leaving(boundaries) == n && Leaving(boundaries[..0]) == 0 && (n == 2 ==> Leaving(boundaries[..1]) == 1)
  {
    LeavingStops(boundaries, n);
    if n > 0 {
      LeavingSteps(boundaries, 0);
    }
    if n > 1 {
      LeavingSteps(boundaries, 1);
    }
  }

  lemma {:induction false} LeavingStops(boundaries: seq<Boundary>, i: nat)
    requires i <= |boundaries| && forall k | i <= k < |boundaries| :: !LeavesBeforeOffer(boundaries[k])
    ensures Leaving(boundaries) == Leaving(boundaries[..i])
  {
    if i < |boundaries| {
      LeavingStops(boundaries[..|boundaries| - 1], i);
      assert boundaries[..|boundaries| - 1][..i] == boundaries[..i];
    } else {
      assert boundaries[..i] == boundaries;
    }
  }

  lemma SelectedIs(faults: nat)
    requires 1 <= faults <= 6
    ensures TheSelected(faults, SetOf(Unoffered(Leaving(Spread(faults))))) == AllSelected(faults)
  {
    LeavingIs(faults);
    UnofferedIs(Leaving(Spread(faults)));
    SelectedWithout(faults, SetOf(Unoffered(Leaving(Spread(faults)))));
  }

  lemma SelectedWithout(faults: nat, unoffered: set<nat>)
    requires 1 <= faults <= 6
    requires unoffered == if faults == 1 then {} else if faults <= 4 then {2} else {2, 4}
    ensures TheSelected(faults, unoffered) == AllSelected(faults)
  {
    var m := 2 * faults + 1;
    if faults == 1 {
      WithoutNothing(Positions(0, m), {});
      FirstSelected(1, {}, [], Positions(0, m));
    } else if faults <= 4 {
      WithoutTwo(m);
      FirstSelected(faults, {2}, [0, 1], Positions(3, m - 3));
    } else {
      WithoutTwoAndFour(m);
      FirstSelected(faults, {2, 4}, [0, 1, 3], Positions(5, m - 5));
    }
  }

  lemma FirstSelected(faults: nat, unoffered: set<nat>, first: seq<nat>, rest: seq<nat>)
    requires 1 <= faults <= 6 && |AllSelected(faults)| <= |first| + |rest|
    requires Without(Positions(0, 2 * faults + 1), unoffered) == first + rest
    requires |first| <= |AllSelected(faults)|
    requires forall k | 0 <= k < |first| :: AllSelected(faults)[k] == first[k]
    requires forall k | |first| <= k < |AllSelected(faults)| :: AllSelected(faults)[k] == rest[k - |first|]
    ensures TheSelected(faults, unoffered) == AllSelected(faults)
  {
    ListedFrom(first, rest, AllSelected(faults));
  }

  lemma ListedFrom(first: seq<nat>, rest: seq<nat>, ys: seq<nat>)
    requires |first| <= |ys| <= |first| + |rest| && forall k | 0 <= k < |first| :: ys[k] == first[k]
    requires forall k | |first| <= k < |ys| :: ys[k] == rest[k - |first|]
    ensures (first + rest)[..|ys|] == ys
  {
  }

  /** The departures' positions, once the authors and the later positions are known. */
  lemma DeparturesAreNamed(
      faults: nat, participants: nat, departures: seq<Departure>, authors: seq<nat>, later: seq<nat>)
    requires 1 <= faults <= 6 && |departures| == faults && participants > 0
    requires authors == AllSelected(faults)[1..] && later != []
    requires later[0] == 2 * faults + 1 && later[|later| - 1] == participants - 1
    requires forall k | 0 <= k < faults :: departures[k].boundary == Spread(faults)[k]
    requires forall k | 0 <= k < faults && LeavesBeforeOffer(Spread(faults)[k]) :: departures[k].position == 2 + 2 * k
    requires forall k | 0 <= k < faults && !LeavesBeforeOffer(Spread(faults)[k]) ::
               departures[k].position == Chosen(authors, later, Spread(faults)[k])
    ensures departures == AllDepartures(participants, faults)
  {
    var named := AllDepartures(participants, faults);
    assert |named| == faults;
    forall k | 0 <= k < faults ensures departures[k] == named[k] {
      DepartureIsNamed(faults, participants, departures[k], authors, later, k);
    }
  }

  lemma DepartureIsNamed(
      faults: nat, participants: nat, departure: Departure, authors: seq<nat>, later: seq<nat>, k: nat)
    requires 1 <= faults <= 6 && k < faults && participants > 0 && |AllDepartures(participants, faults)| == faults
    requires authors == AllSelected(faults)[1..] && later != []
    requires later[0] == 2 * faults + 1 && later[|later| - 1] == participants - 1
    requires departure.boundary == Spread(faults)[k]
    requires departure.position ==
             if LeavesBeforeOffer(Spread(faults)[k]) then 2 + 2 * k else Chosen(authors, later, Spread(faults)[k])
    ensures departure == AllDepartures(participants, faults)[k]
  {
    SpreadIs(faults);
    ChosenFor(faults, participants, authors, later);
  }

  lemma ChosenFor(faults: nat, participants: nat, authors: seq<nat>, later: seq<nat>)
    requires 1 <= faults <= 6 && participants > 0 && authors == AllSelected(faults)[1..] && later != []
    requires later[0] == 2 * faults + 1 && later[|later| - 1] == participants - 1
    ensures Chosen(authors, later, BeforeSetupVerification) == 2 * faults + 1
    ensures Chosen(authors, later, BeforeCloseResponse) == participants - 1
    ensures faults == 4 ==> Chosen(authors, later, BeforeSelection) == 4
    ensures faults == 6 ==> Chosen(authors, later, BeforeSelection) == 6
    ensures Chosen(authors, later, BeforeTargetVote) ==
            if faults == 1 then 1 else if faults == 2 then 3 else if faults <= 4 then faults + 1 else faults + 2
  {
  }

  lemma DeparturesAre(cohort: Cohort, departures: seq<Departure>)
    requires cohort.Valid() && cohort.faults <= 6 && Ascending(cohort.selected)
    requires cohort.selected == TheSelected(cohort.faults, SetOf(Unoffered(Leaving(Spread(cohort.faults)))))
    requires |departures| == cohort.faults && AllFit(departures, Spread(cohort.faults), cohort)
    requires cohort.Authors() != [] && cohort.Later() != []
    requires forall k | 0 <= k < |departures| && !LeavesBeforeOffer(Spread(cohort.faults)[k]) ::
               departures[k].position == Chosen(cohort.Authors(), cohort.Later(), Spread(cohort.faults)[k])
    ensures departures == AllDepartures(cohort.participants, cohort.faults)
  {
    SelectedIs(cohort.faults);
    AuthorsAreTheRest(cohort);
    LeavingAtTheFront(cohort.faults);
    DeparturesAreNamed(cohort.faults, cohort.participants, departures, cohort.Authors(), cohort.Later());
  }

  lemma LeavingAtTheFront(faults: nat)
    requires 1 <= faults <= 6
    ensures forall k | 0 <= k < faults && LeavesBeforeOffer(Spread(faults)[k]) :: Leaving(Spread(faults)[..k]) == k
  {
    SpreadIs(faults);
    LeavingIs(faults);
  }

  /**
   The schedule, for every number of tolerated departures and every cohort large enough for it: it
   fails only where there is no departure to schedule, or more than there are boundaries.
   */
  method ScheduleParticipantDepartures(participants: nat, faults: nat) returns (schedule: Result<Schedule>)
    requires 3 * faults + 1 <= participants
    ensures schedule.Ok? <==> 1 <= faults <= 6
    ensures schedule.Ok? ==> Schedules(schedule.value, participants, faults)
    ensures schedule.Ok? ==> schedule.value.selected == AllSelected(faults)
    ensures schedule.Ok? ==> schedule.value.departures == AllDepartures(participants, faults)
  {
    if !(1 <= faults <= |BOUNDARIES|) {
      return Error;
    }
    var boundaries := Spread(faults);
    var unoffered := Unoffered(Leaving(boundaries));
    LeavingFits(boundaries, faults);
    assert boundaries[..faults] == boundaries;
    var selected := SelectedPositions(participants, faults, unoffered);
    UnofferedFits(boundaries, faults, unoffered);
    var cohort := Cohort(participants, faults, selected, unoffered);
    CohortChoices(cohort);
    SpreadIsScheduled(faults);
    var departures := Depart(cohort, boundaries, cohort.Authors(), cohort.Later());
    SelectedIs(faults);
    DeparturesAre(cohort, departures);
    forall p: nat, q | p < q && q in selected && p !in selected ensures LeftBeforeOffering(departures, p) {
      UnofferedLeft(cohort, boundaries, departures, p);
    }
    schedule := Ok(Schedule(departures, selected));
  }

  /** The schedule of a cohort that tolerates as many departures as its profile says. */
  method ScheduleProfile(participants: nat) returns (schedule: Result<Schedule>)
    ensures schedule.Ok? <==> 4 <= participants <= 21
    ensures schedule.Ok? ==> Schedules(schedule.value, participants, Faults(participants))
  {
    if participants == 0 {
      return Error;
    }
    schedule := ScheduleParticipantDepartures(participants, Faults(participants));
  }

  /** The positions a schedule of this cohort draws on. */
  datatype Cohort = Cohort(participants: nat, faults: nat, selected: seq<nat>, unoffered: seq<nat>) {
    ghost predicate Valid() {
      && faults >= 1 && 3 * faults + 1 <= participants
      && SelectedFirst(selected, participants, faults)
      && Distinct(unoffered)
      && forall position | position in unoffered ::
           position !in selected && 1 <= position < Contributors(faults) + faults
    }

    function Eligible(): nat {
      Contributors(faults) + faults
    }

    function Authors(): seq<nat> {
      Without(selected, {0})
    }

    function Later(): seq<nat> {
      if Eligible() <= participants then Positions(Eligible(), participants - Eligible()) else []
    }

    function Unselected(): seq<nat> {
      Without(Positions(0, Eligible()), {0} + SetOf(unoffered) + SetOf(selected))
    }

    function Fixed(): set<nat> {
      {0} + SetOf(unoffered)
    }
  }

  /** Before the last departure somebody remains to be claimed, of either kind. */
  lemma SomebodyRemains(cohort: Cohort, claimed: set<nat>)
    requires cohort.Valid() && |claimed| < cohort.faults
    ensures Without(cohort.Authors(), cohort.Fixed() + claimed) != []
    ensures Without(cohort.Later(), cohort.Fixed() + claimed) != []
  {
    WithoutKeeps(cohort.selected, {0});
    WithoutSize(cohort.selected, {0});
    SomeRemain(cohort.Authors(), cohort.Fixed(), claimed);
    SomeRemain(cohort.Later(), cohort.Fixed(), claimed);
  }

  lemma AuthorsFit(cohort: Cohort, used: set<nat>, position: nat)
    requires cohort.Valid() && position in Without(cohort.Authors(), used)
    ensures position != 0 && position in cohort.selected && position !in used
  {
    WithoutKeeps(cohort.selected, {0});
    WithoutKeeps(cohort.Authors(), used);
  }

  lemma LaterFit(cohort: Cohort, used: set<nat>, position: nat)
    requires cohort.Valid() && position in Without(cohort.Later(), used)
    ensures position != 0 && position !in cohort.selected && position < cohort.participants && position !in used
  {
    WithoutKeeps(cohort.Later(), used);
  }

  /** The one among the free authors or the free others that leaves at a boundary. */
  function Pick(authors: seq<nat>, others: seq<nat>, boundary: Boundary): nat
    requires authors != [] && others != []
  {
    if boundary == BeforeSelection then authors[|authors| / 2]
    else if boundary == BeforeTargetVote then authors[|authors| - 1]
    else if boundary == BeforeSetupVerification then others[0]
    else others[|others| - 1]
  }

  /** The position that leaves at a boundary after the offers. */
  method Claim(cohort: Cohort, boundary: Boundary, used: set<nat>, ghost claimed: set<nat>) returns (position: nat)
    requires cohort.Valid() && !LeavesBeforeOffer(boundary)
    requires used == cohort.Fixed() + claimed && |claimed| < cohort.faults
    ensures Without(cohort.Authors(), used) != [] && Without(cohort.Later(), used) != []
    ensures position == Pick(Without(cohort.Authors(), used), Without(cohort.Later(), used), boundary)
    ensures Fits(Departure(boundary, position), cohort.selected, cohort.participants, cohort.faults)
    ensures position !in used
  {
    SomebodyRemains(cohort, claimed);
    var authors, later := Without(cohort.Authors(), used), Without(cohort.Later(), used);
    var others := if later != [] then later else Without(cohort.Unselected(), used);
    position := Pick(authors, others, boundary);
    if boundary == BeforeSelection || boundary == BeforeTargetVote {
      AuthorsFit(cohort, used, position);
    } else {
      LaterFit(cohort, used, position);
    }
  }

  /** Everybody who left so far was claimed or is among those who never offer. */
  predicate Accounted(departures: seq<Departure>, claimed: set<nat>, unoffered: seq<nat>) {
    && Distinct(PositionsOf(departures))
    && forall k | 0 <= k < |departures| :: departures[k].position in claimed || departures[k].position in unoffered
  }

  lemma ClaimIsAccounted(departures: seq<Departure>, claimed: set<nat>, unoffered: seq<nat>, departure: Departure)
    requires Accounted(departures, claimed, unoffered)
    requires departure.position !in claimed && departure.position !in unoffered
    ensures Accounted(departures + [departure], claimed + {departure.position}, unoffered)
  {
    assert PositionsOf(departures + [departure]) == PositionsOf(departures) + [departure.position];
  }

  lemma UnofferedIsAccounted(departures: seq<Departure>, claimed: set<nat>, unoffered: seq<nat>, departure: Departure)
    requires Accounted(departures, claimed, unoffered)
    requires departure.position !in claimed && departure.position !in unoffered
    ensures Accounted(departures + [departure], claimed, unoffered + [departure.position])
  {
    assert PositionsOf(departures + [departure]) == PositionsOf(departures) + [departure.position];
  }

  /** The positions that never offer lie among the eligible ones. */
  lemma UnofferedFits(boundaries: seq<Boundary>, faults: nat, unoffered: seq<nat>)
    requires |boundaries| == faults && unoffered == Unoffered(Leaving(boundaries))
    ensures forall position | position in unoffered :: 1 <= position < Contributors(faults) + faults
  {
    LeavingFits(boundaries, faults);
    assert boundaries[..faults] == boundaries;
  }

  predicate AllFit(departures: seq<Departure>, boundaries: seq<Boundary>, cohort: Cohort) {
    && |departures| <= |boundaries|
    && forall k | 0 <= k < |departures| ::
         && departures[k].boundary == boundaries[k]
         && Fits(departures[k], cohort.selected, cohort.participants, cohort.faults)
         && (LeavesBeforeOffer(boundaries[k]) ==> departures[k].position == 2 + 2 * Leaving(boundaries[..k]))
  }

  lemma AllFitGrows(departures: seq<Departure>, boundaries: seq<Boundary>, cohort: Cohort, departure: Departure)
    requires AllFit(departures, boundaries, cohort) && |departures| < |boundaries|
    requires departure.boundary == boundaries[|departures|]
    requires Fits(departure, cohort.selected, cohort.participants, cohort.faults)
    requires LeavesBeforeOffer(departure.boundary) ==>
               departure.position == 2 + 2 * Leaving(boundaries[..|departures|])
    ensures AllFit(departures + [departure], boundaries, cohort)
  {
  }

  lemma NextIsNew(cohort: Cohort, next: nat, claimed: set<nat>)
    requires cohort.Valid() && next < |cohort.unoffered| && claimed !! cohort.Fixed()
    ensures cohort.unoffered[next] !in claimed && cohort.unoffered[next] !in cohort.unoffered[..next]
  {
    assert cohort.unoffered[next] in cohort.Fixed();
  }

  // ----- Who exactly leaves -----

  /** The boundaries in stage order. */
  function Rank(boundary: Boundary): nat {
    match boundary
    case BeforeConfirmation => 0
    case BeforeOffer => 1
    case BeforeSelection => 2
    case BeforeSetupVerification => 3
    case BeforeCloseResponse => 4
    case BeforeTargetVote => 5
  }

  predicate InStageOrder(boundaries: seq<Boundary>) {
    forall i, j | 0 <= i < j < |boundaries| :: Rank(boundaries[i]) < Rank(boundaries[j])
  }

  /** The position that leaves at a boundary after the offers. */
  function Chosen(authors: seq<nat>, later: seq<nat>, boundary: Boundary): nat
    requires authors != [] && later != []
  {
    match boundary
    case BeforeSelection => authors[|authors| / 2]
    case BeforeTargetVote => authors[|authors| - 1]
    case BeforeCloseResponse => later[|later| - 1]
    case _ => later[0]
  }

  lemma {:induction false} WithoutNothing(xs: seq<nat>, taken: set<nat>)
    requires forall x | x in xs :: x !in taken
    ensures Without(xs, taken) == xs
  {
    if xs != [] {
      assert xs == xs[..|xs| - 1] + [xs[|xs| - 1]];
      WithoutNothing(xs[..|xs| - 1], taken);
    }
  }

  lemma {:induction false} AscendingUnique(xs: seq<nat>, ys: seq<nat>)
    requires Ascending(xs) && Ascending(ys) && forall x :: x in xs <==> x in ys
    ensures xs == ys
  {
    if xs != [] {
      var x := xs[|xs| - 1];
      assert x in ys;
      LastIsGreatest(xs);
      LastIsGreatest(ys);
      assert ys[|ys| - 1] in ys && ys[|ys| - 1] == x;
      var front, before := xs[..|xs| - 1], ys[..|ys| - 1];
      AscendingUnique(front, before);
      assert xs == front + [x] && ys == before + [x];
    } else {
      HasItsFirst(ys);
    }
  }

  lemma LastIsGreatest(xs: seq<nat>)
    requires Ascending(xs) && xs != []
    ensures var front, last := xs[..|xs| - 1], xs[|xs| - 1];
            && last in xs && (forall x | x in xs :: x <= last)
            && Ascending(front) && forall x :: x in front <==> x in xs && x != last
  {
  }

  lemma HasItsFirst(xs: seq<nat>)
    ensures xs != [] ==> xs[0] in xs
  {
  }

  /** The authors are the selected ones after the organizer, in their order. */
  lemma AuthorsAreTheRest(cohort: Cohort)
    requires cohort.Valid() && Ascending(cohort.selected)
    ensures cohort.Authors() == cohort.selected[1..] && |cohort.Authors()| == cohort.faults
    ensures cohort.Later() == Positions(2 * cohort.faults + 1, cohort.participants - (2 * cohort.faults + 1))
    ensures cohort.Authors() != [] && cohort.Later() != []
  {
    var selected := cohort.selected;
    var zero :| 0 <= zero < |selected| && selected[zero] == 0;
    assert selected[0] == 0;
    WithoutAscends(selected, {0});
    WithoutKeeps(selected, {0});
    FirstIsLeast(selected);
    AscendingUnique(cohort.Authors(), selected[1..]);
  }

  lemma FirstIsLeast(xs: seq<nat>)
    requires Ascending(xs) && xs != []
    ensures Ascending(xs[1..]) && forall x :: x in xs[1..] <==> x in xs && x != xs[0]
  {
    assert xs == [xs[0]] + xs[1..];
  }

  /** Authors and later positions to choose from, enough of both and none of them fixed. */
  predicate Choices(authors: seq<nat>, later: seq<nat>, fixed: set<nat>, faults: nat) {
    && |authors| == faults <= |later| && faults >= 1 && Ascending(authors) && Ascending(later)
    && (forall x | x in authors :: x !in later && x !in fixed)
    && (forall x | x in later :: x !in fixed)
  }

  /** Who was claimed before a boundary: as chosen, at an earlier one. */
  ghost predicate ClaimedEarlier(authors: seq<nat>, later: seq<nat>, boundary: Boundary, claimed: set<nat>)
    requires authors != [] && later != []
  {
    forall x | x in claimed ::
      exists earlier ::
        Rank(earlier) < Rank(boundary) && !LeavesBeforeOffer(earlier) && x == Chosen(authors, later, earlier)
  }

  lemma ChosenOfTheirs(authors: seq<nat>, later: seq<nat>, boundary: Boundary)
    requires authors != [] && later != [] && !LeavesBeforeOffer(boundary)
    ensures boundary == BeforeSelection || boundary == BeforeTargetVote ==> Chosen(authors, later, boundary) in authors
    ensures boundary == BeforeSetupVerification || boundary == BeforeCloseResponse ==>
              Chosen(authors, later, boundary) in later
  {
  }

  /** At the selection nobody was claimed yet. */
  lemma AuthorsAreFree(authors: seq<nat>, later: seq<nat>, fixed: set<nat>, faults: nat, claimed: set<nat>)
    requires Choices(authors, later, fixed, faults) && ClaimedEarlier(authors, later, BeforeSelection, claimed)
    ensures Without(authors, fixed + claimed) == authors
  {
    assert forall x :: x !in claimed;
    WithoutNothing(authors, fixed + claimed);
  }

  /** Before the setup's verification only an author was claimed. */
  lemma LaterAreFree(authors: seq<nat>, later: seq<nat>, fixed: set<nat>, faults: nat, claimed: set<nat>)
    requires Choices(authors, later, fixed, faults) && ClaimedEarlier(authors, later, BeforeSetupVerification, claimed)
    ensures Without(later, fixed + claimed) == later
  {
    forall x | x in claimed ensures x in authors {
      var earlier :| Rank(earlier) < 3 && !LeavesBeforeOffer(earlier) && x == Chosen(authors, later, earlier);
      ChosenOfTheirs(authors, later, earlier);
    }
    WithoutNothing(later, fixed + claimed);
  }

  lemma LastStays(xs: seq<nat>, taken: set<nat>)
    requires xs != [] && xs[|xs| - 1] !in taken
    ensures Without(xs, taken) != [] && Without(xs, taken)[|Without(xs, taken)| - 1] == xs[|xs| - 1]
  {
  }

  lemma LastLaterIsFree(authors: seq<nat>, later: seq<nat>, fixed: set<nat>, faults: nat, claimed: set<nat>)
    requires Choices(authors, later, fixed, faults) && ClaimedEarlier(authors, later, BeforeCloseResponse, claimed)
    requires |claimed| < faults
    ensures later[|later| - 1] !in fixed + claimed
  {
    var last := later[|later| - 1];
    assert last in later;
    forall x | x in claimed ensures x != last {
      var earlier :| Rank(earlier) < 4 && !LeavesBeforeOffer(earlier) && x == Chosen(authors, later, earlier);
      ChosenOfTheirs(authors, later, earlier);
      assert claimed == {x} + (claimed - {x}) && |claimed| >= 1;
    }
  }

  lemma LastAuthorIsFree(authors: seq<nat>, later: seq<nat>, fixed: set<nat>, faults: nat, claimed: set<nat>)
    requires Choices(authors, later, fixed, faults) && ClaimedEarlier(authors, later, BeforeTargetVote, claimed)
    requires Chosen(authors, later, BeforeSelection) in claimed ==> faults >= 3
    ensures authors[|authors| - 1] !in fixed + claimed
  {
    var last := authors[|authors| - 1];
    assert last in authors;
    forall x | x in claimed ensures x != last {
      var earlier :| Rank(earlier) < 5 && !LeavesBeforeOffer(earlier) && x == Chosen(authors, later, earlier);
      ChosenOfTheirs(authors, later, earlier);
    }
  }

  /** Nobody claimed earlier stands in the way of the one to be chosen. */
  lemma ChosenIsPicked(
      authors: seq<nat>, later: seq<nat>, fixed: set<nat>, faults: nat, claimed: set<nat>, boundary: Boundary)
    requires Choices(authors, later, fixed, faults) && !LeavesBeforeOffer(boundary) && |claimed| < faults
    requires ClaimedEarlier(authors, later, boundary, claimed)
    requires boundary == BeforeTargetVote && Chosen(authors, later, BeforeSelection) in claimed ==> faults >= 3
    requires Without(authors, fixed + claimed) != [] && Without(later, fixed + claimed) != []
    ensures Pick(Without(authors, fixed + claimed), Without(later, fixed + claimed), boundary)
         == Chosen(authors, later, boundary)
  {
    match boundary
    case BeforeSelection => AuthorsAreFree(authors, later, fixed, faults, claimed);
    case BeforeSetupVerification => LaterAreFree(authors, later, fixed, faults, claimed);
    case BeforeCloseResponse =>
      LastLaterIsFree(authors, later, fixed, faults, claimed);
      LastStays(later, fixed + claimed);
    case BeforeTargetVote =>
      LastAuthorIsFree(authors, later, fixed, faults, claimed);
      LastStays(authors, fixed + claimed);
  }

  lemma CohortChoices(cohort: Cohort)
    requires cohort.Valid() && Ascending(cohort.selected)
    ensures Choices(cohort.Authors(), cohort.Later(), cohort.Fixed(), cohort.faults)
  {
    AuthorsAreTheRest(cohort);
    WithoutKeeps(cohort.selected, {0});
    WithoutAscends(cohort.selected, {0});
  }

  /** The boundaries of every number of departures. */
  lemma SpreadIs(faults: nat)
    requires 1 <= faults <= |BOUNDARIES|
    ensures Spread(faults) ==
            match faults
            case 1 => [BeforeTargetVote]
            case 2 => [BeforeConfirmation, BeforeTargetVote]
            case 3 => [BeforeConfirmation, BeforeSetupVerification, BeforeTargetVote]
            case 4 => [BeforeConfirmation, BeforeSelection, BeforeSetupVerification, BeforeTargetVote]
            case 5 => [BeforeConfirmation, BeforeOffer, BeforeSetupVerification, BeforeCloseResponse, BeforeTargetVote]
            case _ => [BeforeConfirmation, BeforeOffer, BeforeSelection,
                       BeforeSetupVerification, BeforeCloseResponse, BeforeTargetVote]
  {
  }

  lemma SpreadIsScheduled(faults: nat)
    requires 1 <= faults <= |BOUNDARIES|
    ensures Scheduled(Spread(faults))
  {
    SpreadAscends(faults);
    SpreadHoldsSelection(faults);
  }

  lemma SpreadAscends(faults: nat)
    requires 1 <= faults <= |BOUNDARIES|
    ensures InStageOrder(Spread(faults))
  {
    forall i, j | 0 <= i < j < faults ensures Rank(Spread(faults)[i]) < Rank(Spread(faults)[j]) {
      BoundariesIncrease(faults, i, j);
    }
  }

  lemma SpreadHoldsSelection(faults: nat)
    requires 1 <= faults <= |BOUNDARIES|
    ensures BeforeSelection in Spread(faults) ==> faults >= 3
  {
    SpreadIs(faults);
  }

  /** How far a schedule has come: who left, who was claimed and how many leave without an offer. */
  ghost predicate Progress(
      cohort: Cohort, boundaries: seq<Boundary>, departures: seq<Departure>, claimed: set<nat>, next: nat)
  {
    && |departures| <= |boundaries| == cohort.faults && cohort.unoffered == Unoffered(Leaving(boundaries))
    && next == Leaving(boundaries[..|departures|]) <= |cohort.unoffered|
    && claimed !! cohort.Fixed() && |claimed| + next == |departures|
    && Accounted(departures, claimed, cohort.unoffered[..next])
    && AllFit(departures, boundaries, cohort)
  }

  lemma UnofferedProgress(
      cohort: Cohort, boundaries: seq<Boundary>, departures: seq<Departure>, claimed: set<nat>, next: nat)
    requires cohort.Valid() && Progress(cohort, boundaries, departures, claimed, next)
    requires |departures| < |boundaries| && LeavesBeforeOffer(boundaries[|departures|])
    ensures next < |cohort.unoffered|
    ensures Progress(cohort, boundaries,
              departures + [Departure(boundaries[|departures|], cohort.unoffered[next])], claimed, next + 1)
  {
    var i, unoffered := |departures|, cohort.unoffered;
    LeavingSteps(boundaries, i);
    NextIsNew(cohort, next, claimed);
    UnofferedIsAccounted(departures, claimed, unoffered[..next], Departure(boundaries[i], unoffered[next]));
    assert unoffered[..next + 1] == unoffered[..next] + [unoffered[next]];
    assert unoffered[next] in unoffered;
    AllFitGrows(departures, boundaries, cohort, Departure(boundaries[i], unoffered[next]));
  }

  lemma ClaimProgress(
      cohort: Cohort, boundaries: seq<Boundary>, departures: seq<Departure>, claimed: set<nat>, next: nat,
      position: nat)
    requires cohort.Valid() && Progress(cohort, boundaries, departures, claimed, next)
    requires |departures| < |boundaries| && !LeavesBeforeOffer(boundaries[|departures|])
    requires Fits(Departure(boundaries[|departures|], position), cohort.selected, cohort.participants, cohort.faults)
    requires position !in cohort.Fixed() + claimed
    ensures Progress(cohort, boundaries,
              departures + [Departure(boundaries[|departures|], position)], claimed + {position}, next)
  {
    LeavingSteps(boundaries, |departures|);
    assert position !in cohort.unoffered[..next];
    ClaimIsAccounted(departures, claimed, cohort.unoffered[..next], Departure(boundaries[|departures|], position));
    AllFitGrows(departures, boundaries, cohort, Departure(boundaries[|departures|], position));
  }

  lemma LeavingSteps(boundaries: seq<Boundary>, i: nat)
    requires i < |boundaries|
    ensures Leaving(boundaries[..i + 1]) == Leaving(boundaries[..i]) + if LeavesBeforeOffer(boundaries[i]) then 1 else 0
    ensures Leaving(boundaries[..i + 1]) <= Leaving(boundaries)
  {
    assert boundaries[..i + 1][..i] == boundaries[..i];
    LeavingFits(boundaries, i + 1);
  }

  /** Everybody claimed so far was the one chosen for the boundary. */
  ghost predicate AsChosen(
      authors: seq<nat>, later: seq<nat>, boundaries: seq<Boundary>, departures: seq<Departure>, claimed: set<nat>)
    requires authors != [] && later != []
  {
    && |departures| <= |boundaries|
    && (forall k | 0 <= k < |departures| && !LeavesBeforeOffer(boundaries[k]) ::
          departures[k].position == Chosen(authors, later, boundaries[k]))
    && (forall x | x in claimed ::
          exists k :: 0 <= k < |departures| && !LeavesBeforeOffer(boundaries[k])
                      && x == Chosen(authors, later, boundaries[k]))
  }

  /** What the boundaries must be for the choices to be as they are. */
  predicate Scheduled(boundaries: seq<Boundary>) {
    InStageOrder(boundaries) && (BeforeSelection in boundaries ==> |boundaries| >= 3)
  }

  lemma ClaimIsChosen(
      authors: seq<nat>, later: seq<nat>, fixed: set<nat>,
      boundaries: seq<Boundary>, departures: seq<Departure>, claimed: set<nat>)
    requires Choices(authors, later, fixed, |boundaries|) && Scheduled(boundaries)
    requires AsChosen(authors, later, boundaries, departures, claimed) && |departures| < |boundaries|
    requires |claimed| < |boundaries| && !LeavesBeforeOffer(boundaries[|departures|])
    requires Without(authors, fixed + claimed) != [] && Without(later, fixed + claimed) != []
    ensures Pick(Without(authors, fixed + claimed), Without(later, fixed + claimed), boundaries[|departures|])
         == Chosen(authors, later, boundaries[|departures|])
  {
    var boundary := boundaries[|departures|];
    forall x | x in claimed
      ensures exists earlier ::
                Rank(earlier) < Rank(boundary) && !LeavesBeforeOffer(earlier) && x == Chosen(authors, later, earlier)
    {
      var k :| 0 <= k < |departures| && !LeavesBeforeOffer(boundaries[k]) && x == Chosen(authors, later, boundaries[k]);
      assert Rank(boundaries[k]) < Rank(boundary);
    }
    if boundary == BeforeTargetVote && Chosen(authors, later, BeforeSelection) in claimed {
      SelectionWasClaimed(authors, later, fixed, boundaries, departures, claimed);
    }
    ChosenIsPicked(authors, later, fixed, |boundaries|, claimed, boundary);
  }

  /** If the author of the selection was claimed before the target vote, it was for the selection. */
  lemma SelectionWasClaimed(
      authors: seq<nat>, later: seq<nat>, fixed: set<nat>,
      boundaries: seq<Boundary>, departures: seq<Departure>, claimed: set<nat>)
    requires Choices(authors, later, fixed, |boundaries|) && Scheduled(boundaries)
    requires AsChosen(authors, later, boundaries, departures, claimed) && |departures| < |boundaries|
    requires boundaries[|departures|] == BeforeTargetVote && Chosen(authors, later, BeforeSelection) in claimed
    ensures |boundaries| >= 3
  {
    var k :| 0 <= k < |departures| && !LeavesBeforeOffer(boundaries[k])
             && Chosen(authors, later, BeforeSelection) == Chosen(authors, later, boundaries[k]);
    assert Rank(boundaries[k]) < Rank(boundaries[|departures|]);
    ChosenOfTheirs(authors, later, BeforeSelection);
    ChosenOfTheirs(authors, later, boundaries[k]);
  }

  lemma AsChosenGrows(
      authors: seq<nat>, later: seq<nat>, boundaries: seq<Boundary>, departures: seq<Departure>, claimed: set<nat>,
      departure: Departure)
    requires authors != [] && later != [] && |departures| < |boundaries|
    requires AsChosen(authors, later, boundaries, departures, claimed)
    ensures LeavesBeforeOffer(boundaries[|departures|]) ==>
              AsChosen(authors, later, boundaries, departures + [departure], claimed)
    ensures !LeavesBeforeOffer(boundaries[|departures|])
            && departure.position == Chosen(authors, later, boundaries[|departures|]) ==>
              AsChosen(authors, later, boundaries, departures + [departure], claimed + {departure.position})
  {
    var all := departures + [departure];
    assert all[|departures|] == departure;
  }

  /** A schedule on its way, with everybody chosen so far. */
  ghost predicate Underway(
      cohort: Cohort, authors: seq<nat>, later: seq<nat>, boundaries: seq<Boundary>,
      departures: seq<Departure>, claimed: set<nat>, next: nat)
  {
    && cohort.Valid() && Choices(authors, later, cohort.Fixed(), |boundaries|) && Scheduled(boundaries)
    && authors == cohort.Authors() && later == cohort.Later()
    && Progress(cohort, boundaries, departures, claimed, next)
    && AsChosen(authors, later, boundaries, departures, claimed)
  }

  lemma UnofferedUnderway(
      cohort: Cohort, authors: seq<nat>, later: seq<nat>, boundaries: seq<Boundary>,
      departures: seq<Departure>, claimed: set<nat>, next: nat)
    requires Underway(cohort, authors, later, boundaries, departures, claimed, next)
    requires |departures| < |boundaries| && LeavesBeforeOffer(boundaries[|departures|])
    ensures next < |cohort.unoffered|
    ensures Underway(cohort, authors, later, boundaries,
              departures + [Departure(boundaries[|departures|], cohort.unoffered[next])], claimed, next + 1)
  {
    UnofferedProgress(cohort, boundaries, departures, claimed, next);
    AsChosenGrows(authors, later, boundaries, departures, claimed,
                  Departure(boundaries[|departures|], cohort.unoffered[next]));
  }

  lemma ClaimUnderway(
      cohort: Cohort, authors: seq<nat>, later: seq<nat>, boundaries: seq<Boundary>,
      departures: seq<Departure>, claimed: set<nat>, next: nat, position: nat)
    requires Underway(cohort, authors, later, boundaries, departures, claimed, next)
    requires |departures| < |boundaries| && !LeavesBeforeOffer(boundaries[|departures|])
    requires Fits(Departure(boundaries[|departures|], position), cohort.selected, cohort.participants, cohort.faults)
    requires position !in cohort.Fixed() + claimed
    requires Without(authors, cohort.Fixed() + claimed) != [] && Without(later, cohort.Fixed() + claimed) != []
    requires position == Pick(Without(authors, cohort.Fixed() + claimed), Without(later, cohort.Fixed() + claimed),
                              boundaries[|departures|])
    ensures Underway(cohort, authors, later, boundaries,
              departures + [Departure(boundaries[|departures|], position)], claimed + {position}, next)
  {
    ClaimIsChosen(authors, later, cohort.Fixed(), boundaries, departures, claimed);
    ClaimProgress(cohort, boundaries, departures, claimed, next, position);
    AsChosenGrows(authors, later, boundaries, departures, claimed, Departure(boundaries[|departures|], position));
  }

  lemma UnderwayStarts(cohort: Cohort, authors: seq<nat>, later: seq<nat>, boundaries: seq<Boundary>)
    requires cohort.Valid() && |boundaries| == cohort.faults && cohort.unoffered == Unoffered(Leaving(boundaries))
    requires Scheduled(boundaries) && authors == cohort.Authors() && later == cohort.Later()
    requires Choices(authors, later, cohort.Fixed(), cohort.faults)
    ensures Underway(cohort, authors, later, boundaries, [], {}, 0)
  {
  }

  lemma UnderwayEnds(
      cohort: Cohort, authors: seq<nat>, later: seq<nat>, boundaries: seq<Boundary>,
      departures: seq<Departure>, claimed: set<nat>, next: nat)
    requires Underway(cohort, authors, later, boundaries, departures, claimed, next)
    ensures Distinct(PositionsOf(departures)) && AllFit(departures, boundaries, cohort)
    ensures forall k | 0 <= k < |departures| && !LeavesBeforeOffer(boundaries[k]) ::
              departures[k].position == Chosen(authors, later, boundaries[k])
  {
  }

  /** Who leaves at the next boundary: the next that never offers, or one claimed for it. */
  method DepartNext(
      cohort: Cohort, boundaries: seq<Boundary>, departures: seq<Departure>, used: set<nat>, next: nat,
      ghost authors: seq<nat>, ghost later: seq<nat>, ghost claimed: set<nat>)
      returns (departure: Departure, used': set<nat>, next': nat, ghost claimed': set<nat>)
    requires Underway(cohort, authors, later, boundaries, departures, claimed, next) && |departures| < |boundaries|
    requires used == cohort.Fixed() + claimed
    ensures Underway(cohort, authors, later, boundaries, departures + [departure], claimed', next')
    ensures used' == cohort.Fixed() + claimed'
  {
    used', next', claimed' := used, next, claimed;
    if LeavesBeforeOffer(boundaries[|departures|]) {
      UnofferedUnderway(cohort, authors, later, boundaries, departures, claimed, next);
      departure := Departure(boundaries[|departures|], cohort.unoffered[next]);
      next' := next + 1;
    } else {
      var position := Claim(cohort, boundaries[|departures|], used, claimed);
      ClaimUnderway(cohort, authors, later, boundaries, departures, claimed, next, position);
      departure := Departure(boundaries[|departures|], position);
      used', claimed' := used + {position}, claimed + {position};
    }
  }

  method Depart(cohort: Cohort, boundaries: seq<Boundary>, ghost authors: seq<nat>, ghost later: seq<nat>)
      returns (departures: seq<Departure>)
    requires cohort.Valid() && |boundaries| == cohort.faults && cohort.unoffered == Unoffered(Leaving(boundaries))
    requires Scheduled(boundaries) && authors == cohort.Authors() && later == cohort.Later()
    requires Choices(authors, later, cohort.Fixed(), cohort.faults)
    ensures |departures| == cohort.faults && Distinct(PositionsOf(departures)) && AllFit(departures, boundaries, cohort)
    ensures forall k | 0 <= k < |departures| && !LeavesBeforeOffer(boundaries[k]) ::
              departures[k].position == Chosen(authors, later, boundaries[k])
  {
    var used, nextUnoffered := {0} + SetOf(cohort.unoffered), 0;
    ghost var claimed: set<nat> := {};
    departures := [];
    UnderwayStarts(cohort, authors, later, boundaries);
    for i := 0 to |boundaries|
      invariant |departures| == i && used == cohort.Fixed() + claimed
      invariant Underway(cohort, authors, later, boundaries, departures, claimed, nextUnoffered)
    {
      var departure;
      departure, used, nextUnoffered, claimed :=
        DepartNext(cohort, boundaries, departures, used, nextUnoffered, authors, later, claimed);
      departures := departures + [departure];
    }
    UnderwayEnds(cohort, authors, later, boundaries, departures, claimed, nextUnoffered);
  }

  /** The boundaries of a schedule are strictly later one after the other, up to the last of all. */
  lemma BoundariesIncrease(faults: nat, i: nat, j: nat)
    requires 1 <= faults <= |BOUNDARIES| && i < j < faults
    ensures exists a, b | 0 <= a < b < |BOUNDARIES| ::
              Spread(faults)[i] == BOUNDARIES[a] && Spread(faults)[j] == BOUNDARIES[b]
  {
    RoundingIncreases(i, j, |BOUNDARIES| - 1, faults);
    RoundingStays(i, |BOUNDARIES| - 1, faults);
    RoundingStays(j, |BOUNDARIES| - 1, faults);
    var a, b := Rounded(i, |BOUNDARIES| - 1, faults), Rounded(j, |BOUNDARIES| - 1, faults);
    assert 0 <= a < b < |BOUNDARIES| && Spread(faults)[i] == BOUNDARIES[a] && Spread(faults)[j] == BOUNDARIES[b];
  }
}
