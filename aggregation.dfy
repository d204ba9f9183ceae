/**
 * The route list that the reader builds, as values: an ordered list of
 * aggregates, each an (origin, destination) key with the set of fares seen
 * for it. A row's fare goes to the first aggregate whose key equals the
 * row's, or to a new aggregate appended at the end. This module states what
 * the list is after a sequence of lines, and proves the properties of it.
 */
module Aggregation {
  import opened Wrappers
  import opened Text
  import opened Records

  /** The value of one route aggregate: its key and its fares in cents. */
  datatype Aggregate = Aggregate(origin: string, destination: string, fares: set<int>) {
    function Key(): (string, string) { (origin, destination) }
  }

  /** Exact, case-sensitive equality of both the origin and the destination. */
  function Matches(a: Aggregate, origin: string, destination: string): (r: bool)
    ensures r <==> a.Key() == (origin, destination)
  {
    a.origin == origin && a.destination == destination
  }

  /** The index of the first aggregate with the given key, if there is one. */
  function FindRoute(aggs: seq<Aggregate>, origin: string, destination: string): (r: Option<nat>)
    ensures r.Some? ==> r.value < |aggs| && Matches(aggs[r.value], origin, destination)
    ensures r.Some? ==> forall k :: 0 <= k < r.value ==> !Matches(aggs[k], origin, destination)
    ensures r.None? ==> forall k :: 0 <= k < |aggs| ==> !Matches(aggs[k], origin, destination)
  {
    if aggs == [] then None
    else if Matches(aggs[0], origin, destination) then Some(0)
    else match FindRoute(aggs[1..], origin, destination)
      case None => None
      case Some(i) => Some(i + 1)
  }

  /** Whether the list holds an aggregate for the key. */
  predicate HasRoute(aggs: seq<Aggregate>, origin: string, destination: string) {
    FindRoute(aggs, origin, destination).Some?
  }

  /** The fares of the key's aggregate, or the empty set when it has none. */
  function FaresOf(aggs: seq<Aggregate>, origin: string, destination: string): set<int> {
    match FindRoute(aggs, origin, destination)
    case Some(i) => aggs[i].fares
    case None => {}
  }

  /** The keys of the list, in list order. */
  function Keys(aggs: seq<Aggregate>): (ks: seq<(string, string)>)
    ensures |ks| == |aggs|
    ensures forall k :: 0 <= k < |aggs| ==> ks[k] == aggs[k].Key()
  {
    if aggs == [] then [] else Keys(aggs[..|aggs| - 1]) + [aggs[|aggs| - 1].Key()]
  }

  /** No two aggregates share a key, and none has an empty fare set. */
  predicate WellFormed(aggs: seq<Aggregate>) {
    && (forall i, j :: 0 <= i < j < |aggs| ==> aggs[i].Key() != aggs[j].Key())
    && (forall i :: 0 <= i < |aggs| ==> aggs[i].fares != {})
  }

  /**
   * One valid row's effect on the list: the fare joins the first aggregate
   * with the row's key, or a new aggregate with that fare alone is appended.
   */
  function AddFare(aggs: seq<Aggregate>, origin: string, destination: string, cents: int): (r: seq<Aggregate>)
    ensures |r| == if HasRoute(aggs, origin, destination) then |aggs| else |aggs| + 1
    ensures forall k :: 0 <= k < |aggs| ==> r[k].Key() == aggs[k].Key() && aggs[k].fares <= r[k].fares
    ensures forall k :: 0 <= k < |aggs| && !Matches(aggs[k], origin, destination) ==> r[k] == aggs[k]
    ensures !HasRoute(aggs, origin, destination) ==> r[|aggs|] == Aggregate(origin, destination, {cents})
  {
    match FindRoute(aggs, origin, destination)
    case Some(i) => aggs[i := aggs[i].(fares := aggs[i].fares + {cents})]
    case None => aggs + [Aggregate(origin, destination, {cents})]
  }

  /** When the first aggregate with the key is at `i`, AddFare adds the fare there and nowhere else. */
  lemma AddFareAt(aggs: seq<Aggregate>, origin: string, destination: string, cents: int, i: nat)
    requires i < |aggs| && Matches(aggs[i], origin, destination)
    requires forall k :: 0 <= k < i ==> !Matches(aggs[k], origin, destination)
    ensures AddFare(aggs, origin, destination, cents) == aggs[i := aggs[i].(fares := aggs[i].fares + {cents})]
  {
    assert FindRoute(aggs, origin, destination) == Some(i);
  }

  /** Two lists with the same keys find a key at the same place. */
  lemma FindRouteByKeys(a: seq<Aggregate>, b: seq<Aggregate>, origin: string, destination: string)
    requires |a| == |b|
    requires forall k :: 0 <= k < |a| ==> a[k].Key() == b[k].Key()
    ensures FindRoute(a, origin, destination) == FindRoute(b, origin, destination)
  {
    var ra, rb := FindRoute(a, origin, destination), FindRoute(b, origin, destination);
    if ra.Some? && rb.Some? {
      assert Matches(b[ra.value], origin, destination);
      assert Matches(a[rb.value], origin, destination);
    } else if ra.Some? {
      assert Matches(b[ra.value], origin, destination);
    }
  }

  /** After an aggregate is appended, a key is found where it was, or at the new one. */
  lemma FindRouteAppend(a: seq<Aggregate>, x: Aggregate, origin: string, destination: string)
    ensures FindRoute(a + [x], origin, destination) ==
      if HasRoute(a, origin, destination) then FindRoute(a, origin, destination)
      else if Matches(x, origin, destination) then Some(|a|)
      else None
  {
    var s := a + [x];
    var r := FindRoute(s, origin, destination);
    var ra := FindRoute(a, origin, destination);
    if ra.Some? {
      assert Matches(s[ra.value], origin, destination);
    } else if Matches(x, origin, destination) {
      assert Matches(s[|a|], origin, destination);
    }
  }

  /**
   * The fares recorded for each key after AddFare: the row's key gains the
   * row's fare and now has an aggregate; every other key keeps its fares.
   */
  lemma AddFareLookup(aggs: seq<Aggregate>, origin: string, destination: string, cents: int, o: string, d: string)
    ensures HasRoute(AddFare(aggs, origin, destination, cents), o, d) <==>
      ((o, d) == (origin, destination) || HasRoute(aggs, o, d))
    ensures FaresOf(AddFare(aggs, origin, destination, cents), o, d) ==
      if (o, d) == (origin, destination) then FaresOf(aggs, o, d) + {cents} else FaresOf(aggs, o, d)
  {
    var r := AddFare(aggs, origin, destination, cents);
    if HasRoute(aggs, origin, destination) {
      var i := FindRoute(aggs, origin, destination).value;
      FindRouteByKeys(aggs, r, o, d);
      if (o, d) != (origin, destination) {
        var ro := FindRoute(aggs, o, d);
        if ro.Some? {
          assert ro.value != i by {
            assert Matches(aggs[i], origin, destination);
          }
        }
      }
    } else {
      FindRouteAppend(aggs, Aggregate(origin, destination, {cents}), o, d);
      assert r == aggs + [Aggregate(origin, destination, {cents})];
    }
  }

  /** AddFare keeps the list well formed: keys stay distinct and fare sets non-empty. */
  lemma AddFareWellFormed(aggs: seq<Aggregate>, origin: string, destination: string, cents: int)
    requires WellFormed(aggs)
    ensures WellFormed(AddFare(aggs, origin, destination, cents))
  {
    var r := AddFare(aggs, origin, destination, cents);
    if !HasRoute(aggs, origin, destination) {
      forall i | 0 <= i < |aggs|
        ensures aggs[i].Key() != (origin, destination)
      {
        assert !Matches(aggs[i], origin, destination);
      }
    }
  }

  /**
   * After a valid row is added to a well-formed list, exactly one aggregate
   * has the row's key, and it holds the row's fare.
   */
  lemma AddFareExactlyOne(aggs: seq<Aggregate>, origin: string, destination: string, cents: int)
    requires WellFormed(aggs)
    ensures var r := AddFare(aggs, origin, destination, cents);
      && (exists k :: 0 <= k < |r| && Matches(r[k], origin, destination) && cents in r[k].fares)
      && (forall j, k :: 0 <= j < |r| && 0 <= k < |r| && Matches(r[j], origin, destination) && Matches(r[k], origin, destination) ==> j == k)
  {
    var r := AddFare(aggs, origin, destination, cents);
    AddFareWellFormed(aggs, origin, destination, cents);
    AddFareLookup(aggs, origin, destination, cents, origin, destination);
    var k := FindRoute(r, origin, destination).value;
    assert cents in r[k].fares;
    forall j, k' | 0 <= j < |r| && 0 <= k' < |r| && Matches(r[j], origin, destination) && Matches(r[k'], origin, destination)
      ensures j == k'
    {
      assert r[j].Key() == r[k'].Key();
    }
  }

  /** Adding the same fare to the same key twice is the same as adding it once. */
  lemma AddFareIdempotent(aggs: seq<Aggregate>, origin: string, destination: string, cents: int)
    ensures AddFare(AddFare(aggs, origin, destination, cents), origin, destination, cents) == AddFare(aggs, origin, destination, cents)
  {
    var r := AddFare(aggs, origin, destination, cents);
    AddFareLookup(aggs, origin, destination, cents, origin, destination);
    AddFareAbsorbed(r, origin, destination, cents);
  }

  /** A fare already recorded for an existing key changes nothing. */
  lemma AddFareAbsorbed(aggs: seq<Aggregate>, origin: string, destination: string, cents: int)
    requires HasRoute(aggs, origin, destination) && cents in FaresOf(aggs, origin, destination)
    ensures AddFare(aggs, origin, destination, cents) == aggs
  {
    var i := FindRoute(aggs, origin, destination).value;
    assert aggs[i].(fares := aggs[i].fares + {cents}) == aggs[i];
  }

  /** The keys after AddFare: unchanged when the key was there, else with the key appended. */
  lemma AddFareKeys(aggs: seq<Aggregate>, origin: string, destination: string, cents: int)
    ensures Keys(AddFare(aggs, origin, destination, cents)) ==
      if (origin, destination) in Keys(aggs) then Keys(aggs) else Keys(aggs) + [(origin, destination)]
  {
    var ks := Keys(aggs);
    if HasRoute(aggs, origin, destination) {
      var i := FindRoute(aggs, origin, destination).value;
      assert ks[i] == (origin, destination);
    }
  }

  // ---------------------------------------------------------------------
  // The whole file

  /** The effect of one data line: skipped lines leave the list as it is. */
  function Step(aggs: seq<Aggregate>, line: string, toCents: string -> Option<int>): (r: seq<Aggregate>)
    ensures |aggs| <= |r| <= |aggs| + 1
  {
    match ParseRow(line, toCents)
    case None => aggs
    case Some(f) => AddFare(aggs, CString(f.origin), CString(f.destination), f.cents)
  }

  /** The list after the data lines `rows`, processed in order, starting from `aggs`. */
  function FoldFrom(aggs: seq<Aggregate>, rows: seq<string>, toCents: string -> Option<int>): (r: seq<Aggregate>)
    ensures |aggs| <= |r| <= |aggs| + |rows|
    decreases |rows|
  {
    if rows == [] then aggs
    else Step(FoldFrom(aggs, rows[..|rows| - 1], toCents), rows[|rows| - 1], toCents)
  }

  /** The list after the data lines `rows`, starting from the empty list. */
  function Fold(rows: seq<string>, toCents: string -> Option<int>): (r: seq<Aggregate>)
    ensures |r| <= |rows|
  {
    FoldFrom([], rows, toCents)
  }

  /** The list read from a file: its first line is a header and is never looked at. */
  function ReadCsv(lines: seq<string>, toCents: string -> Option<int>): (r: seq<Aggregate>)
    ensures |lines| <= 1 ==> r == []
    ensures |r| < |lines| || lines == []
  {
    if lines == [] then [] else Fold(lines[1..], toCents)
  }

  /**
   * One line keeps every aggregate already in the list at its place and
   * under its key; the aggregate can only gain fares.
   */
  lemma StepKeeps(aggs: seq<Aggregate>, line: string, toCents: string -> Option<int>)
    ensures forall k :: 0 <= k < |aggs| ==>
      Step(aggs, line, toCents)[k].Key() == aggs[k].Key() && aggs[k].fares <= Step(aggs, line, toCents)[k].fares
  {
  }

  /** Any run of lines keeps every aggregate already in the list at its place and under its key. */
  lemma {:induction false} FoldFromKeeps(aggs: seq<Aggregate>, rows: seq<string>, toCents: string -> Option<int>)
    ensures forall k :: 0 <= k < |aggs| ==>
      FoldFrom(aggs, rows, toCents)[k].Key() == aggs[k].Key() && aggs[k].fares <= FoldFrom(aggs, rows, toCents)[k].fares
    decreases |rows|
  {
    if rows != [] {
      FoldFromKeeps(aggs, rows[..|rows| - 1], toCents);
      StepKeeps(FoldFrom(aggs, rows[..|rows| - 1], toCents), rows[|rows| - 1], toCents);
    }
  }

  /** The key a valid row is grouped under: both fields as C strings. */
  function RowKey(f: Fare): (string, string) {
    (CString(f.origin), CString(f.destination))
  }

  /** The fares of all valid rows with the given key: an independent statement of grouping. */
  function FaresFor(rows: seq<string>, toCents: string -> Option<int>, origin: string, destination: string): set<int> {
    set i | 0 <= i < |rows| && ParseRow(rows[i], toCents).Some? && RowKey(ParseRow(rows[i], toCents).value) == (origin, destination)
      :: ParseRow(rows[i], toCents).value.cents
  }

  /** The distinct keys of the valid rows, each where it first appears. */
  function FirstSeen(rows: seq<string>, toCents: string -> Option<int>): seq<(string, string)>
    decreases |rows|
  {
    if rows == [] then []
    else
      var seen := FirstSeen(rows[..|rows| - 1], toCents);
      match ParseRow(rows[|rows| - 1], toCents)
      case None => seen
      case Some(f) => if RowKey(f) in seen then seen else seen + [RowKey(f)]
  }

  /** The rows' fares for a key gain the last row's fare when that row is valid and has the key. */
  lemma FaresForSnoc(rows: seq<string>, toCents: string -> Option<int>, origin: string, destination: string)
    requires rows != []
    ensures var last := ParseRow(rows[|rows| - 1], toCents);
      FaresFor(rows, toCents, origin, destination) ==
        FaresFor(rows[..|rows| - 1], toCents, origin, destination) +
        (if last.Some? && RowKey(last.value) == (origin, destination) then {last.value.cents} else {})
  {
    var front := rows[..|rows| - 1];
    forall i | 0 <= i < |front|
      ensures front[i] == rows[i]
    {
    }
  }

  /** Well-formedness of the list holds after any number of lines. */
  lemma {:induction false} FoldWellFormed(aggs: seq<Aggregate>, rows: seq<string>, toCents: string -> Option<int>)
    requires WellFormed(aggs)
    ensures WellFormed(FoldFrom(aggs, rows, toCents))
    decreases |rows|
  {
    if rows != [] {
      var before := FoldFrom(aggs, rows[..|rows| - 1], toCents);
      FoldWellFormed(aggs, rows[..|rows| - 1], toCents);
      match ParseRow(rows[|rows| - 1], toCents)
      case None =>
      case Some(f) => AddFareWellFormed(before, CString(f.origin), CString(f.destination), f.cents);
    }
  }

  /**
   * Grouping: after the rows, a key has an aggregate exactly when some valid
   * row has that key, and its fares are exactly those rows' fares.
   */
  lemma {:induction false} FoldFares(rows: seq<string>, toCents: string -> Option<int>, origin: string, destination: string)
    ensures FaresOf(Fold(rows, toCents), origin, destination) == FaresFor(rows, toCents, origin, destination)
    ensures HasRoute(Fold(rows, toCents), origin, destination) <==> FaresFor(rows, toCents, origin, destination) != {}
    decreases |rows|
  {
    if rows != [] {
      var front := rows[..|rows| - 1];
      var before := Fold(front, toCents);
      FoldFares(front, toCents, origin, destination);
      FaresForSnoc(rows, toCents, origin, destination);
      match ParseRow(rows[|rows| - 1], toCents)
      case None =>
      case Some(f) =>
        AddFareLookup(before, CString(f.origin), CString(f.destination), f.cents, origin, destination);
    }
  }

  /** Order: the keys of the list are the distinct keys of the valid rows in first-seen order. */
  lemma {:induction false} FoldKeys(rows: seq<string>, toCents: string -> Option<int>)
    ensures Keys(Fold(rows, toCents)) == FirstSeen(rows, toCents)
    decreases |rows|
  {
    if rows != [] {
      var front := rows[..|rows| - 1];
      FoldKeys(front, toCents);
      match ParseRow(rows[|rows| - 1], toCents)
      case None =>
      case Some(f) => AddFareKeys(Fold(front, toCents), CString(f.origin), CString(f.destination), f.cents);
    }
  }

  /** Processing `first` then `second` is processing their concatenation. */
  lemma {:induction false} FoldFromAppend(aggs: seq<Aggregate>, first: seq<string>, second: seq<string>, toCents: string -> Option<int>)
    ensures FoldFrom(aggs, first + second, toCents) == FoldFrom(FoldFrom(aggs, first, toCents), second, toCents)
    decreases |second|
  {
    if second == [] {
      assert first + second == first;
    } else {
      var all := first + second;
      assert all[..|all| - 1] == first + second[..|second| - 1];
      assert all[|all| - 1] == second[|second| - 1];
      FoldFromAppend(aggs, first, second[..|second| - 1], toCents);
    }
  }

  /** Rows whose fares the list already records change nothing. */
  lemma {:induction false} FoldAbsorbed(aggs: seq<Aggregate>, rows: seq<string>, toCents: string -> Option<int>)
    requires forall i :: 0 <= i < |rows| && ParseRow(rows[i], toCents).Some? ==>
      var f := ParseRow(rows[i], toCents).value;
      HasRoute(aggs, CString(f.origin), CString(f.destination)) && f.cents in FaresOf(aggs, CString(f.origin), CString(f.destination))
    ensures FoldFrom(aggs, rows, toCents) == aggs
    decreases |rows|
  {
    if rows != [] {
      var front := rows[..|rows| - 1];
      assert forall i :: 0 <= i < |front| ==> front[i] == rows[i];
      FoldAbsorbed(aggs, front, toCents);
      match ParseRow(rows[|rows| - 1], toCents)
      case None =>
      case Some(f) => AddFareAbsorbed(aggs, CString(f.origin), CString(f.destination), f.cents);
    }
  }

  /**
   * Reading the same rows twice gives the same list as reading them once:
   * repeated fares collapse and no key is added twice.
   */
  lemma FoldTwice(rows: seq<string>, toCents: string -> Option<int>)
    ensures Fold(rows + rows, toCents) == Fold(rows, toCents)
  {
    var once := Fold(rows, toCents);
    FoldFromAppend([], rows, rows, toCents);
    forall i | 0 <= i < |rows| && ParseRow(rows[i], toCents).Some?
      ensures var f := ParseRow(rows[i], toCents).value;
        HasRoute(once, CString(f.origin), CString(f.destination)) && f.cents in FaresOf(once, CString(f.origin), CString(f.destination))
    {
      var f := ParseRow(rows[i], toCents).value;
      FoldFares(rows, toCents, CString(f.origin), CString(f.destination));
      assert f.cents in FaresFor(rows, toCents, CString(f.origin), CString(f.destination));
    }
    FoldAbsorbed(once, rows, toCents);
  }

  /** The header line is discarded whatever it holds, even a valid data line. */
  lemma HeaderIgnored(header: string, rows: seq<string>, toCents: string -> Option<int>)
    ensures ReadCsv([header] + rows, toCents) == Fold(rows, toCents)
  {
    assert ([header] + rows)[1..] == rows;
  }

  /** The list read from any file is well formed. */
  lemma ReadCsvWellFormed(lines: seq<string>, toCents: string -> Option<int>)
    ensures WellFormed(ReadCsv(lines, toCents))
  {
    if lines != [] {
      FoldWellFormed([], lines[1..], toCents);
    }
  }

  /** A line with a missing or empty fare field leaves the list unchanged. */
  lemma MissingFareSkipped(aggs: seq<Aggregate>, origin: string, destination: string, toCents: string -> Option<int>)
    requires ';' !in origin && ';' !in destination
    ensures Step(aggs, origin + ";" + destination, toCents) == aggs
    ensures Step(aggs, origin + ";" + destination + ";", toCents) == aggs
  {
    FareMissing(origin, destination);
    FareEmpty(origin, destination);
  }

  /** A line whose fare text does not convert leaves the list unchanged. */
  lemma InvalidNumberSkipped(aggs: seq<Aggregate>, origin: string, destination: string, fareText: string, toCents: string -> Option<int>)
    requires ';' !in origin && ';' !in destination && fareText != ""
    requires toCents(fareText) == None
    ensures Step(aggs, origin + ";" + destination + ";" + fareText, toCents) == aggs
  {
    SplitRecordJoin(origin, destination, fareText);
  }

  /**
   * A header and the lines `o;d;t1`, `o;d;t1`, `o;d;t2` (for instance
   * `A;B;100.00` twice, then `A;B;200.00`) give one route from o to d whose
   * fares are those of t1 and t2, the repeated fare once.
   */
  lemma DuplicateFaresScenario(header: string, o: string, d: string, t1: string, t2: string, toCents: string -> Option<int>)
    requires ';' !in o && ';' !in d && '\0' !in o && '\0' !in d
    requires toCents(t1).Some? && toCents(t2).Some?
    requires t1 != "" && t2 != ""
    ensures var first, second := o + ";" + d + ";" + t1, o + ";" + d + ";" + t2;
      ReadCsv([header, first, first, second], toCents)
        == [Aggregate(o, d, {toCents(t1).value, toCents(t2).value})]
  {
    var first, second := o + ";" + d + ";" + t1, o + ";" + d + ";" + t2;
    var c1, c2 := toCents(t1).value, toCents(t2).value;
    var one := [Aggregate(o, d, {c1})];
    SplitRecordJoin(o, d, t1);
    SplitRecordJoin(o, d, t2);
    CStringNoNul(o);
    CStringNoNul(d);
    assert Step([], first, toCents) == one;
    assert Step(one, first, toCents) == one by {
      AddFareAbsorbed(one, o, d, c1);
    }
    assert Step(one, second, toCents) == [Aggregate(o, d, {c1, c2})] by {
      assert FindRoute(one, o, d) == Some(0);
      assert {c1} + {c2} == {c1, c2};
    }
    assert Fold([first], toCents) == one by {
      assert [first][..0] == [];
      assert FoldFrom([], [first], toCents) == Step(FoldFrom([], [], toCents), first, toCents);
    }
    assert Fold([first, first], toCents) == one by {
      assert [first, first][..1] == [first];
    }
    assert Fold([first, first, second], toCents) == [Aggregate(o, d, {c1, c2})] by {
      assert [first, first, second][..2] == [first, first];
    }
    assert [header, first, first, second][1..] == [first, first, second];
  }

  /**
   * The file with the lines `A;B;100.00`, `A;B;100.00`, `A;B;200.00` under
   * its header gives the single route A to B with the fares 10000 and 20000
   * cents, when the fare texts convert to those amounts.
   */
  lemma WorkedExampleScenario(toCents: string -> Option<int>)
    requires toCents("100.00") == Some(10000) && toCents("200.00") == Some(20000)
    ensures ReadCsv(["origine;destination;tarif", "A;B;100.00", "A;B;100.00", "A;B;200.00"], toCents)
      == [Aggregate("A", "B", {10000, 20000})]
  {
    assert "A;B;100.00" == "A" + ";" + "B" + ";" + "100.00";
    assert "A;B;200.00" == "A" + ";" + "B" + ";" + "200.00";
    DuplicateFaresScenario("origine;destination;tarif", "A", "B", "100.00", "200.00", toCents);
  }

  /** A header and the single line `A;B;` give no route at all: the row has no fare. */
  lemma EmptyFareScenario(toCents: string -> Option<int>)
    ensures ReadCsv(["origine;destination;tarif", "A;B;"], toCents) == []
  {
    assert "A;B;" == "A" + ";" + "B" + ";";
    MissingFareSkipped([], "A", "B", toCents);
    assert ["origine;destination;tarif", "A;B;"][1..] == ["A;B;"];
    assert ["A;B;"][..0] == [];
  }
}
