/**
 * Reading the fare file: the header line is dropped, each later line is
 * split and converted, and its fare is added to the route list in place,
 * by a linear lookup over the existing aggregates or by appending a new one.
 * The file is given as its sequence of lines.
 */
module Reader {
  import opened Wrappers
  import opened Text
  import opened Records
  import opened Aggregation
  import opened Routes

  /** The values of the aggregates of a list, in order. */
  ghost function Views(ods: seq<OandD>): (vs: seq<Aggregate>)
    reads set o | o in ods
    ensures |vs| == |ods|
    ensures forall k :: 0 <= k < |ods| ==> vs[k] == ods[k].View()
  {
    if ods == [] then [] else Views(ods[..|ods| - 1]) + [ods[|ods| - 1].View()]
  }

  /** No aggregate appears twice in the list. */
  ghost predicate Distinct(ods: seq<OandD>) {
    forall i, j :: 0 <= i < j < |ods| ==> ods[i] != ods[j]
  }

  /**
   * Adds one fare to the list: the first aggregate whose names equal the
   * row's (as C strings) gains the fare in place; when there is none, a new
   * aggregate holding just that fare is appended.
   */
  method AddRow(ods: seq<OandD>, origine: string, destination: string, tarif: int) returns (result: seq<OandD>)
    requires Distinct(ods)
    modifies set o | o in ods
    ensures Distinct(result)
    ensures |ods| <= |result| && result[..|ods|] == ods
    ensures forall o :: o in result ==> o in ods || fresh(o)
    ensures Views(result) == AddFare(old(Views(ods)), CString(origine), CString(destination), tarif)
  {
    ghost var before := Views(ods);
    var o, d := CString(origine), CString(destination);
    result := ods;
    var found := false;
    var i := 0;
    while i < |ods|
      invariant 0 <= i <= |ods|
      invariant !found
      invariant Views(ods) == before
      invariant forall k :: 0 <= k < i ==> !Matches(before[k], o, d)
    {
      if ods[i].origine == o && ods[i].destination == d {
        AddFareAt(before, o, d, tarif, i);
        ods[i].AddTarif(tarif);
        found := true;
        assert Views(ods) == before[i := before[i].(fares := before[i].fares + {tarif})] by {
          forall k | 0 <= k < |ods| && k != i
            ensures ods[k].View() == before[k]
          {
            assert ods[k] != ods[i];
          }
        }
        break;
      }
      i := i + 1;
    }
    if !found {
      var created := new OandD(origine, destination, {tarif});
      result := ods + [created];
      assert Views(result) == before + [Aggregate(o, d, {tarif})] by {
        assert forall k :: 0 <= k < |ods| ==> result[k] == ods[k];
      }
    }
  }

  /**
   * One data line: split it, convert its fare, and add the fare to the
   * list; a line with a missing or empty fare field, or a fare text that
   * does not convert, leaves the list as it was.
   */
  method ReadLine(ods: seq<OandD>, line: string, toCents: string -> Option<int>) returns (result: seq<OandD>)
    requires Distinct(ods)
    modifies set o | o in ods
    ensures Distinct(result)
    ensures |ods| <= |result| && result[..|ods|] == ods
    ensures forall o :: o in result ==> o in ods || fresh(o)
    ensures Views(result) == Step(old(Views(ods)), line, toCents)
  {
    result := ods;
    match SplitRecord(line) {
      case None =>
      case Some(fields) =>
        match toCents(fields.fareText) {
          case None =>
          case Some(cents) =>
            result := AddRow(ods, fields.origin, fields.destination, cents);
        }
    }
  }

  /** The list after one more row is that row's Step applied to the list before it. */
  lemma FoldPrefixStep(rows: seq<string>, i: nat, toCents: string -> Option<int>, before: seq<Aggregate>, after: seq<Aggregate>)
    requires i < |rows|
    requires before == Fold(rows[..i], toCents)
    requires after == Step(before, rows[i], toCents)
    ensures after == Fold(rows[..i + 1], toCents)
  {
    assert rows[..i + 1][..i] == rows[..i];
  }

  /**
   * The reader: drops the first line unread, skips every later line whose
   * fare is missing, empty or not a number, and groups the others by route
   * in first-seen order. The list it returns is the one ReadCsv describes.
   */
  method LireCsv(lines: seq<string>, toCents: string -> Option<int>) returns (ods: seq<OandD>)
    ensures Views(ods) == ReadCsv(lines, toCents)
    ensures Distinct(ods)
    ensures forall o :: o in ods ==> fresh(o)
  {
    ods := [];
    // the first line, if any, is read and dropped
    var rows := if lines == [] then [] else lines[1..];
    var i := 0;
    while i < |rows|
      invariant 0 <= i <= |rows|
      invariant Distinct(ods)
      invariant forall o :: o in ods ==> fresh(o)
      invariant Views(ods) == Fold(rows[..i], toCents)
    {
      ghost var before := Views(ods);
      ods := ReadLine(ods, rows[i], toCents);
      FoldPrefixStep(rows, i, toCents, before, Views(ods));
      i := i + 1;
    }
    assert rows[..i] == rows;
  }
}
