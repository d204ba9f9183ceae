/**
 * The two entities of the program. An OandD is one route aggregate: an
 * origin, a destination (both kept as C strings) and the set of fares seen
 * for the route, which grows in place. A FlightNbr binds a flight number to
 * one OandD. Both export one comma-separated row. The numeric fields of a
 * row are written by `fixed2`, which formats a dollar amount with two
 * decimals; that formatting is a parameter of the model.
 */
module Routes {
  import opened Text
  import opened Stats
  import opened Aggregation

  class OandD {
    const origine: string
    const destination: string
    var tarifs: set<int>

    /** The names are copied up to their first NUL, as strdup does. */
    constructor (orig: string, dest: string, tar: set<int>)
      ensures origine == CString(orig) && destination == CString(dest)
      ensures tarifs == tar
    {
      origine := CString(orig);
      destination := CString(dest);
      tarifs := tar;
    }

    /** The aggregate's current value. */
    function View(): Aggregate
      reads this
    {
      Aggregate(origine, destination, tarifs)
    }

    /** Replaces the whole fare set. */
    method SetTarifs(tar: set<int>)
      modifies this
      ensures tarifs == tar
    {
      tarifs := tar;
    }

    /** Adds one fare; a fare already present leaves the set as it was. */
    method AddTarif(tarif: int)
      modifies this
      ensures tarifs == old(tarifs) + {tarif}
      ensures old(tarif in tarifs) ==> tarifs == old(tarifs)
    {
      tarifs := tarifs + {tarif};
    }

    /** The least fare, in cents; defined only for a non-empty set. */
    function MinTarif(): (m: int)
      reads this
      requires tarifs != {}
      ensures m in tarifs
      ensures forall t :: t in tarifs ==> m <= t
    {
      SetMin(tarifs)
    }

    /** The greatest fare, in cents; defined only for a non-empty set. */
    function MaxTarif(): (m: int)
      reads this
      requires tarifs != {}
      ensures m in tarifs
      ensures forall t :: t in tarifs ==> t <= m
      ensures MinTarif() <= m
    {
      SetMax(tarifs)
    }

    /**
     * The mean of the distinct fares in dollars: each fare divided by 100,
     * summed, divided by the number of fares; 0.0 for an empty set.
     */
    function MoyenneTarif(): (r: real)
      reads this
      ensures tarifs == {} ==> r == 0.0
      ensures tarifs != {} ==> MinTarif() as real / 100.0 <= r <= MaxTarif() as real / 100.0
    {
      if tarifs == {} then 0.0
      else
        MeanBounds(tarifs);
        (SetSum(tarifs) as real / 100.0) / |tarifs| as real
    }

    /** The row: origin, destination, least, greatest and mean fare, separated by ','. */
    function ExportData(fixed2: real -> string): (r: string)
      reads this
      requires tarifs != {}
      ensures origine + [','] + destination + [','] <= r
    {
      var numbers := [fixed2(MinTarif() as real / 100.0), fixed2(MaxTarif() as real / 100.0), fixed2(MoyenneTarif())];
      var fields := [origine, destination] + numbers;
      assert fields[1..][1..] == numbers;
      assert Join(fields, ',') == origine + [','] + (destination + [','] + Join(numbers, ','));
      Join(fields, ',')
    }
  }

  /**
   * Reading the aggregate row back: when neither name nor any formatted
   * number holds a ',', the row has exactly five fields, in this order.
   */
  lemma ExportDataFields(od: OandD, fixed2: real -> string)
    requires od.tarifs != {}
    requires ',' !in od.origine && ',' !in od.destination
    requires forall x :: ',' !in fixed2(x)
    ensures Split(od.ExportData(fixed2), ',') ==
      [od.origine, od.destination, fixed2(od.MinTarif() as real / 100.0),
       fixed2(od.MaxTarif() as real / 100.0), fixed2(od.MoyenneTarif())]
  {
    var fields := [od.origine, od.destination, fixed2(od.MinTarif() as real / 100.0),
                   fixed2(od.MaxTarif() as real / 100.0), fixed2(od.MoyenneTarif())];
    assert fields == [od.origine, od.destination] + fields[2..];
    SplitJoin(fields, ',');
  }

  /** A route with exactly two distinct fares: its least, greatest and mean fare. */
  lemma TwoFaresStatistics(od: OandD, low: int, high: int)
    requires low < high && od.tarifs == {low, high}
    ensures od.MinTarif() == low && od.MaxTarif() == high
    ensures od.MoyenneTarif() == (low + high) as real / 200.0
  {
    assert od.tarifs - {low} == {high};
    assert {high} - {high} == {};
    assert SetSum({high}) == high;
    assert SetSum(od.tarifs) == low + high;
  }

  /**
   * The fares 100.00, 100.00 and 200.00 of one route leave the set
   * {10000, 20000}: least 100.00, greatest 200.00, mean 150.00 dollars.
   */
  lemma WorkedExampleStatistics(od: OandD)
    requires od.tarifs == {10000, 20000}
    ensures od.MinTarif() as real / 100.0 == 100.0
    ensures od.MaxTarif() as real / 100.0 == 200.0
    ensures od.MoyenneTarif() == 150.0
  {
    TwoFaresStatistics(od, 10000, 20000);
  }

  class FlightNbr {
    const numeroVol: string
    const od: OandD

    /** The flight number is copied up to its first NUL; the aggregate is shared, not copied. */
    constructor (numVol: string, odObj: OandD)
      ensures numeroVol == CString(numVol) && od == odObj
    {
      numeroVol := CString(numVol);
      od := odObj;
    }

    /** The flight number, ',', then the aggregate's own row. */
    function ExportData(fixed2: real -> string): (r: string)
      reads od
      requires od.tarifs != {}
      ensures |numeroVol| < |r| && r[..|numeroVol|] == numeroVol && r[|numeroVol|] == ','
      ensures r[|numeroVol| + 1..] == od.ExportData(fixed2)
    {
      numeroVol + "," + od.ExportData(fixed2)
    }
  }

  /** The flight row's fields are the flight number followed by the aggregate row's fields. */
  lemma FlightExportFields(flight: FlightNbr, fixed2: real -> string)
    requires flight.od.tarifs != {}
    requires ',' !in flight.numeroVol
    ensures Split(flight.ExportData(fixed2), ',') == [flight.numeroVol] + Split(flight.od.ExportData(fixed2), ',')
  {
    SplitPrefix(flight.numeroVol, ',', flight.od.ExportData(fixed2));
  }
}
