/**
 * One input line of the fare file: `origin;destination;fare`. The origin is
 * the text before the first ';', the destination the text between the first
 * and the second ';', and the fare text the whole rest of the line (further
 * ';' included). A line without a second ';', or with nothing after it, has
 * no fare and is skipped.
 */
module Records {
  import opened Wrappers
  import opened Text

  /** The three text fields of a data line. */
  datatype Fields = Fields(origin: string, destination: string, fareText: string)

  /** A data line whose fare text converted to a number of cents. */
  datatype Fare = Fare(origin: string, destination: string, cents: int)

  /**
   * The fields of a line, or None when its fare field is missing or empty.
   * A line read from the file line by line holds no '\n', and on such a
   * line reading the fare with getline up to the end of the line fails
   * exactly when no character is left after the second ';'. A line holding
   * '\n' would have its fare cut there; no line of the file is one.
   */
  function SplitRecord(line: string): (r: Option<Fields>)
    ensures r.Some? ==> line == r.value.origin + ";" + r.value.destination + ";" + r.value.fareText
    ensures r.Some? ==> ';' !in r.value.origin && ';' !in r.value.destination
    ensures r.Some? ==> r.value.fareText != ""
  {
    match FirstIndexOf(line, ';')
    case None => None
    case Some(i) =>
      var rest := line[i + 1..];
      match FirstIndexOf(rest, ';')
      case None => None
      case Some(j) =>
        if rest[j + 1..] == "" then None
        else
          Rejoin(line, i, j);
          Some(Fields(line[..i], rest[..j], rest[j + 1..]))
  }

  /** A line cut at two ';' is the two pieces before them, the ';', and the rest. */
  lemma Rejoin(line: string, i: nat, j: nat)
    requires i < |line| && line[i] == ';'
    requires j < |line[i + 1..]| && line[i + 1..][j] == ';'
    ensures line == line[..i] + ";" + line[i + 1..][..j] + ";" + line[i + 1..][j + 1..]
  {
    var rest := line[i + 1..];
    assert rest == rest[..j] + ";" + rest[j + 1..];
    assert line == line[..i] + ";" + rest;
  }

  /**
   * A line made of an origin and a destination without ';' and a non-empty
   * fare text splits back into exactly those three fields.
   */
  lemma SplitRecordJoin(origin: string, destination: string, fareText: string)
    requires ';' !in origin && ';' !in destination && fareText != ""
    ensures SplitRecord(origin + ";" + destination + ";" + fareText) == Some(Fields(origin, destination, fareText))
  {
    var rest := destination + ";" + fareText;
    var line := origin + ";" + rest;
    assert line == origin + ";" + destination + ";" + fareText;
    FirstIndexOfAfter(origin, ';', rest);
    FirstIndexOfAfter(destination, ';', fareText);
    assert line[|origin| + 1..] == rest && line[..|origin|] == origin;
    assert rest[|destination| + 1..] == fareText && rest[..|destination|] == destination;
    assert SplitRecord(line) == Some(Fields(line[..|origin|], rest[..|destination|], rest[|destination| + 1..]));
  }

  /** A line whose destination is its last field has no fare and is skipped. */
  lemma FareMissing(origin: string, destination: string)
    requires ';' !in origin && ';' !in destination
    ensures SplitRecord(origin + ";" + destination) == None
  {
    var line := origin + ";" + destination;
    FirstIndexOfAfter(origin, ';', destination);
    assert line[|origin| + 1..] == destination;
  }

  /** A line that ends right after its second ';' has an empty fare and is skipped. */
  lemma FareEmpty(origin: string, destination: string)
    requires ';' !in origin && ';' !in destination
    ensures SplitRecord(origin + ";" + destination + ";") == None
  {
    var rest := destination + ";";
    var line := origin + ";" + rest;
    assert line == origin + ";" + destination + ";";
    FirstIndexOfAfter(origin, ';', rest);
    assert line[|origin| + 1..] == rest;
    FirstIndexOfAfter(destination, ';', "");
    assert rest == destination + ";" + "";
  }

  /**
   * The fare of a data line: its fields, with the fare text converted by
   * `toCents` (the string-to-double conversion times 100, truncated; None
   * when the conversion throws). None when the line is skipped.
   */
  function ParseRow(line: string, toCents: string -> Option<int>): (r: Option<Fare>)
    ensures r.Some? ==> SplitRecord(line).Some? && toCents(SplitRecord(line).value.fareText) == Some(r.value.cents)
    ensures r.Some? ==> r.value.origin == SplitRecord(line).value.origin
    ensures r.Some? ==> r.value.destination == SplitRecord(line).value.destination
    ensures SplitRecord(line).Some? && toCents(SplitRecord(line).value.fareText).Some? ==> r.Some?
  {
    match SplitRecord(line)
    case None => None
    case Some(f) =>
      match toCents(f.fareText)
      case None => None
      case Some(c) => Some(Fare(f.origin, f.destination, c))
  }
}
