# Flight fare aggregation, modelled in Dafny

The program reads a semicolon-separated file of flight fares
(`origin;destination;fare`). It drops the first line as a header. It groups
the fares of the other lines by route, meaning the pair (origin, destination),
and writes one comma-separated row per route: origin, destination, least,
greatest and mean fare. A second entity, `FlightNbr`, binds a flight number to
one route aggregate and writes the same row with the flight number in front.

This project models that core, in the form the C++ code has:

- `Routes.OandD` is the route aggregate. It is a class because `addTarif`
  grows its fare set in place. It has an origin, a destination and a
  `set<int>` of fares in cents. Its statistics (`MinTarif`, `MaxTarif`,
  `MoyenneTarif`) and its row (`ExportData`) are functions over its current
  state. The origin and destination never change after construction, so they
  are `const` fields, and the getters (`getOrigine`, `getDestination`,
  `getTarifs`) are plain reads of the fields.
- `Routes.FlightNbr` holds a flight number and a reference to one `OandD`.
  Its row is the flight number, `,`, then the aggregate's own row.
- `Reader.LireCsv` is the reading loop. It works over the file's lines and
  keeps the route list as a sequence of `OandD` references. For each line,
  `Reader.ReadLine` splits the line and converts the fare. Then
  `Reader.AddRow` does the linear lookup-or-insert: the first aggregate with
  the same origin and destination gains the fare in place, and otherwise a
  new aggregate holding just that fare is appended.
- `Aggregation` states, on plain values, what the route list is after any
  sequence of lines (`ReadCsv`, `Fold`, `Step`, `AddFare`). The methods above
  are proved to produce exactly that list. The module proves what the list
  means:
  - each route's fares are exactly the fares of the valid lines with that
    route;
  - routes appear in first-seen order;
  - no route appears twice and no fare set is empty;
  - reading the same lines twice changes nothing.
- `Records` splits one line. The origin is the text before the first `;`.
  The destination is the text between the first and the second `;`. The fare
  text is the whole rest of the line. A line with no second `;`, or with
  nothing after it, has no fare and is skipped.
- `Text` holds the string helpers: the first index of a character, C-string
  truncation, and joining and splitting on a separator. `Stats` holds the
  least, greatest and sum of a set of fares.

Names are compared as C strings. The names are copied with `strdup` and
compared with `strcmp`, so a name ends at its first NUL character. The model
applies `Text.CString` to both names before storing or comparing them.

The conversion of the fare text to cents (`std::stod`, times 100, truncated
to `long`) is the parameter `toCents: string -> Option<int>`. It returns
`None` where `stod` throws, and the row is then skipped. The number format of
the output (`std::fixed` with two decimals) is the parameter
`fixed2: real -> string`.

The route key is the ordered pair (origin, destination). Lines `A;B;…` and
`B;A;…` make two different aggregates, as the code compares the origin with
the origin and the destination with the destination. This model follows the
code, not a description of the key as an unordered pair.

## Model

| member | source | states |
|---|---|---|
| `Stats.SetMin` | main.cpp:31 | the least fare is an element of the non-empty set and is at most every element |
| `Stats.SetMax` | main.cpp:32 | the greatest fare is an element of the non-empty set and is at least every element |
| `Stats.SetSum` | main.cpp:36-37 | the sum of the fares, 0 for none, taken in increasing order as a traversal of the ordered set does; its bounds are in `Stats.SumBounds` and its order independence in `Stats.SumRemove` |
| `Stats.SumRemove` | main.cpp:36-37 | any fare of the set can be taken first: the sum is that fare plus the sum of the others |
| `Stats.SumBounds` | main.cpp:36-39 | the sum of n distinct fares lies between n times the least and n times the greatest |
| `Stats.MeanBounds` | main.cpp:33-41 | the mean in dollars (each fare over 100, averaged) lies between the least and greatest fare in dollars |
| `Text.FirstIndexOf` | main.cpp:114-115 | the index found holds the delimiter and no earlier position does; no index means the delimiter is absent |
| `Text.CString` | main.cpp:20 | the kept name is a prefix of the text without NUL, and ends just before the first NUL when there is one |
| `Text.Join` | main.cpp:50-53 | the fields written one after the other with the separator between them; a single field is written as it is; `Text.SplitJoin` proves the fields read back |
| `Text.SplitJoin` | main.cpp:50-53 | fields joined with a separator that none of them contains split back into the same fields |
| `Text.SplitPrefix` | main.cpp:90 | a field, a separator and the rest split into that field followed by the fields of the rest |
| `Records.SplitRecord` | main.cpp:112-119 | a kept line is exactly origin `;` destination `;` fare text, with no `;` in origin or destination and a non-empty fare text |
| `Records.SplitRecordJoin` | main.cpp:114-116 | a line built from such fields splits back into exactly those fields, even when the fare text contains `;` |
| `Records.FareMissing` | main.cpp:116-119 | a line that ends with its destination field has no fare and is skipped |
| `Records.FareEmpty` | main.cpp:116-119 | a line that ends right after its second `;` has an empty fare and is skipped |
| `Records.ParseRow` | main.cpp:114-123 | a line gives a row exactly when it splits and its fare text converts; the row carries the split names and the converted fare |
| `Aggregation.Matches` | main.cpp:126 | an aggregate matches a row when both names are equal in full, origin to origin and destination to destination; the grouping this gives is proved in `Aggregation.FindRoute`, `Aggregation.AddFareLookup` and `Aggregation.FoldFares` |
| `Aggregation.FindRoute` | main.cpp:125-131 | the index found is the first whose origin and destination are both exactly equal to the row's; none found means no aggregate matches |
| `Aggregation.AddFare` | main.cpp:124-135 | existing aggregates keep their keys and their places and only gain fares; those with another key are unchanged; a new key is appended at the end with the row's fare alone |
| `Aggregation.AddFareLookup` | main.cpp:124-135 | after a row, its key has an aggregate whose fares are the old ones plus the row's fare; every other key keeps its fares and its presence |
| `Aggregation.AddFareWellFormed` | main.cpp:124-135 | adding a row keeps the keys distinct and every fare set non-empty |
| `Aggregation.AddFareExactlyOne` | main.cpp:124-135 | after a row, exactly one aggregate has the row's key, and it holds the row's fare |
| `Aggregation.AddFareAbsorbed` | main.cpp:44-46 | a fare already recorded for an existing key leaves the list unchanged |
| `Aggregation.AddFareIdempotent` | main.cpp:124-135 | adding the same fare for the same key twice is the same as adding it once |
| `Aggregation.AddFareKeys` | main.cpp:132-134 | the keys are unchanged when the row's key is present, and otherwise the row's key is appended |
| `Aggregation.Step` | main.cpp:112-148 | one line adds at most one aggregate; `Aggregation.StepKeeps` proves the existing ones keep their places and keys and only gain fares |
| `Aggregation.StepKeeps` | main.cpp:124-135 | after one line, every aggregate already in the list is at the same place with the same key, and its fares include its old fares |
| `Aggregation.FoldFrom` | main.cpp:111-149 | the data lines processed in order add at most one aggregate per line; `Aggregation.FoldFromKeeps` proves the existing ones keep their places and keys and only gain fares |
| `Aggregation.FoldFromKeeps` | main.cpp:111-149 | after any run of lines, every aggregate already in the list is at the same place with the same key, and its fares include its old fares |
| `Aggregation.Fold` | main.cpp:111-149 | the list read from the data lines has at most one aggregate per line; its content is stated by `Aggregation.FoldFares` and `Aggregation.FoldKeys` |
| `Aggregation.ReadCsv` | main.cpp:104-151 | a file of at most one line gives no route, and any file gives fewer routes than it has lines |
| `Aggregation.FoldWellFormed` | main.cpp:111-149 | after any number of lines, keys are distinct and every fare set is non-empty |
| `Aggregation.FoldFares` | main.cpp:111-149 | a key has an aggregate exactly when some valid line has that key, and its fares are exactly those lines' fares |
| `Aggregation.FoldKeys` | main.cpp:111-149 | the keys of the list are the distinct keys of the valid lines, in first-seen order |
| `Aggregation.FoldFromAppend` | main.cpp:111-149 | reading two runs of lines one after the other is reading their concatenation |
| `Aggregation.FoldAbsorbed` | main.cpp:124-135 | lines whose fares the list already records change nothing |
| `Aggregation.FoldTwice` | main.cpp:111-149 | reading the same lines twice gives the same list as reading them once |
| `Aggregation.HeaderIgnored` | main.cpp:109 | the first line is discarded whatever it holds, even a valid data line |
| `Aggregation.ReadCsvWellFormed` | main.cpp:104-151 | the list read from any file has distinct keys and non-empty fare sets |
| `Aggregation.MissingFareSkipped` | main.cpp:116-119 | a line with a missing or empty fare field leaves the list unchanged |
| `Aggregation.InvalidNumberSkipped` | main.cpp:145-148 | a line whose fare text does not convert leaves the list unchanged |
| `Aggregation.DuplicateFaresScenario` | main.cpp:104-151 | a header and the lines o;d;t1, o;d;t1, o;d;t2 give the single route (o, d) with the fares of t1 and t2 |
| `Aggregation.WorkedExampleScenario` | main.cpp:104-151 | the header and `A;B;100.00`, `A;B;100.00`, `A;B;200.00` give the single route A to B with the fares 10000 and 20000 cents |
| `Aggregation.EmptyFareScenario` | main.cpp:116-119 | a header and the single line `A;B;` give no route at all |
| `Routes.OandD.constructor` | main.cpp:20 | the names are stored up to their first NUL and the fare set is the one given |
| `Routes.OandD.SetTarifs` | main.cpp:29 | the fare set is replaced by the one given |
| `Routes.OandD.AddTarif` | main.cpp:44-46 | the fare set becomes the old set plus the fare; a fare already present changes nothing |
| `Routes.OandD.MinTarif` | main.cpp:31 | the result is in the fare set and at most every fare |
| `Routes.OandD.MaxTarif` | main.cpp:32 | the result is in the fare set, at least every fare, and at least the least fare |
| `Routes.OandD.MoyenneTarif` | main.cpp:33-41 | 0.0 for an empty set; otherwise between the least and the greatest fare in dollars |
| `Routes.OandD.ExportData` | main.cpp:48-55 | the row starts with the origin, `,`, the destination, `,`; `Routes.ExportDataFields` proves all five fields read back when no name and no number holds `,` |
| `Routes.ExportDataFields` | main.cpp:48-55 | when neither name nor any formatted number holds `,`, the aggregate row splits on `,` into origin, destination, least, greatest and mean fare, in that order |
| `Routes.TwoFaresStatistics` | main.cpp:31-41 | a route with two distinct fares has the lower as least, the higher as greatest and their half-sum as mean |
| `Routes.WorkedExampleStatistics` | main.cpp:31-53 | the fare set {10000, 20000} gives least 100.00, greatest 200.00 and mean 150.00 dollars |
| `Routes.FlightNbr.constructor` | main.cpp:74 | the flight number is stored up to its first NUL and the aggregate is shared, not copied |
| `Routes.FlightNbr.ExportData` | main.cpp:88-92 | the flight row is the flight number, `,`, then exactly the aggregate's row; `Routes.FlightExportFields` proves the fields read back when the flight number holds no `,` |
| `Routes.FlightExportFields` | main.cpp:88-91 | when the flight number holds no `,`, the flight row splits into the flight number followed by exactly the aggregate row's fields |
| `Reader.AddRow` | main.cpp:124-135 | the list keeps its aggregates in place, and its new value is AddFare of its old value for the row's C-string names and fare |
| `Reader.ReadLine` | main.cpp:112-148 | the list's new value is Step of its old value, so a skipped line leaves it unchanged |
| `Reader.LireCsv` | main.cpp:104-152 | the returned list holds distinct fresh aggregates whose values are ReadCsv of the lines |

## Left out

- File input and output: opening, reading and writing files, `writeColumnNames` for both headers (main.cpp:57-64, 94-101), `exporterODs` and `exporterFlightNbr` (main.cpp:155-178) and their open-failure messages. The input file is given to `Reader.LireCsv` as its sequence of lines. How `getline` cuts the file into lines is not modelled.
- Records.SplitRecord: a line holding `'\n'` is not modelled like the source. The source's `getline` for the fare (main.cpp:116) would stop at the `'\n'`, while the model keeps the whole rest of the line as the fare text. A line read from the file with `getline` (main.cpp:111) never holds `'\n'`, so no input of the reader reaches this case.
- The error messages written to standard error for skipped lines (main.cpp:117, 146). Only the skip itself is modelled.
- The debug print after each row (main.cpp:136-144). It only writes to standard output and changes no state.
- The text-to-cents conversion (main.cpp:122-123) is the parameter `toCents`. The forms `std::stod` accepts and the truncation of the double are outside the model. So is a value too large for `long`, which is undefined behaviour in C++. Cents are unbounded integers.
- Routes.OandD.MoyenneTarif: computes the exact mean as a real number, not the double-precision sum of `tarif / 100.0` divided by the count (main.cpp:36-39). Rounding of the doubles is not modelled.
- Routes.ExportDataFields: the two-decimal formatting of each number (main.cpp:51-53) is the parameter `fixed2`. The lemma assumes that its output never contains `,`, and does not state that it has exactly two decimals or reads back to the same amount. It also requires that the origin and the destination hold no `,`. The source accepts such names, since it splits lines on `;` (main.cpp:114-115), and then writes them unquoted (main.cpp:50), so its row has more than five fields. The lemma says nothing about such a row.
- Routes.FlightExportFields: requires that the flight number holds no `,`. The source writes the number unquoted (main.cpp:90), so a number holding `,` gives a row with extra fields, and the lemma says nothing about it.
- Memory management: `strdup`/`free`, `shared_ptr`, and the raw `OandD*` in `FlightNbr` (main.cpp:20-24, 74-78). The reference held by a `FlightNbr` is never null in the model.
- The entry points: `main` with its fixed paths (main.cpp:181-192), and the commented-out `main` that builds a `FlightNbr` (main.cpp:195-210).
