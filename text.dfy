/**
 * Text helpers for the two delimited formats of the program: the input is
 * split on ';', the output is joined with ','. Strings are sequences of
 * characters; a C string ends at its first NUL character.
 */
module Text {
  import opened Wrappers

  /** The position of the first occurrence of `c` in `s`, if any. */
  function FirstIndexOf(s: string, c: char): (r: Option<nat>)
    ensures r.Some? ==> r.value < |s| && s[r.value] == c && c !in s[..r.value]
    ensures r.None? ==> c !in s
  {
    if s == [] then None
    else if s[0] == c then Some(0)
    else match FirstIndexOf(s[1..], c)
      case None => None
      case Some(i) => Some(i + 1)
  }

  /** In `a + [c] + b`, with no `c` in `a`, the first `c` is the one after `a`. */
  lemma FirstIndexOfAfter(a: string, c: char, b: string)
    requires c !in a
    ensures FirstIndexOf(a + [c] + b, c) == Some(|a|)
  {
    var s := a + [c] + b;
    assert s[|a|] == c;
  }

  /**
   * What a C string keeps of `s`: the characters before the first NUL
   * (strdup and strcmp stop there).
   */
  function CString(s: string): (r: string)
    ensures r <= s
    ensures '\0' !in r
    ensures |r| < |s| ==> s[|r|] == '\0'
  {
    match FirstIndexOf(s, '\0')
    case None => s
    case Some(i) => s[..i]
  }

  /** A string without NUL is its own C string. */
  lemma CStringNoNul(s: string)
    requires '\0' !in s
    ensures CString(s) == s
  {
  }

  /** The fields joined into one line, with `sep` between consecutive fields. */
  function Join(fields: seq<string>, sep: char): (r: string)
    ensures |fields| == 1 ==> r == fields[0]
  {
    if fields == [] then ""
    else if |fields| == 1 then fields[0]
    else fields[0] + [sep] + Join(fields[1..], sep)
  }

  /** The fields of a line separated by `sep`; a line with no separator is one field. */
  function Split(s: string, sep: char): (r: seq<string>)
    ensures |r| >= 1
    ensures forall k :: 0 <= k < |r| ==> sep !in r[k]
    decreases |s|
  {
    match FirstIndexOf(s, sep)
    case None => [s]
    case Some(i) => [s[..i]] + Split(s[i + 1..], sep)
  }

  /** Splitting a joined line gives back its fields when no field holds the separator. */
  lemma {:induction false} SplitJoin(fields: seq<string>, sep: char)
    requires |fields| >= 1
    requires forall k :: 0 <= k < |fields| ==> sep !in fields[k]
    ensures Split(Join(fields, sep), sep) == fields
  {
    if |fields| > 1 {
      var rest := Join(fields[1..], sep);
      assert Join(fields, sep) == fields[0] + [sep] + rest;
      SplitPrefix(fields[0], sep, rest);
      SplitJoin(fields[1..], sep);
      assert fields == [fields[0]] + fields[1..];
    }
  }

  /** Splitting a line that starts with a field and a separator peels that field off. */
  lemma SplitPrefix(head: string, sep: char, rest: string)
    requires sep !in head
    ensures Split(head + [sep] + rest, sep) == [head] + Split(rest, sep)
  {
    var s := head + [sep] + rest;
    FirstIndexOfAfter(head, sep, rest);
    assert s[..|head|] == head;
    assert s[|head| + 1..] == rest;
  }
}
