/** Image records: one listing line split on commas into its fields
    (directory, file name, size, attribute, date code, resolution code). */
module Records {
  import opened Strings

  /** The fields of one listing line, as `line.split(',')` gives them. */
  type Record = seq<string>

  const FieldSeparator: char := ','

  /** Every listed line split on commas: one record per line, none of them
      empty, each joining back to its line exactly (no field is
      reformatted). */
  function SplitRecords(lines: seq<string>): (records: seq<Record>)
    ensures |records| == |lines|
    ensures forall i :: 0 <= i < |records| ==>
      |records[i]| >= 1 && Join(records[i], FieldSeparator) == lines[i]
    ensures forall i, j :: 0 <= i < |records| && 0 <= j < |records[i]| ==>
      FieldSeparator !in records[i][j]
  {
    seq(|lines|, i requires 0 <= i < |lines| => Split(lines[i], FieldSeparator))
  }

  /** A record indexable at `[1]`, i.e. one that has a file name field. */
  predicate HasName(r: Record)
  {
    |r| >= 2
  }

  predicate AllNamed(records: seq<Record>)
  {
    forall i :: 0 <= i < |records| ==> HasName(records[i])
  }

  /** A record line 54 can turn into a URL: it has a file name field, and
      fields 0 and 1 are ASCII. The fields are unicode (they come from the
      page text) and the URL and destination templates are byte strings, so
      Python 2 encodes the fields with the `ascii` codec and raises
      `UnicodeEncodeError` on any other character. */
  predicate Addressable(r: Record)
  {
    HasName(r) && IsAscii(r[0]) && IsAscii(r[1])
  }

  /** Position of the first record the download loop cannot address, or
      `|records|` when it can address all of them: where the loop raises
      `IndexError` or `UnicodeEncodeError`. */
  function FirstUnaddressable(records: seq<Record>): (p: nat)
    ensures p <= |records|
    ensures forall i :: 0 <= i < p ==> Addressable(records[i])
    ensures AllNamed(records[..p])
    ensures p < |records| ==> !Addressable(records[p])
  {
    if records == [] || !Addressable(records[0]) then 0
    else
      var p := 1 + FirstUnaddressable(records[1..]);
      assert forall i :: 1 <= i < p ==> records[..p][i] == records[1..][..p - 1][i - 1];
      p
  }

  /** Position of the first record without a file name field, or
      `|records|` when every record has one: where a loop that reads
      `record[1]` for each record in turn raises `IndexError`. */
  function FirstShort(records: seq<Record>): (p: nat)
    ensures p <= |records|
    ensures AllNamed(records[..p])
    ensures p < |records| ==> !HasName(records[p])
  {
    if records == [] || !HasName(records[0]) then 0
    else
      var p := 1 + FirstShort(records[1..]);
      assert forall i :: 1 <= i < p ==> records[..p][i] == records[1..][..p - 1][i - 1];
      p
  }

  /** The file name (field 1) of every record, as the resume test lists them. */
  function Names(records: seq<Record>): (names: seq<string>)
    requires AllNamed(records)
    ensures |names| == |records|
    ensures forall i :: 0 <= i < |records| ==> names[i] == records[i][1]
  {
    seq(|records|, i requires 0 <= i < |records| && AllNamed(records) => records[i][1])
  }

  /** A listing line's file name is the text between its first and second
      comma, untouched. */
  lemma NameBetweenCommas(a: string, name: string, rest: string)
    requires FieldSeparator !in a && FieldSeparator !in name
    ensures var r := Split(a + [FieldSeparator] + name + [FieldSeparator] + rest, FieldSeparator);
      HasName(r) && r[0] == a && r[1] == name
  {
    var s := a + [FieldSeparator] + name + [FieldSeparator] + rest;
    assert s == a + [FieldSeparator] + (name + [FieldSeparator] + rest);
    SplitAfterPart(a, name + [FieldSeparator] + rest, FieldSeparator);
    SplitAfterPart(name, rest, FieldSeparator);
  }
}
