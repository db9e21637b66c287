/** `Olympus.list`: turning the text of the camera's image-list page into
    record lines. The HTTP request and the markup extraction are outside the
    model; it starts from the page's extracted text. */
module Listing {
  import opened Strings

  const LineSeparator: char := '\n'
  const VersionPrefix: string := "VER_"

  /** The filter of the list comprehension. It is applied to the RAW line,
      before stripping: a line of spaces passes (and becomes `""`), and so
      does `"  VER_x"` (becoming `"VER_x"`). */
  predicate Kept(line: string)
  {
    line != [] && !StartsWith(line, VersionPrefix)
  }

  /** Number of kept lines in `lines`. */
  function CountKept(lines: seq<string>): (n: nat)
    ensures n <= |lines|
  {
    if lines == [] then 0 else (if Kept(lines[0]) then 1 else 0) + CountKept(lines[1..])
  }

  /** The list comprehension of `Olympus.list`: each kept raw line,
      stripped, in input order. */
  function FilterLines(lines: seq<string>): (r: seq<string>)
    ensures |r| == CountKept(lines)
  {
    if lines == [] then []
    else (if Kept(lines[0]) then [Strip(lines[0])] else []) + FilterLines(lines[1..])
  }

  /** The record lines of an image-list page whose text is `text`. */
  function ImageList(text: string): (r: seq<string>)
    ensures |r| <= |Split(text, LineSeparator)|
  {
    FilterLines(Split(text, LineSeparator))
  }

  /** The result has one entry per kept raw line, and the kept line at
      position `j` lands, stripped, right after the entries of the kept
      lines before it: the filter keeps the input order. */
  lemma {:induction false} FilterLinesExact(lines: seq<string>)
    ensures |FilterLines(lines)| == CountKept(lines)
    ensures forall j :: 0 <= j < |lines| && Kept(lines[j]) ==>
      CountKept(lines[..j]) < |FilterLines(lines)|
      && FilterLines(lines)[CountKept(lines[..j])] == Strip(lines[j])
  {
    if lines != [] {
      FilterLinesExact(lines[1..]);
      var r := FilterLines(lines);
      var head := if Kept(lines[0]) then [Strip(lines[0])] else [];
      forall j | 0 <= j < |lines| && Kept(lines[j])
        ensures CountKept(lines[..j]) < |r| && r[CountKept(lines[..j])] == Strip(lines[j])
      {
        if j > 0 {
          assert r == head + FilterLines(lines[1..]);
          assert lines[..j][1..] == lines[1..][..j - 1];
          assert lines[1..][j - 1] == lines[j];
          assert CountKept(lines[..j]) == |head| + CountKept(lines[1..][..j - 1]);
        }
      }
    }
  }

  /** Position of the `k`-th kept line (counting from 0). */
  function NthKept(lines: seq<string>, k: nat): (j: nat)
    requires k < CountKept(lines)
    ensures j < |lines| && Kept(lines[j]) && CountKept(lines[..j]) == k
  {
    if Kept(lines[0]) && k == 0 then
      assert lines[..0] == [];
      0
    else
      var j := 1 + NthKept(lines[1..], if Kept(lines[0]) then k - 1 else k);
      assert lines[..j][1..] == lines[1..][..j - 1];
      j
  }

  /** Every entry of the result is the stripped `k`-th kept raw line. */
  lemma {:induction false} FilterLinesOrigin(lines: seq<string>, k: nat)
    requires k < |FilterLines(lines)|
    ensures k < CountKept(lines) && FilterLines(lines)[k] == Strip(lines[NthKept(lines, k)])
  {
    FilterLinesExact(lines);
  }

  /** The whole listing: exactly the stripped kept lines of the text, in
      order, and as many entries as kept raw lines. */
  lemma ImageListExact(text: string)
    ensures var lines := Split(text, LineSeparator);
      |ImageList(text)| == CountKept(lines)
      && forall j :: 0 <= j < |lines| && Kept(lines[j]) ==>
        CountKept(lines[..j]) < |ImageList(text)|
        && ImageList(text)[CountKept(lines[..j])] == Strip(lines[j])
  {
    FilterLinesExact(Split(text, LineSeparator));
  }

  /** No entry of the listing holds a line break, and none has leading or
      trailing space characters. */
  lemma ImageListEntries(text: string, k: nat)
    requires k < |ImageList(text)|
    ensures LineSeparator !in ImageList(text)[k]
    ensures var e := ImageList(text)[k];
      e != [] ==> !IsSpace(e[0]) && !IsSpace(e[|e| - 1])
  {
    var lines := Split(text, LineSeparator);
    FilterLinesOrigin(lines, k);
    var j := NthKept(lines, k);
    var s := lines[j];
    var a := LeadingSpaces(s);
    var r := Strip(s);
    assert r == s[a..a + |r|];
    assert forall c :: c in r ==> c in s;
  }

  /** A raw line of space characters passes the filter and yields an empty
      entry: the test looks at the raw line, not the stripped one. */
  lemma BlankLineKept(lines: seq<string>, j: nat)
    requires j < |lines| && lines[j] != [] && AllSpace(lines[j])
    ensures CountKept(lines[..j]) < |FilterLines(lines)|
    ensures FilterLines(lines)[CountKept(lines[..j])] == ""
  {
    assert !IsSpace(VersionPrefix[0]);
    assert !StartsWith(lines[j], VersionPrefix);
    StripEmpty(lines[j]);
    FilterLinesExact(lines);
  }

  /** A version line indented by space characters passes the filter and
      yields the version line itself, stripped: an entry that starts with
      `VER_`. */
  lemma IndentedVersionLineKept(lines: seq<string>, j: nat, w: string, t: string)
    requires j < |lines| && lines[j] == w + VersionPrefix + t
    requires w != [] && AllSpace(w)
    ensures CountKept(lines[..j]) < |FilterLines(lines)|
    ensures FilterLines(lines)[CountKept(lines[..j])] == Strip(VersionPrefix + t)
    ensures StartsWith(FilterLines(lines)[CountKept(lines[..j])], VersionPrefix)
  {
    var s := lines[j];
    var v := VersionPrefix + t;
    assert s == w + v;
    assert !StartsWith(s, VersionPrefix) by {
      assert s[0] == w[0] && IsSpace(w[0]) && !IsSpace(VersionPrefix[0]);
    }
    StripAfterSpaces(w, v);
    FilterLinesExact(lines);
    assert !IsSpace(VersionPrefix[|VersionPrefix| - 1]);
    StripKeepsPrefix(VersionPrefix, t);
  }
}
