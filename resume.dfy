/** The resume point of `Olympus.download`: with a `first_image` name the
    queue starts at the first record of that name; when the name is not in
    the list a warning is printed and the whole list is queued. */
module Resume {
  import opened Strings
  import opened Records

  datatype Option<T> = None | Some(value: T)

  /** The command-line argument `first_image` arrives as a byte string and is
      modelled one character per byte. Python's truthiness test
      `if first_image:` — `None` and `""` are false. */
  predicate Resuming(firstImage: Option<string>)
  {
    firstImage.Some? && firstImage.value != ""
  }

  /** What the resume step leaves: the queue and whether the "first image
      not found" warning was printed; or the `IndexError` raised when the
      list of file names is built over a record that has none. */
  datatype Selection = Selected(queue: seq<Record>, warned: bool) | ShortRecord

  /** The generator search for the first record whose field 1 is `name`,
      given as a position. */
  function FirstWithName(images: seq<Record>, name: string): (k: nat)
    requires AllNamed(images) && name in Names(images)
    ensures k < |images| && images[k][1] == name
    ensures forall j :: 0 <= j < k ==> images[j][1] != name
  {
    if images[0][1] == name then 0
    else
      var i :| 0 <= i < |images| && Names(images)[i] == name;
      assert Names(images[1..])[i - 1] == name;
      1 + FirstWithName(images[1..], name)
  }

  /** Python's `list.index`: the first position holding a record equal to `r`. */
  function IndexOf(images: seq<Record>, r: Record): (k: nat)
    requires r in images
    ensures k < |images| && images[k] == r
    ensures forall j :: 0 <= j < k ==> images[j] != r
  {
    if images[0] == r then 0 else 1 + IndexOf(images[1..], r)
  }

  /** `list.index` of the record the generator search found is that record's
      own position: no earlier record can be equal to it, since an equal
      record would carry the same name. */
  lemma IndexOfFirstWithName(images: seq<Record>, name: string)
    requires AllNamed(images) && name in Names(images)
    ensures IndexOf(images, images[FirstWithName(images, name)]) == FirstWithName(images, name)
  {
  }

  /** Lines 45-50 of the downloader. The file names are text while the
      argument is a byte string, and Python 2 finds them equal only when
      the bytes are ASCII and spell the name; a non-ASCII argument matches
      no record. */
  function SelectQueue(images: seq<Record>, firstImage: Option<string>): (sel: Selection)
    // the names list of line 46 reads field 1 of every record
    ensures sel.ShortRecord? <==> Resuming(firstImage) && FirstShort(images) < |images|
    // without a resume name the list is queued whole and nothing is printed
    ensures !Resuming(firstImage) ==> sel == Selected(images, false)
    // the queue is the suffix from the first record carrying the name
    ensures forall k ::
      (Resuming(firstImage) && AllNamed(images) && IsAscii(firstImage.value)
       && 0 <= k < |images| && images[k][1] == firstImage.value
       && (forall j :: 0 <= j < k ==> images[j][1] != firstImage.value))
      ==> sel == Selected(images[k..], false)
    // a name that no record carries, or a non-ASCII one: warning, and the
    // whole list
    ensures Resuming(firstImage) && AllNamed(images)
      && (!IsAscii(firstImage.value)
          || forall j :: 0 <= j < |images| ==> images[j][1] != firstImage.value)
      ==> sel == Selected(images, true)
  {
    if !Resuming(firstImage) then Selected(images, false)
    else if FirstShort(images) < |images| then ShortRecord
    else
      assert images[..|images|] == images;
      var name := firstImage.value;
      if IsAscii(name) && name in Names(images) then
        var k := FirstWithName(images, name);
        IndexOfFirstWithName(images, name);
        Selected(images[IndexOf(images, images[k])..], false)
      else
        Selected(images, true)
  }

  /** Whatever the resume name, a selected queue is a suffix of the list;
      and when a name is given every queued record has a file name, so the
      download loop cannot fail on a short record. */
  lemma SelectionSuffix(images: seq<Record>, firstImage: Option<string>)
    ensures var sel := SelectQueue(images, firstImage);
      sel.Selected? ==>
        |sel.queue| <= |images| && sel.queue == images[|images| - |sel.queue|..]
        && (Resuming(firstImage) ==> AllNamed(sel.queue))
  {
    var sel := SelectQueue(images, firstImage);
    if !Resuming(firstImage) {
      assert images[0..] == images;
    } else if sel.Selected? {
      assert images[..|images|] == images;
      assert AllNamed(images);
      var name := firstImage.value;
      if IsAscii(name) && name in Names(images) {
        var k := FirstWithName(images, name);
        assert sel.queue == images[k..];
        assert |images| - |sel.queue| == k;
      } else {
        assert sel.queue == images == images[0..];
      }
    }
  }

  /** The warning is printed exactly when a name is given and it is
      non-ASCII or no record carries it. */
  lemma SelectionWarning(images: seq<Record>, firstImage: Option<string>)
    ensures var sel := SelectQueue(images, firstImage);
      sel.Selected? ==>
        (sel.warned <==>
           Resuming(firstImage)
           && (!IsAscii(firstImage.value)
               || forall j :: 0 <= j < |images| ==> images[j][1] != firstImage.value))
  {
    var sel := SelectQueue(images, firstImage);
    if sel.Selected? && Resuming(firstImage) {
      assert images[..|images|] == images;
      var name := firstImage.value;
      if IsAscii(name) && name in Names(images) {
        var k := FirstWithName(images, name);
        assert Names(images)[k] == name;
      }
    }
  }

  /** Resuming `[A, B, C, D]` from `C` queues `[C, D]`; resuming from a
      name that is not listed queues all four, with the warning. */
  lemma ResumeExample(dir: string)
    ensures var images := [[dir, "A"], [dir, "B"], [dir, "C"], [dir, "D"]];
      SelectQueue(images, Some("C")) == Selected([[dir, "C"], [dir, "D"]], false)
      && SelectQueue(images, Some("Z")) == Selected(images, true)
  {
    var images := [[dir, "A"], [dir, "B"], [dir, "C"], [dir, "D"]];
    assert AllNamed(images);
    assert images[2..] == [[dir, "C"], [dir, "D"]];
  }
}
