/** The client object and the two commands that use the listing: `download`
    (`Olympus.download`) against a local disk, and `list` (the loop of
    `main` that prints each record's file name). */
module Camera {
  import opened Strings
  import opened Records
  import opened Listing
  import opened Resume
  import opened Transfer

  /** The local filesystem as the downloader sees it: the set of existing
      paths, and the history of the transfers written into it. */
  class Disk {
    var paths: set<string>
    var fetches: seq<Fetch>

    constructor (existing: set<string>)
      ensures paths == existing && fetches == []
    {
      paths := existing;
      fetches := [];
    }

    /** Whether `path` exists on disk. */
    predicate Exists(path: string)
      reads this
    {
      path in paths
    }

    /** A transfer of `url` to `dest`: the network fetch is opaque; what
        the model keeps is that `dest` exists afterwards and was written. */
    method Retrieve(url: string, dest: string)
      modifies this
      ensures paths == old(paths) + {dest}
      ensures fetches == old(fetches) + [Fetch(url, dest)]
    {
      paths := paths + {dest};
      fetches := fetches + [Fetch(url, dest)];
    }
  }

  /** `RunResult` with the status lines and transfers of the steps already
      taken put in front of it. */
  ghost function After(log: seq<Report>, fetches: seq<Fetch>, rest: RunResult): RunResult
  {
    RunResult(log + rest.log, fetches + rest.fetches, rest.present, rest.failed)
  }

  /** Taking one more step of the loop moves its status line and transfer
      to the front. */
  lemma AfterStep(log: seq<Report>, fetched: seq<Fetch>, report: Report, fetch: seq<Fetch>, rest: RunResult)
    ensures After(log, fetched, After([report], fetch, rest)) == After(log + [report], fetched + fetch, rest)
  {
    assert log + ([report] + rest.log) == (log + [report]) + rest.log;
    assert fetched + (fetch + rest.fetches) == (fetched + fetch) + rest.fetches;
  }

  /** One step of `Run` on the record at position `i` of the queue. */
  lemma RunStep(ip: string, directory: string, queue: seq<Record>, i: nat, present: set<string>, force: bool)
    requires i < |queue| && Addressable(queue[i])
    ensures var r := queue[i];
      var dest := Dest(directory, r[1]);
      Run(ip, directory, queue[i..], present, force)
      == if dest !in present || force then
           After([Report(r[1], Ok)], [Fetch(Url(ip, r), dest)], Run(ip, directory, queue[i + 1..], present + {dest}, force))
         else
           After([Report(r[1], Skipped)], [], Run(ip, directory, queue[i + 1..], present, force))
  {
    assert queue[i..][0] == queue[i] && queue[i..][1..] == queue[i + 1..];
  }

  class Olympus {
    const ip: string

    constructor (ip: string)
      ensures this.ip == ip
    {
      this.ip := ip;
    }

    /** `download(directory, first_image, force)` for an image-list page
        whose text is `listing`. The status lines come back in `log`,
        `warned` tells whether the "first image not found" warning was
        printed, and `failed` whether an `IndexError` or a
        `UnicodeEncodeError` ended the run. */
    method Download(disk: Disk, listing: string, directory: string, firstImage: Option<string>, force: bool)
      returns (log: seq<Report>, warned: bool, failed: bool)
      modifies disk
      ensures match SelectQueue(SplitRecords(ImageList(listing)), firstImage)
        case ShortRecord =>
          failed && !warned && log == []
          && disk.paths == old(disk.paths) && disk.fetches == old(disk.fetches)
        case Selected(queue, w) =>
          var res := Run(ip, directory, queue, old(disk.paths), force);
          warned == w && log == res.log && failed == res.failed
          && disk.paths == res.present && disk.fetches == old(disk.fetches) + res.fetches
    {
      var imagesRaw := ImageList(listing);
      var images := SplitRecords(imagesRaw);
      var selection := SelectQueue(images, firstImage);
      if selection.ShortRecord? {
        return [], false, true;
      }
      warned := selection.warned;
      log, failed := DownloadQueue(disk, selection.queue, directory, force);
    }

    /** The loop of `download` over the selected queue (lines 53-61). */
    method DownloadQueue(disk: Disk, queue: seq<Record>, directory: string, force: bool)
      returns (log: seq<Report>, failed: bool)
      modifies disk
      ensures var res := Run(ip, directory, queue, old(disk.paths), force);
        log == res.log && failed == res.failed
        && disk.paths == res.present && disk.fetches == old(disk.fetches) + res.fetches
    {
      ghost var start := disk.paths;
      ghost var history := disk.fetches;
      ghost var fetched: seq<Fetch> := [];
      log := [];
      var i := 0;
      while i < |queue|
        invariant 0 <= i <= |queue|
        invariant disk.fetches == history + fetched
        invariant Run(ip, directory, queue, start, force)
          == After(log, fetched, Run(ip, directory, queue[i..], disk.paths, force))
      {
        var image := queue[i];
        if !Addressable(image) {
          assert queue[i..][0] == image;
          return log, true;
        }
        var url := Url(ip, image);
        var dest := Dest(directory, image[1]);
        RunStep(ip, directory, queue, i, disk.paths, force);
        if !disk.Exists(dest) || force {
          AfterStep(log, fetched, Report(image[1], Ok), [Fetch(url, dest)],
            Run(ip, directory, queue[i + 1..], disk.paths + {dest}, force));
          disk.Retrieve(url, dest);
          log := log + [Report(image[1], Ok)];
          fetched := fetched + [Fetch(url, dest)];
        } else {
          AfterStep(log, fetched, Report(image[1], Skipped), [],
            Run(ip, directory, queue[i + 1..], disk.paths, force));
          log := log + [Report(image[1], Skipped)];
        }
        i := i + 1;
      }
      failed := false;
    }
  }

  /** The `list` command of `main`: prints field 1 of each listed record,
      in order, and stops with an `IndexError` at the first record that has
      no such field. */
  method ListCommand(listing: string) returns (printed: seq<string>, failed: bool)
    ensures var records := SplitRecords(ImageList(listing));
      var p := FirstShort(records);
      failed == (p < |records|)
      && |printed| == p
      && forall k :: 0 <= k < p ==> printed[k] == records[k][1]
  {
    var images := ImageList(listing);
    ghost var records := SplitRecords(images);
    printed := [];
    var i := 0;
    while i < |images|
      invariant i <= |images|
      invariant AllNamed(records[..i])
      invariant |printed| == i
      invariant forall k :: 0 <= k < i ==> printed[k] == records[k][1]
    {
      var fields := Split(images[i], FieldSeparator);
      if |fields| < 2 {
        return printed, true;
      }
      printed := printed + [fields[1]];
      i := i + 1;
      assert records[..i] == records[..i - 1] + [records[i - 1]];
    }
    assert records[..i] == records;
    failed := false;
  }
}
