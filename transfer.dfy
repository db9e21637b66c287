/** The download loop of `Olympus.download` as a specification: for each
    queued record, in order, its source URL and destination path, the
    transfer-or-skip decision against the set of paths that exist at that
    moment, and the status line it reports. */
module Transfer {
  import opened Records

  /** The source URL: scheme, camera address, then the record's fields 0
      and 1, separated by slashes. */
  function Url(ip: string, r: Record): string
    requires HasName(r)
  {
    "http://" + ip + "/" + r[0] + "/" + r[1]
  }

  /** The destination: the output directory, a slash, the file name. */
  function Dest(directory: string, name: string): string
  {
    directory + "/" + name
  }

  /** Within one directory distinct file names have distinct destinations. */
  lemma DestInjective(directory: string, a: string, b: string)
    requires Dest(directory, a) == Dest(directory, b)
    ensures a == b
  {
    var n := |directory| + 1;
    assert a == Dest(directory, a)[n..];
    assert b == Dest(directory, b)[n..];
  }

  /** The status printed after a file name: ` - OK` or ` - SKIPPED`. */
  datatype Status = Ok | Skipped
  datatype Report = Report(name: string, status: Status)

  /** One transfer of a URL to a destination path. */
  datatype Fetch = Fetch(url: string, dest: string)

  /** What the loop leaves behind: the status lines, the transfers made in
      order, the set of existing paths, and whether it stopped on a record
      it cannot address (`IndexError` or `UnicodeEncodeError` at line 54,
      before that record's status line). */
  datatype RunResult = RunResult(log: seq<Report>, fetches: seq<Fetch>, present: set<string>, failed: bool)

  /** The loop over `queue` starting from the existing paths `present`. */
  function Run(ip: string, directory: string, queue: seq<Record>, present: set<string>, force: bool): (res: RunResult)
    // at most one status line per record, at most one transfer per line
    ensures |res.fetches| <= |res.log| <= |queue|
    // no path is removed
    ensures present <= res.present
    decreases |queue|
  {
    if queue == [] then RunResult([], [], present, false)
    else if !Addressable(queue[0]) then RunResult([], [], present, true)
    else
      var r := queue[0];
      var dest := Dest(directory, r[1]);
      if dest !in present || force then
        var rest := Run(ip, directory, queue[1..], present + {dest}, force);
        RunResult([Report(r[1], Ok)] + rest.log, [Fetch(Url(ip, r), dest)] + rest.fetches, rest.present, rest.failed)
      else
        var rest := Run(ip, directory, queue[1..], present, force);
        RunResult([Report(r[1], Skipped)] + rest.log, rest.fetches, rest.present, rest.failed)
  }

  /** The destinations of the records of `queue`, all of which are named. */
  function Dests(directory: string, queue: seq<Record>): set<string>
    requires AllNamed(queue)
  {
    if queue == [] then {} else {Dest(directory, queue[0][1])} + Dests(directory, queue[1..])
  }

  /** The transfer each named record of `queue` calls for. */
  function Planned(ip: string, directory: string, queue: seq<Record>): seq<Fetch>
    requires AllNamed(queue)
  {
    if queue == [] then [] else [Fetch(Url(ip, queue[0]), Dest(directory, queue[0][1]))] + Planned(ip, directory, queue[1..])
  }

  /** The transfers of `plan` whose record is reported `OK` in `log`. */
  function OkFetches(plan: seq<Fetch>, log: seq<Report>): seq<Fetch>
    requires |plan| == |log|
  {
    if plan == [] then []
    else (if log[0].status == Ok then [plan[0]] else []) + OkFetches(plan[1..], log[1..])
  }

  lemma {:induction false} DestsMember(directory: string, queue: seq<Record>, k: nat)
    requires AllNamed(queue) && k < |queue|
    ensures Dest(directory, queue[k][1]) in Dests(directory, queue)
  {
    if k > 0 {
      DestsMember(directory, queue[1..], k - 1);
    }
  }

  lemma PrefixTail(queue: seq<Record>, k: nat)
    requires 1 <= k <= |queue|
    ensures queue[..k][0] == queue[0] && queue[..k][1..] == queue[1..][..k - 1]
  {
  }

  /** One status line per record up to the first one the loop cannot
      address (no file name, or a non-ASCII field 0 or 1), in queue order
      and naming that record; the run fails exactly when such a record
      exists; and afterwards the existing paths are the
      initial ones plus the destinations of the processed records. */
  lemma {:induction false} RunShape(ip: string, directory: string, queue: seq<Record>, present: set<string>, force: bool)
    ensures var res := Run(ip, directory, queue, present, force);
      var p := FirstUnaddressable(queue);
      res.failed == (p < |queue|)
      && |res.log| == p
      && (forall k :: 0 <= k < p ==> res.log[k].name == queue[k][1])
      && res.present == present + Dests(directory, queue[..p])
  {
    var p := FirstUnaddressable(queue);
    if queue == [] || !Addressable(queue[0]) {
      assert queue[..p] == [];
    } else {
      var dest := Dest(directory, queue[0][1]);
      var next := present + {dest};
      RunShape(ip, directory, queue[1..], next, force);
      PrefixTail(queue, p);
      assert FirstUnaddressable(queue[1..]) == p - 1;
      if !(dest !in present || force) {
        assert next == present;
      }
    }
  }

  /** Every transfer is one a processed record calls for: the transfers
      are, in order, those of the records reported `OK`, and with `force`
      those of all of them. */
  lemma {:induction false} RunFetches(ip: string, directory: string, queue: seq<Record>, present: set<string>, force: bool)
    ensures var res := Run(ip, directory, queue, present, force);
      var p := FirstUnaddressable(queue);
      |Planned(ip, directory, queue[..p])| == p == |res.log|
      && res.fetches == OkFetches(Planned(ip, directory, queue[..p]), res.log)
      && (forall f :: f in res.fetches ==> f in Planned(ip, directory, queue[..p]))
      && (force ==> res.fetches == Planned(ip, directory, queue[..p]))
  {
    RunShape(ip, directory, queue, present, force);
    var p := FirstUnaddressable(queue);
    if queue == [] || !Addressable(queue[0]) {
      assert queue[..p] == [];
    } else {
      var dest := Dest(directory, queue[0][1]);
      var next := present + {dest};
      RunFetches(ip, directory, queue[1..], next, force);
      PrefixTail(queue, p);
      assert FirstUnaddressable(queue[1..]) == p - 1;
      if !(dest !in present || force) {
        assert next == present;
      }
    }
  }

  /** The transfer-or-skip decision: record `k` is transferred exactly when
      `force` is set or its destination is absent from the paths that exist
      when its turn comes, the initial ones plus the destinations of the
      records before it. */
  lemma {:induction false} RunPolicy(ip: string, directory: string, queue: seq<Record>, present: set<string>, force: bool, k: nat)
    requires k < FirstUnaddressable(queue)
    ensures var res := Run(ip, directory, queue, present, force);
      k < |res.log|
      && (res.log[k].status == Ok
          <==> force || Dest(directory, queue[k][1]) !in present + Dests(directory, queue[..k]))
  {
    var r := queue[0];
    var dest := Dest(directory, r[1]);
    var transfer := dest !in present || force;
    var next := if transfer then present + {dest} else present;
    var rest := Run(ip, directory, queue[1..], next, force);
    assert Run(ip, directory, queue, present, force).log
      == [Report(r[1], if transfer then Ok else Skipped)] + rest.log;
    if k == 0 {
      assert queue[..0] == [];
    } else {
      assert FirstUnaddressable(queue[1..]) == FirstUnaddressable(queue) - 1;
      RunPolicy(ip, directory, queue[1..], next, force, k - 1);
      PrefixTail(queue, k);
      assert Dests(directory, queue[..k]) == {dest} + Dests(directory, queue[1..][..k - 1]);
      assert next == present + {dest};
    }
  }

  /** With `force`, every processed record is transferred. */
  lemma ForceTransfersAll(ip: string, directory: string, queue: seq<Record>, present: set<string>, k: nat)
    requires k < FirstUnaddressable(queue)
    ensures var res := Run(ip, directory, queue, present, true);
      k < |res.log| && res.log[k].status == Ok
  {
    RunPolicy(ip, directory, queue, present, true, k);
  }

  /** Without `force`, a record whose file name an earlier queued record
      already had is skipped: the earlier transfer created its destination. */
  lemma RepeatedNameSkipped(ip: string, directory: string, queue: seq<Record>, present: set<string>, j: nat, k: nat)
    requires j < k < FirstUnaddressable(queue) && queue[j][1] == queue[k][1]
    ensures var res := Run(ip, directory, queue, present, false);
      k < |res.log| && res.log[k].status == Skipped
  {
    RunPolicy(ip, directory, queue, present, false, k);
    DestsMember(directory, queue[..k], j);
  }

  /** After the loop every processed record's destination exists, and no
      other path is added: the paths created are those destinations. */
  lemma RunFrame(ip: string, directory: string, queue: seq<Record>, present: set<string>, force: bool)
    ensures var res := Run(ip, directory, queue, present, force);
      var p := FirstUnaddressable(queue);
      present <= res.present
      && (forall k :: 0 <= k < p ==> Dest(directory, queue[k][1]) in res.present)
      && (forall path :: path in res.present && path !in present ==>
            exists k :: 0 <= k < p && path == Dest(directory, queue[k][1]))
  {
    RunShape(ip, directory, queue, present, force);
    var p := FirstUnaddressable(queue);
    forall k | 0 <= k < p
      ensures Dest(directory, queue[k][1]) in Dests(directory, queue[..p])
    {
      DestsMember(directory, queue[..p], k);
    }
    forall path | path in Dests(directory, queue[..p])
      ensures exists k :: 0 <= k < p && path == Dest(directory, queue[k][1])
    {
      DestsOrigin(directory, queue[..p], path);
    }
  }

  lemma {:induction false} DestsOrigin(directory: string, queue: seq<Record>, path: string)
    requires AllNamed(queue) && path in Dests(directory, queue)
    ensures exists k :: 0 <= k < |queue| && path == Dest(directory, queue[k][1])
  {
    if path != Dest(directory, queue[0][1]) {
      DestsOrigin(directory, queue[1..], path);
      var k :| 0 <= k < |queue[1..]| && path == Dest(directory, queue[1..][k][1]);
      assert queue[k + 1] == queue[1..][k];
    }
  }
}
