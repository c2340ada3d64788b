/**
 The objects behind `CaptureControl` (`capture.py`): a job whose lists and tables change in place, and the module's
 globals with the regions that run under its lock.
 */
module CaptureJobs {
  import opened CaptureControl
  import opened CaptureMessages
  import opened CaptureTotals
  import opened Wrappers

  function Without(rows: Protocols, names: set<string>): Protocols {
    map k | k in rows && k !in names :: rows[k]
  }

  lemma WithoutNone(rows: Protocols)
    ensures Without(rows, {}) == rows
  {
  }

  lemma MergeNone(rows: Protocols, more: Protocols)
    ensures MergeRows(rows, Without(more, more.Keys)) == rows
  {
    assert Without(more, more.Keys) == map[];
    MergeWithNothing(rows, map[]);
  }

  lemma MergeOneMore(rows: Protocols, more: Protocols, names: set<string>, name: string)
    requires name in names && name in more
    ensures var merged := MergeRows(rows, Without(more, names));
      merged[name := AddRow(RowAt(merged, name), more[name])] == MergeRows(rows, Without(more, names - {name}))
  {
    hide AddRow;
    AddRowAnyOrder(RowAt(rows, name), NO_ROW, more[name]);
    AddRowAnyOrder(more[name], NO_ROW, NO_ROW);
  }

  class CaptureJob {
    var status: Status
    var finished: bool
    var error: Option<string>
    var packets: seq<Numbered>
    var last: nat
    var series: seq<Row>
    var totals: Row
    var unlisted: nat
    var protocols: Protocols
    var flows: Flows

    ghost function View(): Capture
      reads this
    {
      Capture(status, finished, error, packets, last, series, totals, unlisted, protocols, flows)
    }

    constructor ()
      ensures View() == FRESH
    {
      status, finished, error := Capturing, false, None;
      packets, last, series := [], 0, [];
      totals, unlisted, protocols, flows := NO_ROW, 0, map[], map[];
    }

    /** Adds the rows of a tick one by one, in whatever order the table lists them. */
    method AddProtocols(protos: Protocols)
      modifies this`protocols
      ensures protocols == MergeRows(old(protocols), protos)
    {
      var names := protos.Keys;
      ghost var before := protocols;
      hide MergeRows, Without, AddRow, RowAt;
      MergeNone(before, protos);
      while names != {}
        invariant names <= protos.Keys
        invariant protocols == MergeRows(before, Without(protos, names))
        decreases |names|
      {
        var name :| name in names;
        MergeOneMore(before, protos, names, name);
        protocols := protocols[name := AddRow(RowAt(protocols, name), protos[name])];
        names := names - {name};
      }
      assert Without(protos, {}) == protos by { WithoutNone(protos); }
    }

    method AddFlows(list: FlowList)
      modifies this`flows
      ensures flows == KeepFlows(old(flows), list)
    {
      for i := 0 to |list|
        invariant flows == KeepFlows(old(flows), list[..i])
      {
        var (key, flow) := list[i];
        assert list[..i + 1][..i] == list[..i];
        if key !in flows {
          if |flows| >= MAX_KEPT_FLOWS {
            continue;
          }
          flows := flows[key := NO_FLOW];
        }
        flows := flows[key := AddFlow(flows[key], flow)];
      }
      assert list[..|list|] == list;
    }

    method Update(m: Message)
      modifies this
      ensures View() == Apply(old(View()), m)
    {
      hide MergeRows, KeepFlows, AddRow;
      match m
      case Listed(packet, size) =>
        last := last + 1;
        packets := packets + [Numbered(last, packet, size)];
        if |packets| > MAX_PACKETS {
          packets := packets[|packets| - MAX_PACKETS..];
        }
      case Tick(total, protos, skipped, list) =>
        series := series + [total];
        series := series[if |series| > MAX_SERIES then |series| - MAX_SERIES else 0..];
        totals := AddRow(totals, total);
        unlisted := unlisted + skipped;
        AddProtocols(protos);
        AddFlows(list);
      case LastWord(reason) =>
        finished := true;
        if reason == "finished" || reason == "stopped" {
          status := if reason == "finished" then Done else Stopped;
        } else {
          status := Error;
          error := Some(reason);
        }
    }
  }

  class Controller {
    var job: CaptureJob?
    var starting: bool
    ghost var published: seq<CaptureJob>

    /** The current job is the one published last; none was published twice. */
    ghost predicate Valid()
      reads this
    {
      && (job == if published == [] then null else published[|published| - 1])
      && (forall i, j :: 0 <= i < j < |published| ==> published[i] != published[j])
    }

    ghost function Views(): seq<Capture>
      reads this, published
    {
      seq(|published|, i requires 0 <= i < |published| reads this, published => published[i].View())
    }

    ghost function View(): Shared
      reads this, published
    {
      Shared(Views(), if published == [] then None else Some(|published| - 1), starting)
    }

    constructor ()
      ensures Valid() && View() == INIT.shared
    {
      job, starting, published := null, false, [];
    }

    method Reserve() returns (ok: bool)
      requires Valid()
      modifies this`starting
      ensures Valid() && (View(), ok) == ReserveRegion(old(View()))
    {
      if starting || (job != null && job.status == Capturing) {
        return false;
      }
      starting := true;
      assert Views() == old(Views());
      return true;
    }

    /** The job is one that `start` has just made. */
    method Publish(made: CaptureJob)
      requires Valid() && made !in published && made.View() == FRESH
      modifies this`job, this`published
      ensures Valid() && View() == PublishRegion(old(View())) && published == old(published) + [made]
    {
      job, published := made, published + [made];
      assert forall i :: 0 <= i < |published| - 1 ==> published[i] == old(published)[i];
    }

    method Release()
      requires Valid()
      modifies this`starting
      ensures Valid() && View() == ReleaseRegion(old(View()))
    {
      starting := false;
    }

    /** A line of the helper of job `j`, which may have been replaced meanwhile. */
    method Take(j: CaptureJob, m: Message, ghost k: JobId)
      requires Valid() && k < |published| && published[k] == j
      modifies j
      ensures Valid() && View() == ApplyRegion(old(View()), k, m)
    {
      if j != job {
        return;
      }
      j.Update(m);
    }

    method Fail(j: CaptureJob, reason: string, ghost k: JobId)
      requires Valid() && k < |published| && published[k] == j
      modifies j
      ensures Valid() && View() == FailRegion(old(View()), k, reason)
    {
      if j == job && j.status == Capturing {
        j.status, j.error, j.finished := Error, Some(reason), true;
      }
    }

    method Mark(j: CaptureJob, ghost k: JobId)
      requires Valid() && k < |published| && published[k] == j
      modifies j
      ensures Valid() && View() == StopRegion(old(View()), k)
    {
      if j == job && j.status == Capturing {
        j.status, j.finished := Stopped, true;
      }
    }

    method Snapshot(after: nat, limit: nat) returns (packets: seq<Numbered>)
      ensures packets == if job == null then [] else Polled(job.View(), after, limit)
    {
      if job == null {
        return [];
      }
      packets := NewerThan(job.packets, after);
      if limit != 0 {
        packets := LastOf(packets, limit);
      }
    }
  }
}
