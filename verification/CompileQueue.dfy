/**
 The compile queue: rows of jobs numbered in the order in which they wait, at most one of which is
 being compiled. Deleting a waiting job renumbers the others; a worker that finds nothing compiling
 starts the next job that can be compiled and deletes the ones before it that cannot.
 */
module CompileQueue {
  import opened Options

  datatype Status = COMPILE_QUEUED | COMPILING | COMPILE_SUCCESS | QUEUED | FAILED | OTHER

  datatype Job = Job(id: nat, mac: string, name: string, status: Status, order: Option<nat>)

  type Jobs = seq<Job>

  /** The rows, oldest first, and the id the next row gets. */
  datatype Table = Table(jobs: Jobs, nextId: nat)

  predicate Waiting(j: Job) { j.status == COMPILE_QUEUED }

  // Queries.

  function WaitingJobs(jobs: Jobs): Jobs {
    if jobs == [] then [] else if Waiting(jobs[0]) then [jobs[0]] + WaitingJobs(jobs[1..]) else WaitingJobs(jobs[1..])
  }

  function Ids(jobs: Jobs): seq<nat> { seq(|jobs|, i requires 0 <= i < |jobs| => jobs[i].id) }

  /** A missing order sorts before all others. */
  predicate Before(a: Option<nat>, b: Option<nat>) { a.None? || (b.Some? && a.value <= b.value) }

  function Insert(j: Job, sorted: Jobs): Jobs {
    if sorted == [] || Before(j.order, sorted[0].order) then [j] + sorted else [sorted[0]] + Insert(j, sorted[1..])
  }

  /** The rows of a query in ascending `queue_order`. */
  function ByOrder(jobs: Jobs): Jobs {
    if jobs == [] then [] else Insert(jobs[0], ByOrder(jobs[1..]))
  }

  function MaxOrder(jobs: Jobs, status: Status): Option<nat> {
    if jobs == [] then None
    else
      var rest := MaxOrder(jobs[1..], status);
      if jobs[0].status != status || jobs[0].order.None? then rest
      else if rest.None? || rest.value < jobs[0].order.value then jobs[0].order
      else rest
  }

  predicate AnyCompiling(jobs: Jobs) { exists i :: 0 <= i < |jobs| && jobs[i].status == COMPILING }

  // Updates.

  function SetOrder(jobs: Jobs, id: nat, order: nat): Jobs {
    seq(|jobs|, i requires 0 <= i < |jobs| => if jobs[i].id == id then jobs[i].(order := Some(order)) else jobs[i])
  }

  function SetStatus(jobs: Jobs, id: nat, status: Status): Jobs {
    seq(|jobs|, i requires 0 <= i < |jobs| => if jobs[i].id == id then jobs[i].(status := status) else jobs[i])
  }

  function Delete(jobs: Jobs, id: nat): Jobs {
    if jobs == [] then [] else if jobs[0].id == id then Delete(jobs[1..], id) else [jobs[0]] + Delete(jobs[1..], id)
  }

  function DeleteMac(jobs: Jobs, mac: string): Jobs {
    if jobs == [] then [] else if jobs[0].mac == mac then DeleteMac(jobs[1..], mac) else [jobs[0]] + DeleteMac(jobs[1..], mac)
  }

  /** Gives the rows with the listed ids the numbers from `k` on. */
  function Number(jobs: Jobs, ids: seq<nat>, k: nat): Jobs
    decreases |ids|
  {
    if ids == [] then jobs else Number(SetOrder(jobs, ids[0], k), ids[1..], k + 1)
  }

  function Renumber(jobs: Jobs): Jobs { Number(jobs, Ids(ByOrder(WaitingJobs(jobs))), 0) }

  // Operations.

  /** A new job goes behind the others of its queue; jobs in no queue have no number. */
  function Create(t: Table, mac: string, name: string, status: Status): Table {
    var max := MaxOrder(t.jobs, status);
    var order := if status != COMPILE_QUEUED && status != QUEUED then None
                 else if max.None? then Some(0) else Some(max.value + 1);
    Table(t.jobs + [Job(t.nextId, mac, name, status, order)], t.nextId + 1)
  }

  function Abort(t: Table, id: nat): Table { t.(jobs := Renumber(Delete(t.jobs, id))) }

  predicate IsWaiting(jobs: Jobs, id: nat) { exists i :: 0 <= i < |jobs| && jobs[i].id == id && Waiting(jobs[i]) }

  /** Only a job that still waits is started. */
  function StartCompiling(t: Table, id: nat): Table {
    if IsWaiting(t.jobs, id) then t.(jobs := SetStatus(t.jobs, id, COMPILING)) else t
  }

  function Finish(t: Table, id: nat, status: Status): Table { t.(jobs := SetStatus(t.jobs, id, status)) }

  function RemoveDevice(t: Table, mac: string): Table { t.(jobs := DeleteMac(t.jobs, mac)) }

  /** The job a worker takes next: of those waiting, one with the lowest order. */
  function Next(jobs: Jobs): Option<Job> {
    var waiting := ByOrder(WaitingJobs(jobs));
    if waiting == [] then None else Some(waiting[0])
  }

  // Lists of ids.

  /** The ids of the rows with a status, in table order, which is the order of creation. */
  function IdsOf(jobs: Jobs, status: Status): seq<nat> {
    if jobs == [] then [] else if jobs[0].status == status then [jobs[0].id] + IdsOf(jobs[1..], status) else IdsOf(jobs[1..], status)
  }

  function Remove(ids: seq<nat>, id: nat): seq<nat> {
    if ids == [] then [] else if ids[0] == id then Remove(ids[1..], id) else [ids[0]] + Remove(ids[1..], id)
  }

  // The invariant.

  predicate Increasing(jobs: Jobs) { forall i, j :: 0 <= i < j < |jobs| ==> jobs[i].id < jobs[j].id }

  predicate InOrder(jobs: Jobs) {
    && (forall i :: 0 <= i < |jobs| && Waiting(jobs[i]) ==> jobs[i].order.Some?)
    && (forall i, j :: 0 <= i < j < |jobs| && Waiting(jobs[i]) && Waiting(jobs[j]) ==> jobs[i].order.value < jobs[j].order.value)
  }

  predicate Tidy(jobs: Jobs) { Increasing(jobs) && InOrder(jobs) }

  /** Ids grow, waiting jobs are numbered in the order of their ids, and at most one job is being compiled. */
  predicate Ordered(t: Table) {
    Tidy(t.jobs) && (forall i :: 0 <= i < |t.jobs| ==> t.jobs[i].id < t.nextId) && |IdsOf(t.jobs, COMPILING)| <= 1
  }

  lemma TidyTail(jobs: Jobs)
    requires Tidy(jobs) && jobs != []
    ensures Tidy(jobs[1..]) && forall j :: j in jobs[1..] ==> jobs[0].id < j.id
    ensures Waiting(jobs[0]) ==> forall j :: j in jobs[1..] && Waiting(j) ==> j.order.Some? && jobs[0].order.value < j.order.value
  {
  }

  lemma {:induction false} WaitingMembers(jobs: Jobs, j: Job)
    ensures j in WaitingJobs(jobs) <==> j in jobs && Waiting(j)
  {
    if jobs != [] { WaitingMembers(jobs[1..], j); }
  }

  lemma {:induction false} WaitingIds(jobs: Jobs)
    ensures Ids(WaitingJobs(jobs)) == IdsOf(jobs, COMPILE_QUEUED)
  {
    if jobs != [] {
      WaitingIds(jobs[1..]);
      var rest := WaitingJobs(jobs[1..]);
      if Waiting(jobs[0]) {
        assert Ids([jobs[0]] + rest) == [jobs[0].id] + Ids(rest);
      }
    }
  }

  /** Ordered by number is ordered by age. */
  lemma {:induction false} OrderIsAge(jobs: Jobs)
    requires Tidy(jobs)
    ensures ByOrder(WaitingJobs(jobs)) == WaitingJobs(jobs)
  {
    if jobs != [] {
      TidyTail(jobs);
      OrderIsAge(jobs[1..]);
      var rest := WaitingJobs(jobs[1..]);
      if Waiting(jobs[0]) {
        if rest != [] { WaitingMembers(jobs[1..], rest[0]); }
        assert ([jobs[0]] + rest)[1..] == rest;
      }
    }
  }

  // Renumbering.

  /** The waiting rows numbered from `k` on, in table order. */
  function Counted(jobs: Jobs, k: nat): (r: Jobs)
    ensures |r| == |jobs| && forall i :: 0 <= i < |r| ==> r[i] == jobs[i].(order := r[i].order)
    ensures forall i :: 0 <= i < |r| && Waiting(r[i]) ==> r[i].order.Some? && r[i].order.value >= k
    ensures forall i, j :: 0 <= i < j < |r| && Waiting(r[i]) && Waiting(r[j]) ==> r[i].order.value < r[j].order.value
  {
    if jobs == [] then []
    else if Waiting(jobs[0]) then [jobs[0].(order := Some(k))] + Counted(jobs[1..], k + 1)
    else [jobs[0]] + Counted(jobs[1..], k)
  }

  lemma {:induction false} NumberSkips(first: Job, jobs: Jobs, ids: seq<nat>, k: nat)
    requires first.id !in ids
    ensures Number([first] + jobs, ids, k) == [first] + Number(jobs, ids, k)
    decreases |ids|
  {
    if ids != [] {
      NumberSkips(first, SetOrder(jobs, ids[0], k), ids[1..], k + 1);
      assert SetOrder([first] + jobs, ids[0], k) == [first] + SetOrder(jobs, ids[0], k);
    }
  }

  lemma SetFirst(jobs: Jobs, k: nat)
    requires jobs != [] && forall j :: j in jobs[1..] ==> j.id != jobs[0].id
    ensures SetOrder(jobs, jobs[0].id, k) == [jobs[0].(order := Some(k))] + jobs[1..]
  {
  }

  lemma {:induction false} IdsOfBelong(jobs: Jobs, status: Status, id: nat)
    requires id in IdsOf(jobs, status)
    ensures exists i :: 0 <= i < |jobs| && jobs[i].id == id && jobs[i].status == status
  {
    if jobs[0].id != id || jobs[0].status != status {
      IdsOfBelong(jobs[1..], status, id);
      var i :| 0 <= i < |jobs[1..]| && jobs[1..][i].id == id && jobs[1..][i].status == status;
      assert jobs[i + 1].id == id;
    }
  }

  lemma FirstIdOnce(jobs: Jobs, status: Status)
    requires Increasing(jobs) && jobs != []
    ensures jobs[0].id !in IdsOf(jobs[1..], status)
  {
    if jobs[0].id in IdsOf(jobs[1..], status) { IdsOfBelong(jobs[1..], status, jobs[0].id); }
  }

  lemma {:induction false} NumberCounts(jobs: Jobs, k: nat)
    requires Increasing(jobs)
    ensures Number(jobs, IdsOf(jobs, COMPILE_QUEUED), k) == Counted(jobs, k)
    decreases |jobs|
  {
    if jobs != [] {
      var rest := IdsOf(jobs[1..], COMPILE_QUEUED);
      FirstIdOnce(jobs, COMPILE_QUEUED);
      if Waiting(jobs[0]) {
        SetFirst(jobs, k);
        NumberSkips(jobs[0].(order := Some(k)), jobs[1..], rest, k + 1);
        NumberCounts(jobs[1..], k + 1);
        assert ([jobs[0].id] + rest)[1..] == rest;
      } else {
        NumberSkips(jobs[0], jobs[1..], rest, k);
        NumberCounts(jobs[1..], k);
        assert [jobs[0]] + jobs[1..] == jobs;
      }
    }
  }

  lemma RenumberCounts(jobs: Jobs)
    requires Tidy(jobs)
    ensures Renumber(jobs) == Counted(jobs, 0)
  {
    OrderIsAge(jobs);
    WaitingIds(jobs);
    NumberCounts(jobs, 0);
  }

  // What the operations do to the lists of ids, and that they keep the invariant.

  lemma {:induction false} SameIds(jobs: Jobs, jobs': Jobs, status: Status)
    requires |jobs'| == |jobs| && forall i :: 0 <= i < |jobs| ==> jobs'[i].id == jobs[i].id && jobs'[i].status == jobs[i].status
    ensures IdsOf(jobs', status) == IdsOf(jobs, status)
  {
    if jobs != [] { SameIds(jobs[1..], jobs'[1..], status); }
  }

  lemma IdsOfCons(j: Job, jobs: Jobs, status: Status)
    ensures IdsOf([j] + jobs, status) == if j.status == status then [j.id] + IdsOf(jobs, status) else IdsOf(jobs, status)
  {
    assert ([j] + jobs)[1..] == jobs;
  }

  lemma RemoveCons(first: nat, ids: seq<nat>, id: nat)
    ensures Remove([first] + ids, id) == if first == id then Remove(ids, id) else [first] + Remove(ids, id)
  {
    assert ([first] + ids)[1..] == ids;
  }

  lemma {:induction false} IdsOfAppend(a: Jobs, j: Job, status: Status)
    ensures IdsOf(a + [j], status) == if j.status == status then IdsOf(a, status) + [j.id] else IdsOf(a, status)
  {
    if a == [] {
      assert a + [j] == [j] + [];
      IdsOfCons(j, [], status);
    } else {
      IdsOfAppend(a[1..], j, status);
      assert a + [j] == [a[0]] + (a[1..] + [j]);
      IdsOfCons(a[0], a[1..] + [j], status);
    }
  }

  lemma {:induction false} DeleteMembers(jobs: Jobs, id: nat)
    ensures forall j :: j in Delete(jobs, id) ==> j in jobs && j.id != id
    ensures |Delete(jobs, id)| <= |jobs| && ((exists j :: j in jobs && j.id == id) ==> |Delete(jobs, id)| < |jobs|)
  {
    if jobs != [] { DeleteMembers(jobs[1..], id); }
  }

  lemma {:induction false} DeleteIds(jobs: Jobs, id: nat, status: Status)
    ensures IdsOf(Delete(jobs, id), status) == Remove(IdsOf(jobs, status), id)
  {
    if jobs != [] {
      DeleteIds(jobs[1..], id, status);
      RemoveCons(jobs[0].id, IdsOf(jobs[1..], status), id);
      IdsOfCons(jobs[0], Delete(jobs[1..], id), status);
    }
  }

  lemma {:induction false} DeleteTidy(jobs: Jobs, id: nat)
    requires Tidy(jobs)
    ensures Tidy(Delete(jobs, id))
  {
    if jobs != [] {
      TidyTail(jobs);
      DeleteTidy(jobs[1..], id);
      DeleteMembers(jobs[1..], id);
      if jobs[0].id != id { PutFirst(jobs[0], Delete(jobs[1..], id)); }
    }
  }

  lemma PutFirst(j: Job, rest: Jobs)
    requires Tidy(rest) && (forall k :: k in rest ==> j.id < k.id) && (Waiting(j) ==> j.order.Some?)
    requires Waiting(j) ==> forall k :: k in rest && Waiting(k) ==> k.order.Some? && j.order.value < k.order.value
    ensures Tidy([j] + rest)
  {
  }

  lemma {:induction false} DeleteMacTidy(jobs: Jobs, mac: string)
    requires Tidy(jobs)
    ensures Tidy(DeleteMac(jobs, mac)) && forall j :: j in DeleteMac(jobs, mac) ==> j in jobs
  {
    if jobs != [] {
      TidyTail(jobs);
      DeleteMacTidy(jobs[1..], mac);
      if jobs[0].mac != mac { PutFirst(jobs[0], DeleteMac(jobs[1..], mac)); }
    }
  }

  lemma {:induction false} DeleteMacIds(jobs: Jobs, mac: string, status: Status)
    ensures |IdsOf(DeleteMac(jobs, mac), status)| <= |IdsOf(jobs, status)|
  {
    if jobs != [] {
      DeleteMacIds(jobs[1..], mac, status);
      IdsOfCons(jobs[0], DeleteMac(jobs[1..], mac), status);
    }
  }

  lemma CountedTidy(jobs: Jobs)
    requires Increasing(jobs)
    ensures Tidy(Counted(jobs, 0))
  {
  }

  lemma {:induction false} RemoveShrinks(ids: seq<nat>, id: nat)
    ensures |Remove(ids, id)| <= |ids| && (id !in ids ==> Remove(ids, id) == ids)
  {
    if ids != [] { RemoveShrinks(ids[1..], id); }
  }

  lemma AbortKeepsOrdered(t: Table, id: nat)
    requires Ordered(t)
    ensures Ordered(Abort(t, id))
    ensures forall status :: IdsOf(Abort(t, id).jobs, status) == Remove(IdsOf(t.jobs, status), id)
  {
    var left := Delete(t.jobs, id);
    DeleteTidy(t.jobs, id);
    RenumberCounts(left);
    CountedTidy(left);
    forall status
      ensures IdsOf(Abort(t, id).jobs, status) == Remove(IdsOf(t.jobs, status), id)
    {
      DeleteIds(t.jobs, id, status);
      SameIds(left, Counted(left, 0), status);
    }
    DeleteMembers(t.jobs, id);
    RemoveShrinks(IdsOf(t.jobs, COMPILING), id);
    assert forall i :: 0 <= i < |left| ==> left[i] in left;
    assert forall i :: 0 <= i < |left| ==> left[i].id < t.nextId;
  }

  lemma {:induction false} MaxOrderBounds(jobs: Jobs, status: Status)
    ensures forall i :: 0 <= i < |jobs| && jobs[i].status == status && jobs[i].order.Some? ==>
              MaxOrder(jobs, status).Some? && jobs[i].order.value <= MaxOrder(jobs, status).value
  {
    if jobs != [] {
      MaxOrderBounds(jobs[1..], status);
      assert forall i :: 0 < i < |jobs| ==> jobs[i] == jobs[1..][i - 1];
    }
  }

  lemma CreateKeepsOrdered(t: Table, mac: string, name: string, status: Status)
    requires Ordered(t) && status != COMPILING
    ensures Ordered(Create(t, mac, name, status))
    ensures forall s :: IdsOf(Create(t, mac, name, status).jobs, s) == IdsOf(t.jobs, s) + if s == status then [t.nextId] else []
  {
    MaxOrderBounds(t.jobs, status);
    var row := Create(t, mac, name, status).jobs[|t.jobs|];
    forall s
      ensures IdsOf(t.jobs + [row], s) == IdsOf(t.jobs, s) + if s == status then [t.nextId] else []
    {
      IdsOfAppend(t.jobs, row, s);
    }
  }

  lemma {:induction false} CountedPlaces(jobs: Jobs, k: nat, p: nat)
    ensures |WaitingJobs(Counted(jobs, k))| == |WaitingJobs(jobs)|
    ensures p < |WaitingJobs(jobs)| ==>
              WaitingJobs(Counted(jobs, k))[p] == WaitingJobs(jobs)[p].(order := Some(k + p))
    decreases |jobs|
  {
    if jobs != [] {
      if !Waiting(jobs[0]) {
        CountedPlaces(jobs[1..], k, p);
        assert Counted(jobs, k)[1..] == Counted(jobs[1..], k);
      } else {
        CountedPlaces(jobs[1..], k + 1, if p > 0 then p - 1 else 0);
        assert Counted(jobs, k)[1..] == Counted(jobs[1..], k + 1);
      }
    }
  }

  lemma {:induction false} DeleteWaiting(jobs: Jobs, id: nat)
    ensures WaitingJobs(Delete(jobs, id)) == Delete(WaitingJobs(jobs), id)
  {
    if jobs != [] {
      DeleteWaiting(jobs[1..], id);
      var rest := WaitingJobs(jobs[1..]);
      if Waiting(jobs[0]) { assert ([jobs[0]] + rest)[1..] == rest; }
      if jobs[0].id != id { assert ([jobs[0]] + Delete(jobs[1..], id))[1..] == Delete(jobs[1..], id); }
    }
  }

  /** After a deletion the other waiting jobs wait as before, numbered from 0 in steps of one. */
  lemma AbortNumbers(t: Table, id: nat, p: nat)
    requires Ordered(t) && p < |Delete(WaitingJobs(t.jobs), id)|
    ensures var after := WaitingJobs(Abort(t, id).jobs);
            |after| == |Delete(WaitingJobs(t.jobs), id)| && after[p] == Delete(WaitingJobs(t.jobs), id)[p].(order := Some(p))
  {
    DeleteTidy(t.jobs, id);
    RenumberCounts(Delete(t.jobs, id));
    DeleteWaiting(t.jobs, id);
    CountedPlaces(Delete(t.jobs, id), 0, p);
  }

  lemma {:induction false} MaxOrderIsThere(jobs: Jobs, status: Status)
    requires MaxOrder(jobs, status).Some?
    ensures exists i :: 0 <= i < |jobs| && jobs[i].status == status && jobs[i].order == MaxOrder(jobs, status)
  {
    var max := MaxOrder(jobs, status);
    if jobs[0].status != status || jobs[0].order != max {
      MaxOrderIsThere(jobs[1..], status);
      var i :| 0 <= i < |jobs[1..]| && jobs[1..][i].status == status && jobs[1..][i].order == max;
      assert jobs[i + 1].order == max;
    }
  }

  /** A new job in one of the two queues is numbered just above the highest in it, or 0; any other has no number. */
  lemma CreateNumbers(t: Table, mac: string, name: string, status: Status)
    ensures var r := Create(t, mac, name, status);
            var order := r.jobs[|t.jobs|].order;
            && |r.jobs| == |t.jobs| + 1 && r.jobs[..|t.jobs|] == t.jobs
            && (order.Some? <==> status == COMPILE_QUEUED || status == QUEUED)
            && (order.Some? ==>
                  && (forall i :: 0 <= i < |t.jobs| && t.jobs[i].status == status && t.jobs[i].order.Some? ==>
                        t.jobs[i].order.value < order.value)
                  && (order.value > 0 ==>
                        exists i :: 0 <= i < |t.jobs| && t.jobs[i].status == status && t.jobs[i].order == Some(order.value - 1)))
  {
    MaxOrderBounds(t.jobs, status);
    if MaxOrder(t.jobs, status).Some? { MaxOrderIsThere(t.jobs, status); }
  }

  /** A row with a new status leaves the list of its old one. */
  lemma {:induction false} SetStatusLeaves(jobs: Jobs, id: nat, status: Status, s: Status)
    requires s != status
    ensures IdsOf(SetStatus(jobs, id, status), s) == Remove(IdsOf(jobs, s), id)
  {
    if jobs != [] {
      SetStatusLeaves(jobs[1..], id, status, s);
      assert SetStatus(jobs, id, status)[1..] == SetStatus(jobs[1..], id, status);
      RemoveCons(jobs[0].id, IdsOf(jobs[1..], s), id);
    }
  }

  /** A row that gets a status no other has is alone in that list. */
  lemma {:induction false} SetStatusJoins(jobs: Jobs, id: nat, status: Status)
    requires Increasing(jobs) && IdsOf(jobs, status) == []
    ensures IdsOf(SetStatus(jobs, id, status), status) == if exists i :: 0 <= i < |jobs| && jobs[i].id == id then [id] else []
  {
    if jobs != [] {
      var rest := jobs[1..];
      SetStatusJoins(rest, id, status);
      assert SetStatus(jobs, id, status)[1..] == SetStatus(rest, id, status);
      assert forall i :: 0 < i < |jobs| ==> jobs[i] == rest[i - 1];
      if exists i :: 0 <= i < |rest| && rest[i].id == id {
        var i :| 0 <= i < |rest| && rest[i].id == id;
        assert jobs[i + 1].id == id;
      }
    }
  }

  lemma StartKeepsOrdered(t: Table, id: nat)
    requires Ordered(t) && IdsOf(t.jobs, COMPILING) == [] && IsWaiting(t.jobs, id)
    ensures Ordered(StartCompiling(t, id))
    ensures IdsOf(StartCompiling(t, id).jobs, COMPILING) == [id]
    ensures forall s :: s != COMPILING ==> IdsOf(StartCompiling(t, id).jobs, s) == Remove(IdsOf(t.jobs, s), id)
  {
    SetStatusJoins(t.jobs, id, COMPILING);
    forall s | s != COMPILING
      ensures IdsOf(StartCompiling(t, id).jobs, s) == Remove(IdsOf(t.jobs, s), id)
    {
      SetStatusLeaves(t.jobs, id, COMPILING, s);
    }
  }

  lemma FinishKeepsOrdered(t: Table, id: nat, status: Status)
    requires Ordered(t) && status != COMPILING && status != COMPILE_QUEUED
    ensures Ordered(Finish(t, id, status))
  {
    SetStatusLeaves(t.jobs, id, status, COMPILING);
    RemoveShrinks(IdsOf(t.jobs, COMPILING), id);
  }

  lemma RemoveDeviceKeepsOrdered(t: Table, mac: string)
    requires Ordered(t)
    ensures Ordered(RemoveDevice(t, mac))
  {
    var left := DeleteMac(t.jobs, mac);
    DeleteMacTidy(t.jobs, mac);
    DeleteMacIds(t.jobs, mac, COMPILING);
    assert forall i :: 0 <= i < |left| ==> left[i] in left;
  }

  /** A job that ends has its new status, leaves the list of every other, and stays the row it was otherwise; no other row changes. */
  lemma FinishMoves(t: Table, i: nat, status: Status)
    requires Ordered(t) && i < |t.jobs|
    ensures var r := Finish(t, t.jobs[i].id, status);
            && r.nextId == t.nextId && |r.jobs| == |t.jobs| && r.jobs[i] == t.jobs[i].(status := status)
            && (forall j :: 0 <= j < |t.jobs| && j != i ==> r.jobs[j] == t.jobs[j])
            && (forall s :: s != status ==> IdsOf(r.jobs, s) == Remove(IdsOf(t.jobs, s), t.jobs[i].id))
  {
    forall s | s != status
      ensures IdsOf(SetStatus(t.jobs, t.jobs[i].id, status), s) == Remove(IdsOf(t.jobs, s), t.jobs[i].id)
    {
      SetStatusLeaves(t.jobs, t.jobs[i].id, status, s);
    }
  }

  lemma {:induction false} DeleteMacKeeps(jobs: Jobs, mac: string)
    ensures forall j :: j in DeleteMac(jobs, mac) <==> j in jobs && j.mac != mac
  {
    if jobs != [] { DeleteMacKeeps(jobs[1..], mac); }
  }

  /** Removing a device removes exactly its jobs; the others keep their numbers and their order. */
  lemma DeviceGone(t: Table, mac: string)
    requires Ordered(t)
    ensures var left := RemoveDevice(t, mac);
            && Ordered(left) && left.nextId == t.nextId
            && (forall j :: j in left.jobs <==> j in t.jobs && j.mac != mac)
  {
    RemoveDeviceKeepsOrdered(t, mac);
    DeleteMacKeeps(t.jobs, mac);
  }

  // The worker.

  lemma {:induction false} ByOrderMembers(jobs: Jobs, j: Job)
    ensures j in ByOrder(jobs) <==> j in jobs
    ensures |ByOrder(jobs)| == |jobs|
  {
    if jobs != [] {
      ByOrderMembers(jobs[1..], j);
      InsertMembers(jobs[0], ByOrder(jobs[1..]), j);
    }
  }

  lemma {:induction false} InsertMembers(j: Job, sorted: Jobs, k: Job)
    ensures k in Insert(j, sorted) <==> k == j || k in sorted
    ensures |Insert(j, sorted)| == |sorted| + 1
  {
    if sorted != [] { InsertMembers(j, sorted[1..], k); }
  }

  lemma NextIsRow(jobs: Jobs)
    ensures Next(jobs).Some? ==> Next(jobs).value in jobs && Waiting(Next(jobs).value)
  {
    if Next(jobs).Some? {
      var j := Next(jobs).value;
      ByOrderMembers(WaitingJobs(jobs), j);
      WaitingMembers(jobs, j);
    }
  }

  lemma {:induction false} NumberLength(jobs: Jobs, ids: seq<nat>, k: nat)
    ensures |Number(jobs, ids, k)| == |jobs|
    decreases |ids|
  {
    if ids != [] { NumberLength(SetOrder(jobs, ids[0], k), ids[1..], k + 1); }
  }

  lemma AbortShrinks(t: Table, j: Job)
    requires j in t.jobs
    ensures |Abort(t, j.id).jobs| < |t.jobs|
  {
    DeleteMembers(t.jobs, j.id);
    var left := Delete(t.jobs, j.id);
    NumberLength(left, Ids(ByOrder(WaitingJobs(left))), 0);
  }

  /**
   Unless something is being compiled, the worker starts the next waiting job that can be compiled,
   and deletes the ones it passes over. Every further turn has one row less to look at.
   */
  function Dequeue(t: Table, runnable: nat -> bool): Table
    decreases |t.jobs|
  {
    NextIsRow(t.jobs);
    var next := Next(t.jobs);
    if AnyCompiling(t.jobs) || next.None? then t
    else if runnable(next.value.id) then StartCompiling(t, next.value.id)
    else
      AbortShrinks(t, next.value);
      Dequeue(Abort(t, next.value.id), runnable)
  }

  /** The position of the first job that can be compiled, or the length if there is none. */
  function FirstRunnable(ids: seq<nat>, runnable: nat -> bool): (p: nat)
    ensures p <= |ids| && (forall i :: 0 <= i < p ==> !runnable(ids[i])) && (p < |ids| ==> runnable(ids[p]))
  {
    if ids == [] || runnable(ids[0]) then 0 else FirstRunnable(ids[1..], runnable) + 1
  }

  lemma {:induction false} CompilingIds(jobs: Jobs)
    ensures AnyCompiling(jobs) <==> IdsOf(jobs, COMPILING) != []
  {
    if jobs != [] {
      CompilingIds(jobs[1..]);
      if AnyCompiling(jobs[1..]) {
        var i :| 0 <= i < |jobs[1..]| && jobs[1..][i].status == COMPILING;
        assert jobs[i + 1].status == COMPILING;
      }
      if i :| 0 <= i < |jobs| && jobs[i].status == COMPILING { assert i > 0 ==> jobs[1..][i - 1].status == COMPILING; }
    }
  }

  lemma {:induction false} IdsIncrease(jobs: Jobs, status: Status)
    requires Increasing(jobs)
    ensures forall i, j :: 0 <= i < j < |IdsOf(jobs, status)| ==> IdsOf(jobs, status)[i] < IdsOf(jobs, status)[j]
  {
    if jobs != [] {
      IdsIncrease(jobs[1..], status);
      forall id | id in IdsOf(jobs[1..], status)
        ensures jobs[0].id < id
      {
        IdsOfBelong(jobs[1..], status, id);
      }
      var rest := IdsOf(jobs[1..], status);
      assert forall j :: 0 <= j < |rest| ==> rest[j] in rest;
    }
  }

  lemma IdsApart(jobs: Jobs, s: Status, u: Status, id: nat)
    requires Increasing(jobs) && s != u && id in IdsOf(jobs, s)
    ensures id !in IdsOf(jobs, u)
  {
    if id in IdsOf(jobs, u) {
      IdsOfBelong(jobs, s, id);
      IdsOfBelong(jobs, u, id);
    }
  }

  lemma RemoveFirst(ids: seq<nat>)
    requires ids != [] && ids[0] !in ids[1..]
    ensures Remove(ids, ids[0]) == ids[1..]
  {
    RemoveShrinks(ids[1..], ids[0]);
  }

  /** In an ordered table the next job is the oldest that waits. */
  lemma NextIsOldest(t: Table)
    requires Ordered(t)
    ensures var ids := IdsOf(t.jobs, COMPILE_QUEUED);
            if ids == [] then Next(t.jobs) == None
            else Next(t.jobs).Some? && Next(t.jobs).value.id == ids[0] && IsWaiting(t.jobs, ids[0]) && Remove(ids, ids[0]) == ids[1..]
  {
    var ids := IdsOf(t.jobs, COMPILE_QUEUED);
    OrderIsAge(t.jobs);
    WaitingIds(t.jobs);
    if ids != [] {
      IdsIncrease(t.jobs, COMPILE_QUEUED);
      IdsOfBelong(t.jobs, COMPILE_QUEUED, ids[0]);
      RemoveFirst(ids);
    }
  }

  /** Removing a waiting job's id leaves the lists of all other statuses alone. */
  lemma OthersStay(t: Table, id: nat)
    requires Ordered(t) && id in IdsOf(t.jobs, COMPILE_QUEUED)
    ensures forall s :: s != COMPILE_QUEUED ==> Remove(IdsOf(t.jobs, s), id) == IdsOf(t.jobs, s)
  {
    forall s | s != COMPILE_QUEUED
      ensures Remove(IdsOf(t.jobs, s), id) == IdsOf(t.jobs, s)
    {
      IdsApart(t.jobs, COMPILE_QUEUED, s, id);
      RemoveShrinks(IdsOf(t.jobs, s), id);
    }
  }

  /** What is left after the worker took position `p` of the queue, or passed over all of it. */
  predicate Took(before: Jobs, after: Jobs, p: nat) {
    var ids := IdsOf(before, COMPILE_QUEUED);
    if p < |ids| then IdsOf(after, COMPILE_QUEUED) == ids[p + 1..] && IdsOf(after, COMPILING) == [ids[p]]
    else IdsOf(after, COMPILE_QUEUED) == [] && IdsOf(after, COMPILING) == []
  }

  /**
   With nothing being compiled, the worker starts the oldest job that can be compiled; exactly the
   older ones, none of which can, are deleted, and the younger ones wait in the order they did.
   */
  lemma {:induction false} DequeueStartsOldest(t: Table, runnable: nat -> bool)
    requires Ordered(t) && IdsOf(t.jobs, COMPILING) == []
    ensures var r := Dequeue(t, runnable);
            && Ordered(r) && r.nextId == t.nextId
            && Took(t.jobs, r.jobs, FirstRunnable(IdsOf(t.jobs, COMPILE_QUEUED), runnable))
            && forall s :: s != COMPILE_QUEUED && s != COMPILING ==> IdsOf(r.jobs, s) == IdsOf(t.jobs, s)
    decreases |t.jobs|
  {
    var ids := IdsOf(t.jobs, COMPILE_QUEUED);
    CompilingIds(t.jobs);
    NextIsOldest(t);
    if ids != [] {
      OthersStay(t, ids[0]);
      if runnable(ids[0]) {
        StartKeepsOrdered(t, ids[0]);
      } else {
        NextIsRow(t.jobs);
        AbortShrinks(t, Next(t.jobs).value);
        AbortKeepsOrdered(t, ids[0]);
        DequeueStartsOldest(Abort(t, ids[0]), runnable);
      }
    }
  }

  /** A worker that finds a job being compiled leaves the table alone. */
  lemma DequeueWaits(t: Table, runnable: nat -> bool)
    requires IdsOf(t.jobs, COMPILING) != []
    ensures Dequeue(t, runnable) == t
  {
    CompilingIds(t.jobs);
  }

  // Positions.

  function CountBelow(jobs: Jobs, order: nat): nat {
    if jobs == [] then 0
    else (if Waiting(jobs[0]) && jobs[0].order.Some? && jobs[0].order.value < order then 1 else 0) + CountBelow(jobs[1..], order)
  }

  lemma {:induction false} NoneBelow(jobs: Jobs, order: nat)
    requires forall j :: j in jobs && Waiting(j) ==> j.order.Some? && order <= j.order.value
    ensures CountBelow(jobs, order) == 0
  {
    if jobs != [] { NoneBelow(jobs[1..], order); }
  }

  /** The position shown to the user is the job's place in the queue. */
  lemma {:induction false} PositionIsPlace(jobs: Jobs, p: nat)
    requires Tidy(jobs) && p < |WaitingJobs(jobs)|
    ensures WaitingJobs(jobs)[p].order.Some? && CountBelow(jobs, WaitingJobs(jobs)[p].order.value) == p
  {
    TidyTail(jobs);
    WaitingMembers(jobs, WaitingJobs(jobs)[p]);
    var j := WaitingJobs(jobs)[p];
    if !Waiting(jobs[0]) {
      PositionIsPlace(jobs[1..], p);
    } else if p > 0 {
      PositionIsPlace(jobs[1..], p - 1);
      WaitingMembers(jobs[1..], j);
    } else {
      NoneBelow(jobs[1..], jobs[0].order.value);
    }
  }

  // The flash queue, which a user may reorder.

  /** Where `list.insert` puts an element: a negative index counts from the end, and none reaches past an end. */
  function InsertIndex(n: nat, index: int): (i: nat)
    ensures i <= n && (0 <= index <= n ==> i == index)
  {
    if index > n then n else if index >= 0 then index else if index + n >= 0 then index + n else 0
  }

  function InsertAt(ids: seq<nat>, index: int, id: nat): seq<nat> {
    var i := InsertIndex(|ids|, index);
    ids[..i] + [id] + ids[i..]
  }

  function FlashJobs(jobs: Jobs): Jobs {
    if jobs == [] then [] else if jobs[0].status == QUEUED then [jobs[0]] + FlashJobs(jobs[1..]) else FlashJobs(jobs[1..])
  }

  /** The ids of the jobs waiting to be flashed, in the order of their numbers. */
  function FlashIds(jobs: Jobs): seq<nat> { Ids(ByOrder(FlashJobs(jobs))) }

  function Reorder(t: Table, id: nat, index: int): Table {
    var ids := FlashIds(t.jobs);
    if id !in ids then t else t.(jobs := Number(t.jobs, InsertAt(Remove(ids, id), index, id), 0))
  }

  predicate Distinct(ids: seq<nat>) { forall i, j :: 0 <= i < j < |ids| ==> ids[i] != ids[j] }

  /** Numbering changes the listed rows only, and gives each its position in the list. */
  lemma {:induction false} NumberAssigns(jobs: Jobs, ids: seq<nat>, k: nat)
    requires Distinct(ids)
    ensures var r := Number(jobs, ids, k);
            && |r| == |jobs|
            && (forall i :: 0 <= i < |jobs| ==> r[i] == jobs[i].(order := r[i].order))
            && (forall i :: 0 <= i < |jobs| && jobs[i].id !in ids ==> r[i] == jobs[i])
            && (forall i, p :: 0 <= i < |jobs| && 0 <= p < |ids| && jobs[i].id == ids[p] ==> r[i].order == Some(k + p))
    decreases |ids|
  {
    if ids != [] {
      var first := SetOrder(jobs, ids[0], k);
      NumberAssigns(first, ids[1..], k + 1);
      var r := Number(jobs, ids, k);
      assert ids[0] !in ids[1..];
      forall i, p | 0 <= i < |jobs| && 0 <= p < |ids| && jobs[i].id == ids[p]
        ensures r[i].order == Some(k + p)
      {
        assert first[i].id == jobs[i].id;
        if p > 0 { assert ids[1..][p - 1] == ids[p]; }
      }
    }
  }

  predicate DifferentIds(jobs: Jobs) { forall i, j :: 0 <= i < j < |jobs| ==> jobs[i].id != jobs[j].id }

  lemma {:induction false} InsertDifferent(j: Job, sorted: Jobs)
    requires DifferentIds(sorted) && forall k :: k in sorted ==> k.id != j.id
    ensures DifferentIds(Insert(j, sorted))
  {
    if sorted != [] && !Before(j.order, sorted[0].order) {
      InsertDifferent(j, sorted[1..]);
      var rest := Insert(j, sorted[1..]);
      forall k | k in rest
        ensures k.id != sorted[0].id
      {
        InsertMembers(j, sorted[1..], k);
      }
    }
  }

  lemma {:induction false} ByOrderDifferent(jobs: Jobs)
    requires DifferentIds(jobs)
    ensures DifferentIds(ByOrder(jobs))
  {
    if jobs != [] {
      ByOrderDifferent(jobs[1..]);
      forall k | k in ByOrder(jobs[1..])
        ensures k.id != jobs[0].id
      {
        ByOrderMembers(jobs[1..], k);
      }
      InsertDifferent(jobs[0], ByOrder(jobs[1..]));
    }
  }

  lemma {:induction false} FlashMembers(jobs: Jobs)
    requires Increasing(jobs)
    ensures forall j :: j in FlashJobs(jobs) <==> j in jobs && j.status == QUEUED
    ensures DifferentIds(FlashJobs(jobs))
  {
    if jobs != [] {
      FlashMembers(jobs[1..]);
      assert forall j :: j in jobs[1..] ==> jobs[0].id < j.id;
    }
  }

  /** The flash queue lists each job waiting to be flashed once, and no other. */
  lemma FlashIdsAre(jobs: Jobs)
    requires Increasing(jobs)
    ensures Distinct(FlashIds(jobs))
    ensures forall i :: 0 <= i < |jobs| ==> (jobs[i].id in FlashIds(jobs) <==> jobs[i].status == QUEUED)
  {
    var sorted := ByOrder(FlashJobs(jobs));
    FlashMembers(jobs);
    ByOrderDifferent(FlashJobs(jobs));
    forall i | 0 <= i < |jobs|
      ensures jobs[i].id in FlashIds(jobs) <==> jobs[i].status == QUEUED
    {
      ByOrderMembers(FlashJobs(jobs), jobs[i]);
      if jobs[i].status == QUEUED {
        var p :| 0 <= p < |sorted| && sorted[p] == jobs[i];
        assert FlashIds(jobs)[p] == jobs[i].id;
      }
      if p :| 0 <= p < |sorted| && sorted[p].id == jobs[i].id {
        ByOrderMembers(FlashJobs(jobs), sorted[p]);
      }
    }
  }

  lemma {:induction false} RemoveFacts(ids: seq<nat>, id: nat)
    requires Distinct(ids)
    ensures Distinct(Remove(ids, id)) && forall x :: x in Remove(ids, id) <==> x in ids && x != id
  {
    if ids != [] {
      RemoveFacts(ids[1..], id);
      assert ids[0] !in ids[1..];
    }
  }

  lemma InsertAtFacts(ids: seq<nat>, index: int, id: nat)
    requires Distinct(ids) && id !in ids
    ensures Distinct(InsertAt(ids, index, id)) && InsertAt(ids, index, id)[InsertIndex(|ids|, index)] == id
    ensures forall x :: x in InsertAt(ids, index, id) <==> x == id || x in ids
  {
    var i := InsertIndex(|ids|, index);
    assert ids == ids[..i] + ids[i..];
    DistinctParts(ids[..i], ids[i..], id);
  }

  lemma DistinctParts(a: seq<nat>, b: seq<nat>, id: nat)
    requires Distinct(a + b) && id !in a + b
    ensures Distinct(a + [id] + b) && (a + [id] + b)[|a|] == id
    ensures forall x :: x in a + [id] + b <==> x == id || x in a + b
  {
    assert forall x :: x in a + b <==> x in a || x in b;
    assert forall x :: x in a + [id] + b <==> x in a || x == id || x in b;
    assert forall i :: 0 <= i < |a| ==> a[i] == (a + b)[i];
    assert forall j :: 0 <= j < |b| ==> b[j] == (a + b)[|a| + j];
  }

  /**
   Reordering numbers the jobs waiting to be flashed by their places in the list with the moved job
   at its new index, and leaves every other row alone.
   */
  lemma ReorderPlaces(t: Table, id: nat, index: int)
    requires Ordered(t) && id in FlashIds(t.jobs)
    ensures var r, ids := Reorder(t, id, index), InsertAt(Remove(FlashIds(t.jobs), id), index, id);
            && Ordered(r) && |r.jobs| == |t.jobs| && Distinct(ids)
            && (forall i :: 0 <= i < |t.jobs| ==> r.jobs[i] == t.jobs[i].(order := r.jobs[i].order))
            && (forall i :: 0 <= i < |t.jobs| && t.jobs[i].status != QUEUED ==> r.jobs[i] == t.jobs[i])
            && (forall i, p :: 0 <= i < |t.jobs| && 0 <= p < |ids| && t.jobs[i].id == ids[p] ==> r.jobs[i].order == Some(p))
            && (forall i :: 0 <= i < |t.jobs| ==> (t.jobs[i].status == QUEUED <==> t.jobs[i].id in ids))
  {
    var was, ids := FlashIds(t.jobs), InsertAt(Remove(FlashIds(t.jobs), id), index, id);
    FlashIdsAre(t.jobs);
    RemoveFacts(was, id);
    InsertAtFacts(Remove(was, id), index, id);
    NumberAssigns(t.jobs, ids, 0);
    SameIds(t.jobs, Reorder(t, id, index).jobs, COMPILING);
  }

  // What that means for the rows.

  /** In ascending order, missing orders first. */
  predicate Ascending(jobs: Jobs) {
    forall i, j :: 0 <= i < j < |jobs| && jobs[i].order.Some? ==> jobs[j].order.Some? && jobs[i].order.value <= jobs[j].order.value
  }

  lemma AscendingCons(first: Job, rest: Jobs)
    requires Ascending(rest)
    requires first.order.Some? ==> forall k :: k in rest ==> k.order.Some? && first.order.value <= k.order.value
    ensures Ascending([first] + rest)
  {
  }

  lemma AscendingTail(jobs: Jobs)
    requires Ascending(jobs) && jobs != []
    ensures Ascending(jobs[1..])
    ensures jobs[0].order.Some? ==> forall k :: k in jobs[1..] ==> k.order.Some? && jobs[0].order.value <= k.order.value
  {
  }

  lemma {:induction false} InsertAscends(j: Job, sorted: Jobs)
    requires Ascending(sorted)
    ensures Ascending(Insert(j, sorted))
  {
    if sorted != [] {
      var first, rest := sorted[0], sorted[1..];
      AscendingTail(sorted);
      if Before(j.order, first.order) {
        AscendingCons(j, sorted);
      } else {
        InsertAscends(j, rest);
        forall k | k in Insert(j, rest)
          ensures first.order.Some? ==> k.order.Some? && first.order.value <= k.order.value
        {
          InsertMembers(j, rest, k);
        }
        AscendingCons(first, Insert(j, rest));
      }
    }
  }

  lemma {:induction false} InsertAdds(j: Job, sorted: Jobs)
    ensures multiset(Insert(j, sorted)) == multiset(sorted) + multiset{j}
  {
    if sorted != [] && !Before(j.order, sorted[0].order) {
      InsertAdds(j, sorted[1..]);
      assert sorted == [sorted[0]] + sorted[1..];
    }
  }

  /** A query in ascending order gives exactly the rows it selects, in ascending order. */
  lemma {:induction false} ByOrderSorts(jobs: Jobs)
    ensures multiset(ByOrder(jobs)) == multiset(jobs) && Ascending(ByOrder(jobs))
  {
    if jobs != [] {
      ByOrderSorts(jobs[1..]);
      InsertAscends(jobs[0], ByOrder(jobs[1..]));
      InsertAdds(jobs[0], ByOrder(jobs[1..]));
      assert jobs == [jobs[0]] + jobs[1..];
    }
  }

  /** The one row comes strictly before the other. */
  predicate Earlier(a: Option<nat>, b: Option<nat>) { b.Some? && (a.None? || a.value < b.value) }

  predicate Precedes(ids: seq<nat>, x: nat, y: nat) { exists i, j :: 0 <= i < j < |ids| && ids[i] == x && ids[j] == y }

  lemma PrecedesCons(first: nat, ids: seq<nat>, x: nat, y: nat)
    ensures Precedes([first] + ids, x, y) <==> (first == x && y in ids) || Precedes(ids, x, y)
  {
    var all := [first] + ids;
    if first == x && y in ids {
      var j :| 0 <= j < |ids| && ids[j] == y;
      assert all[0] == x && all[j + 1] == y;
    }
    if Precedes(ids, x, y) {
      var i, j :| 0 <= i < j < |ids| && ids[i] == x && ids[j] == y;
      assert all[i + 1] == x && all[j + 1] == y;
    }
    if Precedes(all, x, y) {
      var i, j :| 0 <= i < j < |all| && all[i] == x && all[j] == y;
      assert ids[j - 1] == y;
      if i > 0 { assert ids[i - 1] == x; }
    }
  }

  lemma {:induction false} InRemoved(ids: seq<nat>, id: nat, y: nat)
    requires y in ids && y != id
    ensures y in Remove(ids, id)
  {
    if ids[0] != y { InRemoved(ids[1..], id, y); }
  }

  lemma {:induction false} RemoveKeepsPlaces(ids: seq<nat>, id: nat, x: nat, y: nat)
    requires Precedes(ids, x, y) && x != id && y != id
    ensures Precedes(Remove(ids, id), x, y)
  {
    var rest := ids[1..];
    assert ids == [ids[0]] + rest;
    PrecedesCons(ids[0], rest, x, y);
    if Precedes(rest, x, y) {
      RemoveKeepsPlaces(rest, id, x, y);
    } else {
      InRemoved(rest, id, y);
    }
    PrecedesCons(ids[0], Remove(rest, id), x, y);
  }

  lemma InsertKeepsPlaces(ids: seq<nat>, index: int, id: nat, x: nat, y: nat)
    requires Precedes(ids, x, y)
    ensures Precedes(InsertAt(ids, index, id), x, y)
  {
    var at := InsertIndex(|ids|, index);
    var i, j :| 0 <= i < j < |ids| && ids[i] == x && ids[j] == y;
    var i', j' := if i < at then i else i + 1, if j < at then j else j + 1;
    assert InsertAt(ids, index, id)[i'] == x && InsertAt(ids, index, id)[j'] == y;
  }

  /** The queue lists earlier rows first. */
  lemma EarlierPrecedes(jobs: Jobs, a: nat, b: nat)
    requires Increasing(jobs) && a < |jobs| && b < |jobs| && jobs[a].status == QUEUED && jobs[b].status == QUEUED
    requires Earlier(jobs[a].order, jobs[b].order)
    ensures Precedes(FlashIds(jobs), jobs[a].id, jobs[b].id)
  {
    var sorted := ByOrder(FlashJobs(jobs));
    FlashMembers(jobs);
    ByOrderSorts(FlashJobs(jobs));
    ByOrderMembers(FlashJobs(jobs), jobs[a]);
    ByOrderMembers(FlashJobs(jobs), jobs[b]);
    var p :| 0 <= p < |sorted| && sorted[p] == jobs[a];
    var q :| 0 <= q < |sorted| && sorted[q] == jobs[b];
    assert p < q;
    assert FlashIds(jobs)[p] == jobs[a].id && FlashIds(jobs)[q] == jobs[b].id;
  }

  lemma {:induction false} FlashCount(jobs: Jobs)
    ensures |FlashJobs(jobs)| == |IdsOf(jobs, QUEUED)|
  {
    if jobs != [] { FlashCount(jobs[1..]); }
  }

  lemma {:induction false} RemoveOne(ids: seq<nat>, id: nat)
    requires Distinct(ids) && id in ids
    ensures |Remove(ids, id)| == |ids| - 1
  {
    assert ids[0] !in ids[1..];
    if ids[0] == id { RemoveShrinks(ids[1..], id); } else { RemoveOne(ids[1..], id); }
  }

  /** The queue with the moved job at its new place. */
  function Moved(jobs: Jobs, id: nat, index: int): seq<nat> { InsertAt(Remove(FlashIds(jobs), id), index, id) }

  lemma MovedFacts(t: Table, id: nat, index: int)
    requires Ordered(t) && id in IdsOf(t.jobs, QUEUED)
    ensures var ids, n := Moved(t.jobs, id, index), |IdsOf(t.jobs, QUEUED)|;
            && id in FlashIds(t.jobs) && |ids| == n && ids[InsertIndex(n - 1, index)] == id
            && forall i :: 0 <= i < |t.jobs| && t.jobs[i].status == QUEUED ==> exists p :: 0 <= p < n && ids[p] == t.jobs[i].id
  {
    IdsOfBelong(t.jobs, QUEUED, id);
    FlashIdsAre(t.jobs);
    var k :| 0 <= k < |t.jobs| && t.jobs[k].id == id && t.jobs[k].status == QUEUED;
    var was := FlashIds(t.jobs);
    RemoveFacts(was, id);
    RemoveOne(was, id);
    InsertAtFacts(Remove(was, id), index, id);
    FlashCount(t.jobs);
    ByOrderMembers(FlashJobs(t.jobs), t.jobs[k]);
    forall i | 0 <= i < |t.jobs| && t.jobs[i].status == QUEUED
      ensures exists p :: 0 <= p < |was| && Moved(t.jobs, id, index)[p] == t.jobs[i].id
    {
      assert t.jobs[i].id in Moved(t.jobs, id, index);
    }
  }

  /** A row of the flash queue gets its place in the new list. */
  lemma NewNumber(t: Table, id: nat, index: int, i: nat) returns (p: nat)
    requires Ordered(t) && id in IdsOf(t.jobs, QUEUED) && i < |t.jobs| && t.jobs[i].status == QUEUED
    ensures var r, ids := Reorder(t, id, index), Moved(t.jobs, id, index);
            |r.jobs| == |t.jobs| && p < |ids| == |IdsOf(t.jobs, QUEUED)| && ids[p] == t.jobs[i].id && r.jobs[i].order == Some(p)
  {
    MovedFacts(t, id, index);
    ReorderPlaces(t, id, index);
    var ids := Moved(t.jobs, id, index);
    p :| 0 <= p < |ids| && ids[p] == t.jobs[i].id;
  }

  /** Of any two other jobs waiting to be flashed, the one that came first still does. */
  lemma ReorderKeepsOthers(t: Table, id: nat, index: int, a: nat, b: nat)
    requires Ordered(t) && id in IdsOf(t.jobs, QUEUED) && a < |t.jobs| && b < |t.jobs|
    requires t.jobs[a].status == QUEUED && t.jobs[b].status == QUEUED && t.jobs[a].id != id && t.jobs[b].id != id
    requires Earlier(t.jobs[a].order, t.jobs[b].order)
    ensures var r := Reorder(t, id, index); |r.jobs| == |t.jobs| && Earlier(r.jobs[a].order, r.jobs[b].order)
  {
    var x, y, ids := t.jobs[a].id, t.jobs[b].id, Moved(t.jobs, id, index);
    EarlierPrecedes(t.jobs, a, b);
    RemoveKeepsPlaces(FlashIds(t.jobs), id, x, y);
    InsertKeepsPlaces(Remove(FlashIds(t.jobs), id), index, id, x, y);
    var p, q :| 0 <= p < q < |ids| && ids[p] == x && ids[q] == y;
    ReorderAt(t, id, index, a, p);
    ReorderAt(t, id, index, b, q);
  }

  lemma ReorderAt(t: Table, id: nat, index: int, i: nat, p: nat)
    requires Ordered(t) && id in IdsOf(t.jobs, QUEUED) && i < |t.jobs| && p < |Moved(t.jobs, id, index)|
    requires Moved(t.jobs, id, index)[p] == t.jobs[i].id
    ensures var r := Reorder(t, id, index); |r.jobs| == |t.jobs| && r.jobs[i].order == Some(p)
  {
    MovedFacts(t, id, index);
    ReorderPlaces(t, id, index);
  }

  /** The moved job has the index asked for; a negative one counts from the end, and none reaches past an end. */
  lemma MovedToIndex(t: Table, id: nat, index: int, i: nat)
    requires Ordered(t) && id in IdsOf(t.jobs, QUEUED) && i < |t.jobs| && t.jobs[i].id == id
    ensures var r, n := Reorder(t, id, index), |IdsOf(t.jobs, QUEUED)|;
            && |r.jobs| == |t.jobs|
            && r.jobs[i].order == Some(if index >= n then n - 1 else if index >= 0 then index
                                       else if index + n - 1 >= 0 then index + n - 1 else 0)
  {
    MovedFacts(t, id, index);
    ReorderAt(t, id, index, i, InsertIndex(|IdsOf(t.jobs, QUEUED)| - 1, index));
  }

  /** The jobs waiting to be flashed are numbered below their count, no two alike, and nothing else about any row changes. */
  lemma ReorderNumbers(t: Table, id: nat, index: int, i: nat, j: nat)
    requires Ordered(t) && id in IdsOf(t.jobs, QUEUED) && i < j < |t.jobs|
    requires t.jobs[i].status == QUEUED && t.jobs[j].status == QUEUED
    ensures var r, n := Reorder(t, id, index), |IdsOf(t.jobs, QUEUED)|;
            && |r.jobs| == |t.jobs| && r.jobs[i].order.Some? && r.jobs[j].order.Some?
            && r.jobs[i].order.value < n && r.jobs[j].order.value < n && r.jobs[i].order != r.jobs[j].order
  {
    var p := NewNumber(t, id, index, i);
    var q := NewNumber(t, id, index, j);
  }

  // Whole runs.

  datatype Op =
    | Add(mac: string, name: string, status: Status)
    | Drop(id: nat)
    | Work(runnable: nat -> bool)
    | End(id: nat, status: Status)
    | Unregister(mac: string)
    | Move(id: nat, index: int)

  /** Jobs are never created as being compiled, and end in a status of their own. */
  predicate Permitted(op: Op) {
    match op
    case Add(_, _, status) => status != COMPILING
    case End(_, status) => status != COMPILING && status != COMPILE_QUEUED
    case _ => true
  }

  function Apply(t: Table, op: Op): Table {
    match op
    case Add(mac, name, status) => Create(t, mac, name, status)
    case Drop(id) => Abort(t, id)
    case Work(runnable) => Dequeue(t, runnable)
    case End(id, status) => Finish(t, id, status)
    case Unregister(mac) => RemoveDevice(t, mac)
    case Move(id, index) => Reorder(t, id, index)
  }

  lemma ApplyKeepsOrdered(t: Table, op: Op)
    requires Ordered(t) && Permitted(op)
    ensures Ordered(Apply(t, op))
  {
    match op
    case Add(mac, name, status) => CreateKeepsOrdered(t, mac, name, status);
    case Drop(id) => AbortKeepsOrdered(t, id);
    case Work(runnable) =>
      if IdsOf(t.jobs, COMPILING) == [] { DequeueStartsOldest(t, runnable); } else { DequeueWaits(t, runnable); }
    case End(id, status) => FinishKeepsOrdered(t, id, status);
    case Unregister(mac) => RemoveDeviceKeepsOrdered(t, mac);
    case Move(id, index) => if id in FlashIds(t.jobs) { ReorderPlaces(t, id, index); }
  }

  ghost function After(t: Table, ops: seq<Op>): Table {
    if ops == [] then t else Apply(After(t, ops[..|ops| - 1]), ops[|ops| - 1])
  }

  /** Over any run, at most one job is being compiled and jobs wait in the order of their creation. */
  lemma {:induction false} AlwaysOrdered(ops: seq<Op>)
    requires forall i :: 0 <= i < |ops| ==> Permitted(ops[i])
    ensures Ordered(After(Table([], 1), ops))
  {
    if ops != [] {
      AlwaysOrdered(ops[..|ops| - 1]);
      ApplyKeepsOrdered(After(Table([], 1), ops[..|ops| - 1]), ops[|ops| - 1]);
    }
  }

  // As it runs.

  class Database {
    var jobs: Jobs
    var nextId: nat

    ghost function View(): Table
      reads this
    {
      Table(jobs, nextId)
    }

    constructor ()
      ensures View() == Table([], 1) && Ordered(View())
    {
      jobs, nextId := [], 1;
    }

    method CreateJob(mac: string, name: string, status: Status) returns (id: nat)
      requires Ordered(View()) && status != COMPILING
      modifies this
      ensures id == old(nextId) && View() == Create(old(View()), mac, name, status) && Ordered(View())
    {
      CreateKeepsOrdered(View(), mac, name, status);
      var order: Option<nat> := None;
      if status == COMPILE_QUEUED || status == QUEUED {
        var max := MaxOrder(jobs, status);
        order := Some(if max.Some? then max.value + 1 else 0);
      }
      id := nextId;
      jobs, nextId := jobs + [Job(id, mac, name, status, order)], nextId + 1;
    }

    /** Deletes a job and numbers the waiting ones anew. */
    method AbortCompileQueuedJob(id: nat)
      requires Ordered(View())
      modifies this
      ensures View() == Abort(old(View()), id) && Ordered(View())
    {
      AbortKeepsOrdered(View(), id);
      jobs := Delete(jobs, id);
      var remaining := Ids(ByOrder(WaitingJobs(jobs)));
      ghost var numbered := Number(jobs, remaining, 0);
      for idx := 0 to |remaining|
        invariant numbered == Number(jobs, remaining[idx..], idx) && nextId == old(nextId)
      {
        jobs := SetOrder(jobs, remaining[idx], idx);
      }
    }

    method ReorderQueue(id: nat, index: int)
      requires Ordered(View())
      modifies this
      ensures View() == Reorder(old(View()), id, index) && Ordered(View())
    {
      var current := FlashIds(jobs);
      if id !in current {
        return;
      }
      ReorderPlaces(View(), id, index);
      current := InsertAt(Remove(current, id), index, id);
      ghost var numbered := Number(jobs, current, 0);
      for idx := 0 to |current|
        invariant numbered == Number(jobs, current[idx..], idx) && nextId == old(nextId)
      {
        jobs := SetOrder(jobs, current[idx], idx);
      }
    }

    method TransitionToCompiling(id: nat)
      modifies this
      ensures View() == StartCompiling(old(View()), id)
    {
      if IsWaiting(jobs, id) { jobs := SetStatus(jobs, id, COMPILING); }
    }

    method MarkTerminal(id: nat, status: Status)
      requires Ordered(View()) && status != COMPILING && status != COMPILE_QUEUED
      modifies this
      ensures View() == Finish(old(View()), id, status) && Ordered(View())
    {
      FinishKeepsOrdered(View(), id, status);
      jobs := SetStatus(jobs, id, status);
    }

    /** How many jobs wait before this one: for a waiting job, its place in the queue. */
    method CountCompileQueuedBefore(job: Job) returns (n: nat)
      requires Ordered(View())
      ensures forall p: nat :: p < |WaitingJobs(jobs)| && WaitingJobs(jobs)[p] == job ==> n == p
    {
      forall p: nat | p < |WaitingJobs(jobs)|
        ensures WaitingJobs(jobs)[p].order.Some? && CountBelow(jobs, WaitingJobs(jobs)[p].order.value) == p
      {
        PositionIsPlace(jobs, p);
      }
      n := if job.order.None? then 0 else CountBelow(jobs, job.order.value);
    }

    /** The worker's turn; it calls itself after deleting a job that cannot be compiled. */
    method DequeueNext(runnable: nat -> bool)
      requires Ordered(View())
      modifies this
      ensures View() == Dequeue(old(View()), runnable) && Ordered(View())
      decreases |jobs|
    {
      ApplyKeepsOrdered(View(), Work(runnable));
      if AnyCompiling(jobs) {
        return;
      }
      var next := Next(jobs);
      if next.None? {
        return;
      }
      if !runnable(next.value.id) {
        NextIsRow(jobs);
        AbortShrinks(View(), next.value);
        AbortCompileQueuedJob(next.value.id);
        DequeueNext(runnable);
        return;
      }
      TransitionToCompiling(next.value.id);
    }

    /** After a restart no compile survives. */
    method RecoverStartup()
      requires Ordered(View())
      modifies this
      ensures Ordered(View()) && IdsOf(jobs, COMPILING) == []
      ensures View() == if IdsOf(old(jobs), COMPILING) == [] then old(View()) else Finish(old(View()), IdsOf(old(jobs), COMPILING)[0], FAILED)
      ensures forall s :: s != COMPILING && s != FAILED ==> IdsOf(jobs, s) == IdsOf(old(jobs), s)
    {
      CompilingIds(jobs);
      if i :| 0 <= i < |jobs| && jobs[i].status == COMPILING {
        var id := jobs[i].id;
        RecoverFacts(View(), i);
        MarkTerminal(id, FAILED);
      }
    }

    /** Takes back a job that waits or is being compiled; other jobs are left alone. */
    method Cancel(id: nat) returns (found: bool)
      requires Ordered(View())
      modifies this
      ensures Ordered(View())
      ensures found <==> id in IdsOf(old(jobs), COMPILING) || id in IdsOf(old(jobs), COMPILE_QUEUED)
      ensures View() == if id in IdsOf(old(jobs), COMPILING) then Finish(old(View()), id, FAILED)
                        else if id in IdsOf(old(jobs), COMPILE_QUEUED) then Abort(old(View()), id)
                        else old(View())
    {
      if id in IdsOf(jobs, COMPILING) {
        MarkTerminal(id, FAILED);
        return true;
      }
      if id in IdsOf(jobs, COMPILE_QUEUED) {
        AbortCompileQueuedJob(id);
        return true;
      }
      return false;
    }
  }

  lemma {:induction false} InIdsOf(jobs: Jobs, i: nat)
    requires i < |jobs|
    ensures jobs[i].id in IdsOf(jobs, jobs[i].status)
  {
    if i > 0 { InIdsOf(jobs[1..], i - 1); }
  }

  lemma RecoverFacts(t: Table, i: nat)
    requires Ordered(t) && i < |t.jobs| && t.jobs[i].status == COMPILING
    ensures var r := Finish(t, t.jobs[i].id, FAILED);
            && IdsOf(t.jobs, COMPILING) == [t.jobs[i].id] && IdsOf(r.jobs, COMPILING) == []
            && forall s :: s != COMPILING && s != FAILED ==> IdsOf(r.jobs, s) == IdsOf(t.jobs, s)
  {
    var id, ids := t.jobs[i].id, IdsOf(t.jobs, COMPILING);
    InIdsOf(t.jobs, i);
    assert ids == [id];
    SetStatusLeaves(t.jobs, id, FAILED, COMPILING);
    RemoveFirst(ids);
    forall s | s != COMPILING && s != FAILED
      ensures IdsOf(Finish(t, id, FAILED).jobs, s) == IdsOf(t.jobs, s)
    {
      SetStatusLeaves(t.jobs, id, FAILED, s);
      IdsApart(t.jobs, COMPILING, s, id);
      RemoveShrinks(IdsOf(t.jobs, s), id);
    }
  }
}
