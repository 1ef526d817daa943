/**
 * The agent's table of served projects and its reconciliation with a remote listing:
 * difference, refresh list and application of the downloaded projects.
 */
module ProjectCache {
  import opened Wrappers
  import opened ImmutableLoader

  datatype Project = Project(engine: Loader, contentHash: Option<seq<byte>>)

  datatype ProjectData = ProjectData(key: string, contentHash: Option<seq<byte>>)

  datatype ProjectDiff = Created(key: string) | Removed(key: string) | Updated(key: string)

  type Projects = map<string, Project>

  /** The table's keys in the order one iteration over it happens to visit them. */
  predicate Enumerates(order: seq<string>, keys: set<string>) {
    && (forall i :: 0 <= i < |order| ==> order[i] in keys)
    && (forall k :: k in keys ==> k in order)
    && (forall i, j :: 0 <= i < j < |order| ==> order[i] != order[j])
  }

  function Keys(data: seq<ProjectData>): set<string> {
    set d | d in data :: d.key
  }

  function DiffKeys(diff: seq<ProjectDiff>): set<string> {
    set e | e in diff :: e.key
  }

  ghost predicate DistinctKeys(data: seq<ProjectData>) {
    forall i, j :: 0 <= i < j < |data| ==> data[i].key != data[j].key
  }

  // ---- calculate_diff and get_refresh_list ----

  function Removals(order: seq<string>, data: seq<ProjectData>): seq<ProjectDiff> {
    if order == [] then []
    else (if order[0] in Keys(data) then [] else [Removed(order[0])]) + Removals(order[1..], data)
  }

  function Updates(projects: Projects, data: seq<ProjectData>): seq<ProjectDiff> {
    if data == [] then []
    else
      var d := data[0];
      (if d.key !in projects then [Created(d.key)]
       else if projects[d.key].contentHash != d.contentHash then [Updated(d.key)]
       else [])
      + Updates(projects, data[1..])
  }

  function CalculateDiff(projects: Projects, order: seq<string>, data: seq<ProjectData>): seq<ProjectDiff> {
    Removals(order, data) + Updates(projects, data)
  }

  function RefreshList(diff: seq<ProjectDiff>): seq<string> {
    if diff == [] then []
    else (if diff[0].Removed? then [] else [diff[0].key]) + RefreshList(diff[1..])
  }

  lemma {:induction false} RemovalsMember(order: seq<string>, data: seq<ProjectData>, e: ProjectDiff)
    ensures e in Removals(order, data) <==> e.Removed? && e.key in order && e.key !in Keys(data)
  {
    if order != [] {
      RemovalsMember(order[1..], data, e);
      assert e.key in order <==> e.key == order[0] || e.key in order[1..];
    }
  }

  lemma {:induction false} UpdatesMember(projects: Projects, data: seq<ProjectData>, e: ProjectDiff)
    ensures e in Updates(projects, data) <==>
      match e
      case Created(k) => k in Keys(data) && k !in projects
      case Updated(k) =>
        k in projects && exists d :: d in data && d.key == k && projects[k].contentHash != d.contentHash
      case Removed(_) => false
  {
    if data != [] {
      UpdatesMember(projects, data[1..], e);
      assert forall d :: d in data <==> d == data[0] || d in data[1..];
      assert e.key in Keys(data) <==> e.key == data[0].key || e.key in Keys(data[1..]);
    }
  }

  /** Exactly which entries a difference holds. */
  lemma DiffMember(projects: Projects, order: seq<string>, data: seq<ProjectData>, e: ProjectDiff)
    requires Enumerates(order, projects.Keys)
    ensures e in CalculateDiff(projects, order, data) <==>
      match e
      case Created(k) => k in Keys(data) && k !in projects
      case Updated(k) =>
        k in projects && exists d :: d in data && d.key == k && projects[k].contentHash != d.contentHash
      case Removed(k) => k in projects && k !in Keys(data)
  {
    RemovalsMember(order, data, e);
    UpdatesMember(projects, data, e);
  }

  lemma {:induction false} RefreshListMember(diff: seq<ProjectDiff>, k: string)
    ensures k in RefreshList(diff) <==> Created(k) in diff || Updated(k) in diff
  {
    if diff != [] {
      RefreshListMember(diff[1..], k);
      assert forall e :: e in diff <==> e == diff[0] || e in diff[1..];
    }
  }

  /** No two entries name the same key. */
  ghost predicate DistinctDiff(diff: seq<ProjectDiff>) {
    forall i, j :: 0 <= i < j < |diff| ==> diff[i].key != diff[j].key
  }

  lemma {:induction false} RemovalsDistinct(order: seq<string>, data: seq<ProjectData>)
    requires forall i, j :: 0 <= i < j < |order| ==> order[i] != order[j]
    ensures DistinctDiff(Removals(order, data))
  {
    if order != [] {
      RemovalsDistinct(order[1..], data);
      var rest := Removals(order[1..], data);
      forall e | e in rest ensures e.key != order[0] {
        RemovalsMember(order[1..], data, e);
        var i :| 0 <= i < |order[1..]| && order[1..][i] == e.key;
        assert order[i + 1] == e.key;
      }
    }
  }

  lemma {:induction false} UpdatesDistinct(projects: Projects, data: seq<ProjectData>)
    requires DistinctKeys(data)
    ensures DistinctDiff(Updates(projects, data))
  {
    if data != [] {
      UpdatesDistinct(projects, data[1..]);
      var rest := Updates(projects, data[1..]);
      forall e | e in rest ensures e.key != data[0].key {
        UpdatesMember(projects, data[1..], e);
        assert e.key in Keys(data[1..]);
        var d :| d in data[1..] && d.key == e.key;
        var i :| 0 <= i < |data[1..]| && data[1..][i] == d;
        assert data[i + 1].key == e.key;
      }
    }
  }

  /** Over a listing with distinct keys every key occurs at most once in the difference. */
  lemma DiffDistinct(projects: Projects, order: seq<string>, data: seq<ProjectData>)
    requires Enumerates(order, projects.Keys) && DistinctKeys(data)
    ensures DistinctDiff(CalculateDiff(projects, order, data))
  {
    RemovalsDistinct(order, data);
    UpdatesDistinct(projects, data);
    var removed, updated := Removals(order, data), Updates(projects, data);
    forall i, j | 0 <= i < |removed| && 0 <= j < |updated| ensures removed[i].key != updated[j].key {
      RemovalsMember(order, data, removed[i]);
      UpdatesMember(projects, data, updated[j]);
    }
  }

  // ---- get_diff_result ----

  function ApplyOne(projects: Projects, change: ProjectDiff, refreshed: Projects): Projects {
    if change.Removed? || change.key !in refreshed then projects - {change.key}
    else projects[change.key := refreshed[change.key]]
  }

  function Applied(projects: Projects, diff: seq<ProjectDiff>, refreshed: Projects): Projects {
    if diff == [] then projects
    else ApplyOne(Applied(projects, diff[..|diff| - 1], refreshed), diff[|diff| - 1], refreshed)
  }

  /** The changes reported to the caller: a key that could not be refreshed is dropped silently. */
  function Reported(diff: seq<ProjectDiff>, refreshed: Projects): seq<ProjectDiff> {
    if diff == [] then []
    else
      var last := diff[|diff| - 1];
      Reported(diff[..|diff| - 1], refreshed) + (if last.Removed? || last.key in refreshed then [last] else [])
  }

  /** No key is removed by one entry and refreshed by another. */
  ghost predicate Consistent(diff: seq<ProjectDiff>) {
    forall e, f :: e in diff && f in diff && e.key == f.key ==> (e.Removed? <==> f.Removed?)
  }

  lemma DiffConsistent(projects: Projects, order: seq<string>, data: seq<ProjectData>)
    requires Enumerates(order, projects.Keys)
    ensures Consistent(CalculateDiff(projects, order, data))
  {
    var diff := CalculateDiff(projects, order, data);
    forall e, f | e in diff && f in diff && e.key == f.key ensures e.Removed? <==> f.Removed? {
      DiffMember(projects, order, data, e);
      DiffMember(projects, order, data, f);
    }
  }

  /** What the table holds for one key after the whole difference has been applied. */
  function Outcome(projects: Projects, diff: seq<ProjectDiff>, refreshed: Projects, k: string): Option<Project> {
    if k !in DiffKeys(diff) then (if k in projects then Some(projects[k]) else None)
    else if Removed(k) in diff || k !in refreshed then None
    else Some(refreshed[k])
  }

  function At(projects: Projects, k: string): Option<Project> {
    if k in projects then Some(projects[k]) else None
  }

  lemma {:induction false} AppliedAt(projects: Projects, diff: seq<ProjectDiff>, refreshed: Projects, k: string)
    requires Consistent(diff)
    ensures At(Applied(projects, diff, refreshed), k) == Outcome(projects, diff, refreshed, k)
  {
    if diff != [] {
      var init, last := diff[..|diff| - 1], diff[|diff| - 1];
      assert forall e :: e in diff <==> e in init || e == last;
      assert Consistent(init);
      AppliedAt(projects, init, refreshed, k);
      assert k in DiffKeys(diff) <==> k in DiffKeys(init) || k == last.key;
      if k == last.key {
        if Removed(k) in diff {
          assert last.Removed?;
        }
      } else {
        assert Removed(k) in diff <==> Removed(k) in init;
      }
    }
  }

  /** Applying the same entries in any order, however often each occurs, gives the same table. */
  lemma OrderIndependent(projects: Projects, diff: seq<ProjectDiff>, shuffled: seq<ProjectDiff>, refreshed: Projects)
    requires Consistent(diff)
    requires forall e :: e in diff <==> e in shuffled
    ensures Applied(projects, diff, refreshed) == Applied(projects, shuffled, refreshed)
  {
    var a, b := Applied(projects, diff, refreshed), Applied(projects, shuffled, refreshed);
    forall k ensures At(a, k) == At(b, k) {
      AppliedAt(projects, diff, refreshed, k);
      AppliedAt(projects, shuffled, refreshed, k);
      assert DiffKeys(diff) == DiffKeys(shuffled);
    }
    SameTable(a, b);
  }

  lemma SameTable(a: Projects, b: Projects)
    requires forall k :: At(a, k) == At(b, k)
    ensures a == b
  {
    forall k ensures k in a <==> k in b {
      assert At(a, k) == At(b, k);
    }
    forall k | k in a ensures a[k] == b[k] {
      assert At(a, k) == At(b, k);
    }
  }

  /**
   * A lookup that runs while the difference is being applied sees, for every key, either
   * what was served before or what will be served at the end; outside the difference only
   * the former is possible.
   */
  lemma ReadsAreOldOrNew(projects: Projects, diff: seq<ProjectDiff>, refreshed: Projects, n: nat, k: string)
    requires Consistent(diff) && n <= |diff|
    ensures At(Applied(projects, diff[..n], refreshed), k) in
      {At(projects, k), At(Applied(projects, diff, refreshed), k)}
    ensures k !in DiffKeys(diff) ==> At(Applied(projects, diff[..n], refreshed), k) == At(projects, k)
  {
    AppliedAt(projects, diff, refreshed, k);
    assert Consistent(diff[..n]);
    AppliedAt(projects, diff[..n], refreshed, k);
    assert DiffKeys(diff[..n]) <= DiffKeys(diff);
    if k in DiffKeys(diff[..n]) {
      var e :| e in diff[..n] && e.key == k;
      assert e in diff;
      if Removed(k) in diff {
        assert e.Removed? && e == Removed(k);
      } else {
        assert Removed(k) !in diff[..n];
      }
    }
  }

  lemma {:induction false} ReportedMember(diff: seq<ProjectDiff>, refreshed: Projects, e: ProjectDiff)
    ensures e in Reported(diff, refreshed) <==> e in diff && (e.Removed? || e.key in refreshed)
  {
    if diff != [] {
      var init := diff[..|diff| - 1];
      ReportedMember(init, refreshed, e);
      assert e in diff <==> e in init || e == diff[|diff| - 1];
    }
  }

  /** One reconciliation with a listing, given what was downloaded for the refresh list. */
  function Reconcile(projects: Projects, order: seq<string>, data: seq<ProjectData>, refreshed: Projects): Projects {
    Applied(projects, CalculateDiff(projects, order, data), refreshed)
  }

  /** The refreshed keys that could not be downloaded. */
  function Missing(projects: Projects, order: seq<string>, data: seq<ProjectData>, refreshed: Projects): set<string> {
    set k | k in RefreshList(CalculateDiff(projects, order, data)) && k !in refreshed
  }

  /** After a poll the agent serves exactly the listing, less the keys whose download failed. */
  lemma ServedExactly(projects: Projects, order: seq<string>, data: seq<ProjectData>, refreshed: Projects)
    requires Enumerates(order, projects.Keys)
    ensures Reconcile(projects, order, data, refreshed).Keys
         == Keys(data) - Missing(projects, order, data, refreshed)
  {
    var diff := CalculateDiff(projects, order, data);
    var after := Reconcile(projects, order, data, refreshed);
    DiffConsistent(projects, order, data);
    forall k ensures k in after <==> k in Keys(data) && k !in Missing(projects, order, data, refreshed) {
      AppliedAt(projects, diff, refreshed, k);
      RefreshListMember(diff, k);
      DiffMember(projects, order, data, Created(k));
      DiffMember(projects, order, data, Updated(k));
      DiffMember(projects, order, data, Removed(k));
      assert k in DiffKeys(diff) <==> Created(k) in diff || Updated(k) in diff || Removed(k) in diff by {
        if k in DiffKeys(diff) {
          var e :| e in diff && e.key == k;
          assert e == Created(k) || e == Updated(k) || e == Removed(k);
        }
      }
      assert k in after <==> At(after, k).Some?;
    }
  }

  /** The served table agrees with the listing: same keys, same content hashes. */
  ghost predicate InSync(projects: Projects, data: seq<ProjectData>) {
    && projects.Keys == Keys(data)
    && forall d :: d in data ==> projects[d.key].contentHash == d.contentHash
  }

  /** The difference is empty exactly when the table agrees with the listing. */
  lemma EmptyDiffIffInSync(projects: Projects, order: seq<string>, data: seq<ProjectData>)
    requires Enumerates(order, projects.Keys)
    ensures CalculateDiff(projects, order, data) == [] <==> InSync(projects, data)
  {
    var diff := CalculateDiff(projects, order, data);
    if diff == [] {
      forall k ensures k in projects <==> k in Keys(data) {
        DiffMember(projects, order, data, Created(k));
        DiffMember(projects, order, data, Removed(k));
      }
      forall d | d in data ensures projects[d.key].contentHash == d.contentHash {
        assert d.key in Keys(data);
        DiffMember(projects, order, data, Updated(d.key));
      }
    } else {
      var e := diff[0];
      assert e in diff;
      DiffMember(projects, order, data, e);
    }
  }

  /** Each refreshed project came back with the hash the listing announced. */
  ghost predicate DownloadsMatch(keys: seq<string>, data: seq<ProjectData>, refreshed: Projects) {
    forall d :: d in data && d.key in keys ==> d.key in refreshed && refreshed[d.key].contentHash == d.contentHash
  }

  /** When every download succeeds as listed, one poll reaches agreement and touches nothing that agreed. */
  lemma PollReachesSync(projects: Projects, order: seq<string>, data: seq<ProjectData>, refreshed: Projects)
    requires Enumerates(order, projects.Keys) && DistinctKeys(data)
    requires DownloadsMatch(RefreshList(CalculateDiff(projects, order, data)), data, refreshed)
    ensures InSync(Reconcile(projects, order, data, refreshed), data)
    ensures forall d :: d in data && d.key in projects && projects[d.key].contentHash == d.contentHash ==>
      At(Reconcile(projects, order, data, refreshed), d.key) == Some(projects[d.key])
  {
    var diff := CalculateDiff(projects, order, data);
    var after := Reconcile(projects, order, data, refreshed);
    ServedExactly(projects, order, data, refreshed);
    forall k | k in RefreshList(diff) ensures k in refreshed {
      RefreshListMember(diff, k);
      DiffMember(projects, order, data, Created(k));
      DiffMember(projects, order, data, Updated(k));
      var d :| d in data && d.key == k;
    }
    DiffConsistent(projects, order, data);
    forall d | d in data
      ensures At(after, d.key).Some? && At(after, d.key).value.contentHash == d.contentHash
      ensures d.key in projects && projects[d.key].contentHash == d.contentHash ==>
        At(after, d.key) == Some(projects[d.key])
    {
      ListedOutcome(projects, order, data, refreshed, d);
    }
  }

  /** What one poll does to a listed key. */
  lemma ListedOutcome(projects: Projects, order: seq<string>, data: seq<ProjectData>, refreshed: Projects,
                      d: ProjectData)
    requires Enumerates(order, projects.Keys) && DistinctKeys(data) && d in data
    ensures At(Reconcile(projects, order, data, refreshed), d.key) ==
      if d.key in projects && projects[d.key].contentHash == d.contentHash
      then Some(projects[d.key]) else At(refreshed, d.key)
    ensures d.key in RefreshList(CalculateDiff(projects, order, data)) <==>
      !(d.key in projects && projects[d.key].contentHash == d.contentHash)
  {
    var k, diff := d.key, CalculateDiff(projects, order, data);
    assert k in Keys(data);
    DiffConsistent(projects, order, data);
    AppliedAt(projects, diff, refreshed, k);
    RefreshListMember(diff, k);
    DiffMember(projects, order, data, Created(k));
    DiffMember(projects, order, data, Updated(k));
    DiffMember(projects, order, data, Removed(k));
    forall o | o in data && o.key == k ensures o == d {
      var i, j :| 0 <= i < |data| && 0 <= j < |data| && data[i] == o && data[j] == d;
    }
    if k in DiffKeys(diff) {
      var e :| e in diff && e.key == k;
      assert e == Created(k) || e == Updated(k) || e == Removed(k);
    } else {
      assert Created(k) !in diff && Updated(k) !in diff;
    }
  }

  /** The agent's shared table, updated in place while requests read it. */
  class AgentData {
    var projects: Projects

    constructor ()
      ensures projects == map[]
    {
      projects := map[];
    }

    /** Applies a difference entry by entry and reports the entries that took effect. */
    method GetDiffResult(diff: seq<ProjectDiff>, refreshed: Projects) returns (reported: seq<ProjectDiff>)
      modifies this
      ensures projects == Applied(old(projects), diff, refreshed)
      ensures reported == Reported(diff, refreshed)
    {
      reported := [];
      for i := 0 to |diff|
        invariant projects == Applied(old(projects), diff[..i], refreshed)
        invariant reported == Reported(diff[..i], refreshed)
      {
        var change := diff[i];
        assert diff[..i + 1][..i] == diff[..i];
        if change.Removed? {
          projects := projects - {change.key};
          reported := reported + [change];
        } else if change.key in refreshed {
          projects := projects[change.key := refreshed[change.key]];
          reported := reported + [change];
        } else {
          projects := projects - {change.key};
        }
      }
      assert diff[..|diff|] == diff;
    }
  }
}
