/**
 * Polling a bucket: the listing is filtered by the registry of failed content hashes, the
 * difference is downloaded object by object from a bucket that may change meanwhile, and
 * the result is applied. Whole runs of polls are sequences of such steps.
 */
module S3Provider {
  import opened Wrappers
  import opened KeyPrefix
  import opened ImmutableLoader
  import opened ProjectCache

  datatype Listed = Listed(key: Option<string>, etag: Option<seq<byte>>)

  /** One get request: it fails, its body breaks off, its body is no archive, or an archive arrives. */
  datatype Response = GetFailed | BodyFailed | NotAnArchive | Object(archive: Archive, etag: Option<seq<byte>>)

  datatype Config = Config(prefix: Prefix, lower: string -> string)

  /**
   * The world during one poll: the listing (None when that request fails), the order in which
   * the table is iterated, the answer to the i-th get, and the hashes other agents of the
   * process register before the listing is filtered.
   */
  datatype Poll = Poll(listing: Option<seq<Listed>>, order: seq<string>, remote: (nat, string) -> Response,
                       others: set<seq<byte>>)

  datatype State = State(projects: Projects, failed: set<seq<byte>>)

  // ---- listing ----

  predicate HasFailed(failed: set<seq<byte>>, hash: Option<seq<byte>>) {
    hash.Some? && hash.value in failed
  }

  function ToData(c: Config, failed: set<seq<byte>>, o: Listed): Option<ProjectData> {
    if o.key.None? then None
    else
      var key := Strip(c.prefix, o.key.value);
      if key == "" || HasFailed(failed, o.etag) then None else Some(ProjectData(key, o.etag))
  }

  function Data(c: Config, failed: set<seq<byte>>, listing: seq<Listed>): seq<ProjectData> {
    if listing == [] then []
    else
      var d := ToData(c, failed, listing[0]);
      (if d.Some? then [d.value] else []) + Data(c, failed, listing[1..])
  }

  /** What a bucket guarantees of a listing: each object once, all under the requested prefix. */
  ghost predicate ListingOk(c: Config, listing: seq<Listed>) {
    && (forall o :: o in listing && o.key.Some? ==> Under(c.prefix, o.key.value))
    && (forall i, j :: 0 <= i < j < |listing| && listing[i].key.Some? ==> listing[i].key != listing[j].key)
  }

  lemma {:induction false} DataMember(c: Config, failed: set<seq<byte>>, listing: seq<Listed>, d: ProjectData)
    ensures d in Data(c, failed, listing) <==> exists o :: o in listing && ToData(c, failed, o) == Some(d)
  {
    if listing != [] {
      DataMember(c, failed, listing[1..], d);
      assert forall o :: o in listing <==> o == listing[0] || o in listing[1..];
    }
  }

  /**
   * The projects a listing shows: each named object whose key is not empty once the prefix is gone,
   * with its listed hash, unless that hash is registered as failed.
   */
  lemma ShownExactly(c: Config, failed: set<seq<byte>>, listing: seq<Listed>, key: string, hash: Option<seq<byte>>)
    ensures ProjectData(key, hash) in Data(c, failed, listing) <==>
      && key != "" && (hash.Some? ==> hash.value !in failed)
      && exists name :: Listed(Some(name), hash) in listing && Strip(c.prefix, name) == key
  {
    DataMember(c, failed, listing, ProjectData(key, hash));
    if o :| o in listing && ToData(c, failed, o) == Some(ProjectData(key, hash)) {
      assert Listed(Some(o.key.value), hash) in listing;
    }
    if name :| Listed(Some(name), hash) in listing && Strip(c.prefix, name) == key {
      assert key != "" && (hash.Some? ==> hash.value !in failed) ==>
        ToData(c, failed, Listed(Some(name), hash)) == Some(ProjectData(key, hash));
    }
  }

  /** The projects of a listing have pairwise distinct keys. */
  lemma {:induction false} DataDistinct(c: Config, failed: set<seq<byte>>, listing: seq<Listed>)
    requires ListingOk(c, listing)
    ensures DistinctKeys(Data(c, failed, listing))
  {
    if listing != [] {
      var o, rest := listing[0], listing[1..];
      assert ListingOk(c, rest);
      DataDistinct(c, failed, rest);
      var d := ToData(c, failed, o);
      if d.Some? {
        forall e | e in Data(c, failed, rest) ensures e.key != d.value.key {
          DataMember(c, failed, rest, e);
          var p :| p in rest && ToData(c, failed, p) == Some(e);
          var i :| 0 <= i < |rest| && rest[i] == p;
          assert listing[i + 1] == p;
          assert listing[0].key != listing[i + 1].key;
          StripInjective(c.prefix, o.key.value, p.key.value);
        }
      }
    }
  }

  // ---- download ----

  function Fetched(c: Config, r: Response): Option<Project> {
    if !r.Object? then None
    else
      var loader := Build(r.archive, c.lower);
      if loader.None? then None else Some(Project(loader.value, r.etag))
  }

  /** The response brings an archive, and each of its members can be read. */
  predicate Loads(r: Response) {
    r.Object? && forall m :: 0 <= m < |r.archive.entries| ==> !Unreadable(r.archive, m)
  }

  /** The project is what this response brings: its hash, its release data, and the graphs of its archive. */
  ghost predicate IsContentOf(c: Config, r: Response, project: Project) {
    && r.Object? && project.contentHash == r.etag && project.engine.releaseData == r.archive.releaseData
    && forall key :: FindsLast(project.engine, r.archive, c.lower, key)
  }

  lemma FetchedExactly(c: Config, r: Response)
    ensures Fetched(c, r).Some? <==> Loads(r)
    ensures Fetched(c, r).Some? ==> IsContentOf(c, r, Fetched(c, r).value)
  {
    if r.Object? {
      BuildFailsExactly(r.archive, c.lower);
      if Build(r.archive, c.lower).Some? {
        forall key ensures FindsLast(Build(r.archive, c.lower).value, r.archive, c.lower, key) {
          LoadFindsLast(r.archive, c.lower, key);
        }
      }
    }
  }

  /** The hashes one response puts into the registry: only an archive that does not load registers. */
  function Registers(c: Config, r: Response): set<seq<byte>> {
    if r.Object? && Build(r.archive, c.lower).None? && r.etag.Some? then {r.etag.value} else {}
  }

  function Answer(c: Config, keys: seq<string>, remote: (nat, string) -> Response, i: nat): Response
    requires i < |keys|
  {
    remote(i, Prepend(c.prefix, keys[i]))
  }

  function Downloaded(c: Config, keys: seq<string>, remote: (nat, string) -> Response, n: nat): Projects
    requires n <= |keys|
  {
    if n == 0 then map[]
    else
      var before := Downloaded(c, keys, remote, n - 1);
      var p := Fetched(c, Answer(c, keys, remote, n - 1));
      if p.Some? then before[keys[n - 1] := p.value] else before
  }

  function Registered(c: Config, keys: seq<string>, remote: (nat, string) -> Response, n: nat): set<seq<byte>>
    requires n <= |keys|
  {
    if n == 0 then {}
    else Registered(c, keys, remote, n - 1) + Registers(c, Answer(c, keys, remote, n - 1))
  }

  /**
   * A key is downloaded exactly when some get of it brings an archive that can be read, and what is
   * downloaded is the content of one such response.
   */
  lemma {:induction false} DownloadedMember(c: Config, keys: seq<string>, remote: (nat, string) -> Response,
                                            n: nat, k: string)
    requires n <= |keys|
    ensures k in Downloaded(c, keys, remote, n) <==>
      exists i :: 0 <= i < n && keys[i] == k && Loads(Answer(c, keys, remote, i))
    ensures k in Downloaded(c, keys, remote, n) ==>
      exists i :: 0 <= i < n && keys[i] == k &&
                  Fetched(c, Answer(c, keys, remote, i)) == Some(Downloaded(c, keys, remote, n)[k])
  {
    if n > 0 {
      DownloadedMember(c, keys, remote, n - 1, k);
      FetchedExactly(c, Answer(c, keys, remote, n - 1));
    }
  }

  lemma {:induction false} RegisteredMember(c: Config, keys: seq<string>, remote: (nat, string) -> Response,
                                            n: nat, h: seq<byte>)
    requires n <= |keys|
    ensures h in Registered(c, keys, remote, n) <==>
      exists i :: 0 <= i < n && h in Registers(c, Answer(c, keys, remote, i))
  {
    if n > 0 {
      RegisteredMember(c, keys, remote, n - 1, h);
    }
  }

  // ---- one poll ----

  function Visible(c: Config, s: State, p: Poll): seq<ProjectData>
    requires p.listing.Some?
  {
    Data(c, s.failed + p.others, p.listing.value)
  }

  function Diff(c: Config, s: State, p: Poll): seq<ProjectDiff>
    requires p.listing.Some?
  {
    CalculateDiff(s.projects, p.order, Visible(c, s, p))
  }

  function ToRefresh(c: Config, s: State, p: Poll): seq<string>
    requires p.listing.Some?
  {
    RefreshList(Diff(c, s, p))
  }

  function Refreshed(c: Config, s: State, p: Poll): Projects
    requires p.listing.Some?
  {
    var keys := ToRefresh(c, s, p);
    Downloaded(c, keys, p.remote, |keys|)
  }

  function Step(c: Config, s: State, p: Poll): State {
    if p.listing.None? then State(s.projects, s.failed + p.others)
    else
      var keys := ToRefresh(c, s, p);
      State(Applied(s.projects, Diff(c, s, p), Refreshed(c, s, p)),
            s.failed + p.others + Registered(c, keys, p.remote, |keys|))
  }

  // ---- runs ----

  /** The state after the first i polls. */
  function After(c: Config, s: State, polls: seq<Poll>, i: nat): State
    requires i <= |polls|
  {
    if i == 0 then s else Step(c, After(c, s, polls, i - 1), polls[i - 1])
  }

  /** Each poll iterates the table it really finds. */
  ghost predicate ValidRun(c: Config, s: State, polls: seq<Poll>) {
    forall i :: 0 <= i < |polls| ==> Enumerates(polls[i].order, After(c, s, polls, i).projects.Keys)
  }

  /** Some get of key k in this poll brings an archive that can be read. */
  ghost predicate Arrives(c: Config, s: State, p: Poll, k: string)
    requires p.listing.Some?
  {
    exists i: nat ::
      i < |ToRefresh(c, s, p)| && ToRefresh(c, s, p)[i] == k && Loads(p.remote(i, Prepend(c.prefix, k)))
  }

  lemma RefreshedExactly(c: Config, s: State, p: Poll, k: string)
    requires p.listing.Some?
    ensures k in Refreshed(c, s, p) <==> Arrives(c, s, p, k)
  {
    var keys := ToRefresh(c, s, p);
    DownloadedMember(c, keys, p.remote, |keys|, k);
    if i :| 0 <= i < |keys| && keys[i] == k && Loads(Answer(c, keys, p.remote, i)) {
      assert Loads(p.remote(i, Prepend(c.prefix, k)));
    }
    if i: nat :| i < |keys| && keys[i] == k && Loads(p.remote(i, Prepend(c.prefix, k))) {
      assert Loads(Answer(c, keys, p.remote, i));
    }
  }

  /** The listing shows this object for key k, under a hash that is not registered. */
  predicate Shown(c: Config, s: State, p: Poll, k: string, o: Listed)
    requires p.listing.Some?
  {
    && o in p.listing.value && o.key.Some? && Strip(c.prefix, o.key.value) == k && k != ""
    && (o.etag.Some? ==> o.etag.value !in s.failed && o.etag.value !in p.others)
  }

  /** The table serves key k with the hash that this object is listed under. */
  predicate UpToDate(s: State, k: string, o: Listed) {
    k in s.projects && s.projects[k].contentHash == o.etag
  }

  ghost predicate IsShown(c: Config, s: State, p: Poll, k: string)
    requires p.listing.Some?
  {
    exists o :: Shown(c, s, p, k, o)
  }

  /** The key is shown, and is up to date or comes with a readable archive. */
  ghost predicate Available(c: Config, s: State, p: Poll, k: string)
    requires p.listing.Some?
  {
    exists o :: Shown(c, s, p, k, o) && (UpToDate(s, k, o) || Arrives(c, s, p, k))
  }

  lemma ShownIsVisible(c: Config, s: State, p: Poll, k: string, o: Listed)
    requires p.listing.Some? && Shown(c, s, p, k, o)
    ensures ProjectData(k, o.etag) in Visible(c, s, p)
  {
    DataMember(c, s.failed + p.others, p.listing.value, ProjectData(k, o.etag));
    assert ToData(c, s.failed + p.others, o) == Some(ProjectData(k, o.etag));
  }

  lemma VisibleIsShown(c: Config, s: State, p: Poll, d: ProjectData) returns (o: Listed)
    requires p.listing.Some? && d in Visible(c, s, p)
    ensures Shown(c, s, p, d.key, o) && o.etag == d.contentHash
  {
    DataMember(c, s.failed + p.others, p.listing.value, d);
    o :| o in p.listing.value && ToData(c, s.failed + p.others, o) == Some(d);
  }

  /** A poll asks for exactly the keys that are shown and not up to date. */
  lemma RequestedExactly(c: Config, s: State, p: Poll, k: string)
    requires Enumerates(p.order, s.projects.Keys) && p.listing.Some? && ListingOk(c, p.listing.value)
    ensures k in ToRefresh(c, s, p) <==> exists o :: Shown(c, s, p, k, o) && !UpToDate(s, k, o)
  {
    var data := Visible(c, s, p);
    DataDistinct(c, s.failed + p.others, p.listing.value);
    if o :| Shown(c, s, p, k, o) && !UpToDate(s, k, o) {
      ShownIsVisible(c, s, p, k, o);
      ListedOutcome(s.projects, p.order, data, Refreshed(c, s, p), ProjectData(k, o.etag));
    }
    if k in ToRefresh(c, s, p) {
      var i :| 0 <= i < |ToRefresh(c, s, p)| && ToRefresh(c, s, p)[i] == k;
      var d := RefreshedIsVisible(c, s, p, i);
      ListedOutcome(s.projects, p.order, data, Refreshed(c, s, p), d);
      var o := VisibleIsShown(c, s, p, d);
    }
  }

  lemma RefreshedIsVisible(c: Config, s: State, p: Poll, i: nat) returns (d: ProjectData)
    requires p.listing.Some? && Enumerates(p.order, s.projects.Keys) && i < |ToRefresh(c, s, p)|
    ensures d in Visible(c, s, p) && d.key == ToRefresh(c, s, p)[i]
  {
    var k := ToRefresh(c, s, p)[i];
    assert k in ToRefresh(c, s, p);
    RefreshListMember(Diff(c, s, p), k);
    DiffMember(s.projects, p.order, Visible(c, s, p), Created(k));
    DiffMember(s.projects, p.order, Visible(c, s, p), Updated(k));
    d :| d in Visible(c, s, p) && d.key == k;
  }

  lemma {:induction false} RefreshListDistinct(diff: seq<ProjectDiff>)
    requires DistinctDiff(diff)
    ensures forall i, j :: 0 <= i < j < |RefreshList(diff)| ==> RefreshList(diff)[i] != RefreshList(diff)[j]
  {
    if diff != [] {
      RefreshListDistinct(diff[1..]);
      var rest := RefreshList(diff[1..]);
      forall j | 0 <= j < |rest| ensures rest[j] != diff[0].key {
        assert rest[j] in rest;
        RefreshListMember(diff[1..], rest[j]);
      }
    }
  }

  /** No key is asked for twice in a poll. */
  lemma RequestedOnce(c: Config, s: State, p: Poll)
    requires Enumerates(p.order, s.projects.Keys) && p.listing.Some? && ListingOk(c, p.listing.value)
    ensures forall i, j :: 0 <= i < j < |ToRefresh(c, s, p)| ==> ToRefresh(c, s, p)[i] != ToRefresh(c, s, p)[j]
  {
    DataDistinct(c, s.failed + p.others, p.listing.value);
    DiffDistinct(s.projects, p.order, Visible(c, s, p));
    RefreshListDistinct(Diff(c, s, p));
  }

  /**
   * What becomes of a key that is asked for: it is served afterwards if and only if the get of its object
   * brings an archive whose every member can be read, and then with that archive's graphs and the hash
   * of that response. Any other answer, and any unreadable member, leaves it unserved.
   */
  lemma GetDecides(c: Config, s: State, p: Poll, i: nat)
    requires Enumerates(p.order, s.projects.Keys) && p.listing.Some? && ListingOk(c, p.listing.value)
    requires i < |ToRefresh(c, s, p)|
    ensures var k, t := ToRefresh(c, s, p)[i], Step(c, s, p);
            var r := p.remote(i, Prepend(c.prefix, k));
            && (k in t.projects <==>
                  r.Object? && forall m :: 0 <= m < |r.archive.entries| ==> !Unreadable(r.archive, m))
            && (k in t.projects ==>
                  t.projects[k].contentHash == r.etag
                  && forall key :: FindsLast(t.projects[k].engine, r.archive, c.lower, key))
  {
    var keys, refreshed := ToRefresh(c, s, p), Refreshed(c, s, p);
    var k := keys[i];
    var r := p.remote(i, Prepend(c.prefix, k));
    var d := RefreshedIsVisible(c, s, p, i);
    DataDistinct(c, s.failed + p.others, p.listing.value);
    ListedOutcome(s.projects, p.order, Visible(c, s, p), refreshed, d);
    assert k in keys;
    assert At(Step(c, s, p).projects, k) == At(refreshed, k);
    RequestedOnce(c, s, p);
    DownloadedMember(c, keys, p.remote, |keys|, k);
    assert Answer(c, keys, p.remote, i) == r;
    FetchedExactly(c, r);
  }

  /** The served keys, poll by poll: those shown that are up to date or whose get brings a readable archive. */
  lemma RunServesExactly(c: Config, s: State, polls: seq<Poll>, i: nat, k: string)
    requires ValidRun(c, s, polls) && i < |polls| && polls[i].listing.Some? && ListingOk(c, polls[i].listing.value)
    ensures var now, p := After(c, s, polls, i), polls[i];
            k in After(c, s, polls, i + 1).projects <==> Available(c, now, p, k)
    ensures k in After(c, s, polls, i + 1).projects && !Arrives(c, After(c, s, polls, i), polls[i], k) ==>
      At(After(c, s, polls, i + 1).projects, k) == At(After(c, s, polls, i).projects, k)
  {
    ServedWhenShown(c, After(c, s, polls, i), polls[i], k);
  }

  lemma ServedWhenShown(c: Config, s: State, p: Poll, k: string)
    requires Enumerates(p.order, s.projects.Keys) && p.listing.Some? && ListingOk(c, p.listing.value)
    ensures k in Step(c, s, p).projects <==> Available(c, s, p, k)
    ensures k in Step(c, s, p).projects && !Arrives(c, s, p, k) ==> At(Step(c, s, p).projects, k) == At(s.projects, k)
  {
    var data, refreshed := Visible(c, s, p), Refreshed(c, s, p);
    DataDistinct(c, s.failed + p.others, p.listing.value);
    ServedExactly(s.projects, p.order, data, refreshed);
    RefreshedExactly(c, s, p, k);
    if k in Keys(data) {
      var d :| d in data && d.key == k;
      var o := VisibleIsShown(c, s, p, d);
      ListedOutcome(s.projects, p.order, data, refreshed, d);
    }
    forall o | Shown(c, s, p, k, o)
      ensures k in Keys(data) && (k in Step(c, s, p).projects <==> UpToDate(s, k, o) || Arrives(c, s, p, k))
    {
      ShownIsVisible(c, s, p, k, o);
      ListedOutcome(s.projects, p.order, data, refreshed, ProjectData(k, o.etag));
      ArrivesIsRequested(c, s, p, k);
    }
  }

  /** A poll whose listing request fails leaves the table as it is. */
  lemma FailedListingKeeps(c: Config, s: State, polls: seq<Poll>, i: nat)
    requires i < |polls| && polls[i].listing.None?
    ensures After(c, s, polls, i + 1).projects == After(c, s, polls, i).projects
  {
  }

  lemma ArrivesIsRequested(c: Config, s: State, p: Poll, k: string)
    requires p.listing.Some?
    ensures Arrives(c, s, p, k) ==> k in ToRefresh(c, s, p)
  {
  }

  /** A key whose download failed is offered again as new by the next poll that still shows it. */
  lemma TransientFailureRetried(c: Config, s: State, polls: seq<Poll>, i: nat, k: string)
    requires ValidRun(c, s, polls) && i + 1 < |polls|
    requires polls[i].listing.Some? && polls[i + 1].listing.Some?
    requires k in ToRefresh(c, After(c, s, polls, i), polls[i]) && !Arrives(c, After(c, s, polls, i), polls[i], k)
    ensures Created(k) in Diff(c, After(c, s, polls, i + 1), polls[i + 1])
      <==> IsShown(c, After(c, s, polls, i + 1), polls[i + 1], k)
  {
    var now, p := After(c, s, polls, i), polls[i];
    var next, q := After(c, s, polls, i + 1), polls[i + 1];
    RefreshedExactly(c, now, p, k);
    ServedExactly(now.projects, p.order, Visible(c, now, p), Refreshed(c, now, p));
    assert k !in next.projects;
    DiffMember(next.projects, q.order, Visible(c, next, q), Created(k));
    if o :| Shown(c, next, q, k, o) {
      ShownIsVisible(c, next, q, k, o);
    }
    if k in Keys(Visible(c, next, q)) {
      var d :| d in Visible(c, next, q) && d.key == k;
      var o := VisibleIsShown(c, next, q, d);
    }
  }

  /** The registry grows by what other agents register and by the hashes of arrived archives that do not load. */
  lemma RegistryExactly(c: Config, s: State, p: Poll, h: seq<byte>)
    requires p.listing.Some?
    ensures h in Step(c, s, p).failed <==>
      || h in s.failed + p.others
      || exists i: nat :: i < |ToRefresh(c, s, p)| &&
           var r := Answer(c, ToRefresh(c, s, p), p.remote, i);
           r.Object? && r.etag == Some(h) && exists m :: 0 <= m < |r.archive.entries| && Unreadable(r.archive, m)
  {
    var keys := ToRefresh(c, s, p);
    RegisteredMember(c, keys, p.remote, |keys|, h);
    forall i: nat | i < |keys| && Answer(c, keys, p.remote, i).Object?
      ensures Build(Answer(c, keys, p.remote, i).archive, c.lower).None? <==>
        exists m :: 0 <= m < |Answer(c, keys, p.remote, i).archive.entries|
                    && Unreadable(Answer(c, keys, p.remote, i).archive, m)
    {
      BuildFailsExactly(Answer(c, keys, p.remote, i).archive, c.lower);
    }
  }

  lemma {:induction false} RegistryGrows(c: Config, s: State, polls: seq<Poll>, i: nat, j: nat)
    requires i <= j <= |polls|
    ensures After(c, s, polls, i).failed <= After(c, s, polls, j).failed
    decreases j
  {
    if i < j {
      RegistryGrows(c, s, polls, i, j - 1);
    }
  }

  /**
   * Once a content hash is registered as failed, no later poll of the run downloads an object
   * that is listed with this hash.
   */
  lemma FailedHashNeverFetched(c: Config, s: State, polls: seq<Poll>, i: nat, j: nat, h: seq<byte>, o: Listed)
    requires ValidRun(c, s, polls) && i <= j < |polls|
    requires polls[j].listing.Some? && ListingOk(c, polls[j].listing.value)
    requires h in After(c, s, polls, i).failed
    requires o in polls[j].listing.value && o.key.Some? && o.etag == Some(h)
    ensures Strip(c.prefix, o.key.value) !in ToRefresh(c, After(c, s, polls, j), polls[j])
    ensures Strip(c.prefix, o.key.value) !in After(c, s, polls, j + 1).projects
  {
    RegistryGrows(c, s, polls, i, j);
    var now, p, k := After(c, s, polls, j), polls[j], Strip(c.prefix, o.key.value);
    var data := Visible(c, now, p);
    if k in Keys(data) {
      var d :| d in data && d.key == k;
      DataMember(c, now.failed + p.others, p.listing.value, d);
      var q :| q in p.listing.value && ToData(c, now.failed + p.others, q) == Some(d);
      StripInjective(c.prefix, o.key.value, q.key.value);
      assert false;
    }
    RefreshListMember(Diff(c, now, p), k);
    DiffMember(now.projects, p.order, data, Created(k));
    DiffMember(now.projects, p.order, data, Updated(k));
    ServedExactly(now.projects, p.order, data, Refreshed(c, now, p));
  }

  /** Poll p of the run asked for key k in its j-th get, and this one response is all of the project. */
  ghost predicate CameFrom(c: Config, s: State, polls: seq<Poll>, k: string, project: Project, p: nat, j: nat)
    requires p < |polls|
  {
    && polls[p].listing.Some?
    && var keys := ToRefresh(c, After(c, s, polls, p), polls[p]);
    && j < |keys| && keys[j] == k
    && var r := Answer(c, keys, polls[p].remote, j);
    && r.Object? && Build(r.archive, c.lower) == Some(project.engine) && r.etag == project.contentHash
  }

  /** What is served after a poll was served before it, or is the content of one response to it. */
  lemma ServedAfterStep(c: Config, s: State, p: Poll, k: string)
    requires Enumerates(p.order, s.projects.Keys) && k in Step(c, s, p).projects
    ensures At(s.projects, k) == Some(Step(c, s, p).projects[k]) || (
      p.listing.Some? && exists j: nat ::
        j < |ToRefresh(c, s, p)| && ToRefresh(c, s, p)[j] == k &&
        Fetched(c, Answer(c, ToRefresh(c, s, p), p.remote, j)) == Some(Step(c, s, p).projects[k]))
  {
    if p.listing.Some? {
      var keys, refreshed := ToRefresh(c, s, p), Refreshed(c, s, p);
      DiffConsistent(s.projects, p.order, Visible(c, s, p));
      AppliedAt(s.projects, Diff(c, s, p), refreshed, k);
      assert At(Step(c, s, p).projects, k) == Some(Step(c, s, p).projects[k]);
      DownloadedMember(c, keys, p.remote, |keys|, k);
    }
  }

  /**
   * However the bucket changes between listing and download: engine and content hash of
   * every served project come from one and the same response, to a get for its own key.
   */
  lemma {:induction false} ServedFromOneResponse(c: Config, polls: seq<Poll>, i: nat, k: string)
    requires i <= |polls| && ValidRun(c, State(map[], {}), polls)
    ensures k in After(c, State(map[], {}), polls, i).projects ==> exists p: nat, j: nat ::
      p < i && CameFrom(c, State(map[], {}), polls, k, After(c, State(map[], {}), polls, i).projects[k], p, j)
  {
    var s := State(map[], {});
    if k in After(c, s, polls, i).projects {
      var before := After(c, s, polls, i - 1);
      ServedAfterStep(c, before, polls[i - 1], k);
      var project := After(c, s, polls, i).projects[k];
      if At(before.projects, k) == Some(project) {
        ServedFromOneResponse(c, polls, i - 1, k);
      } else {
        var keys := ToRefresh(c, before, polls[i - 1]);
        var j: nat :|
          j < |keys| && keys[j] == k && Fetched(c, Answer(c, keys, polls[i - 1].remote, j)) == Some(project);
        assert CameFrom(c, s, polls, k, project, i - 1, j);
      }
    }
  }

  /** The listing shows key k, under a hash that is not registered and differs from the served one. */
  ghost predicate ListedAnew(c: Config, s: State, p: Poll, k: string, o: Listed)
    requires p.listing.Some? && k in s.projects
  {
    && o in p.listing.value
    && ToData(c, s.failed + p.others, o) == Some(ProjectData(k, o.etag))
    && o.etag != s.projects[k].contentHash
  }

  /**
   * A served project listed under a different hash, and nothing else, enters the difference as updated.
   * It is reported to the caller exactly when its download succeeded; otherwise it is no longer
   * served, and the report does not mention it at all.
   */
  lemma StaleReportedUpdated(c: Config, s: State, p: Poll, k: string)
    requires Enumerates(p.order, s.projects.Keys) && p.listing.Some? && ListingOk(c, p.listing.value)
    ensures Updated(k) in Diff(c, s, p) <==> k in s.projects && exists o :: ListedAnew(c, s, p, k, o)
    ensures Updated(k) in Diff(c, s, p) ==>
      && (Updated(k) in Reported(Diff(c, s, p), Refreshed(c, s, p)) <==> Arrives(c, s, p, k))
      && (Arrives(c, s, p, k) <==> k in Step(c, s, p).projects)
      && (!Arrives(c, s, p, k) ==>
            && k !in Step(c, s, p).projects
            && forall e :: e in Reported(Diff(c, s, p), Refreshed(c, s, p)) ==> e.key != k)
  {
    UpdatedExactly(c, s, p, k);
    RefreshedExactly(c, s, p, k);
    var diff, refreshed := Diff(c, s, p), Refreshed(c, s, p);
    ReportedMember(diff, refreshed, Updated(k));
    if Updated(k) in diff {
      DiffConsistent(s.projects, p.order, Visible(c, s, p));
      AppliedAt(s.projects, diff, refreshed, k);
      forall e | e in Reported(diff, refreshed) && k !in refreshed ensures e.key != k {
        ReportedMember(diff, refreshed, e);
        DiffMember(s.projects, p.order, Visible(c, s, p), Updated(k));
        DiffMember(s.projects, p.order, Visible(c, s, p), e);
      }
    }
  }

  /** A bucket that answers no get. */
  const OUT_OF_REACH: (nat, string) -> Response := (i: nat, name: string) => GetFailed

  /** A poll that finds one project stale and does not reach the bucket again loses it. */
  lemma OneLost(c: Config, s: State, p: Poll, k: string)
    requires p.listing.Some? && p.remote == OUT_OF_REACH && p.others == {} && Diff(c, s, p) == [Updated(k)]
    ensures Step(c, s, p) == State(s.projects - {k}, s.failed) && Reported(Diff(c, s, p), Refreshed(c, s, p)) == []
  {
    assert [Updated(k)][1..] == [] && RefreshList([]) == [];
    assert ToRefresh(c, s, p) == [k];
    assert Downloaded(c, [k], OUT_OF_REACH, 1) == Downloaded(c, [k], OUT_OF_REACH, 0) == map[];
    assert Registered(c, [k], OUT_OF_REACH, 1) == Registered(c, [k], OUT_OF_REACH, 0) == {};
    assert [Updated(k)][..0] == [] && Applied(s.projects, [], map[]) == s.projects;
  }

  lemma OneStale(projects: Projects, k: string, d: ProjectData)
    requires projects.Keys == {k} && d.key == k && projects[k].contentHash != d.contentHash
    ensures CalculateDiff(projects, [k], [d]) == [Updated(k)]
  {
    assert d in [d] && Keys([d]) == {k};
    assert [k][1..] == [] && Removals([k], [d]) == [];
    assert [d][1..] == [] && Updates(projects, [d]) == [Updated(k)];
  }

  /**
   * An agent serves one project, the bucket lists it under another hash, and its get fails: the project
   * is no longer served, and the poll reports no change at all.
   */
  lemma StaleLostUnreported(lower: string -> string, stale: Project)
    requires stale.contentHash == Some([1])
    ensures var c, s := Config(Prefix(None), lower), State(map["p" := stale], {});
            var p := Poll(Some([Listed(Some("p"), Some([2]))]), ["p"], OUT_OF_REACH, {});
            Step(c, s, p) == State(map[], {}) && Reported(Diff(c, s, p), Refreshed(c, s, p)) == []
  {
    var c, s := Config(Prefix(None), lower), State(map["p" := stale], {});
    var o, d := Listed(Some("p"), Some([2])), ProjectData("p", Some([2]));
    var p := Poll(Some([o]), ["p"], OUT_OF_REACH, {});
    assert |"p"| == 1 && [1][0] != [2][0];
    assert ToData(c, {}, o) == Some(d);
    assert [o][1..] == [] && Data(c, {}, [o]) == [d];
    assert s.failed + p.others == {};
    OneStale(s.projects, "p", d);
    OneLost(c, s, p, "p");
    assert s.projects - {"p"} == map[];
  }

  lemma UpdatedExactly(c: Config, s: State, p: Poll, k: string)
    requires Enumerates(p.order, s.projects.Keys) && p.listing.Some?
    ensures Updated(k) in Diff(c, s, p) <==> k in s.projects && exists o :: ListedAnew(c, s, p, k, o)
  {
    var data, failed := Visible(c, s, p), s.failed + p.others;
    DiffMember(s.projects, p.order, data, Updated(k));
    if k in s.projects {
      if d :| d in data && d.key == k && s.projects[k].contentHash != d.contentHash {
        DataMember(c, failed, p.listing.value, d);
        var o :| o in p.listing.value && ToData(c, failed, o) == Some(d);
        assert ListedAnew(c, s, p, k, o);
      }
      if o :| ListedAnew(c, s, p, k, o) {
        DataMember(c, failed, p.listing.value, ProjectData(k, o.etag));
      }
    }
  }

  /** The poll lists this object for key k; no get of k brings an archive, and nothing registers its hash. */
  ghost predicate NoArchive(c: Config, s: State, p: Poll, k: string, o: Listed) {
    && Enumerates(p.order, s.projects.Keys) && p.listing.Some? && o in p.listing.value
    && o.key.Some? && Strip(c.prefix, o.key.value) == k && k != ""
    && !HasFailed(p.others, o.etag)
    && forall i: nat :: i < |ToRefresh(c, s, p)| ==>
         var r := Answer(c, ToRefresh(c, s, p), p.remote, i);
         && (ToRefresh(c, s, p)[i] == k ==> !r.Object?)
         && (o.etag.Some? ==> o.etag.value !in Registers(c, r))
  }

  /** The poll asks for key k. */
  predicate Asks(c: Config, s: State, p: Poll, k: string) {
    p.listing.Some? && k in ToRefresh(c, s, p)
  }

  /** The key is not served, and the object's hash not registered. */
  predicate Unfetched(s: State, k: string, o: Listed) {
    k !in s.projects && !HasFailed(s.failed, o.etag)
  }

  lemma NoArchiveNext(c: Config, s: State, p: Poll, k: string, o: Listed)
    requires NoArchive(c, s, p, k, o) && Unfetched(s, k, o)
    ensures Asks(c, s, p, k) && Unfetched(Step(c, s, p), k, o)
  {
    var keys, data := ToRefresh(c, s, p), Visible(c, s, p);
    DataMember(c, s.failed + p.others, p.listing.value, ProjectData(k, o.etag));
    assert ToData(c, s.failed + p.others, o) == Some(ProjectData(k, o.etag));
    DiffMember(s.projects, p.order, data, Created(k));
    RefreshListMember(Diff(c, s, p), k);
    DownloadedMember(c, keys, p.remote, |keys|, k);
    ServedExactly(s.projects, p.order, data, Refreshed(c, s, p));
    if o.etag.Some? {
      RegisteredMember(c, keys, p.remote, |keys|, o.etag.value);
    }
  }

  ghost predicate NoArchiveAt(c: Config, s: State, polls: seq<Poll>, m: nat, k: string, o: Listed)
    requires m < |polls|
  {
    NoArchive(c, After(c, s, polls, m), polls[m], k, o)
  }

  ghost predicate AsksAt(c: Config, s: State, polls: seq<Poll>, m: nat, k: string)
    requires m < |polls|
  {
    Asks(c, After(c, s, polls, m), polls[m], k)
  }

  ghost predicate UnfetchedAt(c: Config, s: State, polls: seq<Poll>, m: nat, k: string, o: Listed)
    requires m <= |polls|
  {
    Unfetched(After(c, s, polls, m), k, o)
  }

  lemma NoArchiveAtNext(c: Config, s: State, polls: seq<Poll>, m: nat, k: string, o: Listed)
    requires m < |polls| && NoArchiveAt(c, s, polls, m, k, o) && UnfetchedAt(c, s, polls, m, k, o)
    ensures AsksAt(c, s, polls, m, k) && UnfetchedAt(c, s, polls, m + 1, k, o)
  {
    NoArchiveNext(c, After(c, s, polls, m), polls[m], k, o);
  }

  ghost predicate NoArchiveUpTo(c: Config, s: State, polls: seq<Poll>, n: nat, k: string, o: Listed)
    requires n <= |polls|
  {
    forall m :: 0 <= m < n ==> NoArchiveAt(c, s, polls, m, k, o)
  }

  lemma UpToOneLess(c: Config, s: State, polls: seq<Poll>, n: nat, k: string, o: Listed)
    requires n < |polls| && NoArchiveUpTo(c, s, polls, n + 1, k, o)
    ensures NoArchiveUpTo(c, s, polls, n, k, o) && NoArchiveAt(c, s, polls, n, k, o)
  {
  }

  lemma {:induction false} StaysUnfetched(c: Config, s: State, polls: seq<Poll>, n: nat, k: string, o: Listed)
    requires n <= |polls| && Unfetched(s, k, o) && NoArchiveUpTo(c, s, polls, n, k, o)
    ensures UnfetchedAt(c, s, polls, n, k, o)
  {
    if n == 0 {
      UnfetchedAtStart(c, s, polls, k, o);
    } else {
      UpToOneLess(c, s, polls, n - 1, k, o);
      StaysUnfetched(c, s, polls, n - 1, k, o);
      NoArchiveAtNext(c, s, polls, n - 1, k, o);
    }
  }

  /**
   * An object that keeps answering with something that is no archive, under a hash that is not
   * registered, is never served and is requested again by every poll.
   */
  lemma NoArchiveAskedAgain(c: Config, s: State, polls: seq<Poll>, n: nat, k: string, o: Listed)
    requires n < |polls| && Unfetched(s, k, o) && NoArchiveUpTo(c, s, polls, n + 1, k, o)
    ensures AsksAt(c, s, polls, n, k) && UnfetchedAt(c, s, polls, n + 1, k, o)
  {
    UpToOneLess(c, s, polls, n, k, o);
    StaysUnfetched(c, s, polls, n, k, o);
    NoArchiveAtNext(c, s, polls, n, k, o);
  }

  lemma UnfetchedAtStart(c: Config, s: State, polls: seq<Poll>, k: string, o: Listed)
    requires Unfetched(s, k, o)
    ensures UnfetchedAt(c, s, polls, 0, k, o)
  {
  }

  // ---- a poll without failures ----

  /** Every get of the poll brings a loading archive with the hash its key was listed under. */
  ghost predicate ArriveAsListed(c: Config, s: State, p: Poll)
    requires p.listing.Some?
  {
    forall i: nat, d :: i < |ToRefresh(c, s, p)| && d in Visible(c, s, p) && d.key == ToRefresh(c, s, p)[i] ==>
      var r := p.remote(i, Prepend(c.prefix, d.key));
      Loads(r) && r.etag == d.contentHash
  }

  /**
   * From any served table, one poll without failures serves exactly the listed keys with the listed
   * hashes and registers nothing; polling the same listing again finds nothing to do.
   */
  lemma PollThenQuiet(c: Config, s: State, p: Poll, q: Poll)
    requires p.listing.Some? && ListingOk(c, p.listing.value) && Enumerates(p.order, s.projects.Keys)
    requires ArriveAsListed(c, s, p)
    requires q.listing == p.listing && q.others <= s.failed + p.others
    requires Enumerates(q.order, Step(c, s, p).projects.Keys)
    ensures InSync(Step(c, s, p).projects, Visible(c, s, p))
    ensures Step(c, s, p).failed == s.failed + p.others
    ensures Diff(c, Step(c, s, p), q) == []
  {
    var data, keys, t := Visible(c, s, p), ToRefresh(c, s, p), Step(c, s, p);
    DataDistinct(c, s.failed + p.others, p.listing.value);
    forall d | d in data && d.key in keys
      ensures d.key in Refreshed(c, s, p) && Refreshed(c, s, p)[d.key].contentHash == d.contentHash
    {
      DownloadedMember(c, keys, p.remote, |keys|, d.key);
      var i: nat :| i < |keys| && keys[i] == d.key;
      assert Loads(Answer(c, keys, p.remote, i));
    }
    PollReachesSync(s.projects, p.order, data, Refreshed(c, s, p));
    forall h ensures h !in Registered(c, keys, p.remote, |keys|) {
      NothingRegistered(c, s, p, h);
    }
    assert t.failed == s.failed + p.others;
    assert t.failed + q.others == s.failed + p.others;
    EmptyDiffIffInSync(t.projects, q.order, data);
  }

  lemma NothingRegistered(c: Config, s: State, p: Poll, h: seq<byte>)
    requires p.listing.Some? && Enumerates(p.order, s.projects.Keys) && ArriveAsListed(c, s, p)
    ensures h !in Registered(c, ToRefresh(c, s, p), p.remote, |ToRefresh(c, s, p)|)
  {
    var keys := ToRefresh(c, s, p);
    RegisteredMember(c, keys, p.remote, |keys|, h);
    forall i: nat | i < |keys| ensures h !in Registers(c, Answer(c, keys, p.remote, i)) {
      var d := RefreshedIsVisible(c, s, p, i);
      assert Loads(Answer(c, keys, p.remote, i));
      FetchedExactly(c, Answer(c, keys, p.remote, i));
    }
  }

  // ---- an unchanging bucket ----

  /**
   * The bucket stands still: both polls see the same listing, a get depends on the name
   * alone and carries the listed hash, and a hash decides whether its content loads.
   */
  ghost predicate Still(c: Config, s: State, p: Poll, q: Poll, fetch: string -> Response, good: seq<byte> -> bool) {
    && p.listing.Some? && q.listing == p.listing && ListingOk(c, p.listing.value)
    && p.others == {} && q.others == {}
    && (forall i: nat, name :: p.remote(i, name) == fetch(name) && q.remote(i, name) == fetch(name))
    && (forall o :: o in p.listing.value && o.key.Some? && fetch(o.key.value).Object? ==>
          fetch(o.key.value).etag == o.etag)
    && (forall name :: fetch(name).Object? && fetch(name).etag.Some? ==>
          (Loads(fetch(name)) <==> good(fetch(name).etag.value)))
    && (forall k :: k in s.projects && s.projects[k].contentHash.Some? ==> good(s.projects[k].contentHash.value))
  }

  /** In a still bucket a listed key's download gives the listed hash, or nothing. */
  lemma StillDownload(c: Config, s: State, t: State, p: Poll, q: Poll, r: Poll, fetch: string -> Response,
                      good: seq<byte> -> bool, o: Listed)
    requires Still(c, s, p, q, fetch, good) && (r == p || r == q)
    requires o in p.listing.value && o.key.Some? && ToData(c, t.failed, o).Some?
    requires Strip(c.prefix, o.key.value) in ToRefresh(c, t, r)
    ensures At(Refreshed(c, t, r), Strip(c.prefix, o.key.value)) == Fetched(c, fetch(o.key.value))
    ensures Fetched(c, fetch(o.key.value)).Some? <==> Loads(fetch(o.key.value))
  {
    var k, keys := Strip(c.prefix, o.key.value), ToRefresh(c, t, r);
    PrependStrip(c.prefix, o.key.value);
    DownloadedMember(c, keys, r.remote, |keys|, k);
    var i :| 0 <= i < |keys| && keys[i] == k;
    assert Answer(c, keys, r.remote, i) == fetch(o.key.value);
    FetchedExactly(c, fetch(o.key.value));
  }

  /** Hashes a poll of a still bucket registers are bad ones. */
  lemma StillRegisters(c: Config, s: State, p: Poll, q: Poll, fetch: string -> Response, good: seq<byte> -> bool,
                       h: seq<byte>)
    requires Still(c, s, p, q, fetch, good)
    requires h in Step(c, s, p).failed && h !in s.failed
    ensures !good(h)
  {
    var keys := ToRefresh(c, s, p);
    RegisteredMember(c, keys, p.remote, |keys|, h);
    var i :| 0 <= i < |keys| && h in Registers(c, Answer(c, keys, p.remote, i));
    assert Answer(c, keys, p.remote, i) == fetch(Prepend(c.prefix, keys[i]));
    FetchedExactly(c, fetch(Prepend(c.prefix, keys[i])));
  }

  /** In a still bucket every project served after the first poll is listed, and listed with its own hash. */
  lemma StillServed(c: Config, s: State, p: Poll, q: Poll, fetch: string -> Response, good: seq<byte> -> bool,
                    k: string) returns (o: Listed)
    requires Still(c, s, p, q, fetch, good) && Enumerates(p.order, s.projects.Keys)
    requires k in Step(c, s, p).projects
    ensures o in p.listing.value && o.key.Some? && Strip(c.prefix, o.key.value) == k
    ensures o.etag == Step(c, s, p).projects[k].contentHash
    ensures o.etag.Some? ==> good(o.etag.value)
    ensures ToData(c, Step(c, s, p).failed, o) == Some(ProjectData(k, o.etag))
  {
    var data, t := Visible(c, s, p), Step(c, s, p);
    assert s.failed + p.others == s.failed;
    DataDistinct(c, s.failed, p.listing.value);
    ServedExactly(s.projects, p.order, data, Refreshed(c, s, p));
    var d :| d in data && d.key == k;
    DataMember(c, s.failed, p.listing.value, d);
    o :| o in p.listing.value && ToData(c, s.failed, o) == Some(d);
    ListedOutcome(s.projects, p.order, data, Refreshed(c, s, p), d);
    assert At(t.projects, k) == Some(t.projects[k]);
    if k in ToRefresh(c, s, p) {
      StillDownload(c, s, s, p, q, p, fetch, good, o);
    }
    if o.etag.Some? && o.etag.value in t.failed && o.etag.value !in s.failed {
      StillRegisters(c, s, p, q, fetch, good, o.etag.value);
    }
  }

  /**
   * Over a bucket that stands still one poll is enough: the second leaves the table exactly as
   * it is and reports no change, although objects that fail without a registrable hash are
   * requested again.
   */
  lemma Settles(c: Config, s: State, p: Poll, q: Poll, fetch: string -> Response, good: seq<byte> -> bool)
    requires Still(c, s, p, q, fetch, good)
    requires Enumerates(p.order, s.projects.Keys) && Enumerates(q.order, Step(c, s, p).projects.Keys)
    ensures Step(c, Step(c, s, p), q).projects == Step(c, s, p).projects
    ensures Reported(Diff(c, Step(c, s, p), q), Refreshed(c, Step(c, s, p), q)) == []
  {
    var t := Step(c, s, p);
    var diff, refreshed, data := Diff(c, t, q), Refreshed(c, t, q), Visible(c, t, q);
    assert t.failed + q.others == t.failed;
    DataDistinct(c, t.failed, q.listing.value);
    forall e | e in diff ensures e.key !in t.projects && !e.Removed? && e.key !in refreshed {
      SettledEntry(c, s, p, q, fetch, good, e);
    }
    DiffConsistent(t.projects, q.order, data);
    forall k ensures At(Step(c, t, q).projects, k) == At(t.projects, k) {
      AppliedAt(t.projects, diff, refreshed, k);
      if k in DiffKeys(diff) {
        var e :| e in diff && e.key == k;
      }
    }
    SameTable(Step(c, t, q).projects, t.projects);
    var reported := Reported(diff, refreshed);
    if reported != [] {
      var e := reported[0];
      assert e in reported;
      ReportedMember(diff, refreshed, e);
    }
  }

  /** All a second poll still finds to do is to retry objects that failed to load the first time. */
  lemma SettledEntry(c: Config, s: State, p: Poll, q: Poll, fetch: string -> Response, good: seq<byte> -> bool,
                     e: ProjectDiff)
    requires Still(c, s, p, q, fetch, good)
    requires Enumerates(p.order, s.projects.Keys) && Enumerates(q.order, Step(c, s, p).projects.Keys)
    requires e in Diff(c, Step(c, s, p), q)
    ensures e.Created? && e.key !in Step(c, s, p).projects && e.key !in Refreshed(c, Step(c, s, p), q)
  {
    var t, k := Step(c, s, p), e.key;
    var data := Visible(c, t, q);
    assert t.failed + q.others == t.failed && s.failed + p.others == s.failed;
    DataDistinct(c, t.failed, q.listing.value);
    DiffMember(t.projects, q.order, data, e);
    if k in t.projects {
      var o := StillServed(c, s, p, q, fetch, good, k);
      DataMember(c, t.failed, q.listing.value, ProjectData(k, o.etag));
      ListedOutcome(t.projects, q.order, data, Refreshed(c, t, q), ProjectData(k, o.etag));
      RefreshListMember(Diff(c, t, q), k);
      assert false;
    }
    var d :| d in data && d.key == k;
    DataMember(c, t.failed, q.listing.value, d);
    var o :| o in q.listing.value && ToData(c, t.failed, o) == Some(d);
    assert ToData(c, s.failed, o) == Some(d);
    DataMember(c, s.failed, p.listing.value, d);
    DataDistinct(c, s.failed, p.listing.value);
    ListedOutcome(s.projects, p.order, Visible(c, s, p), Refreshed(c, s, p), d);
    assert At(t.projects, k) == None;
    StillDownload(c, s, s, p, q, p, fetch, good, o);
    RefreshListMember(Diff(c, t, q), k);
    StillDownload(c, s, t, p, q, q, fetch, good, o);
    assert At(Refreshed(c, t, q), k) == None;
  }

  /** The polling agent: its table and the registry of failed hashes, both updated in place. */
  class Agent {
    const config: Config
    const data: AgentData
    var failed: set<seq<byte>>

    constructor (config: Config)
      ensures this.config == config && fresh(data)
      ensures Abs() == State(map[], {})
    {
      this.config := config;
      data := new AgentData();
      failed := {};
    }

    ghost function Abs(): State
      reads this, data
    {
      State(data.projects, failed)
    }

    method GenerateProjects(keys: seq<string>, remote: (nat, string) -> Response) returns (refreshed: Projects)
      modifies this`failed
      ensures refreshed == Downloaded(config, keys, remote, |keys|)
      ensures failed == old(failed) + Registered(config, keys, remote, |keys|)
    {
      refreshed := map[];
      for i := 0 to |keys|
        invariant refreshed == Downloaded(config, keys, remote, i)
        invariant failed == old(failed) + Registered(config, keys, remote, i)
      {
        var response := remote(i, Prepend(config.prefix, keys[i]));
        if response.Object? {
          var loader := Build(response.archive, config.lower);
          if loader.Some? {
            refreshed := refreshed[keys[i] := Project(loader.value, response.etag)];
          } else if response.etag.Some? {
            failed := failed + {response.etag.value};
          }
        }
      }
    }

    /** One poll; Err stands for a failed listing request. */
    method LoadData(p: Poll) returns (r: Result<seq<ProjectDiff>, ()>)
      modifies this`failed, data
      ensures Abs() == Step(config, old(Abs()), p)
      ensures r.Ok? <==> p.listing.Some?
      ensures r.Ok? ==> r.value == Reported(Diff(config, old(Abs()), p), Refreshed(config, old(Abs()), p))
    {
      failed := failed + p.others;
      if p.listing.None? {
        return Err(());
      }
      var projectData := Data(config, failed, p.listing.value);
      var diff := CalculateDiff(data.projects, p.order, projectData);
      var refreshed := GenerateProjects(RefreshList(diff), p.remote);
      var reported := data.GetDiffResult(diff, refreshed);
      r := Ok(reported);
    }
  }
}
