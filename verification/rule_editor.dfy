/**
 * Editing one rule and saving it: the canvas, the revision counters behind the unsaved-changes
 * mark, the rule store, and the save, rename and delete requests in flight, as interleaved steps.
 */
module RuleEditor {
  import opened Wrappers
  import opened DecisionGraph
  import opened CycleCheck

  datatype Key = Key(ruleType: string, filename: string)

  /** `baseline` is the graph whose serialised text is remembered as the last persisted one. */
  datatype Page = Page(key: Key, canvas: Graph, revision: int, savedRevision: int, baseline: Graph)

  datatype Kind = Manual | Agent | Rename(from: Key)

  /** How far a save has come; the last three phases belong to renames. */
  datatype Phase = Sent | Stored | Deleting | Deleted | Listing

  /** A save in flight, with what its handler captured when it began. */
  datatype Save = Save(kind: Kind, target: Key, graph: Graph, revision: int, phase: Phase)

  datatype Write = Write(key: Key, graph: Graph)

  /** `deletes` holds the requests of delete_rule cards in flight, each with the file it names. */
  datatype State = State(page: Page, store: map<Key, Graph>, saves: map<nat, Save>, deletes: map<nat, Key>,
                         written: seq<Write>)

  datatype Action =
    | Load
    | Change(graph: Graph)
    | AgentEdit(graph: Graph)
    | ClickSave(id: nat)
    | ApplySave(id: nat)
    | ApplyRename(id: nat, filename: string)
    | Store(id: nat)
    | Succeed(id: nat)
    | Delete(id: nat)
    | Mark(id: nat)
    | Navigate(id: nat, leave: bool)
    | Fail(id: nat)
    | ApplyDelete(id: nat, key: Key)
    | Erase(id: nat)
    | FailDelete(id: nat)

  predicate Dirty(p: Page) {
    p.revision != p.savedRevision
  }

  // ---- page updates ----

  function Opened(key: Key, loaded: Graph): Page {
    Page(key, loaded, 0, 0, loaded)
  }

  /** The canvas reports a value: it counts as an edit only when it differs from the baseline. */
  function Changed(p: Page, value: Graph): Page {
    p.(canvas := value, revision := if value != p.baseline then p.revision + 1 else p.revision)
  }

  function AgentEdited(p: Page, value: Graph): Page {
    p.(canvas := value, revision := p.revision + 1)
  }

  /** A manual save marks what it captured as saved. */
  function ManualSaved(p: Page, s: Save): Page {
    p.(savedRevision := s.revision, baseline := s.graph)
  }

  /** An agent save marks whatever the page holds when the request returns. */
  function AgentSaved(p: Page): Page {
    p.(savedRevision := p.revision, baseline := p.canvas)
  }

  /** The save an action begins, unless its handler refuses. */
  ghost function Begun(p: Page, a: Action): Option<Save> {
    match a
    case ClickSave(_) =>
      if p.key.filename == "" || Cyclic(p.canvas) then None
      else Some(Save(Manual, p.key, p.canvas, p.revision, Sent))
    case ApplySave(_) =>
      if Cyclic(p.canvas) then None else Some(Save(Agent, p.key, p.canvas, p.revision, Sent))
    case ApplyRename(_, filename) =>
      if filename == p.key.filename || Cyclic(p.canvas) || p.key.filename == "" then None
      else Some(Save(Rename(p.key), Key(p.key.ruleType, filename), p.canvas, p.revision, Sent))
    case _ => None
  }

  predicate Begins(a: Action) {
    a.ClickSave? || a.ApplySave? || a.ApplyRename?
  }

  // ---- the steps ----

  predicate InPhase(s: State, id: nat, phase: Phase) {
    id in s.saves && s.saves[id].phase == phase
  }

  function Advance(s: State, id: nat, phase: Phase): State
    requires id in s.saves
  {
    s.(saves := s.saves[id := s.saves[id].(phase := phase)])
  }

  function Drop(s: State, id: nat): State {
    s.(saves := s.saves - {id})
  }

  /**
   * A rename ends with marking the page, refreshing the list of rules (which may fail), and navigating:
   * a page with unsaved changes then asks, and `leave` is the answer.
   */
  ghost function Step(s: State, a: Action): State {
    match a
    case Load => if s.page.key in s.store then s.(page := Opened(s.page.key, s.store[s.page.key])) else s
    case Change(g) => s.(page := Changed(s.page, g))
    case AgentEdit(g) => s.(page := AgentEdited(s.page, g))
    case Store(id) =>
      if !InPhase(s, id, Sent) then s
      else
        var save := s.saves[id];
        Advance(s, id, Stored).(store := s.store[save.target := save.graph],
                                written := s.written + [Write(save.target, save.graph)])
    case Succeed(id) =>
      if !InPhase(s, id, Stored) then s
      else if s.saves[id].kind.Rename? then Advance(s, id, Deleting)
      else
        var page := if s.saves[id].kind.Manual? then ManualSaved(s.page, s.saves[id]) else AgentSaved(s.page);
        Drop(s, id).(page := page)
    case Delete(id) =>
      if !InPhase(s, id, Deleting) || !s.saves[id].kind.Rename? then s
      else Advance(s, id, Deleted).(store := s.store - {s.saves[id].kind.from})
    case Mark(id) => if !InPhase(s, id, Deleted) then s else Advance(s, id, Listing).(page := AgentSaved(s.page))
    case Navigate(id, leave) =>
      if !InPhase(s, id, Listing) then s
      else Drop(s, id).(page := if Dirty(s.page) && !leave then s.page else s.page.(key := s.saves[id].target))
    case Fail(id) => Drop(s, id)
    case ApplyDelete(id, k) => if id in s.deletes then s else s.(deletes := s.deletes[id := k])
    case Erase(id) =>
      if id !in s.deletes then s else s.(store := s.store - {s.deletes[id]}, deletes := s.deletes - {id})
    case FailDelete(id) => s.(deletes := s.deletes - {id})
    case _ =>
      var save := Begun(s.page, a);
      if save.None? || a.id in s.saves then s else s.(saves := s.saves[a.id := save.value])
  }

  ghost function After(s: State, acts: seq<Action>, n: nat): State
    requires n <= |acts|
  {
    if n == 0 then s else Step(After(s, acts, n - 1), acts[n - 1])
  }

  // ---- what the three ways to save send ----

  /** Only this request is new in flight, and nothing else has changed. */
  predicate Sends(before: State, after: State, id: nat, r: Save) {
    after == before.(saves := before.saves[id := r])
  }

  /**
   * In every run a click on Save sends the canvas, under the page's name, if and only if the page has a
   * name and no edges of the canvas close a cycle; else it does nothing.
   */
  lemma ManualSaveSends(s: State, acts: seq<Action>, i: nat)
    requires i < |acts| && acts[i].ClickSave? && acts[i].id !in After(s, acts, i).saves
    ensures var before, after, p := After(s, acts, i), After(s, acts, i + 1), After(s, acts, i).page;
            && (p.key.filename != "" && (forall c :: !IsRing(p.canvas.edges, c)) ==>
                  Sends(before, after, acts[i].id, Save(Manual, p.key, p.canvas, p.revision, Sent)))
            && (p.key.filename == "" || (exists c :: IsRing(p.canvas.edges, c)) ==> after == before)
  {
    CyclicMeans(After(s, acts, i).page.canvas);
  }

  /** An applied save_rule card sends it if and only if no edges close a cycle. */
  lemma AgentSaveSends(s: State, acts: seq<Action>, i: nat)
    requires i < |acts| && acts[i].ApplySave? && acts[i].id !in After(s, acts, i).saves
    ensures var before, after, p := After(s, acts, i), After(s, acts, i + 1), After(s, acts, i).page;
            && ((forall c :: !IsRing(p.canvas.edges, c)) ==>
                  Sends(before, after, acts[i].id, Save(Agent, p.key, p.canvas, p.revision, Sent)))
            && ((exists c :: IsRing(p.canvas.edges, c)) ==> after == before)
  {
    CyclicMeans(After(s, acts, i).page.canvas);
  }

  /** An applied rename_rule card sends it under the new name, for a page that has another name and no cycle. */
  lemma RenameSends(s: State, acts: seq<Action>, i: nat)
    requires i < |acts| && acts[i].ApplyRename? && acts[i].id !in After(s, acts, i).saves
    ensures var before, after, p := After(s, acts, i), After(s, acts, i + 1), After(s, acts, i).page;
            var target := Key(p.key.ruleType, acts[i].filename);
            && (p.key.filename !in {"", acts[i].filename} && (forall c :: !IsRing(p.canvas.edges, c)) ==>
                  Sends(before, after, acts[i].id, Save(Rename(p.key), target, p.canvas, p.revision, Sent)))
            && (p.key.filename in {"", acts[i].filename} || (exists c :: IsRing(p.canvas.edges, c)) ==> after == before)
  {
    CyclicMeans(After(s, acts, i).page.canvas);
  }

  lemma SentStays(s: State, a: Action, id: nat)
    requires InPhase(s, id, Sent) && a != Store(id) && a != Fail(id)
    ensures id in Step(s, a).saves && Step(s, a).saves[id] == s.saves[id]
  {
  }

  /** After n steps exactly this save is in flight under this number. */
  ghost predicate InFlight(s: State, acts: seq<Action>, n: nat, id: nat, r: Save)
    requires n <= |acts|
  {
    id in After(s, acts, n).saves && After(s, acts, n).saves[id] == r
  }

  lemma InFlightNext(s: State, acts: seq<Action>, n: nat, id: nat, r: Save)
    requires n < |acts| && InFlight(s, acts, n, id, r) && r.phase == Sent && acts[n] != Store(id) && acts[n] != Fail(id)
    ensures InFlight(s, acts, n + 1, id, r)
  {
    SentStays(After(s, acts, n), acts[n], id);
  }

  lemma {:induction false} SentStaysUntil(s: State, acts: seq<Action>, i: nat, j: nat, id: nat, r: Save)
    requires i <= j <= |acts| && InFlight(s, acts, i, id, r) && r.phase == Sent
    requires forall m :: i <= m < j ==> acts[m] != Store(id) && acts[m] != Fail(id)
    ensures InFlight(s, acts, j, id, r)
    decreases j
  {
    if i < j {
      SentStaysUntil(s, acts, i, j - 1, id, r);
      InFlightNext(s, acts, j - 1, id, r);
    }
  }

  lemma StorePuts(s: State, id: nat)
    requires InPhase(s, id, Sent)
    ensures var t, r := Step(s, Store(id)), s.saves[id];
            && t.store == s.store[r.target := r.graph] && t.page == s.page
            && InPhase(t, id, Stored) && t.saves[id] == r.(phase := Stored)
  {
  }

  /** Whatever happens meanwhile: once what was sent reaches the store, the store holds just that. */
  lemma SentIsStored(s: State, acts: seq<Action>, i: nat, j: nat, id: nat)
    requires i <= j < |acts| && InPhase(After(s, acts, i), id, Sent) && acts[j] == Store(id)
    requires forall m :: i <= m < j ==> acts[m] != Store(id) && acts[m] != Fail(id)
    ensures var r, t := After(s, acts, i).saves[id], After(s, acts, j + 1);
            r.target in t.store && t.store[r.target] == r.graph
  {
    SentStaysUntil(s, acts, i, j, id, After(s, acts, i).saves[id]);
    StorePuts(After(s, acts, j), id);
  }

  lemma DeleteStays(s: State, a: Action, id: nat)
    requires id in s.deletes && a != Erase(id) && a != FailDelete(id)
    ensures id in Step(s, a).deletes && Step(s, a).deletes[id] == s.deletes[id]
  {
  }

  lemma EraseRemoves(s: State, id: nat)
    requires id in s.deletes
    ensures Step(s, Erase(id)).store == s.store - {s.deletes[id]}
  {
  }

  /** A delete request ends when it completes or fails, and a failed one leaves the store as it is. */
  lemma DeleteEnds(s: State, id: nat)
    ensures id !in Step(s, Erase(id)).deletes
    ensures Step(s, FailDelete(id)).deletes.Keys == s.deletes.Keys - {id} && Step(s, FailDelete(id)).store == s.store
  {
  }

  /** After n steps a delete request for this file is in flight under this number. */
  ghost predicate DeleteInFlight(s: State, acts: seq<Action>, n: nat, id: nat, k: Key)
    requires n <= |acts|
  {
    id in After(s, acts, n).deletes && After(s, acts, n).deletes[id] == k
  }

  lemma DeleteInFlightNext(s: State, acts: seq<Action>, n: nat, id: nat, k: Key)
    requires n < |acts| && DeleteInFlight(s, acts, n, id, k) && acts[n] != Erase(id) && acts[n] != FailDelete(id)
    ensures DeleteInFlight(s, acts, n + 1, id, k)
  {
    DeleteStays(After(s, acts, n), acts[n], id);
  }

  lemma DeleteBegins(s: State, acts: seq<Action>, i: nat, id: nat, k: Key)
    requires i < |acts| && acts[i] == ApplyDelete(id, k) && id !in After(s, acts, i).deletes
    ensures DeleteInFlight(s, acts, i + 1, id, k)
  {
  }

  lemma {:induction false} DeleteInFlightUntil(s: State, acts: seq<Action>, i: nat, j: nat, id: nat, k: Key)
    requires i <= j <= |acts| && DeleteInFlight(s, acts, i, id, k)
    requires forall m :: i <= m < j ==> acts[m] != Erase(id) && acts[m] != FailDelete(id)
    ensures DeleteInFlight(s, acts, j, id, k)
    decreases j
  {
    if i < j {
      DeleteInFlightUntil(s, acts, i, j - 1, id, k);
      DeleteInFlightNext(s, acts, j - 1, id, k);
    }
  }

  lemma ErasedNext(s: State, acts: seq<Action>, j: nat, id: nat, k: Key)
    requires j < |acts| && DeleteInFlight(s, acts, j, id, k) && acts[j] == Erase(id)
    ensures After(s, acts, j + 1).store == After(s, acts, j).store - {k}
  {
    EraseRemoves(After(s, acts, j), id);
  }

  /** An applied delete_rule card, for any file and whatever happens meanwhile: the file is gone once it completes. */
  lemma DeleteCardErases(s: State, acts: seq<Action>, i: nat, j: nat, id: nat, k: Key)
    requires i < j < |acts| && acts[i] == ApplyDelete(id, k) && id !in After(s, acts, i).deletes && acts[j] == Erase(id)
    requires forall m :: i < m < j ==> acts[m] != Erase(id) && acts[m] != FailDelete(id)
    ensures After(s, acts, j + 1).store == After(s, acts, j).store - {k}
  {
    DeleteBegins(s, acts, i, id, k);
    DeleteInFlightUntil(s, acts, i + 1, j, id, k);
    ErasedNext(s, acts, j, id, k);
  }

  // ---- only checked snapshots are ever written ----

  /** Action i of the run began this save: its graph was the canvas then, and passed the gate. */
  ghost predicate BegunAt(s: State, acts: seq<Action>, i: nat, target: Key, graph: Graph)
    requires i < |acts|
  {
    var save := Begun(After(s, acts, i).page, acts[i]);
    save.Some? && save.value.target == target && save.value.graph == graph
  }

  lemma BegunIsChecked(p: Page, a: Action)
    requires Begun(p, a).Some?
    ensures Begins(a) && Begun(p, a).value.graph == p.canvas && !Cyclic(p.canvas)
    ensures if a.ApplyRename? then Begun(p, a).value.kind == Rename(p.key) && Begun(p, a).value.target != p.key
            else !Begun(p, a).value.kind.Rename? && Begun(p, a).value.target == p.key
    ensures Begun(p, a).value.phase == Sent
  {
  }

  /** Some action among the first n began a save of this graph under this name. */
  ghost predicate Traced(s: State, acts: seq<Action>, n: nat, target: Key, graph: Graph)
    requires n <= |acts|
  {
    exists i :: 0 <= i < n && BegunAt(s, acts, i, target, graph)
  }

  /** Where the saves in flight and the writes after a step come from. */
  lemma StepSources(s: State, a: Action)
    ensures forall id :: id in Step(s, a).saves ==>
      var r := Step(s, a).saves[id];
      || (id in s.saves && s.saves[id].target == r.target && s.saves[id].graph == r.graph)
      || (Begun(s.page, a).Some? && Begun(s.page, a).value == r)
    ensures forall w :: w in Step(s, a).written ==>
      w in s.written || exists id :: id in s.saves && w == Write(s.saves[id].target, s.saves[id].graph)
  {
  }

  /** Each save in flight, and each write, goes back to the action that began it. */
  lemma {:induction false} TracedBack(s: State, acts: seq<Action>, n: nat)
    requires n <= |acts| && s.saves == map[] && s.written == []
    ensures forall id :: id in After(s, acts, n).saves ==>
      Traced(s, acts, n, After(s, acts, n).saves[id].target, After(s, acts, n).saves[id].graph)
    ensures forall w :: w in After(s, acts, n).written ==> Traced(s, acts, n, w.key, w.graph)
  {
    if n > 0 {
      TracedBack(s, acts, n - 1);
      var before, after := After(s, acts, n - 1), After(s, acts, n);
      StepSources(before, acts[n - 1]);
      forall id | id in after.saves ensures Traced(s, acts, n, after.saves[id].target, after.saves[id].graph) {
        var r := after.saves[id];
        if id in before.saves && before.saves[id].target == r.target && before.saves[id].graph == r.graph {
          TracedLater(s, acts, n - 1, r.target, r.graph);
        } else {
          assert BegunAt(s, acts, n - 1, r.target, r.graph);
        }
      }
      forall w | w in after.written ensures Traced(s, acts, n, w.key, w.graph) {
        TracedLater(s, acts, n - 1, w.key, w.graph);
      }
    }
  }

  lemma TracedLater(s: State, acts: seq<Action>, n: nat, target: Key, graph: Graph)
    requires n < |acts| && Traced(s, acts, n, target, graph)
    ensures Traced(s, acts, n + 1, target, graph)
  {
  }

  /**
   * Whatever is edited while requests are in flight: every graph written to the store is, unchanged,
   * the canvas of the moment its save began, which had no cycle, so the edges it has on disk can
   * be put in order.
   */
  lemma WritesAreCheckedSnapshots(s: State, acts: seq<Action>, n: nat, w: Write)
    requires n <= |acts| && s.saves == map[] && s.written == []
    requires w in After(s, acts, n).written
    ensures !Cyclic(w.graph) && forall c :: !IsRing(w.graph.edges, c)
    ensures exists i :: 0 <= i < n && Begins(acts[i]) && w.graph == After(s, acts, i).page.canvas
  {
    TracedBack(s, acts, n);
    var i :| 0 <= i < n && BegunAt(s, acts, i, w.key, w.graph);
    BegunIsChecked(After(s, acts, i).page, acts[i]);
    CyclicMeans(w.graph);
  }

  /** What the store holds of a file after a step was there before, or has been written. */
  lemma StepWrites(s: State, a: Action, k: Key)
    requires k in Step(s, a).store
    ensures (k in s.store && Step(s, a).store[k] == s.store[k]) || Write(k, Step(s, a).store[k]) in Step(s, a).written
    ensures forall w :: w in s.written ==> w in Step(s, a).written
  {
    if a.Store? && InPhase(s, a.id, Sent) {
      assert Step(s, a).written[|s.written|] == Write(s.saves[a.id].target, s.saves[a.id].graph);
    }
  }

  /** What the store holds was there at the start or was written by this page. */
  lemma {:induction false} StoreOnlyGrowsByWrites(s: State, acts: seq<Action>, n: nat, k: Key)
    requires n <= |acts| && k in After(s, acts, n).store
    ensures (k in s.store && After(s, acts, n).store[k] == s.store[k])
         || Write(k, After(s, acts, n).store[k]) in After(s, acts, n).written
  {
    if n > 0 {
      StepWrites(After(s, acts, n - 1), acts[n - 1], k);
      if k in After(s, acts, n - 1).store {
        StoreOnlyGrowsByWrites(s, acts, n - 1, k);
      }
    }
  }

  /** An acyclic store stays acyclic. */
  lemma StoreStaysAcyclic(s: State, acts: seq<Action>, n: nat, k: Key)
    requires n <= |acts| && s.saves == map[] && s.written == []
    requires forall k :: k in s.store ==> !Cyclic(s.store[k])
    requires k in After(s, acts, n).store
    ensures !Cyclic(After(s, acts, n).store[k])
  {
    StoreOnlyGrowsByWrites(s, acts, n, k);
    if !(k in s.store && After(s, acts, n).store[k] == s.store[k]) {
      WritesAreCheckedSnapshots(s, acts, n, Write(k, After(s, acts, n).store[k]));
    }
  }

  // ---- what becomes of a file ----

  /** The step removes file k: it completes a rename away from it, or a delete_rule card that names it. */
  predicate Erases(s: State, a: Action, k: Key) {
    match a
    case Delete(id) => InPhase(s, id, Deleting) && s.saves[id].kind == Rename(k)
    case Erase(id) => id in s.deletes && s.deletes[id] == k
    case _ => false
  }

  /** The step writes the graph of a save under name k. */
  predicate Puts(s: State, a: Action, k: Key) {
    a.Store? && InPhase(s, a.id, Sent) && s.saves[a.id].target == k
  }

  ghost predicate ErasedAt(s: State, acts: seq<Action>, i: nat, k: Key)
    requires i < |acts|
  {
    Erases(After(s, acts, i), acts[i], k)
  }

  ghost predicate PutAt(s: State, acts: seq<Action>, i: nat, k: Key)
    requires i < |acts|
  {
    Puts(After(s, acts, i), acts[i], k)
  }

  /** The graph that step i of the run writes. */
  ghost function PutGraph(s: State, acts: seq<Action>, i: nat): Graph
    requires i < |acts| && acts[i].Store? && InPhase(After(s, acts, i), acts[i].id, Sent)
  {
    After(s, acts, i).saves[acts[i].id].graph
  }

  /** No step from m up to n writes or removes file k. */
  ghost predicate Untouched(s: State, acts: seq<Action>, m: nat, n: nat, k: Key)
    requires n <= |acts|
  {
    forall i :: m <= i < n ==> !ErasedAt(s, acts, i, k) && !PutAt(s, acts, i, k)
  }

  /** File k was removed, and not written since. */
  ghost predicate Gone(s: State, acts: seq<Action>, n: nat, k: Key)
    requires n <= |acts|
  {
    exists i :: 0 <= i < n && ErasedAt(s, acts, i, k) && Untouched(s, acts, i + 1, n, k)
  }

  /** This graph was written under name k, which has not been written or removed since. */
  ghost predicate Standing(s: State, acts: seq<Action>, n: nat, k: Key, g: Graph)
    requires n <= |acts|
  {
    exists i :: 0 <= i < n && PutAt(s, acts, i, k) && PutGraph(s, acts, i) == g && Untouched(s, acts, i + 1, n, k)
  }

  function Held(store: map<Key, Graph>, k: Key): Option<Graph> {
    if k in store then Some(store[k]) else None
  }

  lemma StepStore(s: State, a: Action, k: Key)
    ensures Erases(s, a, k) ==> k !in Step(s, a).store
    ensures Puts(s, a, k) ==> Held(Step(s, a).store, k) == Some(s.saves[a.id].graph)
    ensures !Erases(s, a, k) && !Puts(s, a, k) ==> Held(Step(s, a).store, k) == Held(s.store, k)
  {
  }

  /**
   * The last of the first n steps that touched a file decides what the store holds of it: the graph that
   * was written, nothing after a removal, and what was there at the start when none touched it.
   */
  ghost predicate LastTouchLeft(s: State, acts: seq<Action>, n: nat, k: Key)
    requires n <= |acts|
  {
    match Held(After(s, acts, n).store, k)
    case Some(g) => Standing(s, acts, n, k, g) || (Held(s.store, k) == Some(g) && Untouched(s, acts, 0, n, k))
    case None => Gone(s, acts, n, k) || (k !in s.store && Untouched(s, acts, 0, n, k))
  }

  /** While nothing touches a file the store holds the same of it. */
  lemma {:induction false} UntouchedStays(s: State, acts: seq<Action>, m: nat, n: nat, k: Key)
    requires m <= n <= |acts| && Untouched(s, acts, m, n, k)
    ensures Held(After(s, acts, n).store, k) == Held(After(s, acts, m).store, k)
    decreases n
  {
    if m < n {
      assert Untouched(s, acts, m, n - 1, k);
      UntouchedStays(s, acts, m, n - 1, k);
      assert !ErasedAt(s, acts, n - 1, k) && !PutAt(s, acts, n - 1, k);
      StepStore(After(s, acts, n - 1), acts[n - 1], k);
    }
  }

  lemma PutIsHeld(s: State, acts: seq<Action>, j: nat, k: Key)
    requires j < |acts| && PutAt(s, acts, j, k)
    ensures Held(After(s, acts, j + 1).store, k) == Some(PutGraph(s, acts, j))
  {
    StepStore(After(s, acts, j), acts[j], k);
  }

  lemma ErasedIsGone(s: State, acts: seq<Action>, i: nat, k: Key)
    requires i < |acts| && ErasedAt(s, acts, i, k)
    ensures Held(After(s, acts, i + 1).store, k) == None
  {
    StepStore(After(s, acts, i), acts[i], k);
  }

  /** Some step below n is the last that touched the file. */
  lemma LastTouch(s: State, acts: seq<Action>, n: nat, k: Key) returns (i: nat)
    requires n <= |acts| && !Untouched(s, acts, 0, n, k)
    ensures i < n && (ErasedAt(s, acts, i, k) || PutAt(s, acts, i, k)) && Untouched(s, acts, i + 1, n, k)
  {
    ghost var touched := (m: nat) => m < |acts| && (ErasedAt(s, acts, m, k) || PutAt(s, acts, m, k));
    var m :| 0 <= m < n && (ErasedAt(s, acts, m, k) || PutAt(s, acts, m, k));
    assert touched(m);
    i := LastBelow(touched, n);
    forall j | i + 1 <= j < n ensures !ErasedAt(s, acts, j, k) && !PutAt(s, acts, j, k) {
      assert !touched(j);
    }
  }

  lemma ErasedLast(s: State, acts: seq<Action>, i: nat, n: nat, k: Key)
    requires i < n <= |acts| && ErasedAt(s, acts, i, k) && Untouched(s, acts, i + 1, n, k)
    ensures Held(After(s, acts, n).store, k) == None && Gone(s, acts, n, k)
  {
    ErasedIsGone(s, acts, i, k);
    UntouchedStays(s, acts, i + 1, n, k);
  }

  lemma PutLast(s: State, acts: seq<Action>, i: nat, n: nat, k: Key)
    requires i < n <= |acts| && PutAt(s, acts, i, k) && Untouched(s, acts, i + 1, n, k)
    ensures Held(After(s, acts, n).store, k) == Some(PutGraph(s, acts, i))
    ensures Standing(s, acts, n, k, PutGraph(s, acts, i))
  {
    PutIsHeld(s, acts, i, k);
    UntouchedStays(s, acts, i + 1, n, k);
  }

  /** In every run what the store holds of a file is what its last touch left. */
  lemma LastTouchDecides(s: State, acts: seq<Action>, n: nat, k: Key)
    requires n <= |acts|
    ensures LastTouchLeft(s, acts, n, k)
  {
    if Untouched(s, acts, 0, n, k) {
      UntouchedStays(s, acts, 0, n, k);
    } else {
      var i := LastTouch(s, acts, n, k);
      if ErasedAt(s, acts, i, k) {
        ErasedLast(s, acts, i, n, k);
      } else {
        PutLast(s, acts, i, n, k);
      }
    }
  }

  /** A file whose last touch was a removal is not there. */
  lemma GoneIsGone(s: State, acts: seq<Action>, n: nat, k: Key)
    requires n <= |acts| && Gone(s, acts, n, k)
    ensures k !in After(s, acts, n).store
  {
    var i :| 0 <= i < n && ErasedAt(s, acts, i, k) && Untouched(s, acts, i + 1, n, k);
    ErasedLast(s, acts, i, n, k);
  }

  /** A request past its first phase has been written; only renames go on from there, and to another name. */
  predicate SaveOk(s: State, r: Save) {
    && (r.phase != Sent ==> Write(r.target, r.graph) in s.written)
    && (r.phase == Deleting || r.phase == Deleted || r.phase == Listing ==> r.kind.Rename?)
    && (r.kind.Rename? ==> r.target != r.kind.from)
  }

  ghost predicate SavesOk(s: State) {
    forall id :: id in s.saves ==> SaveOk(s, s.saves[id])
  }

  /** How one step changes a save that is in flight after it. */
  lemma StepPhase(s: State, a: Action, id: nat)
    requires id in Step(s, a).saves
    ensures var r, t := Step(s, a).saves[id], Step(s, a);
            || Begun(s.page, a) == Some(r)
            || (id in s.saves && r == s.saves[id].(phase := r.phase)
                && (|| r.phase == s.saves[id].phase
                    || (r.phase == Stored && t.written == s.written + [Write(r.target, r.graph)])
                    || (s.saves[id].phase != Sent && (r.kind.Rename? || s.saves[id].phase == Deleted))))
  {
  }

  lemma WrittenGrows(s: State, a: Action)
    ensures s.written <= Step(s, a).written
  {
  }

  lemma SaveOkKept(s: State, a: Action, id: nat)
    requires SavesOk(s) && id in Step(s, a).saves
    ensures SaveOk(Step(s, a), Step(s, a).saves[id])
  {
    var t, r := Step(s, a), Step(s, a).saves[id];
    StepPhase(s, a, id);
    WrittenGrows(s, a);
    if Begun(s.page, a) == Some(r) {
      BegunIsChecked(s.page, a);
    } else {
      assert SaveOk(s, s.saves[id]);
      if t.written == s.written + [Write(r.target, r.graph)] {
        assert t.written[|s.written|] == Write(r.target, r.graph);
      }
    }
  }

  lemma SavesOkKept(s: State, a: Action)
    requires SavesOk(s)
    ensures SavesOk(Step(s, a))
  {
    forall id | id in Step(s, a).saves ensures SaveOk(Step(s, a), Step(s, a).saves[id]) {
      SaveOkKept(s, a, id);
    }
  }

  lemma {:induction false} SavesStayOk(s: State, acts: seq<Action>, n: nat)
    requires n <= |acts| && s.saves == map[]
    ensures SavesOk(After(s, acts, n))
  {
    if n > 0 {
      SavesStayOk(s, acts, n - 1);
      SavesOkKept(After(s, acts, n - 1), acts[n - 1]);
    }
  }

  lemma StepDeletes(s: State, a: Action, id: nat)
    requires id in Step(s, a).deletes
    ensures (id in s.deletes && s.deletes[id] == Step(s, a).deletes[id]) || a == ApplyDelete(id, Step(s, a).deletes[id])
  {
  }

  /** Action j applied the delete_rule card of this request. */
  predicate AppliedDelete(acts: seq<Action>, j: nat, id: nat, k: Key) {
    j < |acts| && acts[j] == ApplyDelete(id, k)
  }

  /** Each delete request in flight goes back to a card that named its file. */
  lemma {:induction false} DeletesTracedBack(s: State, acts: seq<Action>, n: nat, id: nat) returns (j: nat)
    requires n <= |acts| && s.deletes == map[] && id in After(s, acts, n).deletes
    ensures j < n && AppliedDelete(acts, j, id, After(s, acts, n).deletes[id])
  {
    StepDeletes(After(s, acts, n - 1), acts[n - 1], id);
    if AppliedDelete(acts, n - 1, id, After(s, acts, n).deletes[id]) {
      j := n - 1;
    } else {
      j := DeletesTracedBack(s, acts, n - 1, id);
    }
  }

  /**
   * In every run a file disappears exactly when a rename away from it or a delete_rule card naming
   * it completes. A rename has by then written the graph under another name; a card was applied.
   */
  lemma FilesVanishExactly(s: State, acts: seq<Action>, i: nat, k: Key)
    requires i < |acts| && s.saves == map[] && s.deletes == map[]
    requires k in After(s, acts, i).store
    ensures k !in After(s, acts, i + 1).store <==> ErasedAt(s, acts, i, k)
    ensures ErasedAt(s, acts, i, k) && acts[i].Delete? ==>
      var r := After(s, acts, i).saves[acts[i].id];
      r.target != k && Write(r.target, r.graph) in After(s, acts, i).written
    ensures ErasedAt(s, acts, i, k) && acts[i].Erase? ==>
      exists j :: 0 <= j < i && AppliedDelete(acts, j, acts[i].id, k)
    ensures forall j :: j != k && j in After(s, acts, i).store && ErasedAt(s, acts, i, k) ==>
      Held(After(s, acts, i + 1).store, j) == Held(After(s, acts, i).store, j)
  {
    SavesStayOk(s, acts, i);
    StepStore(After(s, acts, i), acts[i], k);
    if ErasedAt(s, acts, i, k) && acts[i].Erase? {
      var j := DeletesTracedBack(s, acts, i, acts[i].id);
    }
  }

  /** The action put this graph in flight under name k, for a page of that name or by renaming another rule. */
  ghost predicate Aimed(s: State, acts: seq<Action>, j: nat, k: Key, g: Graph)
    requires j < |acts|
  {
    BegunAt(s, acts, j, k, g) && (After(s, acts, j).page.key == k <==> !acts[j].ApplyRename?)
  }

  /**
   * In every run what the store holds under a name is replaced exactly when another graph is written
   * there: the canvas of a page of that very name, or that of another rule which is renamed onto it.
   */
  lemma OverwrittenExactly(s: State, acts: seq<Action>, i: nat, k: Key)
    requires i < |acts| && s.saves == map[] && s.written == []
    requires k in After(s, acts, i).store && k in After(s, acts, i + 1).store
    ensures After(s, acts, i + 1).store[k] != After(s, acts, i).store[k] <==>
      PutAt(s, acts, i, k) && PutGraph(s, acts, i) != After(s, acts, i).store[k]
    ensures PutAt(s, acts, i, k) ==> exists j :: 0 <= j < i && Aimed(s, acts, j, k, PutGraph(s, acts, i))
  {
    StepStore(After(s, acts, i), acts[i], k);
    TracedBack(s, acts, i);
    if PutAt(s, acts, i, k) {
      var g := PutGraph(s, acts, i);
      assert Traced(s, acts, i, k, g);
      var j :| 0 <= j < i && BegunAt(s, acts, j, k, g);
      BegunIsChecked(After(s, acts, j).page, acts[j]);
      assert Aimed(s, acts, j, k, g);
    }
  }

  // ---- renames ----

  /** A rename up to its last step, with these edits made while it is in flight. */
  ghost function Renamed(s: State, id: nat, filename: string, edits: seq<Edit>): State {
    var begun := Step(s, ApplyRename(id, filename));
    Step(Step(Step(begun.(page := Edited(begun.page, edits)), Store(id)), Succeed(id)), Delete(id))
  }

  lemma RenamedState(s: State, id: nat, filename: string, edits: seq<Edit>)
    requires id !in s.saves && Begun(s.page, ApplyRename(id, filename)).Some?
    ensures var t, k := Renamed(s, id, filename, edits), Key(s.page.key.ruleType, filename);
            && InPhase(t, id, Deleted) && t.saves[id].target == k && k != s.page.key
            && t.page == Edited(s.page, edits)
            && t.store == s.store[k := s.page.canvas] - {s.page.key}
  {
    var save := Begun(s.page, ApplyRename(id, filename)).value;
    var s1 := Step(s, ApplyRename(id, filename));
    assert s1.saves[id] == save;
    var s2 := Step(s1.(page := Edited(s1.page, edits)), Store(id));
    assert s2.saves[id] == save.(phase := Stored);
    var s3 := Step(s2, Succeed(id));
    assert s3.saves[id] == save.(phase := Deleting);
    var s4 := Step(s3, Delete(id));
    assert s4.saves[id] == save.(phase := Deleted);
  }

  /**
   * A rename leaves every other rule as it was if and only if its new name is unused or already
   * holds the very graph; the handler does not look whether the name is taken.
   */
  lemma RenameSparesOthersExactly(s: State, id: nat, filename: string, edits: seq<Edit>)
    requires id !in s.saves && Begun(s.page, ApplyRename(id, filename)).Some?
    ensures var t, k := Renamed(s, id, filename, edits), Key(s.page.key.ruleType, filename);
            (forall j :: j in s.store && j != s.page.key ==> Held(t.store, j) == Held(s.store, j)) <==>
              (k !in s.store || s.store[k] == s.page.canvas)
  {
    RenamedState(s, id, filename, edits);
    var t, k := Renamed(s, id, filename, edits), Key(s.page.key.ruleType, filename);
    assert k in s.store ==> (Held(t.store, k) == Held(s.store, k) <==> s.store[k] == s.page.canvas);
  }

  const ONE_NODE := Graph([Node("n", InputNode, "in", Position(100, 160), None)], [])

  /** Two rules of one type; renaming the empty one to the other's name leaves no copy of the other. */
  lemma RenameOverwrites(ruleType: string)
    ensures var a, b := Key(ruleType, "a"), Key(ruleType, "b");
            var t := Renamed(State(Opened(a, EMPTY), map[a := EMPTY, b := ONE_NODE], map[], map[], []), 0, "b", []);
            t.store == map[b := EMPTY]
  {
    var a, b := Key(ruleType, "a"), Key(ruleType, "b");
    var s := State(Opened(a, EMPTY), map[a := EMPTY, b := ONE_NODE], map[], map[], []);
    assert "a"[0] != "b"[0];
    assert !Cyclic(EMPTY);
    RenamedState(s, 0, "b", []);
  }

  /** The rename marks the page, and these edits follow while the list of rules is refreshed. */
  ghost function RenameMarked(s: State, id: nat, filename: string, edits: seq<Edit>, later: seq<Edit>): State {
    var marked := Step(Renamed(s, id, filename, edits), Mark(id));
    marked.(page := Edited(marked.page, later))
  }

  /** The graph on the canvas after these edits. */
  function LastGraph(g: Graph, edits: seq<Edit>): Graph {
    if edits == [] then g else edits[|edits| - 1].graph
  }

  /** Some edit is more than a report of this graph by the canvas. */
  predicate RealEdit(g: Graph, edits: seq<Edit>) {
    exists i :: 0 <= i < |edits| && edits[i] != ByHand(g)
  }

  lemma MarkedPage(s: State, id: nat, filename: string, edits: seq<Edit>, later: seq<Edit>)
    requires id !in s.saves && Begun(s.page, ApplyRename(id, filename)).Some?
    ensures var u, k := RenameMarked(s, id, filename, edits, later), Key(s.page.key.ruleType, filename);
            var marked := LastGraph(s.page.canvas, edits);
            && InPhase(u, id, Listing) && u.saves[id].target == k && k != s.page.key
            && u.store == s.store[k := s.page.canvas] - {s.page.key}
            && u.page.key == s.page.key && u.page.canvas == LastGraph(marked, later)
            && (Dirty(u.page) <==> RealEdit(marked, later))
  {
    RenamedState(s, id, filename, edits);
    EditedPage(s.page, edits);
    EditedPage(AgentSaved(Edited(s.page, edits)), later);
  }

  /**
   * How a rename ends, with edits before and after it marks the page. Real edits after the mark, and
   * only those, leave unsaved changes; then the page asks before it leaves. It comes to name a file that
   * exists exactly when the list was refreshed and it did not have to ask, or was told to leave. That
   * file holds what was sent, and loading it discards every other edit. Unsaved work is hidden exactly
   * when there was no real edit after the mark, and the list was not refreshed or the last edit
   * before the mark had left another graph than was sent.
   */
  lemma RenameEndsExactly(s: State, id: nat, filename: string, edits: seq<Edit>, later: seq<Edit>, end: Action)
    requires id !in s.saves && Begun(s.page, ApplyRename(id, filename)).Some?
    requires end == Fail(id) || end == Navigate(id, true) || end == Navigate(id, false)
    ensures var t, k := Step(RenameMarked(s, id, filename, edits, later), end), Key(s.page.key.ruleType, filename);
            var sent, marked := s.page.canvas, LastGraph(s.page.canvas, edits);
            var unsaved := RealEdit(marked, later);
            && (Dirty(t.page) <==> unsaved) && Held(t.store, k) == Some(sent) && id !in t.saves
            && (t.page.key in t.store <==> end.Navigate? && (!unsaved || end.leave))
            && (t.page.key in t.store ==>
                  && t.page.key == k && (Persisted(t) <==> LastGraph(marked, later) == sent)
                  && Step(t, Load).page == Opened(k, sent))
            && (!Dirty(t.page) && !Persisted(t) <==> !unsaved && (end.Fail? || marked != sent))
  {
    MarkedPage(s, id, filename, edits, later);
  }

  /** An empty rule "a" is open. */
  function OpenedEmpty(ruleType: string): State {
    var a := Key(ruleType, "a");
    State(Opened(a, EMPTY), map[a := EMPTY], map[], map[], [])
  }

  lemma EmptyCanBeRenamed(ruleType: string)
    ensures Begun(OpenedEmpty(ruleType).page, ApplyRename(0, "b")).Some?
  {
    assert "a"[0] != "b"[0];
    assert !Cyclic(EMPTY);
  }

  /** A graph edited by the agent before the mark is shown as saved, and gone after the load. */
  lemma RenameDropsAnEdit(ruleType: string)
    ensures var t := Step(RenameMarked(OpenedEmpty(ruleType), 0, "b", [ByAgent(ONE_NODE)], []), Navigate(0, false));
            !Dirty(t.page) && t.page.canvas == ONE_NODE && Step(t, Load).page.canvas == EMPTY
  {
    EmptyCanBeRenamed(ruleType);
    DropsEdit(OpenedEmpty(ruleType), 0, "b", ByAgent(ONE_NODE));
  }

  lemma DropsEdit(s: State, id: nat, filename: string, edit: Edit)
    requires id !in s.saves && Begun(s.page, ApplyRename(id, filename)).Some?
    ensures var t := Step(RenameMarked(s, id, filename, [edit], []), Navigate(id, false));
            !Dirty(t.page) && t.page.canvas == edit.graph && Step(t, Load).page.canvas == s.page.canvas
  {
    MarkedPage(s, id, filename, [edit], []);
    RenameEndsExactly(s, id, filename, [edit], [], Navigate(id, false));
  }

  /**
   * One that comes after the mark makes the page ask; a user who stays is left with a page of the old
   * name, although the rename has completed and the list been refreshed.
   */
  lemma RenameStaysBehind(ruleType: string)
    ensures var t := Step(RenameMarked(OpenedEmpty(ruleType), 0, "b", [], [ByAgent(ONE_NODE)]), Navigate(0, false));
            Dirty(t.page) && t.page.key == Key(ruleType, "a") && t.page.key !in t.store && Key(ruleType, "b") in t.store
  {
    EmptyCanBeRenamed(ruleType);
    StaysBehind(OpenedEmpty(ruleType), 0, "b", ONE_NODE);
  }

  lemma StaysBehind(s: State, id: nat, filename: string, edited: Graph)
    requires id !in s.saves && Begun(s.page, ApplyRename(id, filename)).Some?
    ensures var t := Step(RenameMarked(s, id, filename, [], [ByAgent(edited)]), Navigate(id, false));
            && Dirty(t.page) && t.page.key == s.page.key && t.page.key !in t.store
            && Key(s.page.key.ruleType, filename) in t.store
  {
    MarkedPage(s, id, filename, [], [ByAgent(edited)]);
    assert [ByAgent(edited)][0] != ByHand(s.page.canvas);
  }

  // ---- the unsaved-changes mark ----

  predicate Edits(a: Action) {
    a.Change? || a.AgentEdit? || a.Load?
  }

  /** Nothing is edited, loaded or renamed while a save is in flight. */
  ghost predicate Quiet(s: State, acts: seq<Action>) {
    forall i :: 0 <= i < |acts| ==>
      !acts[i].ApplyRename? && (Edits(acts[i]) ==> After(s, acts, i).saves == map[])
  }

  /** The store holds, under the page's own name, what the canvas shows. */
  predicate Persisted(s: State) {
    s.page.key in s.store && s.store[s.page.key] == s.page.canvas
  }

  /** The page and the store are in step, as far as the page's file is still there. */
  ghost predicate InStep(s: State) {
    && s.page.savedRevision <= s.page.revision
    && (!Dirty(s.page) ==> s.page.canvas == s.page.baseline && (s.page.key in s.store ==> Persisted(s)))
    && forall id :: id in s.saves ==>
         var r := s.saves[id];
         && !r.kind.Rename? && r.target == s.page.key && r.graph == s.page.canvas && r.revision == s.page.revision
         && (r.phase == Sent || r.phase == Stored)
         && (r.phase == Stored && s.page.key in s.store ==> Persisted(s))
  }

  lemma InStepKept(s: State, a: Action)
    requires InStep(s) && !a.ApplyRename? && (Edits(a) ==> s.saves == map[])
    ensures InStep(Step(s, a)) && Step(s, a).page.key == s.page.key
  {
  }

  lemma {:induction false} StaysInStep(s: State, acts: seq<Action>, n: nat)
    requires n <= |acts| && Quiet(s, acts)
    requires s.page.key in s.store && s.page == Opened(s.page.key, s.store[s.page.key]) && s.saves == map[]
    ensures InStep(After(s, acts, n)) && After(s, acts, n).page.key == s.page.key
  {
    if n > 0 {
      StaysInStep(s, acts, n - 1);
      InStepKept(After(s, acts, n - 1), acts[n - 1]);
    }
  }

  /**
   * For an opened rule, over every quiet run of loads, canvas changes, agent edits, saves that succeed
   * or fail, and delete_rule cards for any file at any time: whenever no unsaved changes are shown, the
   * canvas is what the store holds if and only if the file was not removed after it was last written.
   */
  lemma CleanMeansPersisted(s: State, acts: seq<Action>, n: nat)
    requires n <= |acts| && Quiet(s, acts)
    requires s.page.key in s.store && s.page == Opened(s.page.key, s.store[s.page.key]) && s.saves == map[]
    ensures !Dirty(After(s, acts, n).page) ==> (Persisted(After(s, acts, n)) <==> !Gone(s, acts, n, s.page.key))
  {
    StaysInStep(s, acts, n);
    LastTouchDecides(s, acts, n, s.page.key);
    if Gone(s, acts, n, s.page.key) {
      GoneIsGone(s, acts, n, s.page.key);
    }
  }

  /** So it is throughout such a run in which no applied delete_rule card names the open file. */
  lemma CleanUnlessDeleted(s: State, acts: seq<Action>, n: nat)
    requires n <= |acts| && Quiet(s, acts) && s.deletes == map[]
    requires s.page.key in s.store && s.page == Opened(s.page.key, s.store[s.page.key]) && s.saves == map[]
    requires forall i :: 0 <= i < n && acts[i].ApplyDelete? ==> acts[i].key != s.page.key
    ensures !Dirty(After(s, acts, n).page) ==> Persisted(After(s, acts, n))
  {
    CleanMeansPersisted(s, acts, n);
    if i :| 0 <= i < n && ErasedAt(s, acts, i, s.page.key) {
      StaysInStep(s, acts, i);
      var j := DeletesTracedBack(s, acts, i, acts[i].id);
    }
  }

  /** Applying delete_rule to the open file leaves a page without unsaved changes, and no file. */
  lemma DeletedButClean(key: Key, g: Graph)
    ensures var s := State(Opened(key, g), map[key := g], map[], map[], []);
            var t := After(s, [ApplyDelete(0, key), Erase(0)], 2);
            t == s.(store := map[]) && !Dirty(t.page) && !Persisted(t)
  {
    var s := State(Opened(key, g), map[key := g], map[], map[], []);
    var acts := [ApplyDelete(0, key), Erase(0)];
    assert After(s, acts, 1) == Step(s, acts[0]);
    assert After(s, acts, 2) == Step(After(s, acts, 1), acts[1]);
  }

  /** Right after a load any number of reports of the loaded value leave the mark off; any other value sets it. */
  lemma {:induction false} OnlyRealEditsMark(key: Key, loaded: Graph, reports: seq<Graph>)
    ensures Dirty(Reported(Opened(key, loaded), reports)) <==> exists i :: 0 <= i < |reports| && reports[i] != loaded
    ensures Reported(Opened(key, loaded), reports).savedRevision == 0 <= Reported(Opened(key, loaded), reports).revision
    ensures Reported(Opened(key, loaded), reports).baseline == loaded
  {
    if reports != [] {
      var init := reports[..|reports| - 1];
      OnlyRealEditsMark(key, loaded, init);
      assert forall i :: 0 <= i < |init| ==> init[i] == reports[i];
    }
  }

  function Reported(p: Page, values: seq<Graph>): Page {
    if values == [] then p else Changed(Reported(p, values[..|values| - 1]), values[|values| - 1])
  }

  // ---- edits while a save is in flight ----

  datatype Edit = ByHand(graph: Graph) | ByAgent(graph: Graph)

  function Edited(p: Page, edits: seq<Edit>): Page {
    if edits == [] then p
    else
      var before, last := Edited(p, edits[..|edits| - 1]), edits[|edits| - 1];
      if last.ByHand? then Changed(before, last.graph) else AgentEdited(before, last.graph)
  }

  lemma {:induction false} EditedPage(p: Page, edits: seq<Edit>)
    ensures var q := Edited(p, edits);
            && q.baseline == p.baseline && q.savedRevision == p.savedRevision && q.key == p.key
            && q.canvas == (if edits == [] then p.canvas else edits[|edits| - 1].graph)
            && q.revision >= p.revision
            && (q.revision == p.revision <==> forall i :: 0 <= i < |edits| ==> edits[i] == ByHand(p.baseline))
  {
    if edits != [] {
      var init := edits[..|edits| - 1];
      EditedPage(p, init);
      assert forall i :: 0 <= i < |init| ==> init[i] == edits[i];
    }
  }

  /** An edit is a step of its own, at any time, and leaves its graph on the canvas. */
  lemma EditsAreSteps(s: State, edit: Edit)
    ensures var t := Step(s, if edit.ByHand? then Change(edit.graph) else AgentEdit(edit.graph));
            t == s.(page := Edited(s.page, [edit])) && t.page.canvas == edit.graph
  {
    assert [edit][..0] == [];
    assert Edited(s.page, []) == s.page;
  }

  /** A save that begins, sees these edits while in flight, is written, and returns. */
  ghost function SavedMeanwhile(s: State, a: Action, edits: seq<Edit>): State
    requires Begins(a)
  {
    var begun := Step(s, a);
    Step(Step(begun.(page := Edited(begun.page, edits)), Store(a.id)), Succeed(a.id))
  }

  /**
   * A manual save with edits in flight hides unsaved work exactly when every one of these edits is
   * a canvas report of the previously persisted graph, and the saved graph was a different one.
   */
  lemma ManualSaveHidesExactly(s: State, id: nat, edits: seq<Edit>)
    requires id !in s.saves && Begun(s.page, ClickSave(id)).Some?
    ensures var t := SavedMeanwhile(s, ClickSave(id), edits);
            (!Dirty(t.page) && !Persisted(t)) <==>
              (edits != [] && s.page.canvas != s.page.baseline
               && forall i :: 0 <= i < |edits| ==> edits[i] == ByHand(s.page.baseline))
  {
    EditedPage(s.page, edits);
    var begun := Step(s, ClickSave(id));
    var save := begun.saves[id];
    var stored := Step(begun.(page := Edited(begun.page, edits)), Store(id));
    assert stored.saves[id] == save.(phase := Stored);
    assert stored.store[s.page.key] == s.page.canvas;
  }

  /**
   * An agent save with edits in flight always clears the mark; it hides unsaved work exactly
   * when the last of these edits left a graph other than the one that was sent.
   */
  lemma AgentSaveHidesExactly(s: State, id: nat, edits: seq<Edit>)
    requires id !in s.saves && Begun(s.page, ApplySave(id)).Some?
    ensures var t := SavedMeanwhile(s, ApplySave(id), edits);
            && !Dirty(t.page)
            && (!Persisted(t) <==>
                  edits != [] && edits[|edits| - 1].graph != s.page.canvas)
  {
    EditedPage(s.page, edits);
    var begun := Step(s, ApplySave(id));
    var save := begun.saves[id];
    var stored := Step(begun.(page := Edited(begun.page, edits)), Store(id));
    assert stored.saves[id] == save.(phase := Stored);
    assert stored.store[s.page.key] == s.page.canvas;
  }

  /** A graph edited by the agent while an agent save is in flight: shown as saved, and lost on reload. */
  lemma AgentSaveHidesAnEdit(key: Key)
    ensures var s := State(Opened(key, EMPTY), map[key := EMPTY], map[], map[], []);
            var t := SavedMeanwhile(s, ApplySave(0), [ByAgent(ONE_NODE)]);
            !Dirty(t.page) && t.page.canvas == ONE_NODE && t.store[key] == EMPTY
  {
    var s := State(Opened(key, EMPTY), map[key := EMPTY], map[], map[], []);
    assert !Cyclic(EMPTY);
    AgentSaveHidesExactly(s, 0, [ByAgent(ONE_NODE)]);
    EditedPage(s.page, [ByAgent(ONE_NODE)]);
    var begun := Step(s, ApplySave(0));
    assert begun.saves[0] == Save(Agent, key, EMPTY, 0, Sent);
  }

  /**
   * A node is added, a manual save sends it, and while the save is in flight the canvas goes back to
   * the loaded graph: no unsaved changes are shown, but the store holds the node.
   */
  lemma ManualSaveHidesAnUndo(key: Key)
    requires key.filename != ""
    ensures var s := Step(State(Opened(key, EMPTY), map[key := EMPTY], map[], map[], []), Change(ONE_NODE));
            var t := SavedMeanwhile(s, ClickSave(0), [ByHand(EMPTY)]);
            InStep(s) && !Dirty(t.page) && t.page.canvas == EMPTY && t.store[key] == ONE_NODE
  {
    var s := Step(State(Opened(key, EMPTY), map[key := EMPTY], map[], map[], []), Change(ONE_NODE));
    assert !Cyclic(ONE_NODE);
    ManualSaveHidesExactly(s, 0, [ByHand(EMPTY)]);
    EditedPage(s.page, [ByHand(EMPTY)]);
    var begun := Step(s, ClickSave(0));
    assert begun.saves[0] == Save(Manual, key, ONE_NODE, 1, Sent);
  }

  // ---- saves that overlap ----

  ghost predicate NoRename(acts: seq<Action>) {
    forall i :: 0 <= i < |acts| ==> !acts[i].ApplyRename?
  }

  /** Action b of the run began this save. */
  ghost predicate BeganAt(s: State, acts: seq<Action>, b: nat, id: nat, r: Save)
    requires b < |acts|
  {
    Begins(acts[b]) && acts[b].id == id && Begun(After(s, acts, b).page, acts[b]) == Some(r.(phase := Sent))
  }

  lemma StepSave(s: State, a: Action, id: nat)
    requires id in Step(s, a).saves
    ensures var r := Step(s, a).saves[id];
            || (id in s.saves && s.saves[id].(phase := Sent) == r.(phase := Sent))
            || (Begins(a) && a.id == id && Begun(s.page, a) == Some(r) && r.phase == Sent)
  {
  }

  /** Each save in flight was begun by an action of its own. */
  lemma {:induction false} SaveTracedBack(s: State, acts: seq<Action>, n: nat, id: nat)
    requires n <= |acts| && s.saves == map[] && id in After(s, acts, n).saves
    ensures exists b :: 0 <= b < n && BeganAt(s, acts, b, id, After(s, acts, n).saves[id])
  {
    var before := After(s, acts, n - 1);
    StepSave(before, acts[n - 1], id);
    var r := After(s, acts, n).saves[id];
    if id in before.saves && before.saves[id].(phase := Sent) == r.(phase := Sent) {
      SaveTracedBack(s, acts, n - 1, id);
      var b :| 0 <= b < n - 1 && BeganAt(s, acts, b, id, before.saves[id]);
      assert BeganAt(s, acts, b, id, r);
    } else {
      assert BeganAt(s, acts, n - 1, id, r);
    }
  }

  /** Without renames the page keeps its name, and everything in flight is for this name. */
  ghost predicate OneName(s: State, k: Key) {
    && s.page.key == k
    && forall id :: id in s.saves ==>
         var r := s.saves[id];
         r.target == k && !r.kind.Rename? && (r.phase == Sent || r.phase == Stored)
  }

  lemma OneNameKept(s: State, a: Action, k: Key)
    requires OneName(s, k) && !a.ApplyRename?
    ensures OneName(Step(s, a), k)
  {
  }

  lemma {:induction false} StaysOneName(s: State, acts: seq<Action>, n: nat)
    requires n <= |acts| && NoRename(acts) && s.saves == map[]
    ensures OneName(After(s, acts, n), s.page.key)
  {
    if n > 0 {
      StaysOneName(s, acts, n - 1);
      OneNameKept(After(s, acts, n - 1), acts[n - 1], s.page.key);
    }
  }

  /** The save begun by action b reached the store at step j, and nothing has touched its file since. */
  ghost predicate Landed(s: State, acts: seq<Action>, b: nat, j: nat, n: nat, k: Key)
    requires n <= |acts|
  {
    && b < j < n && PutAt(s, acts, j, k) && Untouched(s, acts, j + 1, n, k)
    && BeganAt(s, acts, b, acts[j].id, After(s, acts, j).saves[acts[j].id])
  }

  /** The save that landed last sent the graph that the canvas shows now. */
  ghost predicate LandedAsShown(s: State, acts: seq<Action>, n: nat, k: Key)
    requires n <= |acts|
  {
    exists b, j :: Landed(s, acts, b, j, n, k) && After(s, acts, b).page.canvas == After(s, acts, n).page.canvas
  }

  lemma BeganWithCanvas(s: State, acts: seq<Action>, b: nat, id: nat, r: Save)
    requires b < |acts| && BeganAt(s, acts, b, id, r)
    ensures r.graph == After(s, acts, b).page.canvas
  {
    BegunIsChecked(After(s, acts, b).page, acts[b]);
  }

  lemma LandedIsHeld(s: State, acts: seq<Action>, b: nat, j: nat, n: nat, k: Key)
    requires n <= |acts| && Landed(s, acts, b, j, n, k)
    ensures Held(After(s, acts, n).store, k) == Some(After(s, acts, b).page.canvas)
  {
    PutIsHeld(s, acts, j, k);
    UntouchedStays(s, acts, j + 1, n, k);
    BeganWithCanvas(s, acts, b, acts[j].id, After(s, acts, j).saves[acts[j].id]);
  }

  lemma StandingLanded(s: State, acts: seq<Action>, j: nat, n: nat, k: Key) returns (b: nat)
    requires n <= |acts| && s.saves == map[] && j < n && PutAt(s, acts, j, k) && Untouched(s, acts, j + 1, n, k)
    ensures Landed(s, acts, b, j, n, k)
  {
    SaveTracedBack(s, acts, j, acts[j].id);
    b :| 0 <= b < j && BeganAt(s, acts, b, acts[j].id, After(s, acts, j).saves[acts[j].id]);
  }

  /**
   * In every run without renames, however saves overlap with edits, loads, deletes and each other: the
   * store holds what the canvas shows exactly when the save that landed last sent just that, or
   * nothing has touched the file and it was there from the start.
   */
  lemma PersistedExactly(s: State, acts: seq<Action>, n: nat)
    requires n <= |acts| && NoRename(acts) && s.saves == map[]
    ensures var k := s.page.key;
            Persisted(After(s, acts, n)) <==>
              || LandedAsShown(s, acts, n, k)
              || (Untouched(s, acts, 0, n, k) && Held(s.store, k) == Some(After(s, acts, n).page.canvas))
  {
    var k, t := s.page.key, After(s, acts, n);
    StaysOneName(s, acts, n);
    LastTouchDecides(s, acts, n, k);
    if b, j :| Landed(s, acts, b, j, n, k) && After(s, acts, b).page.canvas == t.page.canvas {
      LandedIsHeld(s, acts, b, j, n, k);
    }
    if Untouched(s, acts, 0, n, k) {
      UntouchedStays(s, acts, 0, n, k);
    } else if Persisted(t) {
      var j :| 0 <= j < n && PutAt(s, acts, j, k) && PutGraph(s, acts, j) == t.page.canvas
        && Untouched(s, acts, j + 1, n, k);
      var b := StandingLanded(s, acts, j, n, k);
      LandedIsHeld(s, acts, b, j, n, k);
      assert LandedAsShown(s, acts, n, k);
    }
  }

  lemma StepStored(s: State, a: Action, id: nat)
    requires InPhase(Step(s, a), id, Stored)
    ensures (InPhase(s, id, Stored) && s.saves[id] == Step(s, a).saves[id])
         || (a == Store(id) && Puts(s, a, Step(s, a).saves[id].target))
  {
  }

  /** A save that waits for its answer has reached the store. */
  lemma {:induction false} StoredWasPut(s: State, acts: seq<Action>, n: nat, id: nat)
    requires n <= |acts| && s.saves == map[] && InPhase(After(s, acts, n), id, Stored)
    ensures exists j :: 0 <= j < n && PutAt(s, acts, j, After(s, acts, n).saves[id].target)
  {
    StepStored(After(s, acts, n - 1), acts[n - 1], id);
    if InPhase(After(s, acts, n - 1), id, Stored)
      && After(s, acts, n - 1).saves[id] == After(s, acts, n).saves[id] {
      StoredWasPut(s, acts, n - 1, id);
    } else {
      assert PutAt(s, acts, n - 1, After(s, acts, n).saves[id].target);
    }
  }

  /**
   * In every run without renames: a save that returns leaves the mark on exactly when it is a manual one
   * and edits have been counted since it began; and it hides unsaved work exactly when it
   * leaves the mark off and the save that landed last did not send what the canvas shows.
   */
  lemma SaveHidesExactly(s: State, acts: seq<Action>, i: nat)
    requires i < |acts| && NoRename(acts) && s.saves == map[]
    requires acts[i].Succeed? && InPhase(After(s, acts, i), acts[i].id, Stored)
    ensures var before, t := After(s, acts, i), After(s, acts, i + 1);
            var r := before.saves[acts[i].id];
            var counted := r.kind.Manual? && before.page.revision != r.revision;
            && (exists b :: 0 <= b < i && BeganAt(s, acts, b, acts[i].id, r))
            && (Dirty(t.page) <==> counted) && acts[i].id !in t.saves
            && (!Dirty(t.page) && !Persisted(t) <==> !counted && !LandedAsShown(s, acts, i, s.page.key))
  {
    var before, t, k := After(s, acts, i), After(s, acts, i + 1), s.page.key;
    SaveTracedBack(s, acts, i, acts[i].id);
    StaysOneName(s, acts, i);
    StoredWasPut(s, acts, i, acts[i].id);
    PersistedExactly(s, acts, i);
    assert Persisted(t) <==> Persisted(before);
  }

  /** Two saves overlap: a manual one sends the loaded graph, an agent edit follows, and an agent save sends that. */
  lemma TwoInFlight(key: Key, g: Graph)
    requires key.filename != "" && !Cyclic(g)
    ensures var s := State(Opened(key, EMPTY), map[key := EMPTY], map[], map[], []);
            After(s, [ClickSave(0), AgentEdit(g), ApplySave(1)], 3) ==
              s.(page := Page(key, g, 1, 0, EMPTY),
                 saves := map[0 := Save(Manual, key, EMPTY, 0, Sent), 1 := Save(Agent, key, g, 1, Sent)])
  {
    var s := State(Opened(key, EMPTY), map[key := EMPTY], map[], map[], []);
    var acts := [ClickSave(0), AgentEdit(g), ApplySave(1)];
    assert !Cyclic(EMPTY);
    assert After(s, acts, 1) == s.(saves := map[0 := Save(Manual, key, EMPTY, 0, Sent)]);
    assert After(s, acts, 2) == After(s, acts, 1).(page := Page(key, g, 1, 0, EMPTY));
  }

  /** The newer request reaches the store first, and the older one after it. */
  lemma BothStored(s: State, older: Save, newer: Save)
    requires s.saves == map[0 := older, 1 := newer] && older.phase == newer.phase == Sent
    ensures var t := Step(Step(s, Store(1)), Store(0));
            && t.saves == map[0 := older.(phase := Stored), 1 := newer.(phase := Stored)] && t.page == s.page
            && t.store == s.store[newer.target := newer.graph][older.target := older.graph]
  {
    assert Step(s, Store(1)).saves == map[0 := older, 1 := newer.(phase := Stored)];
  }

  /** A manual save returns, and then an agent save. */
  lemma BothReturned(s: State, older: Save, newer: Save)
    requires s.saves == map[0 := older, 1 := newer] && older.phase == newer.phase == Stored
    requires older.kind == Manual && newer.kind == Agent
    ensures var t := Step(Step(s, Succeed(0)), Succeed(1));
            && t.saves == map[] && !Dirty(t.page) && t.page.canvas == s.page.canvas && t.store == s.store
  {
    assert Step(s, Succeed(0)).saves == map[1 := newer];
  }

  /**
   * The older request lands last: in the end the page shows the edited graph and no unsaved changes,
   * while the store holds the older one.
   */
  lemma OverlappingSavesHide(key: Key, g: Graph)
    requires key.filename != "" && !Cyclic(g)
    ensures var s := State(Opened(key, EMPTY), map[key := EMPTY], map[], map[], []);
            var begun := After(s, [ClickSave(0), AgentEdit(g), ApplySave(1)], 3);
            var t := Step(Step(Step(Step(begun, Store(1)), Store(0)), Succeed(0)), Succeed(1));
            t.saves == map[] && !Dirty(t.page) && t.page.canvas == g && t.store == map[key := EMPTY]
  {
    TwoInFlight(key, g);
    var s := State(Opened(key, EMPTY), map[key := EMPTY], map[], map[], []);
    var begun := After(s, [ClickSave(0), AgentEdit(g), ApplySave(1)], 3);
    var manual, agent := Save(Manual, key, EMPTY, 0, Sent), Save(Agent, key, g, 1, Sent);
    BothStored(begun, manual, agent);
    BothReturned(Step(Step(begun, Store(1)), Store(0)), manual.(phase := Stored), agent.(phase := Stored));
  }

  /** The editor page's own variables, updated by its handlers. */
  class Editor {
    var key: Key
    var graph: Graph
    var revision: int
    var savedRevision: int
    var lastPersisted: Graph

    constructor (key: Key, loaded: Graph)
      ensures Abs() == Opened(key, loaded)
    {
      this.key, graph := key, loaded;
      revision, savedRevision := 0, 0;
      lastPersisted := loaded;
    }

    function Abs(): Page
      reads this
    {
      Page(key, graph, revision, savedRevision, lastPersisted)
    }

    method HandleChange(value: Graph)
      modifies this
      ensures Abs() == Changed(old(Abs()), value)
    {
      graph := value;
      if value != lastPersisted {
        revision := revision + 1;
      }
    }

    method MutateByAgent(value: Graph)
      modifies this
      ensures Abs() == AgentEdited(old(Abs()), value)
    {
      graph := value;
      revision := revision + 1;
    }

    /** The first half of a manual save: what is to be sent, or None when it is refused. */
    method BeginSave(id: nat) returns (save: Option<Save>)
      ensures save == Begun(Abs(), ClickSave(id))
      ensures save.Some? <==> key.filename != "" && !Cyclic(graph)
      ensures save.Some? ==> save.value == Save(Manual, key, graph, revision, Sent)
    {
      if key.filename == "" {
        return None;
      }
      var cyclic := IsCyclic(graph);
      if cyclic {
        return None;
      }
      save := Some(Save(Manual, key, graph, revision, Sent));
    }

    method BeginAgentSave(id: nat) returns (save: Option<Save>)
      ensures save == Begun(Abs(), ApplySave(id))
      ensures save.Some? <==> !Cyclic(graph)
      ensures save.Some? ==> save.value == Save(Agent, key, graph, revision, Sent)
    {
      var cyclic := IsCyclic(graph);
      save := if cyclic then None else Some(Save(Agent, key, graph, revision, Sent));
    }

    method BeginRename(id: nat, filename: string) returns (save: Option<Save>)
      ensures save == Begun(Abs(), ApplyRename(id, filename))
      ensures save.Some? <==> key.filename != "" && key.filename != filename && !Cyclic(graph)
      ensures save.Some? ==>
        save.value == Save(Rename(key), Key(key.ruleType, filename), graph, revision, Sent)
    {
      if filename == key.filename {
        return None;
      }
      var cyclic := IsCyclic(graph);
      if cyclic || key.filename == "" {
        return None;
      }
      save := Some(Save(Rename(key), Key(key.ruleType, filename), graph, revision, Sent));
    }

    method EndSave(save: Save)
      modifies this
      ensures Abs() == ManualSaved(old(Abs()), save)
    {
      savedRevision := save.revision;
      lastPersisted := save.graph;
    }

    method OnSaved()
      modifies this
      ensures Abs() == AgentSaved(old(Abs()))
    {
      savedRevision := revision;
      lastPersisted := graph;
    }
  }
}
