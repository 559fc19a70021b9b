/** Pushing observations to the hub (controlplane/controlplane.go): one cycle, and runs of cycles, against
    a store that changes between page reads and a hub that may lose replies or be restored. */
module Push {
  import opened Options
  import opened Order
  import opened Tables
  import opened StoreSpec
  import opened Paging
  import opened Stores
  import opened Approval

  const PAGE := 16
  const MAX_REPORTED := 128
  const FULL_SYNC_INTERVAL := 15 * 60

  /** An observation as it is sent. */
  datatype Report = Report(fp: string, scope: Option<Scope>, status: Status, labelText: string, firstSeen: string,
                           lastSeen: string, ips: seq<string>, ports: seq<int>, sightings: seq<Sighting>, count: int,
                           meta: Bag)

  function Limited<T>(values: seq<T>, max: int): seq<T> {
    if max <= 0 || |values| <= max then values else values[..max]
  }

  function ToReport(fp: string, e: Entry): Report {
    Report(fp, e.scope, e.status, e.labelText, e.firstSeen, e.lastSeen, Limited(e.ips, MAX_REPORTED),
           Limited(e.ports, MAX_REPORTED), Limited(e.sightings, MAX_REPORTED), e.count, e.meta)
  }

  ghost predicate Readable(d: DB, fp: string) {
    Read(d, fp).Ok?
  }

  ghost function ReportOf(d: DB, fp: string): Report
    requires Readable(d, fp)
  {
    ToReport(fp, Read(d, fp).value)
  }

  /** How one request ended. A request that failed may have been committed, in whole or in part. */
  datatype Outcome = Accepted | Failed(committed: set<string>)

  /** One page read: the hub may have been replaced before it, the read sees `store`, and the request
      that follows it, if any, ends as `outcome` says. */
  datatype Turn = Turn(restored: Option<map<string, Report>>, store: DB, outcome: Outcome)

  /** The hub's copy, and the node's cache of accepted observations. `dirty` is the history variable of
      fingerprints whose latest send has an unknown result, or whose hub copy was replaced. The cache
      holds the observations themselves in place of their hashes. */
  datatype World = World(hub: map<string, Report>, dirty: set<string>, ack: map<string, Report>, lastFull: Option<int>)

  predicate Due(lastFull: Option<int>, now: int) {
    lastFull.None? || now - lastFull.value >= FULL_SYNC_INTERVAL
  }

  function AfterRestore(w: World, restored: Option<map<string, Report>>): World {
    match restored
    case None => w
    case Some(hub) => w.(hub := hub, dirty := w.dirty + w.ack.Keys)
  }

  function AfterRestart(w: World): World {
    w.(ack := map[], lastFull := None)
  }

  /** What a page adds to the batch: everything in a full cycle, else what is new or changed. */
  function Batch(ack: map<string, Report>, full: bool, page: map<string, Report>): map<string, Report> {
    map fp | fp in page && (full || fp !in ack || ack[fp] != page[fp]) :: page[fp]
  }

  function AfterSend(w: World, batch: map<string, Report>, outcome: Outcome): World {
    if batch == map[] then w
    else
      match outcome
      case Accepted => w.(hub := w.hub + batch, ack := w.ack + batch, dirty := w.dirty - batch.Keys)
      case Failed(c) =>
        w.(hub := w.hub + (map fp | fp in batch && fp in c :: batch[fp]), dirty := w.dirty + batch.Keys * c)
  }

  ghost predicate PageReadable(d: DB, keys: seq<string>) {
    forall i :: 0 <= i < |keys| ==> Readable(d, keys[i])
  }

  ghost function PageReports(d: DB, keys: seq<string>): map<string, Report>
    requires PageReadable(d, keys)
  {
    map fp | fp in keys :: ReportOf(d, fp)
  }

  datatype Verdict = Finished | Broken | Continue

  /** What one turn of the page loop does: the keys of its page, and whether it sent a batch. */
  datatype PageResult = PageResult(w: World, keys: seq<string>, verdict: Verdict, sent: bool)

  ghost function PageStep(w: World, full: bool, through: string, after: string, t: Turn): PageResult {
    var v := AfterRestore(w, t.restored);
    var keys := PageKeys(t.store.rows, after, through, PAGE);
    if keys == [] then PageResult(v, [], Finished, false)
    else if !PageReadable(t.store, keys) then PageResult(v, [], Broken, false)
    else
      var batch := Batch(v.ack, full, PageReports(t.store, keys));
      PageResult(AfterSend(v, batch, t.outcome), keys,
                 if batch != map[] && t.outcome.Failed? then Broken else Continue, batch != map[])
  }

  datatype Loop = Loop(w: World, seen: set<string>, sent: bool, done: bool)

  /** The page loop. It ends with an error when a request or a read fails, or the script, and with it the
      caller's context, ends. */
  ghost function Pages(w: World, full: bool, through: string, after: string, seen: set<string>, sent: bool,
                       script: seq<Turn>): Loop
    decreases |script|
  {
    if script == [] then Loop(w, seen, sent, false)
    else
      var p := PageStep(w, full, through, after, script[0]);
      match p.verdict
      case Finished => Loop(p.w, seen, sent, true)
      case Broken => Loop(p.w, seen, sent, false)
      case Continue => Pages(p.w, full, through, LastOf(p.keys), seen + Members(p.keys), sent || p.sent, script[1..])
  }

  function Forget(ack: map<string, Report>, seen: set<string>): map<string, Report> {
    map fp | fp in ack && fp in seen :: ack[fp]
  }

  datatype Cycled = Cycled(w: World, ok: bool)

  /** One push cycle. `first` is the store when the bound is read; a cycle that sent nothing sends an
      empty heartbeat. */
  ghost function Cycle(w: World, started: int, first: DB, script: seq<Turn>, heartbeat: Outcome): Cycled {
    var full := Due(w.lastFull, started);
    var r := Pages(w, full, LastKey(first.rows), "", {}, false, script);
    if !r.done || (!r.sent && heartbeat.Failed?) then Cycled(r.w, false)
    else Cycled(r.w.(ack := Forget(r.w.ack, r.seen), lastFull := if full then Some(started) else r.w.lastFull), true)
  }

  ghost predicate StepsAs(p: PageResult, w: World, verdict: Verdict, fps: set<string>, last: string, sent: bool) {
    && w == p.w && verdict == p.verdict
    && (verdict.Continue? ==> fps == Members(p.keys) && last == LastOf(p.keys) && sent == p.sent)
  }

  ghost predicate LoopsAs(r: Loop, w: World, seen: set<string>, sent: bool, done: bool) {
    r.w == w && r.done == done && (done ==> r.seen == seen && r.sent == sent)
  }

  lemma PagesUnfold(w: World, full: bool, through: string, after: string, seen: set<string>, sent: bool,
                    script: seq<Turn>,
                    v: World, verdict: Verdict, fps: set<string>, last: string, sentNow: bool)
    requires script != [] && StepsAs(PageStep(w, full, through, after, script[0]), v, verdict, fps, last, sentNow)
    ensures Pages(w, full, through, after, seen, sent, script) ==
            if verdict.Continue? then Pages(v, full, through, last, seen + fps, sent || sentNow, script[1..])
            else Loop(v, seen, sent, verdict.Finished?)
  {
  }

  /** A page read decides between the three ways a turn goes. */
  lemma PageStepCases(w: World, full: bool, through: string, after: string, t: Turn, r: Result<seq<Entry>>)
    requires PagesAs(t.store, after, through, PAGE, r)
    ensures var v, keys, p := AfterRestore(w, t.restored), PageKeys(t.store.rows, after, through, PAGE),
                             PageStep(w, full, through, after, t);
            && (r.Err? ==> p == PageResult(v, [], Broken, false))
            && (r.Ok? && |r.value| == 0 ==> p == PageResult(v, [], Finished, false))
            && (r.Ok? && |r.value| > 0 ==>
                  && |keys| > 0 && PageReadable(t.store, keys)
                  && var batch := Batch(v.ack, full, PageReports(t.store, keys));
                     p == PageResult(AfterSend(v, batch, t.outcome), keys,
                                     if batch != map[] && t.outcome.Failed? then Broken else Continue, batch != map[]))
  {
  }

  class Syncer {
    var acknowledged: map<string, Report>
    var lastFullSync: Option<int>
    ghost var hub: map<string, Report>
    ghost var dirty: set<string>

    ghost function State(): World
      reads this
    {
      World(hub, dirty, acknowledged, lastFullSync)
    }

    constructor (ghost hub: map<string, Report>, ghost dirty: set<string>)
      ensures State() == World(hub, dirty, map[], None)
    {
      acknowledged, lastFullSync := map[], None;
      this.hub, this.dirty := hub, dirty;
    }

    /** One request: whether it was accepted, and what it did to the hub. */
    method PushBatch(batch: map<string, Report>, outcome: Outcome) returns (ok: bool)
      modifies this`hub, this`dirty
      ensures ok == outcome.Accepted?
      ensures var w := old(State());
              State() == AfterSend(w, batch, outcome).(ack := w.ack)
    {
      match outcome
      case Accepted =>
        hub, dirty := hub + batch, dirty - batch.Keys;
        assert batch == map[] ==> hub == old(hub) && dirty == old(dirty);
        return true;
      case Failed(c) =>
        hub := hub + (map fp | fp in batch && fp in c :: batch[fp]);
        dirty := dirty + batch.Keys * c;
        assert batch == map[] ==> hub == old(hub) && dirty == old(dirty);
        return false;
    }

    /** Sends a batch unless it is empty, and caches it if it was accepted. */
    method SendBatch(batch: map<string, Report>, outcome: Outcome) returns (failed: bool)
      modifies this
      ensures lastFullSync == old(lastFullSync)
      ensures State() == AfterSend(old(State()), batch, outcome)
      ensures failed <==> batch != map[] && outcome.Failed?
    {
      if batch == map[] {
        return false;
      }
      var accepted := PushBatch(batch, outcome);
      if accepted {
        acknowledged := acknowledged + batch;
      }
      return !accepted;
    }

    method SeeRestore(restored: Option<map<string, Report>>)
      modifies this`hub, this`dirty
      ensures State() == AfterRestore(old(State()), restored)
    {
      if restored.Some? {
        hub, dirty := restored.value, dirty + acknowledged.Keys;
      }
    }

    /** One turn of the page loop: reads a page, and sends what is new or changed. */
    method PushPage(full: bool, through: string, after: string, t: Turn)
        returns (verdict: Verdict, fps: set<string>, last: string, sent: bool)
      modifies this
      ensures lastFullSync == old(lastFullSync)
      ensures StepsAs(PageStep(old(State()), full, through, after, t), State(), verdict, fps, last, sent)
    {
      fps, last, sent := {}, after, false;
      SeeRestore(t.restored);
      ghost var v := State();
      var entries := ReadPage(t.store, after, through, PAGE);
      PageStepCases(old(State()), full, through, after, t, entries);
      if entries.Err? {
        verdict := Broken;
      } else if |entries.value| == 0 {
        verdict := Finished;
      } else {
        var batch;
        fps, batch := CollectBatch(acknowledged, full, entries.value, t.store,
                                   PageKeys(t.store.rows, after, through, PAGE));
        var failed := SendBatch(batch, t.outcome);
        verdict := if failed then Broken else Continue;
        sent := batch != map[];
        last := entries.value[|entries.value|-1].fp;
      }
    }

    /** One turn of the page loop: what is left of the loop afterwards is what remains of it from here. */
    method PushTurn(full: bool, through: string, after: string, t: Turn, seen: set<string>, sent: bool,
                    ghost rest: seq<Turn>)
        returns (verdict: Verdict, fps: set<string>, last: string, sentNow: bool)
      modifies this
      ensures lastFullSync == old(lastFullSync)
      ensures Pages(old(State()), full, through, after, seen, sent, [t] + rest) ==
              if verdict.Continue? then Pages(State(), full, through, last, seen + fps, sent || sentNow, rest)
              else Loop(State(), seen, sent, verdict.Finished?)
    {
      verdict, fps, last, sentNow := PushPage(full, through, after, t);
      assert ([t] + rest)[1..] == rest;
      PagesUnfold(old(State()), full, through, after, seen, sent, [t] + rest, State(), verdict, fps, last, sentNow);
    }

    /** The page loop, until an empty page or an error. */
    method PushPages(full: bool, through: string, script: seq<Turn>) returns (seen: set<string>, sent: bool, done: bool)
      modifies this
      ensures lastFullSync == old(lastFullSync)
      ensures LoopsAs(Pages(old(State()), full, through, "", {}, false, script), State(), seen, sent, done)
    {
      seen, sent, done := {}, false, false;
      var after := "";
      var n := 0;
      ghost var goal := Pages(State(), full, through, "", {}, false, script);
      assert script[0..] == script;
      while n < |script|
        invariant 0 <= n <= |script| && lastFullSync == old(lastFullSync)
        invariant goal == Pages(State(), full, through, after, seen, sent, script[n..])
      {
        assert script[n..] == [script[n]] + script[n+1..];
        var verdict, fps, last, sentNow := PushTurn(full, through, after, script[n], seen, sent, script[n+1..]);
        if !verdict.Continue? {
          done := verdict.Finished?;
          return;
        }
        n := n + 1;
        seen, sent, after := seen + fps, sent || sentNow, last;
      }
    }

    method PushObservations(started: int, first: DB, script: seq<Turn>, heartbeat: Outcome) returns (ok: bool)
      modifies this
      ensures Cycled(State(), ok) == Cycle(old(State()), started, first, script, heartbeat)
    {
      var full := lastFullSync.None? || started - lastFullSync.value >= FULL_SYNC_INTERVAL;
      var through := GreatestKey(first);
      var seen, sent, done := PushPages(full, through, script);
      if !done {
        return false;
      }
      if !sent {
        var accepted := PushBatch(map[], heartbeat);
        if !accepted {
          return false;
        }
      }
      acknowledged := map fp | fp in acknowledged && fp in seen :: acknowledged[fp];
      if full {
        lastFullSync := Some(started);
      }
      return true;
    }
  }

  lemma ReadKeepsKey(d: DB, fp: string)
    requires Readable(d, fp)
    ensures Read(d, fp).value.fp == fp
  {
  }

  lemma PageReportsSnoc(d: DB, keys: seq<string>, fp: string)
    requires PageReadable(d, keys) && Readable(d, fp)
    ensures PageReadable(d, keys + [fp]) && PageReports(d, keys + [fp]) == PageReports(d, keys)[fp := ReportOf(d, fp)]
  {
    var all := keys + [fp];
    assert forall i :: 0 <= i < |all| ==> Readable(d, all[i]);
  }

  lemma BatchSnoc(ack: map<string, Report>, full: bool, page: map<string, Report>, fp: string, obs: Report)
    requires fp in page ==> page[fp] == obs
    ensures Batch(ack, full, page[fp := obs]) ==
            if full || fp !in ack || ack[fp] != obs then Batch(ack, full, page)[fp := obs] else Batch(ack, full, page)
  {
  }

  ghost predicate Collected(ack: map<string, Report>, full: bool, d: DB, keys: seq<string>, fps: set<string>,
                            batch: map<string, Report>) {
    PageReadable(d, keys) && fps == Members(keys) && batch == Batch(ack, full, PageReports(d, keys))
  }

  lemma CollectedSnoc(ack: map<string, Report>, full: bool, d: DB, keys: seq<string>, fps: set<string>,
                      batch: map<string, Report>, fp: string, e: Entry)
    requires Collected(ack, full, d, keys, fps, batch) && Read(d, fp) == Ok(e)
    ensures var obs := ToReport(e.fp, e);
            e.fp == fp && Collected(ack, full, d, keys + [fp], fps + {fp},
                                    if full || fp !in ack || ack[fp] != obs then batch[fp := obs] else batch)
  {
    ReadKeepsKey(d, fp);
    PageReportsSnoc(d, keys, fp);
    BatchSnoc(ack, full, PageReports(d, keys), fp, ToReport(fp, e));
  }

  ghost predicate ReadsAs(d: DB, keys: seq<string>, entries: seq<Entry>) {
    |entries| == |keys| && forall i :: 0 <= i < |keys| ==> Read(d, keys[i]) == Ok(entries[i])
  }

  lemma CollectedNone(ack: map<string, Report>, full: bool, d: DB)
    ensures Collected(ack, full, d, [], {}, map[])
  {
    assert PageReports(d, []) == map[];
  }

  lemma CollectedNext(ack: map<string, Report>, full: bool, d: DB, keys: seq<string>, entries: seq<Entry>, i: nat,
                      fps: set<string>, batch: map<string, Report>)
    requires ReadsAs(d, keys, entries) && i < |entries| && Collected(ack, full, d, keys[..i], fps, batch)
    ensures var e := entries[i];
            var obs := ToReport(e.fp, e);
            e.fp == keys[i] && Collected(ack, full, d, keys[..i+1], fps + {e.fp},
                                         if full || e.fp !in ack || ack[e.fp] != obs then batch[e.fp := obs] else batch)
  {
    assert keys[..i+1] == keys[..i] + [keys[i]];
    CollectedSnoc(ack, full, d, keys[..i], fps, batch, keys[i], entries[i]);
  }

  /** The fingerprints of a page, and the reports that go into the batch. */
  method CollectBatch(ack: map<string, Report>, full: bool, entries: seq<Entry>, ghost d: DB, ghost keys: seq<string>)
      returns (fps: set<string>, batch: map<string, Report>)
    requires ReadsAs(d, keys, entries)
    ensures Collected(ack, full, d, keys, fps, batch)
    ensures |keys| > 0 ==> entries[|entries|-1].fp == keys[|keys|-1]
  {
    fps, batch := {}, map[];
    CollectedNone(ack, full, d);
    for i := 0 to |entries|
      invariant Collected(ack, full, d, keys[..i], fps, batch)
      invariant i > 0 ==> entries[i-1].fp == keys[i-1]
    {
      var e := entries[i];
      CollectedNext(ack, full, d, keys, entries, i, fps, batch);
      var obs := ToReport(e.fp, e);
      fps := fps + {e.fp};
      if full || e.fp !in ack || ack[e.fp] != obs {
        batch := batch[e.fp := obs];
      }
    }
    assert keys[..|keys|] == keys;
  }
}
