/** What pushing guarantees: over every run of cycles the cache never disagrees with the hub on a
    fingerprint whose last send is settled, and a completed cycle carries what it read to the hub. */
module PushRuns {
  import opened Options
  import opened Order
  import opened Tables
  import opened StoreSpec
  import opened Paging
  import opened Push

  function At<K, V>(m: map<K, V>, k: K): Option<V> {
    if k in m then Some(m[k]) else None
  }

  // ------------------------------------------------------- the cache never lies

  /** What is cached is what the hub holds, wherever no send is in doubt. */
  ghost predicate Faithful(w: World) {
    forall fp :: fp in w.ack && fp !in w.dirty ==> At(w.hub, fp) == Some(w.ack[fp])
  }

  lemma SendFaithful(w: World, batch: map<string, Report>, outcome: Outcome)
    requires Faithful(w)
    ensures Faithful(AfterSend(w, batch, outcome))
  {
  }

  lemma StepFaithful(w: World, full: bool, through: string, after: string, t: Turn)
    requires Faithful(w)
    ensures Faithful(PageStep(w, full, through, after, t).w)
  {
    var v := AfterRestore(w, t.restored);
    var keys := PageKeys(t.store.rows, after, through, PAGE);
    if keys != [] && PageReadable(t.store, keys) {
      SendFaithful(v, Batch(v.ack, full, PageReports(t.store, keys)), t.outcome);
    }
  }

  /** A script may stop anywhere, so this covers every point inside a cycle. */
  lemma {:induction false} PagesFaithful(w: World, full: bool, through: string, after: string, seen: set<string>,
                                         sent: bool, script: seq<Turn>)
    requires Faithful(w)
    ensures Faithful(Pages(w, full, through, after, seen, sent, script).w)
    decreases |script|
  {
    if script != [] {
      var p := PageStep(w, full, through, after, script[0]);
      StepFaithful(w, full, through, after, script[0]);
      if p.verdict.Continue? {
        PagesFaithful(p.w, full, through, LastOf(p.keys), seen + Members(p.keys), sent || p.sent, script[1..]);
      }
    }
  }

  datatype Event =
    | Sync(started: int, first: DB, script: seq<Turn>, heartbeat: Outcome)
    | Restart
    | Restore(hub: map<string, Report>)

  ghost function After(w: World, e: Event): World {
    match e
    case Sync(started, first, script, heartbeat) => Cycle(w, started, first, script, heartbeat).w
    case Restart => AfterRestart(w)
    case Restore(hub) => AfterRestore(w, Some(hub))
  }

  ghost function AfterAll(w: World, events: seq<Event>): World {
    if events == [] then w else After(AfterAll(w, events[..|events|-1]), events[|events|-1])
  }

  lemma CycleFaithful(w: World, started: int, first: DB, script: seq<Turn>, heartbeat: Outcome)
    requires Faithful(w)
    ensures Faithful(Cycle(w, started, first, script, heartbeat).w)
  {
    PagesFaithful(w, Due(w.lastFull, started), LastKey(first.rows), "", {}, false, script);
  }

  /** Over every run of cycles, failed or not, with any writes between pages, restarts and hub restores,
      a cached fingerprint whose sends are all settled has the value that the hub holds. */
  lemma {:induction false} CacheNeverLies(hub: map<string, Report>, dirty: set<string>, events: seq<Event>)
    ensures Faithful(AfterAll(World(hub, dirty, map[], None), events))
  {
    if events != [] {
      var n := |events| - 1;
      CacheNeverLies(hub, dirty, events[..n]);
      if events[n].Sync? {
        var w := AfterAll(World(hub, dirty, map[], None), events[..n]);
        CycleFaithful(w, events[n].started, events[n].first, events[n].script, events[n].heartbeat);
      }
    }
  }

  // ------------------------------------------------- what a completed cycle did

  ghost predicate NoRestores(script: seq<Turn>) {
    forall i :: 0 <= i < |script| ==> script[i].restored.None?
  }

  ghost function Views(script: seq<Turn>): seq<map<string, Row>> {
    seq(|script|, i requires 0 <= i < |script| => script[i].store.rows)
  }

  /** The fingerprints that a cycle bounded by `first` visits. */
  ghost function Visits(first: DB, script: seq<Turn>): set<string> {
    Members(Visited(Views(script), "", LastKey(first.rows), PAGE))
  }

  ghost predicate Untouched(w: World, v: World, fp: string) {
    At(v.hub, fp) == At(w.hub, fp) && At(v.ack, fp) == At(w.ack, fp) && (fp in v.dirty <==> fp in w.dirty)
  }

  /** `obs` is cached; unless the cache already held it in an incremental cycle, the hub holds it too and
      no doubt is left. */
  ghost predicate SentAs(w: World, full: bool, fp: string, obs: Report, v: World) {
    && At(v.ack, fp) == Some(obs)
    && if full || At(w.ack, fp) != Some(obs) then At(v.hub, fp) == Some(obs) && fp !in v.dirty
       else At(v.hub, fp) == At(w.hub, fp) && (fp in v.dirty <==> fp in w.dirty)
  }

  ghost predicate Carried(w: World, full: bool, script: seq<Turn>, fp: string, v: World) {
    exists i ::
      0 <= i < |script| && Readable(script[i].store, fp) && SentAs(w, full, fp, ReportOf(script[i].store, fp), v)
  }

  lemma BatchTracks(w: World, full: bool, page: map<string, Report>, outcome: Outcome, fp: string)
    requires var batch := Batch(w.ack, full, page); batch == map[] || outcome.Accepted?
    ensures var v := AfterSend(w, Batch(w.ack, full, page), outcome);
            if fp in page then SentAs(w, full, fp, page[fp], v) else Untouched(w, v, fp)
  {
    var batch := Batch(w.ack, full, page);
    assert fp in batch <==> fp in page && (full || At(w.ack, fp) != Some(page[fp]));
  }

  lemma StepTracks(w: World, full: bool, through: string, after: string, t: Turn, fp: string)
    requires t.restored.None? && !PageStep(w, full, through, after, t).verdict.Broken?
    ensures var p := PageStep(w, full, through, after, t);
            && p.keys == PageKeys(t.store.rows, after, through, PAGE)
            && (p.verdict.Continue? <==> p.keys != [])
            && (fp in p.keys ==> Readable(t.store, fp) && SentAs(w, full, fp, ReportOf(t.store, fp), p.w))
            && (fp !in p.keys ==> Untouched(w, p.w, fp))
  {
    var keys := PageKeys(t.store.rows, after, through, PAGE);
    if keys != [] {
      BatchTracks(w, full, PageReports(t.store, keys), t.outcome, fp);
    }
  }

  lemma ViewsTail(script: seq<Turn>)
    requires script != []
    ensures Views(script)[1..] == Views(script[1..])
  {
  }

  lemma VisitedFirst(script: seq<Turn>, after: string, through: string)
    requires script != []
    ensures var keys := PageKeys(script[0].store.rows, after, through, PAGE);
            Visited(Views(script), after, through, PAGE) ==
              (if keys == [] then [] else keys + Visited(Views(script[1..]), LastOf(keys), through, PAGE))
            && (Completes(Views(script), after, through, PAGE) <==>
                keys == [] || Completes(Views(script[1..]), LastOf(keys), through, PAGE))
  {
    ViewsTail(script);
  }

  lemma StepKeys(w: World, full: bool, through: string, after: string, t: Turn)
    requires !PageStep(w, full, through, after, t).verdict.Broken?
    ensures var p := PageStep(w, full, through, after, t);
            && p.keys == PageKeys(t.store.rows, after, through, PAGE)
            && (if p.keys == [] then p.verdict.Finished? else p.verdict.Continue?)
  {
  }

  lemma SeenMore(seen: set<string>, keys: seq<string>, rest: seq<string>)
    ensures seen + Members(keys) + Members(rest) == seen + Members(keys + rest)
  {
  }

  /** The loop that ends on an empty page saw exactly what paging visits. */
  lemma {:induction false} PagesVisit(w: World, full: bool, through: string, after: string, seen: set<string>,
                                      sent: bool, script: seq<Turn>)
    requires Pages(w, full, through, after, seen, sent, script).done
    ensures Completes(Views(script), after, through, PAGE)
    ensures Pages(w, full, through, after, seen, sent, script).seen ==
            seen + Members(Visited(Views(script), after, through, PAGE))
    decreases |script|
  {
    var p := PageStep(w, full, through, after, script[0]);
    StepKeys(w, full, through, after, script[0]);
    VisitedFirst(script, after, through);
    if p.verdict.Continue? {
      PagesVisit(p.w, full, through, LastOf(p.keys), seen + Members(p.keys), sent || p.sent, script[1..]);
      SeenMore(seen, p.keys, Visited(Views(script[1..]), LastOf(p.keys), through, PAGE));
    }
  }

  lemma CarriedLater(w: World, v: World, full: bool, script: seq<Turn>, fp: string, r: World)
    requires script != [] && Untouched(w, v, fp) && Carried(v, full, script[1..], fp, r)
    ensures Carried(w, full, script, fp, r)
  {
    var rest := script[1..];
    var i :| 0 <= i < |rest| && Readable(rest[i].store, fp) && SentAs(v, full, fp, ReportOf(rest[i].store, fp), r);
    assert rest[i] == script[i+1];
    assert SentAs(w, full, fp, ReportOf(script[i+1].store, fp), r);
  }

  /** A key of this page is not visited again. */
  lemma NotAgain(keys: seq<string>, script: seq<Turn>, through: string, fp: string)
    requires fp in keys && Ascending(keys, Less)
    ensures fp !in Visited(Views(script), LastOf(keys), through, PAGE)
  {
    var rest := Visited(Views(script), LastOf(keys), through, PAGE);
    VisitedAscends(Views(script), LastOf(keys), through, PAGE);
    LastOfGreatest(keys, fp);
    if fp in rest {
      LessTransitive(LastOf(keys), fp, LastOf(keys));
      LessIrreflexive(LastOf(keys));
    }
  }

  lemma {:induction false} PagesTrack(w: World, full: bool, through: string, after: string, seen: set<string>,
                                      sent: bool, script: seq<Turn>, fp: string)
    requires NoRestores(script) && Pages(w, full, through, after, seen, sent, script).done
    ensures var v := Pages(w, full, through, after, seen, sent, script).w;
            if fp in Visited(Views(script), after, through, PAGE) then Carried(w, full, script, fp, v)
            else Untouched(w, v, fp)
    decreases |script|
  {
    var p := PageStep(w, full, through, after, script[0]);
    VisitedFirst(script, after, through);
    StepTracks(w, full, through, after, script[0], fp);
    if p.verdict.Continue? {
      var v := Pages(w, full, through, after, seen, sent, script).w;
      PagesTrack(p.w, full, through, LastOf(p.keys), seen + Members(p.keys), sent || p.sent, script[1..], fp);
      PageFacts(script[0].store.rows, after, through, PAGE);
      if fp in p.keys {
        NotAgain(p.keys, script[1..], through, fp);
        assert SentAs(w, full, fp, ReportOf(script[0].store, fp), v);
      } else if fp in Visited(Views(script[1..]), LastOf(p.keys), through, PAGE) {
        CarriedLater(w, p.w, full, script, fp, v);
      }
    }
  }

  lemma CyclePages(w: World, started: int, first: DB, script: seq<Turn>, heartbeat: Outcome)
    requires Cycle(w, started, first, script, heartbeat).ok
    ensures var c, full := Cycle(w, started, first, script, heartbeat).w, Due(w.lastFull, started);
            var r := Pages(w, full, LastKey(first.rows), "", {}, false, script);
            && r.done
            && c == r.w.(ack := Forget(r.w.ack, r.seen), lastFull := if full then Some(started) else r.w.lastFull)
  {
  }

  /** One fingerprint through a completed cycle, whatever was written to the store between its pages: if it
      was visited, one of the observations read is cached and was sent if needed; if not, it is dropped
      from the cache and the hub keeps what it had. */
  lemma CycleTracks(w: World, started: int, first: DB, script: seq<Turn>, heartbeat: Outcome, fp: string)
    requires NoRestores(script) && Cycle(w, started, first, script, heartbeat).ok
    ensures var c := Cycle(w, started, first, script, heartbeat).w;
            if fp in Visits(first, script) then Carried(w, Due(w.lastFull, started), script, fp, c)
            else fp !in c.ack && At(c.hub, fp) == At(w.hub, fp)
  {
    var full, through := Due(w.lastFull, started), LastKey(first.rows);
    var r := Pages(w, full, through, "", {}, false, script);
    var c := Cycle(w, started, first, script, heartbeat).w;
    CyclePages(w, started, first, script, heartbeat);
    PagesVisit(w, full, through, "", {}, false, script);
    PagesTrack(w, full, through, "", {}, false, script, fp);
    if fp in Visits(first, script) {
      SameAt(r.w, c, w, full, script, fp);
    }
  }

  lemma SameAt(v: World, c: World, w: World, full: bool, script: seq<Turn>, fp: string)
    requires Untouched(v, c, fp) && Carried(w, full, script, fp, v)
    ensures Carried(w, full, script, fp, c)
  {
    var i :| 0 <= i < |script| && Readable(script[i].store, fp)
             && SentAs(w, full, fp, ReportOf(script[i].store, fp), v);
    assert SentAs(w, full, fp, ReportOf(script[i].store, fp), c);
  }

  /** A completed cycle caches exactly the fingerprints it visited. A completed full cycle, whatever the
      world was before it, leaves no doubt about any of them, and the hub holds what is cached. */
  lemma CompletedCycle(w: World, started: int, first: DB, script: seq<Turn>, heartbeat: Outcome)
    requires NoRestores(script) && Cycle(w, started, first, script, heartbeat).ok
    ensures var c := Cycle(w, started, first, script, heartbeat).w;
            && c.ack.Keys == Visits(first, script)
            && (Due(w.lastFull, started) ==>
                  && c.lastFull == Some(started)
                  && forall fp :: fp in c.ack ==> fp !in c.dirty && At(c.hub, fp) == Some(c.ack[fp]))
  {
    var c := Cycle(w, started, first, script, heartbeat).w;
    CyclePages(w, started, first, script, heartbeat);
    forall fp
      ensures fp in c.ack <==> fp in Visits(first, script)
      ensures fp in c.ack && Due(w.lastFull, started) ==> fp !in c.dirty && At(c.hub, fp) == Some(c.ack[fp])
    {
      CycleTracks(w, started, first, script, heartbeat, fp);
    }
  }

  /** A failed cycle caches no time, so a full cycle that was due stays due. */
  lemma FailedCycleStaysDue(w: World, started: int, first: DB, script: seq<Turn>, heartbeat: Outcome, later: int)
    requires !Cycle(w, started, first, script, heartbeat).ok && Due(w.lastFull, started) && later >= started
    ensures Due(Cycle(w, started, first, script, heartbeat).w.lastFull, later)
  {
    PagesKeepTime(w, Due(w.lastFull, started), LastKey(first.rows), "", {}, false, script);
  }

  lemma {:induction false} PagesKeepTime(w: World, full: bool, through: string, after: string, seen: set<string>,
                                         sent: bool, script: seq<Turn>)
    ensures Pages(w, full, through, after, seen, sent, script).w.lastFull == w.lastFull
    decreases |script|
  {
    if script != [] {
      var p := PageStep(w, full, through, after, script[0]);
      if p.verdict.Continue? {
        PagesKeepTime(p.w, full, through, LastOf(p.keys), seen + Members(p.keys), sent || p.sent, script[1..]);
      }
    }
  }

  lemma {:induction false} PagesKeepCache(w: World, full: bool, through: string, after: string, seen: set<string>,
                                          sent: bool, script: seq<Turn>)
    ensures w.ack.Keys <= Pages(w, full, through, after, seen, sent, script).w.ack.Keys
    decreases |script|
  {
    if script != [] {
      var p := PageStep(w, full, through, after, script[0]);
      assert w.ack.Keys <= p.w.ack.Keys;
      if p.verdict.Continue? {
        PagesKeepCache(p.w, full, through, LastOf(p.keys), seen + Members(p.keys), sent || p.sent, script[1..]);
      }
    }
  }

  /** A failed cycle forgets nothing and moves no time, however it failed. */
  lemma FailedCycleForgetsNothing(w: World, started: int, first: DB, script: seq<Turn>, heartbeat: Outcome)
    requires !Cycle(w, started, first, script, heartbeat).ok
    ensures var c := Cycle(w, started, first, script, heartbeat).w;
            w.ack.Keys <= c.ack.Keys && c.lastFull == w.lastFull
  {
    PagesKeepCache(w, Due(w.lastFull, started), LastKey(first.rows), "", {}, false, script);
    PagesKeepTime(w, Due(w.lastFull, started), LastKey(first.rows), "", {}, false, script);
  }

  /** A stored fingerprint that every read of a completed cycle could find is visited. */
  lemma PresentIsVisited(w: World, started: int, first: DB, script: seq<Turn>, heartbeat: Outcome, fp: string)
    requires Cycle(w, started, first, script, heartbeat).ok
    requires fp != "" && fp in first.rows && forall i :: 0 <= i < |script| ==> fp in script[i].store.rows
    ensures fp in Visits(first, script)
  {
    CyclePages(w, started, first, script, heartbeat);
    PagesVisit(w, Due(w.lastFull, started), LastKey(first.rows), "", {}, false, script);
    LastKeyIsGreatest(first.rows, fp);
    CompletedVisitsAll(Views(script), "", LastKey(first.rows), PAGE, fp);
  }

  // ---------------------------------------------------- over an unchanging store

  ghost predicate Unchanging(script: seq<Turn>, d: DB) {
    forall i :: 0 <= i < |script| ==> script[i].store == d && script[i].restored.None?
  }

  lemma VisitsUnchanging(w: World, started: int, d: DB, script: seq<Turn>, heartbeat: Outcome, fp: string)
    requires Unchanging(script, d) && Cycle(w, started, d, script, heartbeat).ok
    ensures fp in Visits(d, script) <==> fp in d.rows && fp != ""
  {
    if fp in d.rows && fp != "" {
      PresentIsVisited(w, started, d, script, heartbeat, fp);
    }
    if fp in Visits(d, script) {
      VisitedWasRead(Views(script), "", LastKey(d.rows), PAGE, fp);
      VisitedAscends(Views(script), "", LastKey(d.rows), PAGE);
    }
  }

  /** Over an unchanging store a completed cycle caches exactly the stored fingerprints with their current
      observations, and the hub agrees on one if and only if the cycle was full, the cache did not hold
      that very observation, or the hub agreed before. */
  lemma HubAgreesExactly(w: World, started: int, d: DB, script: seq<Turn>, heartbeat: Outcome, fp: string)
    requires Unchanging(script, d) && Cycle(w, started, d, script, heartbeat).ok
    requires fp in d.rows && fp != ""
    ensures var c := Cycle(w, started, d, script, heartbeat).w;
            && Readable(d, fp) && At(c.ack, fp) == Some(ReportOf(d, fp))
            && (At(c.hub, fp) == Some(ReportOf(d, fp)) <==>
                  Due(w.lastFull, started) || At(w.ack, fp) != Some(ReportOf(d, fp))
                  || At(w.hub, fp) == Some(ReportOf(d, fp)))
  {
    VisitsUnchanging(w, started, d, script, heartbeat, fp);
    CycleTracks(w, started, d, script, heartbeat, fp);
  }

  /** In a run from an empty cache, a completed cycle over an unchanging store leaves the hub equal to the
      store on every fingerprint not in doubt; if a full cycle was due, on every fingerprint. */
  lemma CompletedCycleSyncs(hub: map<string, Report>, dirty: set<string>, events: seq<Event>, started: int, d: DB,
                            script: seq<Turn>, heartbeat: Outcome)
    requires var w := AfterAll(World(hub, dirty, map[], None), events);
             Unchanging(script, d) && Cycle(w, started, d, script, heartbeat).ok
    ensures var w := AfterAll(World(hub, dirty, map[], None), events);
            var c := Cycle(w, started, d, script, heartbeat).w;
            && c.ack.Keys == d.rows.Keys - {""}
            && forall fp :: fp in d.rows && fp != "" ==>
                 && Readable(d, fp)
                 && (Due(w.lastFull, started) || fp !in c.dirty ==> At(c.hub, fp) == Some(ReportOf(d, fp)))
                 && (Due(w.lastFull, started) ==> fp !in c.dirty)
  {
    var w := AfterAll(World(hub, dirty, map[], None), events);
    var c := Cycle(w, started, d, script, heartbeat).w;
    CacheNeverLies(hub, dirty, events);
    CycleFaithful(w, started, d, script, heartbeat);
    CompletedCycle(w, started, d, script, heartbeat);
    forall fp ensures fp in c.ack <==> fp in d.rows && fp != "" {
      VisitsUnchanging(w, started, d, script, heartbeat, fp);
    }
    forall fp | fp in d.rows && fp != "" ensures Readable(d, fp) && At(c.ack, fp) == Some(ReportOf(d, fp)) {
      HubAgreesExactly(w, started, d, script, heartbeat, fp);
    }
  }

  // ------------------------------------------------------- what is sent, and when

  /** Full snapshots recur: when 15 minutes have passed since the last one began, or none was completed since
      the start, a completed cycle over an unchanging store leaves the hub with every stored observation,
      whatever the hub and the cache held. */
  lemma FullCyclesRecur(w: World, started: int, d: DB, script: seq<Turn>, heartbeat: Outcome, fp: string)
    requires w.lastFull == None || started - w.lastFull.value >= 15 * 60
    requires Unchanging(script, d) && Cycle(w, started, d, script, heartbeat).ok && fp in d.rows && fp != ""
    ensures var c := Cycle(w, started, d, script, heartbeat).w;
            Readable(d, fp) && At(c.hub, fp) == Some(ReportOf(d, fp)) && fp !in c.dirty && c.lastFull == Some(started)
  {
    HubAgreesExactly(w, started, d, script, heartbeat, fp);
    CompletedCycle(w, started, d, script, heartbeat);
  }

  /** Before that, an observation already accepted and unchanged is not sent again, even if the hub has lost
      it, and the time of the last full snapshot stays. */
  lemma UnchangedIsNotResent(w: World, started: int, d: DB, script: seq<Turn>, heartbeat: Outcome, fp: string)
    requires w.lastFull.Some? && started - w.lastFull.value < 15 * 60
    requires Unchanging(script, d) && Cycle(w, started, d, script, heartbeat).ok && fp in d.rows && fp != ""
    requires Readable(d, fp) && At(w.ack, fp) == Some(ReportOf(d, fp))
    ensures var c := Cycle(w, started, d, script, heartbeat).w;
            At(c.hub, fp) == At(w.hub, fp) && c.lastFull == w.lastFull
  {
    VisitsUnchanging(w, started, d, script, heartbeat, fp);
    CycleTracks(w, started, d, script, heartbeat, fp);
    CyclePages(w, started, d, script, heartbeat);
    PagesKeepTime(w, false, LastKey(d.rows), "", {}, false, script);
  }

  /** So a restart loses the cache but no data: the first cycle that completes after it sends everything. */
  lemma RestartSendsAll(w: World, started: int, d: DB, script: seq<Turn>, heartbeat: Outcome, fp: string)
    requires Unchanging(script, d) && fp in d.rows && fp != ""
    requires Cycle(After(w, Restart), started, d, script, heartbeat).ok
    ensures After(w, Restart).ack == map[] && After(w, Restart).hub == w.hub
    ensures var c := Cycle(After(w, Restart), started, d, script, heartbeat).w;
            Readable(d, fp) && At(c.hub, fp) == Some(ReportOf(d, fp))
  {
    FullCyclesRecur(After(w, Restart), started, d, script, heartbeat, fp);
  }

  /** A request carries at most 16 observations, all of one page. */
  lemma RequestsAreSmall(ack: map<string, Report>, full: bool, d: DB, after: string, through: string)
    requires PageReadable(d, PageKeys(d.rows, after, through, PAGE))
    ensures var keys := PageKeys(d.rows, after, through, PAGE);
            |keys| <= 16 && |Batch(ack, full, PageReports(d, keys))| <= 16
  {
    var keys := PageKeys(d.rows, after, through, PAGE);
    var batch := Batch(ack, full, PageReports(d, keys));
    PageFacts(d.rows, after, through, PAGE);
    MembersSize(keys);
    SubsetSize(batch.Keys, Members(keys));
    assert |batch.Keys| == |batch|;
  }

  lemma {:induction false} MembersSize(q: seq<string>)
    ensures |Members(q)| <= |q|
  {
    if q != [] {
      var n := |q| - 1;
      MembersSize(q[..n]);
      assert q == q[..n] + [q[n]];
      assert Members(q) == Members(q[..n]) + {q[n]};
    }
  }

  /** The observation of `fp` is to be sent: in a full cycle, or when the cache does not hold it. */
  ghost predicate ToSend(w: World, full: bool, d: DB, fp: string) {
    Readable(d, fp) && (full || At(w.ack, fp) != Some(ReportOf(d, fp)))
  }

  lemma StepSends(w: World, full: bool, through: string, after: string, t: Turn)
    requires t.restored.None? && !PageStep(w, full, through, after, t).verdict.Broken?
    ensures var p := PageStep(w, full, through, after, t);
            p.sent <==> exists fp :: fp in p.keys && ToSend(w, full, t.store, fp)
  {
    var keys := PageKeys(t.store.rows, after, through, PAGE);
    if keys != [] {
      var page := PageReports(t.store, keys);
      var batch := Batch(w.ack, full, page);
      forall fp ensures fp in batch <==> fp in keys && ToSend(w, full, t.store, fp) {
        assert fp in keys ==> page[fp] == ReportOf(t.store, fp);
      }
      if batch != map[] {
        var fp :| fp in batch;
        assert ToSend(w, full, t.store, fp);
      }
    }
  }

  lemma SendsLater(w: World, v: World, full: bool, d: DB, keys: seq<string>, rest: seq<string>)
    requires forall fp :: fp !in keys ==> Untouched(w, v, fp)
    requires forall fp :: fp in rest ==> fp !in keys
    ensures (exists fp :: fp in rest && ToSend(v, full, d, fp)) <==> exists fp :: fp in rest && ToSend(w, full, d, fp)
  {
    forall fp | fp in rest ensures ToSend(v, full, d, fp) <==> ToSend(w, full, d, fp) {
      assert Untouched(w, v, fp);
    }
  }

  lemma {:induction false} PagesSend(w: World, full: bool, through: string, after: string, seen: set<string>,
                                     sent: bool,
                                     script: seq<Turn>, d: DB)
    requires Unchanging(script, d) && Pages(w, full, through, after, seen, sent, script).done
    ensures Pages(w, full, through, after, seen, sent, script).sent <==>
            sent || exists fp :: fp in Visited(Views(script), after, through, PAGE) && ToSend(w, full, d, fp)
    decreases |script|
  {
    var p := PageStep(w, full, through, after, script[0]);
    StepKeys(w, full, through, after, script[0]);
    StepSends(w, full, through, after, script[0]);
    VisitedFirst(script, after, through);
    if p.verdict.Continue? {
      var rest := Visited(Views(script[1..]), LastOf(p.keys), through, PAGE);
      PagesSend(p.w, full, through, LastOf(p.keys), seen + Members(p.keys), sent || p.sent, script[1..], d);
      PageThenRestSends(w, full, through, after, script, d);
      assert Visited(Views(script), after, through, PAGE) == p.keys + rest;
    }
  }

  lemma PageThenRestSends(w: World, full: bool, through: string, after: string, script: seq<Turn>, d: DB)
    requires script != [] && Unchanging(script, d) && PageStep(w, full, through, after, script[0]).verdict.Continue?
    ensures var p := PageStep(w, full, through, after, script[0]);
            var rest := Visited(Views(script[1..]), LastOf(p.keys), through, PAGE);
            (exists fp :: fp in rest && ToSend(p.w, full, d, fp)) <==> exists fp :: fp in rest && ToSend(w, full, d, fp)
  {
    var p := PageStep(w, full, through, after, script[0]);
    var rest := Visited(Views(script[1..]), LastOf(p.keys), through, PAGE);
    StepKeys(w, full, through, after, script[0]);
    PageFacts(script[0].store.rows, after, through, PAGE);
    forall fp | fp !in p.keys ensures Untouched(w, p.w, fp) {
      StepTracks(w, full, through, after, script[0], fp);
    }
    forall fp | fp in rest ensures fp !in p.keys {
      if fp in p.keys {
        NotAgain(p.keys, script[1..], through, fp);
      }
    }
    SendsLater(w, p.w, full, d, p.keys, rest);
  }

  lemma CycleEnds(w: World, started: int, first: DB, script: seq<Turn>, heartbeat: Outcome)
    ensures var r := Pages(w, Due(w.lastFull, started), LastKey(first.rows), "", {}, false, script);
            Cycle(w, started, first, script, heartbeat).ok <==> r.done && (r.sent || heartbeat.Accepted?)
  {
  }

  ghost predicate AnyToSend(w: World, full: bool, d: DB, fps: set<string>) {
    exists fp :: fp in fps && ToSend(w, full, d, fp)
  }

  lemma LoopSends(w: World, full: bool, d: DB, script: seq<Turn>)
    requires Unchanging(script, d) && Pages(w, full, LastKey(d.rows), "", {}, false, script).done
    ensures Pages(w, full, LastKey(d.rows), "", {}, false, script).sent <==> AnyToSend(w, full, d, Visits(d, script))
  {
    PagesSend(w, full, LastKey(d.rows), "", {}, false, script, d);
    var v := Visited(Views(script), "", LastKey(d.rows), PAGE);
    assert forall fp :: fp in v <==> fp in Members(v);
  }

  /** A cycle whose page loop ends well sends the heartbeat, and stands or falls with it, exactly when it had
      nothing to send. */
  lemma HeartbeatDecides(w: World, started: int, d: DB, script: seq<Turn>, heartbeat: Outcome)
    requires Unchanging(script, d) && Pages(w, Due(w.lastFull, started), LastKey(d.rows), "", {}, false, script).done
    ensures var full := w.lastFull == None || started - w.lastFull.value >= 15 * 60;
            Cycle(w, started, d, script, heartbeat).ok <==>
            heartbeat.Accepted? || AnyToSend(w, full, d, Visits(d, script))
  {
    CycleEnds(w, started, d, script, heartbeat);
    LoopSends(w, Due(w.lastFull, started), d, script);
  }

  // ------------------------------------------------------------------ completion

  ghost predicate Serves(t: Turn) {
    t.outcome.Accepted? && forall fp :: fp in t.store.rows ==> Readable(t.store, fp)
  }

  lemma StepServes(w: World, full: bool, through: string, after: string, t: Turn)
    requires Serves(t)
    ensures !PageStep(w, full, through, after, t).verdict.Broken?
  {
    PageFacts(t.store.rows, after, through, PAGE);
  }

  lemma {:induction false} PagesComplete(w: World, full: bool, through: string, after: string, seen: set<string>,
                                         sent: bool, script: seq<Turn>)
    requires forall i :: 0 <= i < |script| ==> Serves(script[i])
    requires Completes(Views(script), after, through, PAGE)
    ensures Pages(w, full, through, after, seen, sent, script).done
    decreases |script|
  {
    var p := PageStep(w, full, through, after, script[0]);
    StepServes(w, full, through, after, script[0]);
    StepKeys(w, full, through, after, script[0]);
    VisitedFirst(script, after, through);
    if p.verdict.Continue? {
      PagesComplete(p.w, full, through, LastOf(p.keys), seen + Members(p.keys), sent || p.sent, script[1..]);
    }
  }

  /** When requests succeed and rows are readable a cycle ends well, however the store changes between its
      pages: one read more than there are possible keys is enough. */
  lemma CycleCompletes(w: World, started: int, first: DB, script: seq<Turn>, universe: set<string>)
    requires |script| > |universe|
    requires forall i :: 0 <= i < |script| ==> Serves(script[i]) && script[i].store.rows.Keys <= universe
    ensures Cycle(w, started, first, script, Accepted).ok
  {
    var through := LastKey(first.rows);
    SubsetSize(Ahead(universe, "", through), universe);
    PagesRunOut(Views(script), universe, "", through, PAGE);
    PagesComplete(w, Due(w.lastFull, started), through, "", {}, false, script);
  }

  /** Rows of a well-formed store are readable, and a report says all that is stored: the row as it is,
      and the whole history, for the bound on a report never cuts a stored history. */
  lemma ReportsAreWhole(d: DB, fp: string)
    requires WellFormed(d) && fp in d.rows
    ensures Readable(d, fp)
    ensures var row, o := d.rows[fp], ReportOf(d, fp);
            && o.fp == fp && o.scope == row.scope && o.status == row.status && o.labelText == row.labelText
            && o.firstSeen == row.firstSeen && o.lastSeen == row.lastSeen && o.count == row.count
            && Some(o.meta) == row.meta.content
    ensures var h, o := HistoryOf(d, fp), ReportOf(d, fp);
            && Members(o.ips) == h.ips && Ascending(o.ips, Less)
            && Members(o.ports) == h.ports && Ascending(o.ports, IntLess)
            && Members(o.sightings) == h.sightings && Ascending(o.sightings, NewestFirst)
  {
    TextIsTotal();
    IntIsTotal();
    NewestFirstIsTotal();
    SortedCorrect(HistoryOf(d, fp).ips, Less);
    SortedCorrect(HistoryOf(d, fp).ports, IntLess);
    SortedCorrect(HistoryOf(d, fp).sightings, NewestFirst);
  }

  lemma LimitedExactly<T>(values: seq<T>, max: nat)
    requires max > 0
    ensures Limited(values, max) <= values && |Limited(values, max)| == Min(max, |values|)
  {
  }

  /** Whatever is stored, a report has at most 128 of each list, the first of each and all of it if it fits. */
  lemma ReportsAreBounded(d: DB, fp: string)
    requires Readable(d, fp)
    ensures var e, o := Read(d, fp).value, ReportOf(d, fp);
            && o.ips <= e.ips && |o.ips| == Min(128, |e.ips|)
            && o.ports <= e.ports && |o.ports| == Min(128, |e.ports|)
            && o.sightings <= e.sightings && |o.sightings| == Min(128, |e.sightings|)
  {
    var e := Read(d, fp).value;
    LimitedExactly(e.ips, 128);
    LimitedExactly(e.ports, 128);
    LimitedExactly(e.sightings, 128);
  }

  // ------------------------------------------------------- a lost reply and a revert

  ghost predicate OnlyRow(d: DB, fp: string) {
    d.rows.Keys == {fp} && fp != "" && Readable(d, fp)
  }

  lemma OnlyPage(d: DB, fp: string)
    requires OnlyRow(d, fp)
    ensures PageKeys(d.rows, "", LastKey(d.rows), PAGE) == [fp]
  {
    LastKeyIsGreatest(d.rows, fp);
    PageFacts(d.rows, "", LastKey(d.rows), PAGE);
    assert InRange(d.rows, "", LastKey(d.rows)) == {fp};
  }

  lemma LostBatch(w: World, obs: Report, fp: string)
    requires At(w.ack, fp) != Some(obs)
    ensures Batch(w.ack, false, map[fp := obs]) == map[fp := obs]
    ensures var v := AfterSend(w, map[fp := obs], Failed({fp}));
            At(v.hub, fp) == Some(obs) && fp in v.dirty && v.ack == w.ack && v.lastFull == w.lastFull
  {
    var one := map[fp := obs];
    assert fp in one && one[fp] == obs && one != map[];
    assert Batch(w.ack, false, one) == one;
  }

  lemma OneReport(d: DB, fp: string)
    requires PageReadable(d, [fp]) && Readable(d, fp)
    ensures PageReports(d, [fp]) == map[fp := ReportOf(d, fp)]
  {
  }

  lemma LostStep(w: World, d: DB, fp: string)
    requires OnlyRow(d, fp) && At(w.ack, fp) != Some(ReportOf(d, fp))
    ensures PageStep(w, false, LastKey(d.rows), "", Turn(None, d, Failed({fp}))) ==
            PageResult(AfterSend(w, map[fp := ReportOf(d, fp)], Failed({fp})), [fp], Broken, true)
  {
    OnlyPage(d, fp);
    var keys := [fp];
    assert keys[0] == fp && PageReadable(d, keys);
    OneReport(d, fp);
    LostBatch(w, ReportOf(d, fp), fp);
  }

  /** A changed observation committed by a request whose reply is lost: the hub has it, the cache does not. */
  lemma LostReply(w: World, started: int, d: DB, fp: string, heartbeat: Outcome)
    requires OnlyRow(d, fp) && !Due(w.lastFull, started) && At(w.ack, fp) != Some(ReportOf(d, fp))
    ensures var c := Cycle(w, started, d, [Turn(None, d, Failed({fp}))], heartbeat);
            && !c.ok && At(c.w.hub, fp) == Some(ReportOf(d, fp)) && fp in c.w.dirty && c.w.ack == w.ack
            && c.w.lastFull == w.lastFull
  {
    LostStep(w, d, fp);
    LostBatch(w, ReportOf(d, fp), fp);
  }

  function TwoGoodTurns(d: DB): seq<Turn> {
    [Turn(None, d, Accepted), Turn(None, d, Accepted)]
  }

  lemma CleanCycle(w: World, started: int, d: DB, fp: string)
    requires OnlyRow(d, fp)
    ensures var c := Cycle(w, started, d, TwoGoodTurns(d), Accepted);
            && c.ok && At(c.w.ack, fp) == Some(ReportOf(d, fp))
            && c.w.lastFull == (if Due(w.lastFull, started) then Some(started) else w.lastFull)
            && (At(c.w.hub, fp) == Some(ReportOf(d, fp)) <==>
                  Due(w.lastFull, started) || At(w.ack, fp) != Some(ReportOf(d, fp))
                  || At(w.hub, fp) == Some(ReportOf(d, fp)))
  {
    var good := TwoGoodTurns(d);
    assert forall i :: 0 <= i < |good| ==> Serves(good[i]);
    CycleCompletes(w, started, d, good, {fp});
    HubAgreesExactly(w, started, d, good, Accepted, fp);
    CyclePages(w, started, d, good, Accepted);
    PagesKeepTime(w, Due(w.lastFull, started), LastKey(d.rows), "", {}, false, good);
  }

  /** Why doubt must be tracked: a stored row goes from one observation to another and back. The reply to
      the request that carried the second is lost, so the next cycle finds the first one cached, sends
      nothing for the row, succeeds, and leaves the hub with the second. */
  lemma RevertAfterLostReply(x: DB, y: DB, fp: string)
    requires OnlyRow(x, fp) && OnlyRow(y, fp) && ReportOf(x, fp) != ReportOf(y, fp)
    ensures var a := Cycle(World(map[], {}, map[], None), 0, x, TwoGoodTurns(x), Accepted);
            var b := Cycle(a.w, 30, y, [Turn(None, y, Failed({fp}))], Accepted);
            var c := Cycle(b.w, 60, x, TwoGoodTurns(x), Accepted);
            && a.ok && At(a.w.hub, fp) == Some(ReportOf(x, fp)) && !b.ok
            && c.ok && At(c.w.hub, fp) != Some(ReportOf(x, fp)) && fp in b.w.dirty
  {
    var a := Cycle(World(map[], {}, map[], None), 0, x, TwoGoodTurns(x), Accepted);
    CleanCycle(World(map[], {}, map[], None), 0, x, fp);
    LostReply(a.w, 30, y, fp, Accepted);
    CleanCycle(Cycle(a.w, 30, y, [Turn(None, y, Failed({fp}))], Accepted).w, 60, x, fp);
  }
}
