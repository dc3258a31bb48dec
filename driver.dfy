/** `main`: for every target in file order, query the three resource types
    in the order web, app, mapp, appending to that type's output file; wait
    a random pause between two types of one target and a longer one between
    two targets, never after the last of either. The run is recorded as a
    trace of events. */
module Driver {
  import opened Text
  import opened Json
  import opened Extraction
  import opened Retry

  /** The outcome of `random.randint(20, 30)`. */
  type ResourcePause = d: int | 20 <= d <= 30 witness 20

  /** The outcome of `random.randint(60, 110)`: base 60 plus up to 50. */
  type TargetPause = d: int | 60 <= d <= 110 witness 60

  datatype Event =
    | Process(target: string, rt: ResourceType)   // one `run_curl_and_save` call
    | ResourceDelay(seconds: int)                  // sleep between two types
    | TargetDelay(seconds: int)                    // sleep between two targets

  /** `resource_config`, in order. */
  const ResourceOrder: seq<ResourceType> := [Web, App, Mapp]

  /** `[line.strip() for line in f if line.strip()]`. */
  function Targets(lines: seq<string>): seq<string> {
    if lines == [] then []
    else (if Strip(lines[0]) != [] then [Strip(lines[0])] else []) + Targets(lines[1..])
  }

  /** Every target is stripped and non-empty, there are no more targets
      than lines, and there are none exactly when every line is blank. */
  lemma TargetsClean(lines: seq<string>)
    ensures |Targets(lines)| <= |lines|
    ensures forall k :: 0 <= k < |Targets(lines)| ==>
              Targets(lines)[k] != [] && Strip(Targets(lines)[k]) == Targets(lines)[k]
    ensures Targets(lines) == [] <==> forall k :: 0 <= k < |lines| ==> AllWhitespace(lines[k])
  {
    TargetsStripped(lines);
    TargetsNone(lines);
  }

  /** Every entry is what the filter keeps: stripped and non-empty. */
  predicate AllClean(ts: seq<string>) {
    forall k :: 0 <= k < |ts| ==> ts[k] != [] && Strip(ts[k]) == ts[k]
  }

  lemma {:induction false} TargetsStripped(lines: seq<string>)
    ensures |Targets(lines)| <= |lines|
    ensures AllClean(Targets(lines))
  {
    if lines != [] {
      TargetsStripped(lines[1..]);
      var head := if Strip(lines[0]) != [] then [Strip(lines[0])] else [];
      if head != [] {
        StripIdempotent(lines[0]);
      }
      AllCleanConcat(head, Targets(lines[1..]));
    }
  }

  lemma AllCleanConcat(a: seq<string>, b: seq<string>)
    requires AllClean(a) && AllClean(b)
    ensures AllClean(a + b)
  {
    forall k | 0 <= k < |a + b| ensures (a + b)[k] != [] && Strip((a + b)[k]) == (a + b)[k] {
      if k >= |a| {
        assert (a + b)[k] == b[k - |a|];
      }
    }
  }

  lemma {:induction false} TargetsNone(lines: seq<string>)
    ensures Targets(lines) == [] <==> forall k :: 0 <= k < |lines| ==> AllWhitespace(lines[k])
  {
    if lines != [] {
      TargetsNone(lines[1..]);
      assert Targets(lines) == (if Strip(lines[0]) != [] then [Strip(lines[0])] else []) + Targets(lines[1..]);
      if forall k :: 0 <= k < |lines| ==> AllWhitespace(lines[k]) {
        assert forall k :: 0 <= k < |lines[1..]| ==> AllWhitespace(lines[1..][k]) by {
          forall k | 0 <= k < |lines[1..]| ensures AllWhitespace(lines[1..][k]) {
            assert lines[1..][k] == lines[k + 1];
          }
        }
        assert AllWhitespace(lines[0]);
      } else {
        var j :| 0 <= j < |lines| && !AllWhitespace(lines[j]);
        if j > 0 {
          assert lines[1..][j - 1] == lines[j];
        }
      }
    }
  }

  /** Events of the first `r` resource types of target number `i`. */
  function ResourceEvents(t: string, i: nat, r: nat, rd: (nat, nat) -> ResourcePause): seq<Event>
    requires r <= |ResourceOrder|
  {
    if r == 0 then []
    else ResourceEvents(t, i, r - 1, rd) + [Process(t, ResourceOrder[r - 1])]
         + (if r - 1 < |ResourceOrder| - 1 then [ResourceDelay(rd(i, r - 1))] else [])
  }

  /** Events of target number `i` of `n`. */
  function TargetEvents(t: string, i: nat, n: nat, rd: (nat, nat) -> ResourcePause, td: nat -> TargetPause): seq<Event> {
    ResourceEvents(t, i, |ResourceOrder|, rd) + (if i + 1 < n then [TargetDelay(td(i))] else [])
  }

  /** Events of the first `m` targets. */
  function Schedule(targets: seq<string>, m: nat, rd: (nat, nat) -> ResourcePause, td: nat -> TargetPause): seq<Event>
    requires m <= |targets|
  {
    if m == 0 then [] else Schedule(targets, m - 1, rd, td) + TargetEvents(targets[m - 1], m - 1, |targets|, rd, td)
  }

  /** What the first `m` targets append to the output file of `rt`. */
  function AllAppended(targets: seq<string>, m: nat, rt: ResourceType,
                       world: (nat, ResourceType) -> (nat -> Attempt), parse: string -> Parsed): string
    requires m <= |targets|
  {
    if m == 0 then "" else AllAppended(targets, m - 1, rt, world, parse) + Appended(rt, targets[m - 1], world(m - 1, rt), parse)
  }

  /** The processing loop of `main` over the targets read from the input
      lines. `world(i, rt)` is what the attempts for target `i` and type
      `rt` meet; `rd` and `td` are the pauses drawn. */
  method RunBatch(lines: seq<string>, web: OutputFile, app: OutputFile, mapp: OutputFile,
                  world: (nat, ResourceType) -> (nat -> Attempt), parse: string -> Parsed,
                  rd: (nat, nat) -> ResourcePause, td: nat -> TargetPause)
    returns (trace: seq<Event>)
    requires web != app && app != mapp && web != mapp
    modifies web, app, mapp
    ensures trace == Schedule(Targets(lines), |Targets(lines)|, rd, td)
    ensures web.contents == old(web.contents) + AllAppended(Targets(lines), |Targets(lines)|, Web, world, parse)
    ensures app.contents == old(app.contents) + AllAppended(Targets(lines), |Targets(lines)|, App, world, parse)
    ensures mapp.contents == old(mapp.contents) + AllAppended(Targets(lines), |Targets(lines)|, Mapp, world, parse)
  {
    var targets := Targets(lines);
    var total := |targets|;
    trace := [];
    for i := 0 to total
      invariant trace == Schedule(targets, i, rd, td)
      invariant web.contents == old(web.contents) + AllAppended(targets, i, Web, world, parse)
      invariant app.contents == old(app.contents) + AllAppended(targets, i, App, world, parse)
      invariant mapp.contents == old(mapp.contents) + AllAppended(targets, i, Mapp, world, parse)
    {
      var events := RunTarget(targets, i, web, app, mapp, world, parse, rd, td,
                              old(web.contents), old(app.contents), old(mapp.contents));
      trace := trace + events;
    }
  }

  /** One more target appends its block after those of the earlier ones. */
  lemma FileStep(init: string, before: string, after: string, targets: seq<string>, i: nat, rt: ResourceType,
                 world: (nat, ResourceType) -> (nat -> Attempt), parse: string -> Parsed)
    requires i < |targets|
    requires before == init + AllAppended(targets, i, rt, world, parse)
    requires after == before + Appended(rt, targets[i], world(i, rt), parse)
    ensures after == init + AllAppended(targets, i + 1, rt, world, parse)
  {
  }

  /** One pass of the outer loop: the three types of target number `i`,
      then the pause before the next target if there is one. */
  method RunTarget(targets: seq<string>, i: nat, web: OutputFile, app: OutputFile, mapp: OutputFile,
                   world: (nat, ResourceType) -> (nat -> Attempt), parse: string -> Parsed,
                   rd: (nat, nat) -> ResourcePause, td: nat -> TargetPause,
                   ghost webInit: string, ghost appInit: string, ghost mappInit: string)
    returns (events: seq<Event>)
    requires i < |targets|
    requires web != app && app != mapp && web != mapp
    requires web.contents == webInit + AllAppended(targets, i, Web, world, parse)
    requires app.contents == appInit + AllAppended(targets, i, App, world, parse)
    requires mapp.contents == mappInit + AllAppended(targets, i, Mapp, world, parse)
    modifies web, app, mapp
    ensures events == TargetEvents(targets[i], i, |targets|, rd, td)
    ensures web.contents == webInit + AllAppended(targets, i + 1, Web, world, parse)
    ensures app.contents == appInit + AllAppended(targets, i + 1, App, world, parse)
    ensures mapp.contents == mappInit + AllAppended(targets, i + 1, Mapp, world, parse)
  {
    ghost var webBefore, appBefore, mappBefore := web.contents, app.contents, mapp.contents;
    events := RunTypes(targets[i], i, web, app, mapp, world, parse, rd);
    if i + 1 < |targets| {
      events := events + [TargetDelay(td(i))];
    }
    FileStep(webInit, webBefore, web.contents, targets, i, Web, world, parse);
    FileStep(appInit, appBefore, app.contents, targets, i, App, world, parse);
    FileStep(mappInit, mappBefore, mapp.contents, targets, i, Mapp, world, parse);
  }

  /** The inner loop of `main`: the three types of target number `i` in
      order, with a pause after each but the last. */
  method RunTypes(target: string, i: nat, web: OutputFile, app: OutputFile, mapp: OutputFile,
                  world: (nat, ResourceType) -> (nat -> Attempt), parse: string -> Parsed,
                  rd: (nat, nat) -> ResourcePause)
    returns (events: seq<Event>)
    requires web != app && app != mapp && web != mapp
    modifies web, app, mapp
    ensures events == ResourceEvents(target, i, |ResourceOrder|, rd)
    ensures web.contents == old(web.contents) + Appended(Web, target, world(i, Web), parse)
    ensures app.contents == old(app.contents) + Appended(App, target, world(i, App), parse)
    ensures mapp.contents == old(mapp.contents) + Appended(Mapp, target, world(i, Mapp), parse)
  {
    events := [];
    for r := 0 to |ResourceOrder|
      invariant events == ResourceEvents(target, i, r, rd)
      invariant web.contents == old(web.contents) + (if r > 0 then Appended(Web, target, world(i, Web), parse) else "")
      invariant app.contents == old(app.contents) + (if r > 1 then Appended(App, target, world(i, App), parse) else "")
      invariant mapp.contents == old(mapp.contents) + (if r > 2 then Appended(Mapp, target, world(i, Mapp), parse) else "")
    {
      var rt := ResourceOrder[r];
      var outputFile := if r == 0 then web else if r == 1 then app else mapp;
      var _, _, _ := RunCurlAndSave(rt, target, outputFile, world(i, rt), parse);
      events := events + [Process(target, rt)];
      if r < |ResourceOrder| - 1 {
        events := events + [ResourceDelay(rd(i, r))];
      }
    }
  }

  /** One target's events, unrolled: each type once in order, a resource
      pause after the first two only, and a target pause unless it is the
      last target. */
  lemma TargetEventsUnrolled(t: string, i: nat, n: nat, rd: (nat, nat) -> ResourcePause, td: nat -> TargetPause)
    ensures TargetEvents(t, i, n, rd, td) ==
      [Process(t, Web), ResourceDelay(rd(i, 0)), Process(t, App), ResourceDelay(rd(i, 1)), Process(t, Mapp)]
      + (if i + 1 < n then [TargetDelay(td(i))] else [])
  {
    assert ResourceEvents(t, i, 1, rd) == [Process(t, Web), ResourceDelay(rd(i, 0))];
    assert ResourceEvents(t, i, 2, rd) == [Process(t, Web), ResourceDelay(rd(i, 0)), Process(t, App), ResourceDelay(rd(i, 1))];
  }

  function Count(trace: seq<Event>, p: Event -> bool): nat {
    if trace == [] then 0 else (if p(trace[0]) then 1 else 0) + Count(trace[1..], p)
  }

  lemma {:induction false} CountAppend(a: seq<Event>, b: seq<Event>, p: Event -> bool)
    ensures Count(a + b, p) == Count(a, p) + Count(b, p)
  {
    if a == [] {
      assert a + b == b;
    } else {
      assert (a + b)[1..] == a[1..] + b;
      CountAppend(a[1..], b, p);
    }
  }

  predicate IsProcess(e: Event) { e.Process? }
  predicate IsResourceDelay(e: Event) { e.ResourceDelay? }
  predicate IsTargetDelay(e: Event) { e.TargetDelay? }

  lemma TargetEventsCounts(t: string, i: nat, n: nat, rd: (nat, nat) -> ResourcePause, td: nat -> TargetPause)
    ensures Count(TargetEvents(t, i, n, rd, td), IsProcess) == 3
    ensures Count(TargetEvents(t, i, n, rd, td), IsResourceDelay) == 2
    ensures Count(TargetEvents(t, i, n, rd, td), IsTargetDelay) == if i + 1 < n then 1 else 0
  {
    TargetEventsUnrolled(t, i, n, rd, td);
    var u := [Process(t, Web), ResourceDelay(rd(i, 0)), Process(t, App), ResourceDelay(rd(i, 1)), Process(t, Mapp)];
    var tail := if i + 1 < n then [TargetDelay(td(i))] else [];
    CountAppend(u, tail, IsProcess);
    CountAppend(u, tail, IsResourceDelay);
    CountAppend(u, tail, IsTargetDelay);
    if tail != [] {
      assert tail[1..] == [];
    }
    CountFive(u, IsProcess);
    CountFive(u, IsResourceDelay);
    CountFive(u, IsTargetDelay);
  }

  function Ind(b: bool): nat { if b then 1 else 0 }

  lemma CountFive(u: seq<Event>, p: Event -> bool)
    requires |u| == 5
    ensures Count(u, p) == Ind(p(u[0])) + Ind(p(u[1])) + Ind(p(u[2])) + Ind(p(u[3])) + Ind(p(u[4]))
  {
    assert u[4..][1..] == [];
    assert Count(u[4..], p) == Ind(p(u[4]));
    assert u[3..][1..] == u[4..];
    assert Count(u[3..], p) == Ind(p(u[3])) + Ind(p(u[4]));
    assert u[2..][1..] == u[3..];
    assert Count(u[2..], p) == Ind(p(u[2])) + Ind(p(u[3])) + Ind(p(u[4]));
    assert u[1..][1..] == u[2..];
  }

  /** The pair processor runs three times per target, a resource pause
      follows two of them, and a target pause follows every target but
      the last. */
  lemma {:induction false} ScheduleCounts(targets: seq<string>, m: nat, rd: (nat, nat) -> ResourcePause, td: nat -> TargetPause)
    requires m <= |targets|
    ensures Count(Schedule(targets, m, rd, td), IsProcess) == 3 * m
    ensures Count(Schedule(targets, m, rd, td), IsResourceDelay) == 2 * m
    ensures Count(Schedule(targets, m, rd, td), IsTargetDelay) == if m == |targets| && m > 0 then m - 1 else m
  {
    if m > 0 {
      ScheduleCounts(targets, m - 1, rd, td);
      var s := Schedule(targets, m - 1, rd, td);
      var e := TargetEvents(targets[m - 1], m - 1, |targets|, rd, td);
      CountAppend(s, e, IsProcess);
      CountAppend(s, e, IsResourceDelay);
      CountAppend(s, e, IsTargetDelay);
      TargetEventsCounts(targets[m - 1], m - 1, |targets|, rd, td);
    }
  }

  /** The processed pairs in order: every target, and for each the three
      types in order. */
  function Pairs(targets: seq<string>): seq<Event> {
    if targets == [] then []
    else Pairs(targets[..|targets| - 1])
         + [Process(targets[|targets| - 1], Web), Process(targets[|targets| - 1], App), Process(targets[|targets| - 1], Mapp)]
  }

  /** The events of a trace that are calls of the pair processor. */
  function Processes(trace: seq<Event>): seq<Event> {
    if trace == [] then [] else (if trace[0].Process? then [trace[0]] else []) + Processes(trace[1..])
  }

  lemma {:induction false} ProcessesAppend(a: seq<Event>, b: seq<Event>)
    ensures Processes(a + b) == Processes(a) + Processes(b)
  {
    if a == [] {
      assert a + b == b;
    } else {
      assert (a + b)[1..] == a[1..] + b;
      ProcessesAppend(a[1..], b);
    }
  }

  /** The pair processor is called for targets × [web, app, mapp], in
      that order and nothing else. */
  lemma {:induction false} ScheduleOrder(targets: seq<string>, m: nat, rd: (nat, nat) -> ResourcePause, td: nat -> TargetPause)
    requires m <= |targets|
    ensures Processes(Schedule(targets, m, rd, td)) == Pairs(targets[..m])
  {
    if m > 0 {
      ScheduleOrder(targets, m - 1, rd, td);
      var t := targets[m - 1];
      ProcessesAppend(Schedule(targets, m - 1, rd, td), TargetEvents(t, m - 1, |targets|, rd, td));
      TargetProcesses(t, m - 1, |targets|, rd, td);
      assert targets[..m][..m - 1] == targets[..m - 1];
    }
  }

  /** One target's calls: its three types, in order. */
  lemma TargetProcesses(t: string, i: nat, n: nat, rd: (nat, nat) -> ResourcePause, td: nat -> TargetPause)
    ensures Processes(TargetEvents(t, i, n, rd, td)) == [Process(t, Web), Process(t, App), Process(t, Mapp)]
  {
    TargetEventsUnrolled(t, i, n, rd, td);
    var u := [Process(t, Web), ResourceDelay(rd(i, 0)), Process(t, App), ResourceDelay(rd(i, 1)), Process(t, Mapp)];
    var tail := if i + 1 < n then [TargetDelay(td(i))] else [];
    ProcessesAppend(u, tail);
    assert Processes(tail) == [] by {
      if tail != [] {
        assert tail[1..] == [];
      }
    }
    assert u[4..][1..] == [];
    assert Processes(u[4..]) == [Process(t, Mapp)];
    assert u[3..][1..] == u[4..];
    assert u[2..][1..] == u[3..];
    assert Processes(u[2..]) == [Process(t, App), Process(t, Mapp)];
    assert u[1..][1..] == u[2..];
  }

  /** Every pause lies in its range. */
  lemma {:induction false} DelaysInRange(targets: seq<string>, m: nat, rd: (nat, nat) -> ResourcePause, td: nat -> TargetPause)
    requires m <= |targets|
    ensures forall k :: 0 <= k < |Schedule(targets, m, rd, td)| && Schedule(targets, m, rd, td)[k].ResourceDelay? ==>
              20 <= Schedule(targets, m, rd, td)[k].seconds <= 30
    ensures forall k :: 0 <= k < |Schedule(targets, m, rd, td)| && Schedule(targets, m, rd, td)[k].TargetDelay? ==>
              60 <= Schedule(targets, m, rd, td)[k].seconds <= 110
  {
    if m > 0 {
      DelaysInRange(targets, m - 1, rd, td);
      var s := Schedule(targets, m - 1, rd, td);
      var e := TargetEvents(targets[m - 1], m - 1, |targets|, rd, td);
      TargetEventsUnrolled(targets[m - 1], m - 1, |targets|, rd, td);
      assert forall k :: |s| <= k < |s + e| ==> (s + e)[k] == e[k - |s|];
    }
  }

  /** No trailing pause: a pause is always followed by a call of the pair
      processor, and the run ends with the last target's mapp query. */
  lemma {:induction false} PausesPrecedeWork(targets: seq<string>, rd: (nat, nat) -> ResourcePause, td: nat -> TargetPause)
    requires targets != []
    ensures var s := Schedule(targets, |targets|, rd, td);
            s[|s| - 1] == Process(targets[|targets| - 1], Mapp)
            && forall k :: 0 <= k < |s| && !s[k].Process? ==> k + 1 < |s| && s[k + 1].Process?
  {
    PausesPrecedeWorkUpTo(targets, |targets|, rd, td);
  }

  lemma {:induction false} PausesPrecedeWorkUpTo(targets: seq<string>, m: nat, rd: (nat, nat) -> ResourcePause, td: nat -> TargetPause)
    requires 0 < m <= |targets|
    ensures var s := Schedule(targets, m, rd, td);
            (m < |targets| ==> s[|s| - 1] == TargetDelay(td(m - 1)))
            && (m == |targets| ==> s[|s| - 1] == Process(targets[m - 1], Mapp))
            && forall k :: 0 <= k < |s| - 1 && !s[k].Process? ==> s[k + 1].Process?
  {
    var t := targets[m - 1];
    var e := TargetEvents(t, m - 1, |targets|, rd, td);
    TargetEventsUnrolled(t, m - 1, |targets|, rd, td);
    var s := Schedule(targets, m - 1, rd, td);
    assert Schedule(targets, m, rd, td) == s + e;
    if m > 1 {
      PausesPrecedeWorkUpTo(targets, m - 1, rd, td);
    }
    assert forall k :: |s| <= k < |s + e| ==> (s + e)[k] == e[k - |s|];
    assert forall k :: 0 <= k < |s| ==> (s + e)[k] == s[k];
  }
}
