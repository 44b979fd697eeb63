/** The `outside_discovery_executed` state: keep exactly one SLD destination
    configured, reconfigure it when it differs from the request, and run the
    outside discovery unless its log shows a successful last run. */
module OutsideDiscovery {
  import opened Optional
  import opened Sequences
  import opened Showconnect
  import opened DiscoveryLog
  import opened StateReports

  const HOST_AGENT_DIR := "/usr/sap/hostctrl"
  const LOG_FILE := HOST_AGENT_DIR + "/work/outsidediscovery.log"

  /** The destination file `sldreg` writes for one SLD host and port. */
  function ConfPath(name: string, port: string): string {
    HOST_AGENT_DIR + "/exe/config.d/slddest_" + name + "_" + port + ".cfg"
  }

  const NOT_CONFIGURED := "Outside Discovery is not configured correctly"
  const CONFIGURED := "Outside Discovery is configured correctly"
  const WOULD_CONFIGURE := "Outside Discovery would be configured"
  const CONFIGURED_NOW := "Outside Discovery is configured"
  const CONFIGURE_FAILED := "Cannot configure SAP Host Agent to use outside discovery"
  const NO_CHANGES := "No changes required"
  const NOT_YET_EXECUTED := "Outside Discovery was not yet executed sucessfully"
  const WOULD_EXECUTE_COMMENT := "Outside discovery would be maintained and executed"
  const WOULD_EXECUTE := "Outside discovery would be executed"
  const EXECUTE_FAILED := "Outside discovery configuration is maintained but execution failed"
  const EXECUTED_COMMENT := "Outside discovery configuration is maintained and was executed successfully"
  const EXECUTED := "Outside discovery was executed succesfully"

  /** The state's arguments; `sldPort` is the port as `str(sld_port)` renders it.
      Passwords are passed through unread and are not modelled. */
  datatype Request = Request(name: string, sldPort: string, sldUser: string, overwrite: bool, keepOtherConfig: bool)

  datatype CmdResult = CmdResult(retcode: int, stdout: string)

  /** What the host answers: the `slddest_*.cfg` files present, the output of
      `sldreg -showconnect`, the log file (`None` when it does not exist), the
      answers of the two SOAP operations, and whether this is a dry run. */
  datatype Host = Host(
    sldConfigs: seq<string>,
    showconnect: CmdResult,
    log: Option<string>,
    configureSucceeds: bool,
    executeSucceeds: bool,
    test: bool)

  /** What the state does to the host, in order. */
  datatype Action =
    | RemoveConfig(path: string)
    | ShowConnect(path: string)
    | ReadLog
    | Configure
    | RemoveLog
    | Execute

  predicate Mutates(a: Action) {
    a.RemoveConfig? || a.Configure? || a.RemoveLog? || a.Execute?
  }

  /** Python's `list.remove(x)` when `x` is present; the list unchanged otherwise. */
  function RemoveFirst(s: seq<string>, x: string): (r: seq<string>)
    ensures NoDuplicates(s) ==> NoDuplicates(r) && forall p :: p in r <==> p in s && p != x
  {
    if |s| == 0 then []
    else if s[0] == x then s[1..]
    else
      assert NoDuplicates(s) ==> NoDuplicates(s[1..]) && s[0] !in s[1..] by {
        if NoDuplicates(s) {
          forall i, j | 0 <= i < j < |s[1..]| ensures s[1..][i] != s[1..][j] {
            assert s[1..][i] == s[i + 1] && s[1..][j] == s[j + 1];
          }
        }
      }
      [s[0]] + RemoveFirst(s[1..], x)
  }

  /** `RemoveFirst` drops the first occurrence of `x` and keeps the rest in
      order, or returns the list as it is when `x` is absent. */
  lemma {:induction false} RemoveFirstSplices(s: seq<string>, x: string)
    ensures x !in s ==> RemoveFirst(s, x) == s
    ensures x in s ==> RemoveFirst(s, x) == s[..FirstIndex(s, x)] + s[FirstIndex(s, x) + 1..]
  {
    if |s| > 0 && s[0] != x {
      var tail := s[1..];
      assert s == [s[0]] + tail;
      RemoveFirstSplices(tail, x);
      assert RemoveFirst(s, x) == [s[0]] + RemoveFirst(tail, x);
      if x in s {
        assert x in tail;
        var k := FirstIndex(tail, x);
        assert s[..k + 1] == [s[0]] + tail[..k];
        FirstIndexAt(s, k + 1);
        assert tail[k + 1..] == s[k + 2..];
      }
    }
  }

  function RemovalNote(path: string, test: bool): string {
    (if test then "Would remove " else "Removed ") + path
  }

  function RemoveActions(paths: seq<string>): (r: seq<Action>)
  {
    seq(|paths|, i requires 0 <= i < |paths| => RemoveConfig(paths[i]))
  }

  /** The configuration files the state deletes: every other destination, or
      none when other configurations are to be kept. */
  function Others(r: Request, h: Host): seq<string> {
    if r.keepOtherConfig then [] else RemoveFirst(h.sldConfigs, ConfPath(r.name, r.sldPort))
  }

  predicate ConfExists(r: Request, h: Host) {
    ConfPath(r.name, r.sldPort) in h.sldConfigs
  }

  /** `sldreg -showconnect` on the existing destination failed. */
  predicate ShowconnectFails(r: Request, h: Host) {
    ConfExists(r, h) && h.showconnect.retcode != 0
  }

  /** Its output has a parameter line without `=`. */
  predicate ParseFails(r: Request, h: Host) {
    ConfExists(r, h) && h.showconnect.retcode == 0 && ParseShowconnect(h.showconnect.stdout).None?
  }

  /** The destination is missing or differs from the request. */
  predicate NeedsUpdate(r: Request, h: Host) {
    !(&& ConfExists(r, h)
      && h.showconnect.retcode == 0
      && ParseShowconnect(h.showconnect.stdout).Some?
      && ConfigMatches(ParseShowconnect(h.showconnect.stdout).value, r.name, r.sldPort, r.sldUser))
  }

  predicate Reconfigures(r: Request, h: Host) {
    r.overwrite || NeedsUpdate(r, h)
  }

  /** Nothing to do and nothing removed: the state is at its fixed point. */
  predicate Converged(r: Request, h: Host) {
    Others(r, h) == [] && !NeedsUpdate(r, h) && !r.overwrite && AlreadyExecuted(h.log)
  }

  /** The status notes among the `old` notes. */
  function StatusNotes(notes: seq<string>): (r: seq<string>)
    ensures forall k :: 0 <= k < |r| ==> r[k] == CONFIGURED || r[k] == NOT_CONFIGURED
  {
    if |notes| == 0 then []
    else StatusNotes(notes[..|notes| - 1])
         + (if notes[|notes| - 1] in {CONFIGURED, NOT_CONFIGURED} then [notes[|notes| - 1]] else [])
  }

  lemma {:induction false} StatusNotesAppend(a: seq<string>, b: seq<string>)
    ensures StatusNotes(a + b) == StatusNotes(a) + StatusNotes(b)
    decreases |b|
  {
    if |b| == 0 {
      assert a + b == a;
    } else {
      assert (a + b)[..|a + b| - 1] == a + b[..|b| - 1];
      StatusNotesAppend(a, b[..|b| - 1]);
    }
  }

  function RemovalNotes(paths: seq<string>, test: bool): (r: seq<string>)
  {
    seq(|paths|, i requires 0 <= i < |paths| => RemovalNote(paths[i], test))
  }

  /** The state gets past reading the existing destination. */
  predicate Proceeds(r: Request, h: Host) {
    !ShowconnectFails(r, h) && !ParseFails(r, h)
  }

  // The functions below marked "after the read" take the comparison's verdict
  // `update` (the destination is missing or differs) as a parameter; the state
  // itself passes `NeedsUpdate(r, h)`.

  /** After the read: the SOAP call that rewrites the destination is made and fails. */
  predicate ConfigureFails(r: Request, h: Host, update: bool) {
    (r.overwrite || update) && !h.test && !h.configureSucceeds
  }

  function Removals(r: Request, h: Host): seq<Action> {
    if h.test then [] else RemoveActions(Others(r, h))
  }

  function Probe(r: Request, h: Host): seq<Action> {
    if ConfExists(r, h) then [ShowConnect(ConfPath(r.name, r.sldPort))] else []
  }

  /** After the read: the actions that follow it. */
  function StepsAfter(r: Request, h: Host, update: bool): seq<Action> {
    if r.overwrite || update then
      if h.test then [] else [Configure] + (if h.configureSucceeds then [RemoveLog, Execute] else [])
    else
      [ReadLog] + (if AlreadyExecuted(h.log) || h.test then [] else [RemoveLog, Execute])
  }

  /** What follows the read of the existing destination. */
  function Steps(r: Request, h: Host): seq<Action> {
    if Proceeds(r, h) then StepsAfter(r, h, NeedsUpdate(r, h)) else []
  }

  /** Everything the state does to the host, in order. */
  function Trace(r: Request, h: Host): seq<Action> {
    Removals(r, h) + Probe(r, h) + Steps(r, h)
  }

  /** After the read: the `old` notes written after the status note. */
  function LogNotes(r: Request, h: Host, update: bool): seq<string> {
    (if r.overwrite || update then [] else [NOT_YET_EXECUTED])
    + (if h.test then ["Would remove " + LOG_FILE] else if h.log.Some? then ["Removed " + LOG_FILE] else [])
  }

  /** After the read: all `old` notes, given those about removed destinations. */
  function OldNotes(r: Request, h: Host, removed: seq<string>, update: bool): seq<string> {
    removed + [if update then NOT_CONFIGURED else CONFIGURED]
    + (if ConfigureFails(r, h, update) then [] else LogNotes(r, h, update))
  }

  /** After the read: the `new` notes. */
  function NewNotes(r: Request, h: Host, update: bool): seq<string> {
    if ConfigureFails(r, h, update) then []
    else
      (if !(r.overwrite || update) then [] else if h.test then [WOULD_CONFIGURE] else [CONFIGURED_NOW])
      + (if h.test then [WOULD_EXECUTE] else if h.executeSucceeds then [EXECUTED] else [])
  }

  /** After the read: how the state ends. */
  function OutcomeAfter(r: Request, h: Host, removed: seq<string>, update: bool): StateOutcome {
    var notes := Notes(OldNotes(r, h, removed, update), NewNotes(r, h, update));
    if !(r.overwrite || update) && AlreadyExecuted(h.log) then Returned(Report(r.name, NoChanges, None, NO_CHANGES))
    else if ConfigureFails(r, h, update) then Returned(Report(r.name, notes, Some(false), CONFIGURE_FAILED))
    else if h.test then Returned(Report(r.name, notes, None, WOULD_EXECUTE_COMMENT))
    else if h.executeSucceeds then Returned(Report(r.name, notes, Some(true), EXECUTED_COMMENT))
    else Returned(Report(r.name, notes, Some(false), EXECUTE_FAILED))
  }

  /** How the state ends. */
  function Outcome(r: Request, h: Host): StateOutcome {
    if ShowconnectFails(r, h) then ReturnedFalse
    else if ParseFails(r, h) then Raised("ValueError")
    else OutcomeAfter(r, h, RemovalNotes(Others(r, h), h.test), NeedsUpdate(r, h))
  }

  lemma NoteIsNotStatus(path: string, test: bool)
    ensures RemovalNote(path, test) != CONFIGURED && RemovalNote(path, test) != NOT_CONFIGURED
  {
    assert RemovalNote(path, test)[0] == (if test then 'W' else 'R');
    assert CONFIGURED[0] == 'O' && NOT_CONFIGURED[0] == 'O';
  }

  lemma {:induction false} RemovalNotesHaveNoStatus(notes: seq<string>, paths: seq<string>, test: bool)
    requires notes == RemovalNotes(paths, test)
    ensures StatusNotes(notes) == []
    decreases |notes|
  {
    if |notes| > 0 {
      NoteIsNotStatus(paths[|paths| - 1], test);
      assert notes[..|notes| - 1] == RemovalNotes(paths[..|paths| - 1], test);
      RemovalNotesHaveNoStatus(notes[..|notes| - 1], paths[..|paths| - 1], test);
    }
  }

  lemma LogNotesHaveNoStatus()
    ensures StatusNotes([NOT_YET_EXECUTED]) == []
    ensures StatusNotes(["Would remove " + LOG_FILE]) == []
    ensures StatusNotes(["Removed " + LOG_FILE]) == []
  {
    assert NOT_YET_EXECUTED[18] != CONFIGURED[18] && |NOT_YET_EXECUTED| != |NOT_CONFIGURED|;
    NoteIsNotStatus(LOG_FILE, true);
    NoteIsNotStatus(LOG_FILE, false);
    assert StatusNotes(["Would remove " + LOG_FILE]) == StatusNotes([]) + [];
    assert StatusNotes(["Removed " + LOG_FILE]) == StatusNotes([]) + [];
  }

  /** What follows the removals never removes a destination, and neither the
      removals nor the read configure or run anything. */
  lemma TraceParts(r: Request, h: Host)
    ensures forall i :: |Removals(r, h)| <= i < |Trace(r, h)| ==> !Trace(r, h)[i].RemoveConfig?
    ensures Configure !in Removals(r, h) + Probe(r, h) && Execute !in Removals(r, h) + Probe(r, h)
  {
    var removals, probe, steps := Removals(r, h), Probe(r, h), Steps(r, h);
    assert forall i :: 0 <= i < |steps| ==> !steps[i].RemoveConfig?;
    assert forall i :: 0 <= i < |removals| ==> removals[i].RemoveConfig?;
  }

  /** A dry run changes nothing on the host, never reports a definite result,
      and every `new` note only announces what would happen. */
  lemma DryRunChangesNothing(r: Request, h: Host)
    requires h.test
    ensures forall i :: 0 <= i < |Trace(r, h)| ==> !Mutates(Trace(r, h)[i])
    ensures Outcome(r, h).Returned? ==> Outcome(r, h).report.result == None
    ensures Outcome(r, h).Returned? && Outcome(r, h).report.changes.Notes? ==>
              var after := Outcome(r, h).report.changes.after;
              forall k :: 0 <= k < |after| ==> after[k] == WOULD_CONFIGURE || after[k] == WOULD_EXECUTE
  {
    assert Removals(r, h) == [];
  }

  /** The requested destination is never deleted; every other one present is,
      before anything else is done, unless this is a dry run or other
      configurations are kept. */
  lemma OnlyOtherDestinationsRemoved(r: Request, h: Host)
    requires NoDuplicates(h.sldConfigs)
    ensures forall p :: RemoveConfig(p) in Trace(r, h) <==>
              !h.test && !r.keepOtherConfig && p in h.sldConfigs && p != ConfPath(r.name, r.sldPort)
    ensures RemoveConfig(ConfPath(r.name, r.sldPort)) !in Trace(r, h)
    ensures forall i, j :: 0 <= i < j < |Trace(r, h)| && Trace(r, h)[j].RemoveConfig? ==> Trace(r, h)[i].RemoveConfig?
  {
    var t, removals := Trace(r, h), Removals(r, h);
    TraceParts(r, h);
    assert t == removals + t[|removals|..];
    forall p ensures RemoveConfig(p) in t <==> RemoveConfig(p) in removals {
      if RemoveConfig(p) in t {
        var i :| 0 <= i < |t| && t[i] == RemoveConfig(p);
      }
    }
    forall p ensures RemoveConfig(p) in removals <==> !h.test && p in Others(r, h) {
      if RemoveConfig(p) in removals {
        var i :| 0 <= i < |removals| && removals[i] == RemoveConfig(p);
        assert Others(r, h)[i] == p;
      }
      if !h.test && p in Others(r, h) {
        var i :| 0 <= i < |Others(r, h)| && Others(r, h)[i] == p;
        assert removals[i] == RemoveConfig(p);
      }
    }
    forall i, j | 0 <= i < j < |t| && t[j].RemoveConfig? ensures t[i].RemoveConfig? {
      assert t[i] == removals[i];
    }
  }

  /** The destination is rewritten exactly when it is missing or differs, or
      `overwrite` is set, and the state got that far outside a dry run. */
  lemma ConfigureWhenNeeded(r: Request, h: Host)
    ensures Configure in Trace(r, h) <==> !h.test && Proceeds(r, h) && Reconfigures(r, h)
  {
    TraceParts(r, h);
    assert Trace(r, h) == (Removals(r, h) + Probe(r, h)) + Trace(r, h)[|Removals(r, h) + Probe(r, h)|..];
  }

  /** The discovery runs after a successful rewrite, or when the destination was
      already right and the log does not show a successful run. */
  lemma ExecuteWhenNeeded(r: Request, h: Host)
    ensures Execute in Trace(r, h) <==>
              && !h.test && Proceeds(r, h)
              && (if Reconfigures(r, h) then h.configureSucceeds else !AlreadyExecuted(h.log))
  {
    TraceParts(r, h);
    assert Trace(r, h) == (Removals(r, h) + Probe(r, h)) + Trace(r, h)[|Removals(r, h) + Probe(r, h)|..];
  }

  /** The state reports success exactly when the discovery ran and succeeded. */
  lemma SuccessMeansExecuted(r: Request, h: Host)
    ensures Outcome(r, h).Returned? && Outcome(r, h).report.result == Some(true)
            <==> Execute in Trace(r, h) && h.executeSucceeds
  {
    ExecuteWhenNeeded(r, h);
  }

  /** "No changes required" is reported exactly when the destination is right,
      `overwrite` is off and the log shows a successful run. */
  lemma NothingToDo(r: Request, h: Host)
    ensures Outcome(r, h) == Returned(Report(r.name, NoChanges, None, NO_CHANGES))
            <==> Proceeds(r, h) && !Reconfigures(r, h) && AlreadyExecuted(h.log)
  {
  }

  /** A host already in the desired state is left alone: the run only reads
      the destination and the log, and reports that nothing changed. */
  lemma ConvergedHostLeftAlone(r: Request, h: Host)
    requires Converged(r, h)
    ensures Outcome(r, h) == Returned(Report(r.name, NoChanges, None, NO_CHANGES))
    ensures Trace(r, h) == [ShowConnect(ConfPath(r.name, r.sldPort)), ReadLog]
  {
    assert RemoveActions([]) == [];
  }

  /** After the read: the `old` notes hold exactly one status note. */
  lemma OldNotesStatus(r: Request, h: Host, paths: seq<string>, update: bool)
    ensures StatusNotes(OldNotes(r, h, RemovalNotes(paths, h.test), update))
            == [if update then NOT_CONFIGURED else CONFIGURED]
  {
    var removed := RemovalNotes(paths, h.test);
    var status := if update then NOT_CONFIGURED else CONFIGURED;
    var tail := if ConfigureFails(r, h, update) then [] else LogNotes(r, h, update);
    RemovalNotesHaveNoStatus(removed, paths, h.test);
    StatusNotesAppend(removed, [status]);
    assert StatusNotes([status]) == StatusNotes([]) + [status];
    LogNotesHaveNoStatus();
    assert StatusNotes(tail) == [] by {
      if tail != [] {
        var first := if r.overwrite || update then [] else [NOT_YET_EXECUTED];
        var last := if h.test then ["Would remove " + LOG_FILE] else if h.log.Some? then ["Removed " + LOG_FILE] else [];
        StatusNotesAppend(first, last);
      }
    }
    StatusNotesAppend(removed + [status], tail);
  }

  /** The `old` notes list the removed destinations first and carry exactly one
      note on whether the destination was right. */
  lemma OneStatusNote(r: Request, h: Host)
    ensures Outcome(r, h).Returned? && Outcome(r, h).report.changes.Notes? ==>
              var notes := Outcome(r, h).report.changes.before;
              var others := Others(r, h);
              && |others| <= |notes|
              && (forall i :: 0 <= i < |others| ==> notes[i] == RemovalNote(others[i], h.test))
              && StatusNotes(notes) == [if NeedsUpdate(r, h) then NOT_CONFIGURED else CONFIGURED]
  {
    if Proceeds(r, h) {
      OldNotesStatus(r, h, Others(r, h), NeedsUpdate(r, h));
    }
  }

  /** Delete (or, in a dry run, announce) each of `paths`. */
  method RemoveConfigs(paths: seq<string>, test: bool) returns (notes: seq<string>, removals: seq<Action>)
    ensures notes == RemovalNotes(paths, test)
    ensures removals == if test then [] else RemoveActions(paths)
  {
    notes, removals := [], [];
    for k := 0 to |paths|
      invariant notes == RemovalNotes(paths[..k], test)
      invariant removals == if test then [] else RemoveActions(paths[..k])
    {
      if test {
        notes := notes + ["Would remove " + paths[k]];
      } else {
        removals := removals + [RemoveConfig(paths[k])];
        notes := notes + ["Removed " + paths[k]];
      }
    }
    assert paths[..|paths|] == paths;
  }

  /** Read the existing destination with `sldreg -showconnect` and compare it
      with the request. `stop` is how the state ends when that read ends it. */
  method InspectExisting(r: Request, h: Host) returns (stop: Option<StateOutcome>, updateCfg: bool, probe: seq<Action>)
    ensures stop == if ShowconnectFails(r, h) then Some(ReturnedFalse)
                    else if ParseFails(r, h) then Some(Raised("ValueError"))
                    else None
    ensures stop.None? ==> updateCfg == NeedsUpdate(r, h)
    ensures probe == if ConfExists(r, h) then [ShowConnect(ConfPath(r.name, r.sldPort))] else []
  {
    var conf := ConfPath(r.name, r.sldPort);
    stop, updateCfg, probe := None, true, [];
    if conf in h.sldConfigs {
      probe := [ShowConnect(conf)];
      if h.showconnect.retcode != 0 {
        stop := Some(ReturnedFalse);
        return;
      }
      var existing := ParseOutput(h.showconnect.stdout);
      if existing.None? {
        stop := Some(Raised("ValueError"));
        return;
      }
      if ConfigMatches(existing.value, r.name, r.sldPort, r.sldUser) {
        updateCfg := false;
      }
    }
  }

  /** Remove the old log and run the discovery: the `old` note about the log,
      the `new` note, the result, the comment and the actions taken. */
  method RemoveLogAndExecute(h: Host) returns (logNotes: seq<string>, runNotes: seq<string>,
                                               result: Option<bool>, comment: string, steps: seq<Action>)
    ensures logNotes == if h.test then ["Would remove " + LOG_FILE] else if h.log.Some? then ["Removed " + LOG_FILE] else []
    ensures runNotes == if h.test then [WOULD_EXECUTE] else if h.executeSucceeds then [EXECUTED] else []
    ensures result == if h.test then None else Some(h.executeSucceeds)
    ensures comment == if h.test then WOULD_EXECUTE_COMMENT else if h.executeSucceeds then EXECUTED_COMMENT else EXECUTE_FAILED
    ensures steps == if h.test then [] else [RemoveLog, Execute]
  {
    logNotes, runNotes, steps := [], [], [];
    if h.test {
      logNotes := logNotes + ["Would remove " + LOG_FILE];
    } else {
      steps := steps + [RemoveLog];
      if h.log.Some? {
        logNotes := logNotes + ["Removed " + LOG_FILE];
      }
    }
    if h.test {
      comment := WOULD_EXECUTE_COMMENT;
      runNotes := runNotes + [WOULD_EXECUTE];
      result := None;
    } else {
      steps := steps + [Execute];
      if !h.executeSucceeds {
        comment := EXECUTE_FAILED;
        result := Some(false);
      } else {
        comment := EXECUTED_COMMENT;
        runNotes := runNotes + [EXECUTED];
        result := Some(true);
      }
    }
  }

  /** The destination is missing or differs, or `overwrite` is set: rewrite it
      (or announce that), then remove the log and run the discovery. */
  method Reconfigure(r: Request, h: Host, removalNotes: seq<string>, updateCfg: bool)
    returns (out: StateOutcome, steps: seq<Action>)
    requires r.overwrite || updateCfg
    ensures out == OutcomeAfter(r, h, removalNotes, updateCfg)
    ensures steps == StepsAfter(r, h, updateCfg)
  {
    var before := removalNotes + [if updateCfg then NOT_CONFIGURED else CONFIGURED];
    var after: seq<string> := [];
    steps := [];
    if h.test {
      after := after + [WOULD_CONFIGURE];
    } else {
      steps := steps + [Configure];
      if !h.configureSucceeds {
        out := Returned(Report(r.name, Notes(before, after), Some(false), CONFIGURE_FAILED));
        assert OldNotes(r, h, removalNotes, updateCfg) == before + [] == before;
        return;
      }
      after := after + [CONFIGURED_NOW];
    }
    var logNotes, runNotes, result, comment, runSteps := RemoveLogAndExecute(h);
    steps := steps + runSteps;
    assert before + logNotes == OldNotes(r, h, removalNotes, updateCfg);
    assert after + runNotes == NewNotes(r, h, updateCfg);
    out := Returned(Report(r.name, Notes(before + logNotes, after + runNotes), result, comment));
  }

  /** The destination is right and `overwrite` is off: stop if the log shows a
      successful run, otherwise remove the log and run the discovery. */
  method RecheckLog(r: Request, h: Host, removalNotes: seq<string>)
    returns (out: StateOutcome, steps: seq<Action>)
    requires !r.overwrite
    ensures out == OutcomeAfter(r, h, removalNotes, false)
    ensures steps == StepsAfter(r, h, false)
  {
    var before := removalNotes + [CONFIGURED];
    steps := [ReadLog];
    if AlreadyExecuted(h.log) {
      out := Returned(Report(r.name, NoChanges, None, NO_CHANGES));
      return;
    }
    before := before + [NOT_YET_EXECUTED];
    var logNotes, runNotes, result, comment, runSteps := RemoveLogAndExecute(h);
    steps := steps + runSteps;
    assert before + logNotes == OldNotes(r, h, removalNotes, false);
    assert NewNotes(r, h, false) == [] + runNotes == runNotes;
    out := Returned(Report(r.name, Notes(before + logNotes, runNotes), result, comment));
  }

  /** The whole state: `out` is how it ends, `trace` what it did to the host. */
  method OutsideDiscoveryExecuted(r: Request, h: Host) returns (out: StateOutcome, trace: seq<Action>)
    ensures out == Outcome(r, h)
    ensures trace == Trace(r, h)
  {
    var conf := ConfPath(r.name, r.sldPort);
    var removalNotes: seq<string> := [];
    trace := [];
    if !r.keepOtherConfig {
      removalNotes, trace := RemoveConfigs(RemoveFirst(h.sldConfigs, conf), h.test);
    } else {
      assert RemovalNotes([], h.test) == [];
    }
    var stop, updateCfg, probe := InspectExisting(r, h);
    trace := trace + probe;
    if stop.Some? {
      out := stop.value;
      return;
    }
    var steps;
    if r.overwrite || updateCfg {
      out, steps := Reconfigure(r, h, removalNotes, updateCfg);
    } else {
      out, steps := RecheckLog(r, h, removalNotes);
    }
    trace := trace + steps;
  }
}
