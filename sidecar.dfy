/**
 * The validator health-check sidecar (sidecar/sidecar.py).
 *
 * Each pass bumps a pass counter, takes one `ledger` poll result per
 * validator, updates the per-validator `(last index, pass of last change)`
 * table, decides which validators are stalled, counts the reporting and
 * stalled validators and evaluates two "always" assertions. Threads, HTTP and
 * sleeping are replaced by the poll results each pass receives.
 */
module Sidecar {
  import opened Wrappers
  import opened Seqs

  /**
   * What a poll thread leaves in its `_return` slot: the `result` object of a
   * `ledger` reply, or one of the two error records the thread builds.
   */
  datatype PollResult =
    | Reply(status: string, ledgerIndex: int, ledgerHash: string)
    | NodeNotRunning(exception: string)  // HTTPError, URLError or TimeoutError
    | Raised(exception: string)          // any other exception

  function Status(r: PollResult): string {
    match r
    case Reply(s, _, _) => s
    case NodeNotRunning(_) => "node not running"
    case Raised(_) => "exception"
  }

  /** `result["status"] == "success"`: only a reply can carry that status. */
  predicate Succeeded(r: PollResult) {
    r.Reply? && r.status == "success"
  }

  /** `LedgerClosedThread.run`: the reply body, or the error record for the exception raised. */
  datatype LedgerCall = Answered(result: PollResult) | TransportError(message: string) | OtherError(message: string)

  function RunThread(call: LedgerCall): (r: PollResult)
    ensures call.TransportError? ==> Status(r) == "node not running" && !Succeeded(r)
    ensures call.OtherError? ==> Status(r) == "exception" && !Succeeded(r)
    ensures call.Answered? ==> r == call.result
  {
    match call
    case Answered(res) => res
    case TransportError(m) => NodeNotRunning(m)
    case OtherError(m) => Raised(m)
  }

  /** One entry of `last_index_per_validator`: `(index, last_update)`. */
  datatype NodeState = NodeState(lastIndex: int, lastChange: int)

  /** The `validator_stall` event payload (its `details` carry the same index). */
  datatype StallEvent = StallEvent(validator: string, index: int, missed: int)

  /** An `assertions.always` call: its condition and message. */
  datatype Assertion = Assertion(holds: bool, message: string)

  /** What one pass reports: the `val_health` event, the stall events and the assertions. */
  datatype PassReport = PassReport(
    healthcheckSeq: int,
    validatorStatus: seq<(string, PollResult)>,
    stalledValidators: seq<string>,
    stallEvents: seq<StallEvent>,
    numReporting: nat,
    numStalled: nat,
    assertions: seq<Assertion>,
    stopped: bool)

  /** Running totals of the per-validator loop of one pass. */
  datatype Tally = Tally(
    table: map<string, NodeState>,
    numReporting: nat,
    numStalled: nat,
    stalled: seq<string>,
    events: seq<StallEvent>)

  /** How one poll result changes a validator's entry at pass `pass`. */
  function Evaluate(st: NodeState, r: PollResult, pass: int): NodeState {
    if !Succeeded(r) then st
    else if st.lastIndex != r.ledgerIndex then NodeState(r.ledgerIndex, pass)
    else st
  }

  /** Whether the validator is reported stalled at pass `pass`. */
  predicate StalledAt(st: NodeState, r: PollResult, pass: int, tolerance: int, minIndex: int) {
    && Succeeded(r)
    && st.lastIndex == r.ledgerIndex
    && st.lastChange + tolerance < pass
    && st.lastIndex >= minIndex
  }

  /**
   * One iteration of the per-validator loop: validator `v` with result `r`.
   * Every polled validator has an entry (`HealthCheck.Valid`); a validator
   * without one would leave the tally unchanged here.
   */
  function Step(t: Tally, v: string, r: PollResult, pass: int, tolerance: int, minIndex: int): Tally {
    if !Succeeded(r) || v !in t.table then t
    else
      var old_state := t.table[v];
      if old_state.lastIndex != r.ledgerIndex then
        t.(table := t.table[v := NodeState(r.ledgerIndex, pass)], numReporting := t.numReporting + 1)
      else if StalledAt(old_state, r, pass, tolerance, minIndex) then
        t.(numReporting := t.numReporting + 1, numStalled := t.numStalled + 1,
           stalled := t.stalled + [v],
           events := t.events + [StallEvent(v, r.ledgerIndex, pass - old_state.lastChange)])
      else
        t.(numReporting := t.numReporting + 1)
  }

  /**
   * The per-validator loop of a pass over `nodes`, in order, each iteration
   * reading the validator's entry from the table as updated so far.
   */
  function PassLoop(table: map<string, NodeState>, nodes: seq<string>, results: seq<PollResult>,
                    pass: int, tolerance: int, minIndex: int): (t: Tally)
    requires |nodes| == |results|
    decreases |nodes|
  {
    if |nodes| == 0 then Tally(table, 0, 0, [], [])
    else
      var k := |nodes| - 1;
      Step(PassLoop(table, nodes[..k], results[..k], pass, tolerance, minIndex),
           nodes[k], results[k], pass, tolerance, minIndex)
  }

  lemma PassLoopSnoc(table: map<string, NodeState>, nodes: seq<string>, results: seq<PollResult>, i: nat,
                     pass: int, tolerance: int, minIndex: int)
    requires |nodes| == |results| && i < |nodes|
    ensures PassLoop(table, nodes[..i + 1], results[..i + 1], pass, tolerance, minIndex)
            == Step(PassLoop(table, nodes[..i], results[..i], pass, tolerance, minIndex),
                    nodes[i], results[i], pass, tolerance, minIndex)
  {
    assert nodes[..i + 1][..i] == nodes[..i] && results[..i + 1][..i] == results[..i];
  }

  /** A pass neither adds nor removes entries. */
  lemma {:induction false} PassLoopKeys(table: map<string, NodeState>, nodes: seq<string>, results: seq<PollResult>,
                                        pass: int, tolerance: int, minIndex: int)
    requires |nodes| == |results|
    ensures PassLoop(table, nodes, results, pass, tolerance, minIndex).table.Keys == table.Keys
    decreases |nodes|
  {
    if |nodes| > 0 {
      var k := |nodes| - 1;
      PassLoopKeys(table, nodes[..k], results[..k], pass, tolerance, minIndex);
    }
  }

  /**
   * Each stall event belongs to the stalled validator at the same position;
   * its `missed` count, the passes since the index last changed, exceeds the
   * tolerance, and its index is at least `min`.
   */
  lemma {:induction false} StallEventsMissed(table: map<string, NodeState>, nodes: seq<string>, results: seq<PollResult>,
                                            pass: int, tolerance: int, minIndex: int)
    requires |nodes| == |results|
    ensures var t := PassLoop(table, nodes, results, pass, tolerance, minIndex);
      && |t.events| == |t.stalled|
      && forall i :: 0 <= i < |t.events| ==>
        (&& t.events[i].validator == t.stalled[i]
         && t.events[i].missed > tolerance
         && t.events[i].index >= minIndex)
    decreases |nodes|
  {
    if |nodes| > 0 {
      var k := |nodes| - 1;
      StallEventsMissed(table, nodes[..k], results[..k], pass, tolerance, minIndex);
    }
  }

  /** The report a pass produces from the loop's tallies. */
  function MakeReport(t: Tally, pass: int, nodes: seq<string>, results: seq<PollResult>,
                      numServers: nat, stop: int): PassReport
    requires |nodes| == |results|
  {
    PassReport(pass, Zip(nodes, results), t.stalled, t.events, t.numReporting, t.numStalled,
               Assertions(t.numReporting, t.numStalled, numServers), pass == stop)
  }

  const NeverStalled := "Validators are never stalled"
  const NeverAllStalled := "ALL validators are never stalled"

  /** The two "always" assertions, evaluated only when some validator reported. */
  function Assertions(numReporting: nat, numStalled: nat, numServers: nat): seq<Assertion> {
    if numReporting > 0 then
      [Assertion(numStalled == 0, NeverStalled),
       Assertion(numStalled < numServers, NeverAllStalled)]
    else []
  }

  /**
   * Nothing is asserted until some validator reports; then both assertions
   * hold when no validator stalled (and some server is configured), and at
   * least one fails as soon as one did.
   */
  lemma AssertionsVerdict(numReporting: nat, numStalled: nat, numServers: nat)
    ensures var r := Assertions(numReporting, numStalled, numServers);
      && (|r| == 0 <==> numReporting == 0)
      && (forall a :: a in r ==> a.message == NeverStalled || a.message == NeverAllStalled)
      && (numStalled == 0 && numServers > 0 ==> forall a :: a in r ==> a.holds)
      && (numReporting > 0 && numStalled > 0 ==> exists a :: a in r && !a.holds)
  {
    var r := Assertions(numReporting, numStalled, numServers);
    if numReporting > 0 && numStalled > 0 {
      assert r[0] in r && !r[0].holds;
    }
  }

  function Zip(nodes: seq<string>, results: seq<PollResult>): (z: seq<(string, PollResult)>)
    requires |nodes| == |results|
    ensures |z| == |nodes| && forall i :: 0 <= i < |z| ==> z[i] == (nodes[i], results[i])
  {
    seq(|nodes|, i requires 0 <= i < |nodes| => (nodes[i], results[i]))
  }

  /** Number of successful results. */
  function CountReporting(results: seq<PollResult>): nat {
    if |results| == 0 then 0
    else CountReporting(results[..|results| - 1]) + (if Succeeded(results[|results| - 1]) then 1 else 0)
  }

  /**
   * The per-validator loop of a pass: for each validator in `nodes`, in order,
   * count it as reporting when its poll succeeded, record a changed index with
   * the pass number, and report it stalled when its index is unchanged since
   * more than `tolerance` passes and at least `minIndex`.
   */
  method EvaluatePolls(table: map<string, NodeState>, nodes: seq<string>, results: seq<PollResult>,
                       pass: int, tolerance: int, minIndex: int)
    returns (tbl: map<string, NodeState>, numReporting: nat, numStalled: nat,
             stalled: seq<string>, events: seq<StallEvent>)
    requires |nodes| == |results| && forall v :: v in nodes ==> v in table
    ensures Tally(tbl, numReporting, numStalled, stalled, events) == PassLoop(table, nodes, results, pass, tolerance, minIndex)
    ensures forall v :: v in tbl <==> v in table
    ensures (forall v :: v in table ==> 0 <= table[v].lastChange <= pass)
            ==> forall v :: v in tbl ==> 0 <= tbl[v].lastChange <= pass
  {
    tbl := table;
    numStalled := 0;
    numReporting := 0;
    stalled := [];
    events := [];
    var i := 0;
    assert nodes[..0] == [] && results[..0] == [];
    while i < |nodes|
      invariant 0 <= i <= |nodes|
      invariant Tally(tbl, numReporting, numStalled, stalled, events) == PassLoop(table, nodes[..i], results[..i], pass, tolerance, minIndex)
      invariant forall v :: v in tbl <==> v in table
      invariant (forall v :: v in table ==> 0 <= table[v].lastChange <= pass)
                ==> forall v :: v in tbl ==> 0 <= tbl[v].lastChange <= pass
    {
      PassLoopSnoc(table, nodes, results, i, pass, tolerance, minIndex);
      var v, r := nodes[i], results[i];
      if !Succeeded(r) {
        // The validator could not be reached: its entry is left as it was.
      } else {
        numReporting := numReporting + 1;
        var old_state := tbl[v];
        if old_state.lastIndex != r.ledgerIndex {
          tbl := tbl[v := NodeState(r.ledgerIndex, pass)];
        } else if old_state.lastChange + tolerance < pass && old_state.lastIndex >= minIndex {
          events := events + [StallEvent(v, r.ledgerIndex, pass - old_state.lastChange)];
          numStalled := numStalled + 1;
          stalled := stalled + [v];
        }
      }
      i := i + 1;
    }
    assert nodes[..i] == nodes && results[..i] == results;
  }

  // ---------------------------------------------------------------------------
  // A run of several passes

  /** What every pass of a run shares: the polled validators, `len(servers)` and the arguments. */
  datatype RunConfig = RunConfig(nodes: seq<string>, numServers: nat, tolerance: int, minIndex: int, stop: int)

  /**
   * The table and the reports after the first `n` passes of `polls`,
   * starting from table `t0` after pass number `from`: each pass is
   * `PassLoop` over the polled validators at the next pass number, reading
   * the table the previous pass left. (A pass without one result per
   * validator cannot occur, see `Fits`; it would be skipped here.)
   */
  function Replay(c: RunConfig, t0: map<string, NodeState>, from: int, polls: seq<seq<PollResult>>, n: nat)
    : (map<string, NodeState>, seq<PassReport>)
    requires n <= |polls|
  {
    if n == 0 then (t0, [])
    else
      var prev := Replay(c, t0, from, polls, n - 1);
      if |polls[n - 1]| != |c.nodes| then prev
      else PassStep(c, prev, polls[n - 1], from + n)
  }

  /** Pass `pass` over `results`, after the table and reports `prev`. */
  function PassStep(c: RunConfig, prev: (map<string, NodeState>, seq<PassReport>), results: seq<PollResult>, pass: int)
    : (map<string, NodeState>, seq<PassReport>)
    requires |results| == |c.nodes|
  {
    var t := PassLoop(prev.0, c.nodes, results, pass, c.tolerance, c.minIndex);
    (t.table, prev.1 + [MakeReport(t, pass, c.nodes, results, c.numServers, c.stop)])
  }

  /** Every pass supplies one poll result per polled validator. */
  predicate Fits(c: RunConfig, polls: seq<seq<PollResult>>) {
    forall k :: 0 <= k < |polls| ==> |polls[k]| == |c.nodes|
  }

  /** One more pass of a run extends the replay by that pass's table and report. */
  lemma RunStep(c: RunConfig, t0: map<string, NodeState>, from: int, polls: seq<seq<PollResult>>, k: nat,
                before: map<string, NodeState>, reports: seq<PassReport>,
                after: map<string, NodeState>, report: PassReport)
    requires k < |polls| && |polls[k]| == |c.nodes|
    requires before == Replay(c, t0, from, polls, k).0 && reports == Replay(c, t0, from, polls, k).1
    requires var t := PassLoop(before, c.nodes, polls[k], from + k + 1, c.tolerance, c.minIndex);
      after == t.table && report == MakeReport(t, from + k + 1, c.nodes, polls[k], c.numServers, c.stop)
    ensures after == Replay(c, t0, from, polls, k + 1).0
    ensures reports + [report] == Replay(c, t0, from, polls, k + 1).1
  {
  }

  /**
   * The report of pass `pass` over `results`: it shows those results, keeps
   * the bounds of one pass and is stopped exactly at pass `stop`.
   */
  predicate ReportOf(c: RunConfig, rep: PassReport, pass: int, results: seq<PollResult>)
    requires |results| == |c.nodes|
  {
    && rep.healthcheckSeq == pass
    && rep.validatorStatus == Zip(c.nodes, results)
    && rep.numStalled <= rep.numReporting <= |c.nodes|
    && (rep.stopped <==> pass == c.stop)
  }

  /** Replayed passes neither add nor remove table entries, and each adds one report. */
  lemma {:induction false} ReplayKeys(c: RunConfig, t0: map<string, NodeState>, from: int,
                                      polls: seq<seq<PollResult>>, n: nat)
    requires n <= |polls| && Fits(c, polls)
    ensures Replay(c, t0, from, polls, n).0.Keys == t0.Keys
    ensures |Replay(c, t0, from, polls, n).1| == n
  {
    if n > 0 {
      ReplayKeys(c, t0, from, polls, n - 1);
      PassLoopKeys(Replay(c, t0, from, polls, n - 1).0, c.nodes, polls[n - 1], from + n, c.tolerance, c.minIndex);
    }
  }

  /** One pass appends its own report. */
  lemma StepReport(c: RunConfig, prev: (map<string, NodeState>, seq<PassReport>), results: seq<PollResult>, pass: int)
    requires |results| == |c.nodes| && NoDuplicates(c.nodes) && forall v :: v in c.nodes ==> v in prev.0
    ensures |PassStep(c, prev, results, pass).1| == |prev.1| + 1
    ensures ReportOf(c, PassStep(c, prev, results, pass).1[|prev.1|], pass, results)
  {
    PassCounts(prev.0, c.nodes, results, pass, c.tolerance, c.minIndex);
  }

  /** The last report of a replay is that pass's report. */
  lemma LastReport(c: RunConfig, t0: map<string, NodeState>, from: int, polls: seq<seq<PollResult>>, n: nat)
    requires 0 < n <= |polls| && Fits(c, polls)
    requires NoDuplicates(c.nodes) && forall v :: v in c.nodes ==> v in t0
    ensures |Replay(c, t0, from, polls, n).1| == n
    ensures ReportOf(c, Replay(c, t0, from, polls, n).1[n - 1], from + n, polls[n - 1])
  {
    var results := polls[n - 1];
    assert |results| == |c.nodes|;
    var prev := Replay(c, t0, from, polls, n - 1);
    ReplayLast(c, t0, from, polls, n);
    ReplayKeys(c, t0, from, polls, n - 1);
    assert |prev.1| == n - 1;
    assert forall v :: v in c.nodes ==> v in prev.0;
    StepReport(c, prev, results, from + n);
    var r := PassStep(c, prev, results, from + n);
    assert ReportOf(c, r.1[n - 1], from + n, results);
  }

  /** A replay of `n` passes is pass `n` after the replay of the first `n - 1`. */
  lemma ReplayLast(c: RunConfig, t0: map<string, NodeState>, from: int, polls: seq<seq<PollResult>>, n: nat)
    requires 0 < n <= |polls| && |polls[n - 1]| == |c.nodes|
    ensures Replay(c, t0, from, polls, n) == PassStep(c, Replay(c, t0, from, polls, n - 1), polls[n - 1], from + n)
  {
  }

  /**
   * Over a run the table keeps its keys, and report `i` is that of pass
   * `from + i + 1` over the `i`-th poll results.
   */
  lemma {:induction false} ReplayReports(c: RunConfig, t0: map<string, NodeState>, from: int,
                                         polls: seq<seq<PollResult>>, n: nat)
    requires n <= |polls| && Fits(c, polls)
    requires NoDuplicates(c.nodes) && forall v :: v in c.nodes ==> v in t0
    ensures Replay(c, t0, from, polls, n).0.Keys == t0.Keys
    ensures |Replay(c, t0, from, polls, n).1| == n
    ensures forall i :: 0 <= i < n ==> ReportOf(c, Replay(c, t0, from, polls, n).1[i], from + i + 1, polls[i])
  {
    ReplayKeys(c, t0, from, polls, n);
    if n > 0 {
      ReplayReports(c, t0, from, polls, n - 1);
      LastReport(c, t0, from, polls, n);
      var prev := Replay(c, t0, from, polls, n - 1).1;
      var r := Replay(c, t0, from, polls, n).1;
      assert r[..n - 1] == prev;
      forall i | 0 <= i < n - 1
        ensures ReportOf(c, r[i], from + i + 1, polls[i])
      {
        assert r[i] == prev[i];
      }
    }
  }

  class HealthCheck {
    const servers: seq<string>
    const tolerance: int
    const minIndex: int
    const stop: int
    var table: map<string, NodeState>
    var updateNum: int

    ghost predicate Valid()
      reads this
    {
      && (forall v :: v in table <==> v in servers)
      && (forall v :: v in Distinct(servers) ==> v in table)
      && updateNum >= 0
      && forall v :: v in table ==> 0 <= table[v].lastChange <= updateNum
    }

    /** The validators a pass polls: one thread per distinct server name. */
    function Nodes(): seq<string> {
      Distinct(servers)
    }

    /** What every pass of this health check shares. */
    function Config(): RunConfig {
      RunConfig(Nodes(), |servers|, tolerance, minIndex, stop)
    }

    /** Start-up: every configured validator at `(0, 0)` and the pass counter at 0. */
    constructor (servers: seq<string>, tolerance: int, minIndex: int, stop: int)
      ensures Valid()
      ensures this.servers == servers && this.tolerance == tolerance
      ensures this.minIndex == minIndex && this.stop == stop
      ensures updateNum == 0
      ensures forall v :: v in table <==> v in servers
      ensures forall v :: v in table ==> table[v] == NodeState(0, 0)
    {
      this.servers := servers;
      this.tolerance := tolerance;
      this.minIndex := minIndex;
      this.stop := stop;
      table := map v | v in servers :: NodeState(0, 0);
      updateNum := 0;
      DistinctSameElements(servers);
    }

    /** One health-check pass, given the poll result of each validator in `Nodes()` order. */
    method Pass(results: seq<PollResult>) returns (report: PassReport)
      requires Valid() && |results| == |Nodes()|
      modifies this
      ensures Valid()
      ensures updateNum == old(updateNum) + 1
      ensures report.healthcheckSeq == updateNum && (report.stopped <==> updateNum == stop)
      ensures var t := PassLoop(old(table), Nodes(), results, updateNum, tolerance, minIndex);
        && table == t.table
        && report == MakeReport(t, updateNum, Nodes(), results, |servers|, stop)
    {
      updateNum := updateNum + 1;
      var nodes := Distinct(servers);
      var tbl, numReporting, numStalled, stalled, events :=
        EvaluatePolls(table, nodes, results, updateNum, tolerance, minIndex);
      table := tbl;
      var assertions := Assertions(numReporting, numStalled, |servers|);
      report := PassReport(updateNum, Zip(nodes, results), stalled, events, numReporting, numStalled,
                           assertions, updateNum == stop);
    }

    /** Pass `k` of a run: one more pass, and the replay extended by it. */
    method RecordedPass(polls: seq<seq<PollResult>>, k: nat, ghost t0: map<string, NodeState>, ghost start: int,
                        ghost reports: seq<PassReport>) returns (report: PassReport)
      requires Valid() && k < |polls| && |polls[k]| == |Nodes()| && updateNum == start + k
      requires table == Replay(Config(), t0, start, polls, k).0 && reports == Replay(Config(), t0, start, polls, k).1
      modifies this
      ensures Valid() && updateNum == start + k + 1
      ensures report.healthcheckSeq == updateNum && (report.stopped <==> updateNum == stop)
      ensures table == Replay(Config(), t0, start, polls, k + 1).0
      ensures reports + [report] == Replay(Config(), t0, start, polls, k + 1).1
    {
      ghost var before := table;
      report := Pass(polls[k]);
      RunStep(Config(), t0, start, polls, k, before, reports, table, report);
    }

    /**
     * The `while True` loop over a finite supply of passes: runs passes until the
     * pass number equals `stop` or the supply is used up.
     */
    method Run(polls: seq<seq<PollResult>>) returns (reports: seq<PassReport>)
      requires Valid() && Fits(Config(), polls)
      modifies this
      ensures Valid()
      ensures |reports| <= |polls|
      ensures table == Replay(Config(), old(table), old(updateNum), polls, |reports|).0
      ensures reports == Replay(Config(), old(table), old(updateNum), polls, |reports|).1
      ensures |reports| == PassesRun(old(updateNum), stop, |polls|)
      ensures updateNum == old(updateNum) + |reports|
      ensures forall k :: 0 <= k < |reports| ==> reports[k].healthcheckSeq == old(updateNum) + k + 1
      ensures forall k :: 0 <= k < |reports| ==>
        (reports[k].stopped <==> k == |reports| - 1 && StopsAt(old(updateNum), stop, |polls|))
    {
      reports := [];
      ghost var start := updateNum;
      ghost var t0 := table;
      var k := 0;
      while k < |polls|
        invariant 0 <= k <= |polls|
        invariant Valid()
        invariant table == Replay(Config(), t0, start, polls, k).0
        invariant reports == Replay(Config(), t0, start, polls, k).1
        invariant updateNum == start + k && |reports| == k
        invariant !StopsAt(start, stop, k)
      {
        var report := RecordedPass(polls, k, t0, start, reports);
        reports := reports + [report];
        k := k + 1;
        if report.stopped {
          break;
        }
      }
      ReplayReports(Config(), t0, start, polls, k);
    }
  }

  /** Whether one of the next `available` passes after pass `start` has number `stop`. */
  predicate StopsAt(start: int, stop: int, available: nat) {
    start < stop <= start + available
  }

  /** How many passes run: up to and including pass number `stop`, else all available. */
  function PassesRun(start: int, stop: int, available: nat): nat {
    if StopsAt(start, stop, available) then stop - start else available
  }

  // ---------------------------------------------------------------------------
  // Properties of one validator's entry

  /** A failed poll leaves the entry unchanged and never counts as a stall. */
  lemma FailureKeepsState(st: NodeState, r: PollResult, pass: int, tolerance: int, minIndex: int)
    requires !Succeeded(r)
    ensures Evaluate(st, r, pass) == st && !StalledAt(st, r, pass, tolerance, minIndex)
  {
  }

  /** Any change of index, up or down, records the new index and pass and is not a stall. */
  lemma ChangeResets(st: NodeState, r: PollResult, pass: int, tolerance: int, minIndex: int)
    requires Succeeded(r) && r.ledgerIndex != st.lastIndex
    ensures Evaluate(st, r, pass) == NodeState(r.ledgerIndex, pass)
    ensures !StalledAt(st, r, pass, tolerance, minIndex)
  {
  }

  /**
   * An unchanged index at pass `u` leaves the entry as it is, and is a stall
   * exactly when more than `tolerance` passes have gone by since the last
   * change and the stored index is at least `minIndex`.
   */
  lemma UnchangedStallRule(st: NodeState, r: PollResult, u: int, tolerance: int, minIndex: int)
    requires Succeeded(r) && r.ledgerIndex == st.lastIndex
    ensures Evaluate(st, r, u) == st
    ensures StalledAt(st, r, u, tolerance, minIndex) <==> st.lastChange + tolerance < u && st.lastIndex >= minIndex
  {
  }

  /** Unchanged for exactly `tolerance` passes after the last change: not yet stalled. */
  lemma ToleranceNotExceeded(c: int, index: int, tolerance: int, minIndex: int, r: PollResult)
    requires Succeeded(r) && r.ledgerIndex == index
    ensures !StalledAt(NodeState(index, c), r, c + tolerance, tolerance, minIndex)
  {
  }

  /** Unchanged for `tolerance + 1` passes: stalled, once the index is at least `minIndex`. */
  lemma ToleranceExceeded(c: int, index: int, tolerance: int, minIndex: int, r: PollResult)
    requires Succeeded(r) && r.ledgerIndex == index
    ensures StalledAt(NodeState(index, c), r, c + tolerance + 1, tolerance, minIndex) <==> index >= minIndex
  {
  }

  /**
   * A stalled validator's entry is not rewritten, so while it keeps reporting
   * the same index it is stalled on every later pass.
   */
  lemma StallPersists(st: NodeState, r: PollResult, pass: int, r': PollResult, later: int,
                      tolerance: int, minIndex: int)
    requires StalledAt(st, r, pass, tolerance, minIndex)
    requires pass <= later && Succeeded(r') && r'.ledgerIndex == r.ledgerIndex
    ensures Evaluate(st, r, pass) == st
    ensures StalledAt(Evaluate(st, r, pass), r', later, tolerance, minIndex)
  {
  }

  /**
   * The first successful report after start-up (pass 1, entry `(0, 0)`) is a
   * stall only when it reports index 0 with a tolerance below 1 and a minimum
   * index of at most 0.
   */
  lemma FirstSight(r: PollResult, tolerance: int, minIndex: int)
    requires Succeeded(r)
    ensures StalledAt(NodeState(0, 0), r, 1, tolerance, minIndex)
            <==> r.ledgerIndex == 0 && tolerance < 1 && minIndex <= 0
  {
  }

  // ---------------------------------------------------------------------------
  // Properties of a pass

  /** The stalled validators of a pass judged against the entries at the start of the pass. */
  function StalledOf(table: map<string, NodeState>, nodes: seq<string>, results: seq<PollResult>,
                     pass: int, tolerance: int, minIndex: int): seq<string>
    requires |nodes| == |results|
    decreases |nodes|
  {
    if |nodes| == 0 then []
    else
      var k := |nodes| - 1;
      StalledOf(table, nodes[..k], results[..k], pass, tolerance, minIndex)
      + (if nodes[k] in table && StalledAt(table[nodes[k]], results[k], pass, tolerance, minIndex)
         then [nodes[k]] else [])
  }

  lemma StepTable(t: Tally, v: string, r: PollResult, pass: int, tolerance: int, minIndex: int)
    requires v in t.table
    ensures Step(t, v, r, pass, tolerance, minIndex).table == t.table[v := Evaluate(t.table[v], r, pass)]
  {
    if !Succeeded(r) || t.table[v].lastIndex == r.ledgerIndex {
      assert t.table[v := t.table[v]] == t.table;
    }
  }

  /**
   * For distinct validators the loop treats each one independently: its new
   * entry is `Evaluate` of its entry at the start of the pass, and entries not
   * polled stay as they were.
   */
  lemma {:induction false} PassTable(table: map<string, NodeState>, nodes: seq<string>, results: seq<PollResult>,
                                     pass: int, tolerance: int, minIndex: int)
    requires |nodes| == |results| && forall v :: v in nodes ==> v in table
    requires NoDuplicates(nodes)
    ensures var t := PassLoop(table, nodes, results, pass, tolerance, minIndex);
      && t.table.Keys == table.Keys
      && (forall j :: 0 <= j < |nodes| ==> t.table[nodes[j]] == Evaluate(table[nodes[j]], results[j], pass))
      && (forall v :: v in table && v !in nodes ==> t.table[v] == table[v])
    decreases |nodes|
  {
    PassLoopKeys(table, nodes, results, pass, tolerance, minIndex);
    if |nodes| > 0 {
      var k := |nodes| - 1;
      var pre, rpre := nodes[..k], results[..k];
      assert forall v :: v in pre ==> v in nodes;
      PassTable(table, pre, rpre, pass, tolerance, minIndex);
      PassLoopKeys(table, pre, rpre, pass, tolerance, minIndex);
      PassLoopKeys(table, nodes, results, pass, tolerance, minIndex);
      var t0 := PassLoop(table, pre, rpre, pass, tolerance, minIndex);
      var v := nodes[k];
      assert v !in pre;
      StepTable(t0, v, results[k], pass, tolerance, minIndex);
      var t := PassLoop(table, nodes, results, pass, tolerance, minIndex);
      assert t.table == t0.table[v := Evaluate(table[v], results[k], pass)];
      forall j | 0 <= j < |nodes|
        ensures t.table[nodes[j]] == Evaluate(table[nodes[j]], results[j], pass)
      {
        if j < k {
          assert pre[j] == nodes[j] && rpre[j] == results[j];
          assert nodes[j] != v;
        }
      }
      forall u | u in table && u !in nodes
        ensures t.table[u] == table[u]
      {
        assert u !in pre && u != v;
      }
    }
  }

  /**
   * For distinct validators each stall event reports the validator's entry at
   * the start of the pass: its index is the entry's index and its `missed`
   * count is `update_num` minus the pass of the entry's last change.
   */
  lemma {:induction false} StallEventsExact(table: map<string, NodeState>, nodes: seq<string>, results: seq<PollResult>,
                                           pass: int, tolerance: int, minIndex: int)
    requires |nodes| == |results| && forall v :: v in nodes ==> v in table
    requires NoDuplicates(nodes)
    ensures var t := PassLoop(table, nodes, results, pass, tolerance, minIndex);
      && |t.events| == |t.stalled|
      && forall i :: 0 <= i < |t.events| ==>
        (&& t.stalled[i] in table
         && t.events[i].missed == pass - table[t.stalled[i]].lastChange
         && t.events[i].index == table[t.stalled[i]].lastIndex)
    decreases |nodes|
  {
    StallEventsMissed(table, nodes, results, pass, tolerance, minIndex);
    if |nodes| > 0 {
      var k := |nodes| - 1;
      var pre, rpre := nodes[..k], results[..k];
      assert forall v :: v in pre ==> v in nodes;
      StallEventsExact(table, pre, rpre, pass, tolerance, minIndex);
      PassTable(table, pre, rpre, pass, tolerance, minIndex);
      assert nodes[k] !in pre;
    }
  }

  /**
   * For distinct validators the stalled list is, in polling order, the
   * validators for which `StalledAt` holds of their entry at the start of the pass.
   */
  lemma {:induction false} PassStalled(table: map<string, NodeState>, nodes: seq<string>, results: seq<PollResult>,
                                       pass: int, tolerance: int, minIndex: int)
    requires |nodes| == |results| && forall v :: v in nodes ==> v in table
    requires NoDuplicates(nodes)
    ensures PassLoop(table, nodes, results, pass, tolerance, minIndex).stalled
            == StalledOf(table, nodes, results, pass, tolerance, minIndex)
    decreases |nodes|
  {
    if |nodes| > 0 {
      var k := |nodes| - 1;
      var pre, rpre := nodes[..k], results[..k];
      assert forall v :: v in pre ==> v in nodes;
      PassStalled(table, pre, rpre, pass, tolerance, minIndex);
      PassTable(table, pre, rpre, pass, tolerance, minIndex);
      assert nodes[k] !in pre;
    }
  }

  /** Membership in the stalled list: exactly the polled validators `StalledAt` picks. */
  lemma {:induction false} StalledOfMembers(table: map<string, NodeState>, nodes: seq<string>, results: seq<PollResult>,
                                           pass: int, tolerance: int, minIndex: int, j: nat)
    requires |nodes| == |results| && forall v :: v in nodes ==> v in table
    requires j < |nodes|
    ensures StalledAt(table[nodes[j]], results[j], pass, tolerance, minIndex)
            ==> nodes[j] in StalledOf(table, nodes, results, pass, tolerance, minIndex)
    ensures NoDuplicates(nodes) && nodes[j] in StalledOf(table, nodes, results, pass, tolerance, minIndex)
            ==> StalledAt(table[nodes[j]], results[j], pass, tolerance, minIndex)
    decreases |nodes|
  {
    var k := |nodes| - 1;
    var pre, rpre := nodes[..k], results[..k];
    assert forall v :: v in pre ==> v in nodes;
    var s0 := StalledOf(table, pre, rpre, pass, tolerance, minIndex);
    if j < k {
      StalledOfMembers(table, pre, rpre, pass, tolerance, minIndex, j);
      assert pre[j] == nodes[j] && rpre[j] == results[j];
      if NoDuplicates(nodes) {
        assert nodes[j] != nodes[k];
      }
    } else if NoDuplicates(nodes) {
      StalledOfWithin(table, pre, rpre, pass, tolerance, minIndex);
      assert nodes[k] !in pre;
    }
  }

  lemma {:induction false} StalledOfWithin(table: map<string, NodeState>, nodes: seq<string>, results: seq<PollResult>,
                                          pass: int, tolerance: int, minIndex: int)
    requires |nodes| == |results| && forall v :: v in nodes ==> v in table
    ensures forall v :: v in StalledOf(table, nodes, results, pass, tolerance, minIndex) ==> v in nodes
    decreases |nodes|
  {
    if |nodes| > 0 {
      var k := |nodes| - 1;
      assert forall v :: v in nodes[..k] ==> v in nodes;
      StalledOfWithin(table, nodes[..k], results[..k], pass, tolerance, minIndex);
    }
  }

  /**
   * The tallies of a pass: the reporting count is the number of successful
   * results, the stalled list has one entry per stall and no duplicates, and
   * `0 <= num_stalled <= num_reporting <= number of validators polled`.
   */
  lemma {:induction false} PassCounts(table: map<string, NodeState>, nodes: seq<string>, results: seq<PollResult>,
                                      pass: int, tolerance: int, minIndex: int)
    requires |nodes| == |results| && forall v :: v in nodes ==> v in table
    requires NoDuplicates(nodes)
    ensures var t := PassLoop(table, nodes, results, pass, tolerance, minIndex);
      && t.numReporting == CountReporting(results)
      && |t.stalled| == t.numStalled == |t.events|
      && NoDuplicates(t.stalled)
      && (forall v :: v in t.stalled ==> v in nodes)
      && t.numStalled <= t.numReporting <= |nodes|
    decreases |nodes|
  {
    if |nodes| > 0 {
      var k := |nodes| - 1;
      var pre, rpre := nodes[..k], results[..k];
      assert forall v :: v in pre ==> v in nodes;
      PassCounts(table, pre, rpre, pass, tolerance, minIndex);
      PassLoopKeys(table, pre, rpre, pass, tolerance, minIndex);
      assert nodes[k] !in pre;
      assert results[..k] == rpre;
    }
  }

  /** The tallies are bounded by the configured server list, duplicates or not. */
  lemma PassBoundedByServers(table: map<string, NodeState>, servers: seq<string>, results: seq<PollResult>,
                             pass: int, tolerance: int, minIndex: int)
    requires |Distinct(servers)| == |results| && forall v :: v in servers ==> v in table
    ensures forall v :: v in Distinct(servers) ==> v in table
    ensures var t := PassLoop(table, Distinct(servers), results, pass, tolerance, minIndex);
      0 <= t.numStalled <= t.numReporting <= |servers|
  {
    DistinctSameElements(servers);
    PassCounts(table, Distinct(servers), results, pass, tolerance, minIndex);
  }

  /** The assertions are evaluated exactly when some validator reported. */
  lemma AssertionsOnlyWithReports(numReporting: nat, numStalled: nat, numServers: nat)
    ensures |Assertions(numReporting, numStalled, numServers)| == if numReporting > 0 then 2 else 0
    ensures numReporting > 0 ==>
      && (Assertions(numReporting, numStalled, numServers)[0].holds <==> numStalled == 0)
      && (Assertions(numReporting, numStalled, numServers)[1].holds <==> numStalled < numServers)
  {
  }

  /**
   * As written, the second assertion compares with the number of configured
   * servers, not with the number reporting: when one validator is unreachable and
   * every validator that did report is stalled, it still holds.
   */
  lemma AllReportingStalledYetSecondHolds()
    ensures var a := Assertions(2, 2, 3);
      !a[0].holds && a[1].holds
  {
  }

  /** With `stop = 0` (or any stop at or below the current pass) the loop never ends. */
  lemma StopZeroRunsForever(start: int, available: nat)
    requires start >= 0
    ensures PassesRun(start, 0, available) == available && !StopsAt(start, 0, available)
  {
  }

  /** With `stop >= 1`, starting from pass 0, the loop ends right after pass number `stop`. */
  lemma StopAfterPass(stop: int, available: nat)
    requires 1 <= stop <= available
    ensures StopsAt(0, stop, available) && PassesRun(0, stop, available) == stop
  {
  }

  /** No validator meets `StalledAt`: the stalled list is empty. */
  lemma {:induction false} StalledOfNone(table: map<string, NodeState>, nodes: seq<string>, results: seq<PollResult>,
                                        pass: int, tolerance: int, minIndex: int)
    requires |nodes| == |results| && forall v :: v in nodes ==> v in table
    requires forall j :: 0 <= j < |nodes| ==> !StalledAt(table[nodes[j]], results[j], pass, tolerance, minIndex)
    ensures StalledOf(table, nodes, results, pass, tolerance, minIndex) == []
    decreases |nodes|
  {
    if |nodes| > 0 {
      var k := |nodes| - 1;
      assert forall v :: v in nodes[..k] ==> v in nodes;
      StalledOfNone(table, nodes[..k], results[..k], pass, tolerance, minIndex);
    }
  }

  /**
   * A three-validator scenario with tolerance 1 and minimum index 0, on the
   * entries after first sight at pass 1 (every validator at index 100): on
   * pass 2 `a` advances to 101 while `b` and `c` stay put, and nobody is stalled yet.
   */
  lemma ScenarioSecondPass()
    ensures
      var t1 := map["a" := NodeState(100, 1), "b" := NodeState(100, 1), "c" := NodeState(100, 1)];
      var p2 := PassLoop(t1, ["a", "b", "c"], [Reply("success", 101, ""), Reply("success", 100, ""), Reply("success", 100, "")], 2, 1, 0);
      && p2.stalled == []
      && p2.table == map["a" := NodeState(101, 2), "b" := NodeState(100, 1), "c" := NodeState(100, 1)]
  {
    var nodes := ["a", "b", "c"];
    assert NoDuplicates(nodes);
    var t1 := map["a" := NodeState(100, 1), "b" := NodeState(100, 1), "c" := NodeState(100, 1)];
    var r2 := [Reply("success", 101, ""), Reply("success", 100, ""), Reply("success", 100, "")];
    PassTable(t1, nodes, r2, 2, 1, 0);
    PassStalled(t1, nodes, r2, 2, 1, 0);
    StalledOfNone(t1, nodes, r2, 2, 1, 0);
    var p2 := PassLoop(t1, nodes, r2, 2, 1, 0);
    var t2 := map["a" := NodeState(101, 2), "b" := NodeState(100, 1), "c" := NodeState(100, 1)];
    assert p2.table[nodes[0]] == t2["a"] && p2.table[nodes[1]] == t2["b"] && p2.table[nodes[2]] == t2["c"];
  }

  /**
   * Pass 3 of the same scenario: `a` advances again, `b` and `c` have not
   * changed for two passes and are stalled; the first assertion fails and the
   * second holds.
   */
  lemma ScenarioThirdPass()
    ensures
      var t2 := map["a" := NodeState(101, 2), "b" := NodeState(100, 1), "c" := NodeState(100, 1)];
      var p3 := PassLoop(t2, ["a", "b", "c"], [Reply("success", 102, ""), Reply("success", 100, ""), Reply("success", 100, "")], 3, 1, 0);
      && p3.stalled == ["b", "c"] && p3.numReporting == 3
      && Assertions(p3.numReporting, p3.numStalled, 3)
         == [Assertion(false, "Validators are never stalled"), Assertion(true, "ALL validators are never stalled")]
  {
    var nodes := ["a", "b", "c"];
    assert NoDuplicates(nodes);
    var ok := Reply("success", 100, "");
    var t2 := map["a" := NodeState(101, 2), "b" := NodeState(100, 1), "c" := NodeState(100, 1)];
    var r3 := [Reply("success", 102, ""), ok, ok];
    PassCounts(t2, nodes, r3, 3, 1, 0);
    PassStalled(t2, nodes, r3, 3, 1, 0);
    assert nodes[..2] == ["a", "b"] && nodes[..1] == ["a"];
    assert r3[..2] == [Reply("success", 102, ""), ok] && r3[..1] == [Reply("success", 102, "")];
    assert StalledOf(t2, nodes[..1], r3[..1], 3, 1, 0) == [];
    assert StalledOf(t2, nodes[..2], r3[..2], 3, 1, 0) == ["b"];
    assert CountReporting(r3[..1]) == 1;
    assert CountReporting(r3[..2]) == 2;
  }
}
