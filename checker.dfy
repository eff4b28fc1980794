/**
 * The consistency checks of checker.py: `check_domain` (one zone on one
 * node), `check_node` (one node's result file) and `check_nodes` (the
 * fleet). DNS, the file system and the clock are parameters:
 *  - `masters` maps a fully qualified zone name to the serial its master
 *    reports; a name without an entry is a failed lookup (Python `None`);
 *  - `files` maps a path to the parsed result file found there; a path
 *    without an entry is a file that does not exist;
 *  - `now` is the reading of the clock, in whole seconds.
 */
module Checker {
  import opened Wrappers
  import opened Staleness
  import opened Names
  import opened Messages

  /** What a node recorded for one zone: when it last saw it, and its serial. */
  datatype DomainRecord = DomainRecord(updated: int, serial: int)

  /** The `nsid` entry of a result file; an empty value is a missing NSID. */
  datatype Nsid = Nsid(value: string, updated: int)

  /**
   * A parsed result file. A zone whose entry lacks `updated` or `serial`
   * behaves in the source exactly like a zone without an entry, so it is
   * left out of `domains`.
   */
  datatype Snapshot = Snapshot(nsid: Nsid, domains: map<string, DomainRecord>)

  /** The Python exceptions the checker lets escape. */
  datatype Raised =
    | UnboundLocalError  // `domain` read before the loop binds it (line 146)
    | IndexError         // `node[-1]` on an empty node name (line 158)

  /** Whether a domain check passed, and the messages it adds to that domain. */
  datatype Verdict = Verdict(pass: bool, diagnostics: seq<Diagnostic>)

  /** `get_master_serial`: the master's serial for the qualified zone name. */
  function MasterSerial(masters: map<string, int>, domain: string): (r: Option<int>)
    ensures r.Some? <==> Qualify(domain) in masters
    ensures r.Some? ==> r.value == masters[Qualify(domain)]
  {
    var fq := Qualify(domain);
    if fq in masters then Some(masters[fq]) else None
  }

  /**
   * The outcome of `check_domain`. A zone missing from the snapshot fails
   * with the single message "SOA not recived" whatever the master says.
   * Otherwise it passes exactly when the record is not older than the lag
   * and the master reports the node's serial; a staleness message comes
   * first, a mismatch message last, and a failed master lookup is always a
   * mismatch.
   */
  function DomainVerdict(node: Snapshot, domain: string, now: int, masters: map<string, int>)
    : (v: Verdict)
    ensures v.pass <==> v.diagnostics == []
    ensures |v.diagnostics| <= 2
    ensures domain !in node.domains ==> v == Verdict(false, [SoaNotRecived])
    ensures domain in node.domains ==>
      var rec, master := node.domains[domain], MasterSerial(masters, domain);
      && (v.pass <==> now - rec.updated <= ALERT_LAG && master == Some(rec.serial))
      && (now - rec.updated > ALERT_LAG ==> v.diagnostics[0] == SoaStale(Human(now - rec.updated)))
      && (master != Some(rec.serial) ==> v.diagnostics[|v.diagnostics| - 1] == SerialMismatch(rec.serial, master))
      && |v.diagnostics| == (if now - rec.updated > ALERT_LAG then 1 else 0) + (if master != Some(rec.serial) then 1 else 0)
  {
    if domain !in node.domains then Verdict(false, [SoaNotRecived])
    else
      var rec := node.domains[domain];
      var lag := CheckUpdated(rec.updated, now, ALERT_LAG);
      var master := MasterSerial(masters, domain);
      var stale := if lag.Some? then [SoaStale(lag.value)] else [];
      var mismatch := if master != Some(rec.serial) then [SerialMismatch(rec.serial, master)] else [];
      Verdict(stale == [] && mismatch == [], stale + mismatch)
  }

  /** A zone missing from the snapshot is judged without any master lookup. */
  lemma MissingDomainIgnoresMaster(node: Snapshot, domain: string, now: int, now': int,
                                   masters: map<string, int>, masters': map<string, int>)
    requires domain !in node.domains
    ensures DomainVerdict(node, domain, now, masters) == DomainVerdict(node, domain, now', masters')
  {
  }

  /**
   * `check_domain`: adds the verdict's messages to `domain`'s list of `nm`
   * and returns whether the zone passed.
   */
  method CheckDomain(node: Snapshot, domain: string, nm: NodeMessages, now: int, masters: map<string, int>)
    returns (status: bool)
    modifies nm
    ensures status == DomainVerdict(node, domain, now, masters).pass
    ensures nm.domainMessages
         == AppendDomain(old(nm.domainMessages), domain, DomainVerdict(node, domain, now, masters).diagnostics)
    ensures nm.name == old(nm.name) && nm.messages == old(nm.messages)
  {
    status := true;
    if domain !in node.domains {
      nm.AddDomainError(domain, SoaNotRecived);
      return false;
    }
    var rec := node.domains[domain];
    var lag := CheckUpdated(rec.updated, now, ALERT_LAG);
    var master := MasterSerial(masters, domain);
    ghost var before := nm.domainMessages;
    ghost var stale: seq<Diagnostic> := [];
    if lag.Some? {
      nm.AddDomainError(domain, SoaStale(lag.value));
      stale := [SoaStale(lag.value)];
      status := false;
    }
    assert nm.domainMessages == AppendDomain(before, domain, stale);
    if master != Some(rec.serial) {
      nm.AddDomainError(domain, SerialMismatch(rec.serial, master));
      AppendDomainTwice(before, domain, stale, [SerialMismatch(rec.serial, master)]);
      status := false;
    } else {
      assert stale + [] == stale;
    }
  }

  /** The per-domain lists after `check_domain` has run for each of `ds` in order. */
  function CheckDomains(node: Snapshot, ds: seq<string>, dm: map<string, seq<Diagnostic>>,
                        now: int, masters: map<string, int>): map<string, seq<Diagnostic>>
    decreases |ds|
  {
    if ds == [] then dm
    else
      var d := ds[|ds| - 1];
      AppendDomain(CheckDomains(node, ds[..|ds| - 1], dm, now, masters), d,
                   DomainVerdict(node, d, now, masters).diagnostics)
  }

  /** `n` copies of `ms`, one after the other. */
  function Repeat(ms: seq<Diagnostic>, n: nat): seq<Diagnostic> {
    if n == 0 then [] else Repeat(ms, n - 1) + ms
  }

  /**
   * After the domain loop, a domain's list is what it held before followed
   * by its own verdict's messages once for every time it is listed.
   */
  lemma {:induction false} CheckDomainsBucket(node: Snapshot, ds: seq<string>, dm: map<string, seq<Diagnostic>>,
                                              now: int, masters: map<string, int>, d: string)
    ensures Bucket(CheckDomains(node, ds, dm, now, masters), d)
         == Bucket(dm, d) + Repeat(DomainVerdict(node, d, now, masters).diagnostics, multiset(ds)[d])
    decreases |ds|
  {
    var ms := DomainVerdict(node, d, now, masters).diagnostics;
    if ds == [] {
      assert Bucket(dm, d) + [] == Bucket(dm, d);
    } else {
      var init, last := ds[..|ds| - 1], ds[|ds| - 1];
      CountLast(ds, d);
      CheckDomainsBucket(node, init, dm, now, masters, d);
      var before := CheckDomains(node, init, dm, now, masters);
      var lastMs := DomainVerdict(node, last, now, masters).diagnostics;
      BucketAfterAppend(before, last, lastMs, d);
      var n := multiset(init)[d];
      if last == d {
        assert Repeat(ms, n + 1) == Repeat(ms, n) + ms;
        ConcatAssoc(Bucket(dm, d), Repeat(ms, n), ms);
      } else {
        assert Bucket(before, d) + [] == Bucket(before, d);
      }
    }
  }

  lemma ConcatAssoc(a: seq<Diagnostic>, b: seq<Diagnostic>, c: seq<Diagnostic>)
    ensures a + b + c == a + (b + c)
  {
  }

  /** How often `d` occurs in `ds`, counted from its last element. */
  lemma CountLast(ds: seq<string>, d: string)
    requires ds != []
    ensures multiset(ds)[d] == multiset(ds[..|ds| - 1])[d] + (if ds[|ds| - 1] == d then 1 else 0)
  {
    assert ds == ds[..|ds| - 1] + [ds[|ds| - 1]];
  }

  /** What `AppendDomain` does to the list of one domain. */
  lemma BucketAfterAppend(dm: map<string, seq<Diagnostic>>, domain: string, ms: seq<Diagnostic>, d: string)
    ensures Bucket(AppendDomain(dm, domain, ms), d) == Bucket(dm, d) + (if domain == d then ms else [])
  {
    if domain != d {
      assert Bucket(dm, d) + [] == Bucket(dm, d);
    }
  }

  /**
   * After the domain loop, a domain has a list exactly when it had one
   * before, or it is listed and its check failed.
   */
  lemma {:induction false} CheckDomainsKeys(node: Snapshot, ds: seq<string>, dm: map<string, seq<Diagnostic>>,
                                            now: int, masters: map<string, int>, d: string)
    ensures d in CheckDomains(node, ds, dm, now, masters)
        <==> d in dm || (d in ds && !DomainVerdict(node, d, now, masters).pass)
    decreases |ds|
  {
    if ds != [] {
      var init, last := ds[..|ds| - 1], ds[|ds| - 1];
      assert ds == init + [last];
      CheckDomainsKeys(node, init, dm, now, masters, d);
      var before := CheckDomains(node, init, dm, now, masters);
      var lastMs := DomainVerdict(node, last, now, masters).diagnostics;
      assert CheckDomains(node, ds, dm, now, masters) == AppendDomain(before, last, lastMs);
      assert d in ds <==> d in init || d == last;
    }
  }

  /**
   * The report `check_node` returns for the result file at `path`, or the
   * exception it raises: a NSID that is present but older than the lag
   * makes line 146 read an unbound variable.
   */
  function NodeResult(files: map<string, Snapshot>, path: string, domains: seq<string>,
                      now: int, masters: map<string, int>): (r: Result<NodeReport, Raised>)
    ensures r.Err? <==> path in files && files[path].nsid.value != []
                        && now - files[path].nsid.updated > ALERT_LAG
    ensures r.Err? ==> r.error == UnboundLocalError
    ensures r.Ok? ==> r.value.name == ExpectedName(path)
    ensures path !in files ==> r.value.general == [NoDataRecived] && r.value.domains == map[]
    ensures path in files && r.Ok? ==>
      var nsid := files[path].nsid.value;
      && (NoNsidRecived in r.value.general <==> nsid == [])
      && (IncorrectNsid(nsid) in r.value.general <==> nsid != [] && nsid != ExpectedName(path))
      && (nsid != [] && nsid == ExpectedName(path) ==> r.value.general == [])
      && |r.value.general| <= 1
  {
    var name := ExpectedName(path);
    if path !in files then Ok(NodeReport(name, [NoDataRecived], map[]))
    else
      var node := files[path];
      var checked := CheckDomains(node, domains, map[], now, masters);
      if node.nsid.value == [] then Ok(NodeReport(name, [NoNsidRecived], checked))
      else if CheckUpdated(node.nsid.updated, now, ALERT_LAG).Some? then Err(UnboundLocalError)
      else
        var general := if name != node.nsid.value then [IncorrectNsid(node.nsid.value)] else [];
        Ok(NodeReport(name, general, checked))
  }

  /**
   * A completed report holds, for every domain, its verdict's messages once
   * for every time the domain is listed, and nothing for an unlisted one.
   */
  lemma NodeResultBuckets(files: map<string, Snapshot>, path: string, domains: seq<string>,
                          now: int, masters: map<string, int>, d: string)
    requires path in files && NodeResult(files, path, domains, now, masters).Ok?
    ensures Bucket(NodeResult(files, path, domains, now, masters).value.domains, d)
         == Repeat(DomainVerdict(files[path], d, now, masters).diagnostics, multiset(domains)[d])
    ensures d in NodeResult(files, path, domains, now, masters).value.domains
        <==> d in domains && !DomainVerdict(files[path], d, now, masters).pass
  {
    CheckDomainsBucket(files[path], domains, map[], now, masters, d);
    CheckDomainsKeys(files[path], domains, map[], now, masters, d);
  }

  /** `check_node`, building its report through `NodeMessages`. */
  method CheckNode(files: map<string, Snapshot>, path: string, domains: seq<string>,
                   now: int, masters: map<string, int>)
    returns (outcome: Result<NodeMessages, Raised>)
    ensures outcome.Err? == NodeResult(files, path, domains, now, masters).Err?
    ensures outcome.Err? ==> outcome.error == NodeResult(files, path, domains, now, masters).error
    ensures outcome.Ok? ==> fresh(outcome.value)
                            && outcome.value.Report() == NodeResult(files, path, domains, now, masters).value
  {
    var name := ExpectedName(path);
    var nm := new NodeMessages(name);
    if path !in files {
      nm.AddError(NoDataRecived);
      return Ok(nm);
    }
    var node := files[path];
    if node.nsid.value == [] {
      nm.AddError(NoNsidRecived);
    } else {
      if name != node.nsid.value {
        nm.AddError(IncorrectNsid(node.nsid.value));
      }
      var lag := CheckUpdated(node.nsid.updated, now, ALERT_LAG);
      if lag.Some? {
        return Err(UnboundLocalError);
      }
    }
    ghost var general := nm.messages;
    for i := 0 to |domains|
      invariant nm.name == name && nm.messages == general
      invariant nm.domainMessages == CheckDomains(node, domains[..i], map[], now, masters)
    {
      assert domains[..i + 1][..i] == domains[..i];
      var _ := CheckDomain(node, domains[i], nm, now, masters);
    }
    assert domains[..|domains|] == domains;
    return Ok(nm);
  }

  /** The report or exception for one requested node name, as `check_nodes` obtains it. */
  function NodeOutcome(files: map<string, Snapshot>, dir: string, node: string, domains: seq<string>,
                       now: int, masters: map<string, int>): (r: Result<NodeReport, Raised>)
    ensures r == Err(IndexError) <==> node == []
  {
    match NormaliseNode(node)
    case None => Err(IndexError)
    case Some(q) => NodeResult(files, NodePath(dir, q), domains, now, masters)
  }

  /** What `check_node` yields for each requested node name, in order. */
  function Outcomes(files: map<string, Snapshot>, dir: string, nodes: seq<string>, domains: seq<string>,
                    now: int, masters: map<string, int>): (os: seq<Result<NodeReport, Raised>>)
    ensures |os| == |nodes|
    decreases |nodes|
  {
    if nodes == [] then []
    else Outcomes(files, dir, nodes[..|nodes| - 1], domains, now, masters)
         + [NodeOutcome(files, dir, nodes[|nodes| - 1], domains, now, masters)]
  }

  /** There is one outcome per node name, and the `k`-th is that of the `k`-th name. */
  lemma {:induction false} OutcomesAt(files: map<string, Snapshot>, dir: string, nodes: seq<string>, k: nat,
                                      domains: seq<string>, now: int, masters: map<string, int>)
    requires k < |nodes|
    ensures Outcomes(files, dir, nodes, domains, now, masters)[k]
         == NodeOutcome(files, dir, nodes[k], domains, now, masters)
    decreases |nodes|
  {
    var init := nodes[..|nodes| - 1];
    var earlier := Outcomes(files, dir, init, domains, now, masters);
    var last := NodeOutcome(files, dir, nodes[|nodes| - 1], domains, now, masters);
    assert Outcomes(files, dir, nodes, domains, now, masters) == earlier + [last];
    if k < |init| {
      OutcomesAt(files, dir, init, k, domains, now, masters);
      assert init[k] == nodes[k];
    } else {
      assert k == |earlier|;
    }
  }

  /**
   * The loop of `check_nodes` over outcomes already known: the reports in
   * order, or the first exception met.
   */
  function Collect(os: seq<Result<NodeReport, Raised>>): Result<seq<NodeReport>, Raised>
    decreases |os|
  {
    if os == [] then Ok([])
    else
      match Collect(os[..|os| - 1])
      case Err(e) => Err(e)
      case Ok(done) =>
        match os[|os| - 1]
        case Err(e) => Err(e)
        case Ok(report) => Ok(done + [report])
  }

  /** `check_nodes`: the reports of `nodes` in order, or the first exception raised. */
  function FleetResult(files: map<string, Snapshot>, dir: string, nodes: seq<string>, domains: seq<string>,
                       now: int, masters: map<string, int>): Result<seq<NodeReport>, Raised>
  {
    Collect(Outcomes(files, dir, nodes, domains, now, masters))
  }

  /** Collecting completes exactly when every outcome is a report. */
  lemma {:induction false} CollectOkIff(os: seq<Result<NodeReport, Raised>>)
    ensures Collect(os).Ok? <==> forall i :: 0 <= i < |os| ==> os[i].Ok?
    decreases |os|
  {
    if os != [] {
      var init := os[..|os| - 1];
      CollectOkIff(init);
      assert forall i :: 0 <= i < |init| ==> init[i] == os[i];
    }
  }

  /** A completed collection holds every report, in order. */
  lemma {:induction false} CollectValues(os: seq<Result<NodeReport, Raised>>)
    requires Collect(os).Ok?
    ensures |Collect(os).value| == |os|
    ensures forall i :: 0 <= i < |os| ==> os[i] == Ok(Collect(os).value[i])
    decreases |os|
  {
    if os != [] {
      var init := os[..|os| - 1];
      CollectValues(init);
      assert forall i :: 0 <= i < |init| ==> init[i] == os[i];
    }
  }

  /** A collection that fails raises what its first failing outcome raises. */
  lemma {:induction false} CollectFirstError(os: seq<Result<NodeReport, Raised>>)
    requires Collect(os).Err?
    ensures exists k :: 0 <= k < |os| && os[k] == Err(Collect(os).error)
                        && forall j :: 0 <= j < k ==> os[j].Ok?
    decreases |os|
  {
    var init := os[..|os| - 1];
    assert forall i :: 0 <= i < |init| ==> init[i] == os[i];
    if Collect(init).Err? {
      CollectFirstError(init);
      var k :| 0 <= k < |init| && init[k] == Err(Collect(init).error)
               && forall j :: 0 <= j < k ==> init[j].Ok?;
      assert os[k] == Err(Collect(os).error);
    } else {
      CollectOkIff(init);
      assert os[|init|] == Err(Collect(os).error);
    }
  }

  /**
   * The fleet completes exactly when every node does; it then holds one
   * report per requested name, in the requested order and duplicates
   * included. Otherwise it raises what the first failing node raises, all
   * nodes before that one having completed.
   */
  lemma FleetResultShape(files: map<string, Snapshot>, dir: string, nodes: seq<string>,
                         domains: seq<string>, now: int, masters: map<string, int>)
    ensures var r := FleetResult(files, dir, nodes, domains, now, masters);
      && (r.Ok? <==> forall i :: 0 <= i < |nodes| ==> NodeOutcome(files, dir, nodes[i], domains, now, masters).Ok?)
      && (r.Ok? ==> |r.value| == |nodes|
                    && forall i :: 0 <= i < |nodes| ==>
                         NodeOutcome(files, dir, nodes[i], domains, now, masters) == Ok(r.value[i]))
      && (r.Err? ==> exists k :: 0 <= k < |nodes|
                       && NodeOutcome(files, dir, nodes[k], domains, now, masters) == Err(r.error)
                       && forall j :: 0 <= j < k ==> NodeOutcome(files, dir, nodes[j], domains, now, masters).Ok?)
  {
    var os := Outcomes(files, dir, nodes, domains, now, masters);
    forall i | 0 <= i < |nodes|
      ensures |os| == |nodes| && os[i] == NodeOutcome(files, dir, nodes[i], domains, now, masters)
    {
      OutcomesAt(files, dir, nodes, i, domains, now, masters);
    }
    CollectOkIff(os);
    if Collect(os).Ok? {
      CollectValues(os);
    } else {
      CollectFirstError(os);
    }
  }

  /**
   * One turn of the loop of `check_nodes`: normalise the node name, build
   * its result path and check the node there.
   */
  method CheckNamedNode(files: map<string, Snapshot>, dir: string, name: string, domains: seq<string>,
                        now: int, masters: map<string, int>)
    returns (outcome: Result<NodeMessages, Raised>)
    ensures var expected := NodeOutcome(files, dir, name, domains, now, masters);
      match outcome
      case Err(e) => expected == Err(e)
      case Ok(nm) => fresh(nm) && expected == Ok(nm.Report())
  {
    var node := name;
    if node == [] {
      return Err(IndexError);
    }
    if node[|node| - 1] != '.' {
      node := node + ".";
    }
    outcome := CheckNode(files, Join(dir, node + "yaml"), domains, now, masters);
  }

  /** The turn of the loop of `check_nodes` for the `k`-th node name. */
  method CheckNodeAt(files: map<string, Snapshot>, dir: string, nodes: seq<string>, k: nat,
                     domains: seq<string>, now: int, masters: map<string, int>)
    returns (outcome: Result<NodeMessages, Raised>)
    requires k < |nodes|
    ensures var expected := Outcomes(files, dir, nodes, domains, now, masters)[k];
      match outcome
      case Err(e) => expected == Err(e)
      case Ok(nm) => fresh(nm) && expected == Ok(nm.Report())
  {
    outcome := CheckNamedNode(files, dir, nodes[k], domains, now, masters);
    OutcomesAt(files, dir, nodes, k, domains, now, masters);
  }

  /** `check_nodes`, collecting one freshly built report object per node name. */
  method CheckNodes(files: map<string, Snapshot>, dir: string, nodes: seq<string>, domains: seq<string>,
                    now: int, masters: map<string, int>)
    returns (outcome: Result<seq<NodeMessages>, Raised>)
    ensures outcome.Err? == FleetResult(files, dir, nodes, domains, now, masters).Err?
    ensures outcome.Err? ==> outcome.error == FleetResult(files, dir, nodes, domains, now, masters).error
    ensures outcome.Ok? ==> |outcome.value| == |FleetResult(files, dir, nodes, domains, now, masters).value|
    ensures outcome.Ok? ==> forall i :: 0 <= i < |outcome.value| ==>
              outcome.value[i].Report() == FleetResult(files, dir, nodes, domains, now, masters).value[i]
    ensures outcome.Ok? ==> forall i :: 0 <= i < |outcome.value| ==> fresh(outcome.value[i])
    ensures outcome.Ok? ==> forall i, j :: 0 <= i < j < |outcome.value| ==> outcome.value[i] != outcome.value[j]
  {
    ghost var os := Outcomes(files, dir, nodes, domains, now, masters);
    ghost var done: seq<NodeReport> := [];
    var messages: seq<NodeMessages> := [];
    for k := 0 to |nodes|
      invariant Collect(os[..k]) == Ok(done)
      invariant |messages| == |done|
      invariant forall i :: 0 <= i < |messages| ==> messages[i].Report() == done[i]
      invariant forall i :: 0 <= i < |messages| ==> fresh(messages[i])
      invariant forall i, j :: 0 <= i < j < |messages| ==> messages[i] != messages[j]
    {
      var result := CheckNodeAt(files, dir, nodes, k, domains, now, masters);
      CollectStep(os, k);
      if result.Err? {
        CollectPrefixErr(os, k + 1);
        return Err(result.error);
      }
      messages := messages + [result.value];
      done := done + [result.value.Report()];
    }
    assert os[..|nodes|] == os;
    return Ok(messages);
  }

  /** Collecting one more outcome: its report is added, or its exception raised. */
  lemma CollectStep(os: seq<Result<NodeReport, Raised>>, k: nat)
    requires k < |os| && Collect(os[..k]).Ok?
    ensures Collect(os[..k + 1]) == if os[k].Err? then Err(os[k].error) else Ok(Collect(os[..k]).value + [os[k].value])
  {
    assert os[..k + 1][..k] == os[..k];
  }

  /** Once a prefix of the outcomes fails, collecting all of them fails the same way. */
  lemma {:induction false} CollectPrefixErr(os: seq<Result<NodeReport, Raised>>, k: nat)
    requires k <= |os|
    requires Collect(os[..k]).Err?
    ensures Collect(os) == Collect(os[..k])
    decreases |os| - k
  {
    if k < |os| {
      assert os[..k + 1][..k] == os[..k];
      CollectPrefixErr(os, k + 1);
    } else {
      assert os[..k] == os;
    }
  }
}
