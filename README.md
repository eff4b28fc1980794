# dnsreader checker, modelled in Dafny

`checker.py` is the reporting half of dnsreader. Each DNS node writes a YAML
result file named after itself. The file holds the node's NSID and, for every
zone, when the node last saw the zone's SOA record and the serial it saw.
The checker reads one such file per node and compares it with the clock and
with the serial each zone's master server reports. It then gathers
diagnostics per node in a `NodeMessages` object, with a general list and one
list per zone.

This project models that consistency logic. Its modules are:

- `Wrappers`: `Option` and `Result`.
- `Staleness`: `sec_to_human` and `check_updated`, with the clock reading `now` as a parameter.
- `Names`: the string handling.
  - Qualifying a zone name for DNS (`get_master_serial`).
  - Deriving the expected node name from a result path, i.e. `split('/')[-1].rstrip('.yaml')`.
  - Normalising a node name.
  - Joining a result path, i.e. `os.path.join` with POSIX semantics.
- `Messages`: the diagnostics, and `NodeMessages` as a class whose methods update its fields in place.
- `Checker`: `check_domain`, `check_node` and `check_nodes`.
  - Each is an imperative method.
  - Each is proved equal to a function that states the outcome.
  - Lemmas about those functions give the promised properties.

The outside world becomes data:

- DNS becomes `masters`, a map from a fully qualified zone name to the serial the zone's master reports.
  - A name without an entry stands for the one failure the source survives. The master is found, but it answers NXDOMAIN for the zone's SOA query (checker.py:87-88). `get_serial` then returns `None`.
  - Every other DNS failure ends the run instead of producing `None`; these are listed under "Left out".
- The file system becomes `files`, a map from a path to the parsed result file. A path without an entry is a missing file.
- The clock is `now`, in whole seconds.

Outcomes that the source lets escape as exceptions are modelled as `Err` values:

- A node whose NSID is present but older than a day makes line 146 read `domain` before the loop at line 149 binds it. That is an `UnboundLocalError`, and it ends `check_nodes`.
- An empty node name makes `node[-1]` raise `IndexError` at line 158.

Two other behaviours are kept as the code has them:

- `rstrip('.yaml')` strips a trailing run of the characters `.`, `y`, `a`, `m`, `l`, not the suffix `.yaml`. A node `ns1.example.com` is therefore expected to report `ns1.example.co`. Whenever its NSID is present and fresh, such a node receives "Incorrect NSID recived" for reporting its own name. A stale NSID raises at line 146 first. `Names.ExpectedNameOfNodeIff` states exactly when a node's own name is accepted.
- A master serial of `None` never equals a node's serial, so it is always reported as a mismatch.

## Model

| member | source | states |
|---|---|---|
| Messages.NodeMessages.constructor | checker.py:12-15 | a new report carries the node name, an empty general list and no domain lists |
| Messages.NodeMessages.AddError | checker.py:17-19 | the message is appended at the end of the general list; the name and the domain lists are unchanged |
| Messages.NodeMessages.AddDomainError | checker.py:21-26 | the message is appended at the end of that domain's list, and the list `[message]` is created on first use; the domain becomes a key; every other domain's list and the general list are unchanged |
| Messages.AppendDomain | checker.py:21-26 | adding several messages to one domain extends that domain's list by exactly those messages in order and leaves every other list as it was; the keys grow by the domain only when something is added |
| Messages.AppendDomainTwice | checker.py:21-26 | adding messages to a domain in two calls is the same as adding them all at once |
| Staleness.Human | checker.py:51-56 | the unit is Secs below 60 seconds, Mins below 3600 and Hours otherwise, with no larger unit; magnitude times the unit's size in seconds is the elapsed time |
| Staleness.SecToHuman | checker.py:51-56 | the loop over Secs and Mins, dividing by 60 at each step, returns the duration `Human` describes |
| Staleness.CheckUpdated | checker.py:58-62 | a duration is returned exactly when `updated` is strictly older than the lag, so it is none when `now - updated` equals the lag; that duration is the elapsed time in the unit `Human` picks |
| Staleness.StaleIsInHours | checker.py:58-62 | with the one-day lag the checker uses, a stale record is always reported in Hours, at more than 24 |
| Names.Qualify | checker.py:92-95 | "root" becomes the apex "."; any other name gets one trailing dot; the result always ends in "." |
| Names.QualifyCollisions | checker.py:92-95 | two names qualify alike only when they are equal, or are "root" and the empty name |
| Names.LastComponent | checker.py:129 | `split('/')[-1]` holds no slash and is no longer than the path |
| Names.LastComponentAfterSlash | checker.py:129 | for any split of a path into a prefix that is empty or ends in a slash, followed by a slash-free tail, the last component is that tail |
| Names.RStrip | checker.py:129 | `rstrip` returns a prefix of its input that does not end in a stripped character |
| Names.RStripRemovesOnly | checker.py:129 | every character `rstrip` removes belongs to the stripped set, so the run removed is the longest one |
| Names.RStripSuffix | checker.py:129 | appending stripped characters does not change what `rstrip` returns |
| Names.ExpectedNameShape | checker.py:129 | the expected name is a slash-free prefix of the last path component; it does not end in `.`, `y`, `a`, `m` or `l`; only such characters are cut off |
| Names.NormaliseNode | checker.py:158-159 | a single dot is appended exactly when the name does not already end in one. The result is the name followed by at most one character, and it ends in a dot. An empty name is the `IndexError` case |
| Names.NormaliseIdempotent | checker.py:158-159 | normalising a normalised name changes nothing |
| Names.Join | checker.py:160 | the joined path ends with the file name, and an absolute file name replaces the directory. Otherwise the path starts with the directory. A directory that is empty or ends in a slash is followed directly by the file name. Any other directory is followed by exactly one added slash |
| Names.JoinedLastComponent | checker.py:160 | a slash-free file name joined to any directory is that path's last component |
| Names.ExpectedName | checker.py:129 | `split('/')[-1].rstrip('.yaml')`; it has no contract of its own, and `Names.ExpectedNameShape` and `Names.ExpectedNameOfNode` characterise it |
| Names.NormalisedStrip | checker.py:158-159 | normalising a slash-free name adds no slash, and the stripping undoes the added dot |
| Names.NodePathStrip | checker.py:129 | the name expected from the result file of a slash-free normalised name is that name stripped; the directory and the `yaml` suffix both disappear |
| Names.ExpectedNameOfNode | checker.py:129 | for a slash-free node name, the name expected from its result file is the node name with its trailing `.`, `y`, `a`, `m`, `l` run removed, whatever the directory |
| Names.ExpectedNameOfNodeIff | checker.py:129 | a node is expected under its own name if and only if that name does not end in `.`, `y`, `a`, `m` or `l` |
| Names.ExpectedNameOfComNode | checker.py:129 | a node named `<host>.com` is expected to report `<host>.co` |
| Checker.MasterSerial | checker.py:90-99 | `get_master_serial` with DNS as the map: the serial is found exactly when the qualified name has an entry, and it is that entry |
| Checker.DomainVerdict | checker.py:101-125 | an absent zone fails with exactly "SOA not recived". A present zone passes if and only if it is not stale and the master's serial equals the node's. It carries at most two messages, the staleness message before the mismatch message. A failed master lookup is always a mismatch. The verdict passes exactly when it has no messages |
| Checker.MissingDomainIgnoresMaster | checker.py:107-123 | the verdict on an absent zone depends on neither the clock nor any master serial |
| Checker.CheckDomain | checker.py:101-125 | the method returns the verdict's pass flag; it appends exactly the verdict's messages, in order, to that zone's list; it changes nothing else of the report |
| Checker.CheckDomains | checker.py:148-150 | the zone loop, as the per-zone lists after `check_domain` has run for each listed zone in order; it has no contract of its own, and `Checker.CheckDomainsBucket` and `Checker.CheckDomainsKeys` characterise it |
| Checker.CheckDomainsBucket | checker.py:148-150 | after the zone loop, a zone's list holds what it held before, followed by its verdict's messages once per time the zone is listed |
| Checker.BucketAfterAppend | checker.py:148-150 | one zone check changes the list of the zone checked and no other |
| Checker.CheckDomainsKeys | checker.py:148-150 | after the zone loop, a zone has a list exactly when it had one before, or it is listed and its check failed |
| Checker.NodeResult | checker.py:127-152 | `UnboundLocalError` is raised exactly when the file exists and its NSID is present and stale. The report carries the expected name. A missing file gives exactly "No Data Recived from node" and no zone lists. "No NSID recived" appears if and only if the NSID is empty. "Incorrect NSID recived" appears if and only if the NSID is non-empty and differs from the expected name. A present, fresh NSID equal to the expected name adds no general message. There is at most one general message |
| Checker.NodeResultBuckets | checker.py:148-152 | a completed report holds each zone's verdict messages once per listing, and has a list for a zone exactly when the zone is listed and failed |
| Checker.CheckNode | checker.py:127-152 | the method raises or completes as `NodeResult` does; on completion it returns a freshly allocated object whose value is `NodeResult`'s report |
| Checker.NodeOutcome | checker.py:157-161 | one requested name: `IndexError` is raised exactly when the name is empty; otherwise it is the outcome of `check_node` on the joined result path |
| Checker.Outcomes | checker.py:154-162 | there is one outcome per requested node name |
| Checker.OutcomesAt | checker.py:154-162 | the k-th outcome is that of the k-th node name |
| Checker.CollectOkIff | checker.py:155-162 | the loop completes if and only if every node completes |
| Checker.CollectValues | checker.py:155-162 | a completed loop holds exactly one report per node, in order |
| Checker.CollectFirstError | checker.py:155-162 | a failed loop raises what the first failing node raises, after all earlier nodes completed |
| Checker.Collect | checker.py:155-162 | the loop of `check_nodes` over known outcomes; it has no contract of its own, and `Checker.CollectOkIff`, `Checker.CollectValues` and `Checker.CollectFirstError` characterise it |
| Checker.FleetResult | checker.py:154-162 | `check_nodes` as a value; it has no contract of its own, and `Checker.FleetResultShape` characterises it |
| Checker.FleetResultShape | checker.py:154-162 | `check_nodes` completes if and only if every node does. It then returns one report per requested name, in input order and with duplicates kept. Otherwise it raises the first failing node's exception |
| Checker.CheckNamedNode | checker.py:157-161 | one turn of the fleet loop: normalise the name, join the result path and check the node; it raises or returns a fresh report exactly as the node's outcome says |
| Checker.CheckNodeAt | checker.py:156-161 | the turn for the k-th name gives the k-th outcome |
| Checker.CheckNodes | checker.py:154-162 | the method raises exactly the fleet's exception, or returns one freshly allocated and distinct report object per name whose values are the fleet's reports in order |

## Left out

- The DNS lookups in `get_mname` and `get_serial` (checker.py:64-88) are network I/O. They are replaced by the `masters` map. The model does not capture the DNS failures that end `check_nodes` instead of yielding a `None` serial:
  - An NXDOMAIN for the zone in `get_mname` (checker.py:70-71) passes `master=None` to `get_serial`. The address query at line 79 then fails on that name.
  - If the master's address query answers NXDOMAIN (checker.py:80-81), line 83 reads the unbound `master_ip` and raises `UnboundLocalError`.
  - A resolver error other than NXDOMAIN is caught nowhere. Examples are a timeout, an empty answer, or no name servers.
- File existence, `open` and `yaml.load` (checker.py:132-137) are replaced by the `files` map. A result file that is malformed YAML is not modelled. So is one that lacks the `nsid` key, or an NSID `updated` field, where the source raises `KeyError`/`TypeError`. An NSID of `None` is folded into the empty NSID.
- A zone entry that lacks `updated` or `serial` is represented as an absent zone, because the source's `KeyError` handler treats both alike.
- Serials are integers. A serial of another Python type is not modelled.
- `print_error_report` (checker.py:28-47) only prints, and its domain order follows dict iteration.
- `main` and argparse (checker.py:164-184) are command-line plumbing. A missing `--domains`, where the source passes `None`, is the empty list here.
- `time.time()` (checker.py:59) becomes the parameter `now`. The source reads the clock at every call, so a check that straddles a second boundary is not modelled.
- Staleness.Human: the `%3.1f` rounding and rendering of the magnitude is not modelled. The magnitude is an exact real.
- The text of each message is represented by a `Diagnostic` constructor that carries the message's arguments.
