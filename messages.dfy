/**
 * The diagnostics the checker produces and `NodeMessages`, the per-node
 * accumulator holding a general list and one list per domain.
 */
module Messages {
  import opened Wrappers
  import opened Staleness

  /** One diagnostic; each constructor stands for one message of checker.py. */
  datatype Diagnostic =
    | NoDataRecived                                 // "No Data Recived from node"
    | NoNsidRecived                                 // "No NSID recived"
    | IncorrectNsid(claimed: string)                // "Incorrect NSID recived: <claimed>"
    | SoaNotRecived                                 // "SOA not recived"
    | SoaStale(lag: Duration)                       // "SOA not recived for <lag>"
    | SerialMismatch(node: int, master: Option<int>) // "Node Serial (<node>) does not match Master (<master>)"

  /** The value held by a `NodeMessages` object. */
  datatype NodeReport = NodeReport(
    name: string,
    general: seq<Diagnostic>,
    domains: map<string, seq<Diagnostic>>)

  /** The messages recorded for `domain`; a domain never written to has none. */
  function Bucket(dm: map<string, seq<Diagnostic>>, domain: string): seq<Diagnostic> {
    if domain in dm then dm[domain] else []
  }

  /**
   * The per-domain lists after `ms` are added to `domain`'s list one by
   * one. Nothing is written, and no list is created, when `ms` is empty.
   */
  function AppendDomain(dm: map<string, seq<Diagnostic>>, domain: string, ms: seq<Diagnostic>)
    : (r: map<string, seq<Diagnostic>>)
    ensures Bucket(r, domain) == Bucket(dm, domain) + ms
    ensures forall other :: other != domain ==> Bucket(r, other) == Bucket(dm, other)
    ensures r.Keys == if ms == [] then dm.Keys else dm.Keys + {domain}
  {
    if ms == [] then dm else dm[domain := Bucket(dm, domain) + ms]
  }

  /** Adding messages in two steps is adding them all at once. */
  lemma AppendDomainTwice(dm: map<string, seq<Diagnostic>>, domain: string, a: seq<Diagnostic>, b: seq<Diagnostic>)
    ensures AppendDomain(AppendDomain(dm, domain, a), domain, b) == AppendDomain(dm, domain, a + b)
  {
    if a == [] {
      assert a + b == b;
    } else if b == [] {
      assert a + b == a;
    } else {
      assert Bucket(dm, domain) + a + b == Bucket(dm, domain) + (a + b);
    }
  }

  /** `NodeMessages`: the diagnostics gathered while one node is checked. */
  class NodeMessages {
    var name: string
    var messages: seq<Diagnostic>
    var domainMessages: map<string, seq<Diagnostic>>

    /** A report for `nodeName` with both kinds of list empty. */
    constructor (nodeName: string)
      ensures name == nodeName && messages == [] && domainMessages == map[]
    {
      name := nodeName;
      messages := [];
      domainMessages := map[];
    }

    /** The value of this report. */
    function Report(): NodeReport
      reads this
    {
      NodeReport(name, messages, domainMessages)
    }

    /** `add_error`: appends to the general list and to nothing else. */
    method AddError(message: Diagnostic)
      modifies this
      ensures messages == old(messages) + [message]
      ensures name == old(name) && domainMessages == old(domainMessages)
    {
      messages := messages + [message];
    }

    /**
     * `add_domain_error`: appends to the end of `domain`'s list, creating
     * `[message]` on first use; the general list and every other domain's
     * list are left as they were.
     */
    method AddDomainError(domain: string, message: Diagnostic)
      modifies this
      ensures domainMessages == AppendDomain(old(domainMessages), domain, [message])
      ensures old(domain !in domainMessages) ==> domainMessages[domain] == [message]
      ensures domain in domainMessages && domainMessages.Keys == old(domainMessages).Keys + {domain}
      ensures forall other :: other != domain ==> Bucket(domainMessages, other) == Bucket(old(domainMessages), other)
      ensures name == old(name) && messages == old(messages)
    {
      if domain in domainMessages {
        domainMessages := domainMessages[domain := domainMessages[domain] + [message]];
      } else {
        assert Bucket(domainMessages, domain) + [message] == [message];
        domainMessages := domainMessages[domain := [message]];
      }
    }
  }
}
