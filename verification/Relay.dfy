/** One delivery round for one queued message: recipients grouped by domain, one outcome
    per domain, and what is left to retry or to report. */
module Relay {
  import opened Wrappers
  import opened Address
  import opened Accounts

  datatype Outcome = Sent | Temporary | Permanent

  /** How the domain of an address is read off it; DomainOf is the one the server uses. */
  type Parser = string -> Option<string>

  function DomainOf(rcpt: string): Option<string> {
    match SplitAddress(rcpt)
    case None => None
    case Some((_, domain)) => Some(domain)
  }

  predicate AllSplit(domainOf: Parser, to: seq<string>) {
    forall i :: 0 <= i < |to| ==> domainOf(to[i]).Some?
  }

  function Domains(domainOf: Parser, to: seq<string>): set<string> {
    if to == [] then {}
    else
      var d := domainOf(to[|to| - 1]);
      Domains(domainOf, to[..|to| - 1]) + if d.Some? then {d.value} else {}
  }

  predicate Inside(domainOf: Parser, rcpt: string, domains: set<string>) {
    var d := domainOf(rcpt);
    d.Some? && d.value in domains
  }

  /** The recipients at any of these domains, in order. */
  function Within(domainOf: Parser, to: seq<string>, domains: set<string>): seq<string> {
    if to == [] then []
    else
      var last := to[|to| - 1];
      Within(domainOf, to[..|to| - 1], domains) + if Inside(domainOf, last, domains) then [last] else []
  }

  lemma {:induction false} NoneWithin(domainOf: Parser, to: seq<string>, d: string)
    requires d !in Domains(domainOf, to)
    ensures Within(domainOf, to, {d}) == []
  {
    if to != [] {
      NoneWithin(domainOf, to[..|to| - 1], d);
    }
  }

  ghost predicate Groups(domainOf: Parser, to: seq<string>, grouped: map<string, seq<string>>) {
    grouped.Keys == Domains(domainOf, to) && forall d :: d in grouped ==> grouped[d] == Within(domainOf, to, {d})
  }

  method GroupByDomain(domainOf: Parser, rcpts: seq<string>) returns (grouped: map<string, seq<string>>)
    ensures Groups(domainOf, rcpts, grouped)
  {
    grouped := map[];
    for i := 0 to |rcpts|
      invariant Groups(domainOf, rcpts[..i], grouped)
    {
      ghost var before := grouped;
      var d := domainOf(rcpts[i]);
      if d.Some? {
        var group := if d.value in grouped then grouped[d.value] else [];
        grouped := grouped[d.value := group + [rcpts[i]]];
      }
      assert rcpts[..i + 1][..i] == rcpts[..i];
      GroupOneMore(domainOf, rcpts[..i + 1], before, grouped);
    }
    assert rcpts[..|rcpts|] == rcpts;
  }

  function WithOneMore(grouped: map<string, seq<string>>, rcpt: string, d: Option<string>): map<string, seq<string>> {
    if d.None? then grouped
    else grouped[d.value := (if d.value in grouped then grouped[d.value] else []) + [rcpt]]
  }

  lemma GroupOneMore(domainOf: Parser, to: seq<string>, before: map<string, seq<string>>, after: map<string, seq<string>>)
    requires to != [] && Groups(domainOf, to[..|to| - 1], before)
    requires after == WithOneMore(before, to[|to| - 1], domainOf(to[|to| - 1]))
    ensures Groups(domainOf, to, after)
  {
    var init, last := to[..|to| - 1], to[|to| - 1];
    var d := domainOf(last);
    if d.Some? && d.value !in before {
      NoneWithin(domainOf, init, d.value);
    }
    forall e | e in after ensures after[e] == Within(domainOf, to, {e}) {
      assert Inside(domainOf, last, {e}) <==> d == Some(e);
    }
  }

  // ---- conservation

  lemma {:induction false} WithinUnion(domainOf: Parser, to: seq<string>, a: set<string>, b: set<string>)
    requires a !! b
    ensures multiset(Within(domainOf, to, a + b)) == multiset(Within(domainOf, to, a)) + multiset(Within(domainOf, to, b))
  {
    if to != [] {
      WithinUnion(domainOf, to[..|to| - 1], a, b);
    }
  }

  lemma {:induction false} WithinNone(domainOf: Parser, to: seq<string>)
    ensures Within(domainOf, to, {}) == []
  {
    if to != [] {
      WithinNone(domainOf, to[..|to| - 1]);
    }
  }

  lemma {:induction false} WithinAll(domainOf: Parser, to: seq<string>, domains: set<string>)
    requires Domains(domainOf, to) <= domains
    ensures |Within(domainOf, to, domains)| <= |to|
    ensures |Within(domainOf, to, domains)| == |to| <==> AllSplit(domainOf, to)
    ensures AllSplit(domainOf, to) ==> Within(domainOf, to, domains) == to
  {
    if to != [] {
      var init := to[..|to| - 1];
      WithinAll(domainOf, init, domains);
      assert to == init + [to[|to| - 1]];
      assert AllSplit(domainOf, to) <==> AllSplit(domainOf, init) && domainOf(to[|to| - 1]).Some?;
    }
  }

  /** Grouping loses nobody exactly when every address splits. */
  lemma GroupingConserves(domainOf: Parser, to: seq<string>)
    ensures multiset(Within(domainOf, to, Domains(domainOf, to))) == multiset(to) <==> AllSplit(domainOf, to)
  {
    WithinAll(domainOf, to, Domains(domainOf, to));
    if multiset(Within(domainOf, to, Domains(domainOf, to))) == multiset(to) {
      assert |multiset(Within(domainOf, to, Domains(domainOf, to)))| == |Within(domainOf, to, Domains(domainOf, to))|;
      assert |multiset(to)| == |to|;
    }
  }

  function ByOutcome(domains: set<string>, outcome: string -> Outcome, o: Outcome): set<string> {
    set d | d in domains && outcome(d) == o
  }

  /** The recipients of each group, however the domains are ordered. */
  ghost predicate Sorted(domainOf: Parser, to: seq<string>, done: set<string>, outcome: string -> Outcome, o: Outcome, group: seq<string>) {
    multiset(group) == multiset(Within(domainOf, to, ByOutcome(done, outcome, o)))
  }

  lemma SortedMore(domainOf: Parser, to: seq<string>, done: set<string>, outcome: string -> Outcome, o: Outcome, group: seq<string>, d: string)
    requires d !in done && Sorted(domainOf, to, done, outcome, o, group)
    ensures Sorted(domainOf, to, done + {d}, outcome, o, if outcome(d) == o then group + Within(domainOf, to, {d}) else group)
  {
    if outcome(d) == o {
      WithinUnion(domainOf, to, ByOutcome(done, outcome, o), {d});
      assert ByOutcome(done + {d}, outcome, o) == ByOutcome(done, outcome, o) + {d};
    } else {
      assert ByOutcome(done + {d}, outcome, o) == ByOutcome(done, outcome, o);
    }
  }

  ghost predicate SortedAll(domainOf: Parser, to: seq<string>, done: set<string>, outcome: string -> Outcome,
                            sent: seq<string>, deferred: seq<string>, bounced: seq<string>)
  {
    && Sorted(domainOf, to, done, outcome, Sent, sent)
    && Sorted(domainOf, to, done, outcome, Temporary, deferred)
    && Sorted(domainOf, to, done, outcome, Permanent, bounced)
  }

  /** One round over the domains in arbitrary order. */
  method Round(domainOf: Parser, to: seq<string>, outcome: string -> Outcome)
    returns (sent: seq<string>, deferred: seq<string>, bounced: seq<string>)
    ensures SortedAll(domainOf, to, Domains(domainOf, to), outcome, sent, deferred, bounced)
  {
    var grouped := GroupByDomain(domainOf, to);
    sent, deferred, bounced := [], [], [];
    var left := grouped.Keys;
    ghost var done: set<string> := {};
    NothingSorted(domainOf, to, outcome);
    while |left| > 0
      invariant left !! done && left + done == Domains(domainOf, to)
      invariant SortedAll(domainOf, to, done, outcome, sent, deferred, bounced)
      decreases |left|
    {
      var d := OneOf(left);
      sent, deferred, bounced := Sort(domainOf, to, done, outcome, d, grouped[d], sent, deferred, bounced);
      left, done := left - {d}, done + {d};
    }
    assert done == Domains(domainOf, to);
  }

  /** Some domain of the group, as a map's iteration order is unspecified. */
  method OneOf(left: set<string>) returns (d: string)
    requires |left| > 0
    ensures d in left
  {
    d :| d in left;
  }

  lemma NothingSorted(domainOf: Parser, to: seq<string>, outcome: string -> Outcome)
    ensures SortedAll(domainOf, to, {}, outcome, [], [], [])
  {
    WithinNone(domainOf, to);
    forall o ensures ByOutcome({}, outcome, o) == {} {
    }
  }

  method Sort(domainOf: Parser, to: seq<string>, ghost done: set<string>, outcome: string -> Outcome, d: string, group: seq<string>,
              sent: seq<string>, deferred: seq<string>, bounced: seq<string>)
    returns (sent': seq<string>, deferred': seq<string>, bounced': seq<string>)
    requires d !in done && group == Within(domainOf, to, {d})
    requires SortedAll(domainOf, to, done, outcome, sent, deferred, bounced)
    ensures SortedAll(domainOf, to, done + {d}, outcome, sent', deferred', bounced')
  {
    SortedMore(domainOf, to, done, outcome, Sent, sent, d);
    SortedMore(domainOf, to, done, outcome, Temporary, deferred, d);
    SortedMore(domainOf, to, done, outcome, Permanent, bounced, d);
    sent', deferred', bounced' := sent, deferred, bounced;
    match outcome(d) {
      case Sent => sent' := sent + group;
      case Permanent => bounced' := bounced + group;
      case Temporary => deferred' := deferred + group;
    }
  }

  /** Whatever each domain answers, a round accounts for every recipient exactly once if and
      only if every address splits. */
  lemma RoundConserves(domainOf: Parser, to: seq<string>, outcome: string -> Outcome, sent: seq<string>, deferred: seq<string>, bounced: seq<string>)
    requires SortedAll(domainOf, to, Domains(domainOf, to), outcome, sent, deferred, bounced)
    ensures multiset(sent) + multiset(deferred) + multiset(bounced) == multiset(to) <==> AllSplit(domainOf, to)
  {
    var s, t, p := ByOutcome(Domains(domainOf, to), outcome, Sent), ByOutcome(Domains(domainOf, to), outcome, Temporary),
                   ByOutcome(Domains(domainOf, to), outcome, Permanent);
    WithinUnion(domainOf, to, s, t);
    WithinUnion(domainOf, to, s + t, p);
    assert s + t + p == Domains(domainOf, to);
    GroupingConserves(domainOf, to);
  }

  // ---- one domain

  /** The first host that does not fail temporarily decides; with no host, or none that
      answers, the round is put off. */
  method DeliverHosts(hosts: seq<string>, send: string -> Outcome) returns (r: Outcome)
    ensures r == Temporary <==> forall i :: 0 <= i < |hosts| ==> send(hosts[i]) == Temporary
    ensures r != Temporary ==> exists k ::
              0 <= k < |hosts| && send(hosts[k]) == r && forall i :: 0 <= i < k ==> send(hosts[i]) == Temporary
  {
    for i := 0 to |hosts|
      invariant forall j :: 0 <= j < i ==> send(hosts[j]) == Temporary
    {
      var answer := send(hosts[i]);
      if answer == Sent {
        return Sent;
      }
      if answer == Permanent {
        return Permanent;
      }
    }
    return Temporary;
  }

  // ---- bounces

  /** The account a failure report for this sender is filed with. */
  function BounceTarget(cfg: Config, users: seq<User>, from: string): Option<Account> {
    match SplitAddress(from)
    case None => None
    case Some((local, domain)) => if IsLocalDomain(cfg, domain) then Found(users, local) else None
  }
}
