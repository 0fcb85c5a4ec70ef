/** Grouping audit issues by root cause. */
module AuditTriage {
  import opened Sorting

  datatype Cause = Cause(id: string)
  datatype Host = Host(name: string)
  datatype Severity = High | Medium | Low | Unknown(text: string)

  datatype Url = Url(text: string)
  datatype Evidence = Evidence(text: string)

  datatype Issue = Issue(category: string, message: string, severity: Severity, evidence: Evidence)

  datatype Audited = Audited(host: Host, url: Url, issues: seq<Issue>)

  /** What a rule says about its cause. */
  datatype Advice = Advice(title: string, fixLayer: string, actionable: bool)

  /** A rule matches its category exactly and the message by its pattern. */
  datatype Rule = Rule(category: string, pattern: string -> bool, cause: Cause, advice: Advice)

  const NO_HOST := Host("")
  const NO_URL := Url("")
  const NO_EVIDENCE := Evidence("")
  const UNCATEGORIZED := Cause("uncategorized")
  const HOST_LIMIT := 5
  const URL_LIMIT := 3
  const EVIDENCE_LIMIT := 2

  function SeverityRank(s: Severity): nat {
    match s
    case High => 3
    case Medium => 2
    case Low => 1
    case Unknown(_) => 0
  }

  predicate RuleMatches(rule: Rule, issue: Issue) {
    issue.category == rule.category && rule.pattern(issue.message)
  }

  /** The cause of the first matching rule. */
  function Classify(rules: seq<Rule>, issue: Issue): Cause {
    if rules == [] then UNCATEGORIZED
    else if RuleMatches(rules[0], issue) then rules[0].cause
    else Classify(rules[1..], issue)
  }

  /** The last rule with a cause speaks for it; without one it counts as actionable. */
  function AdviceOn(rules: seq<Rule>, cause: Cause): Advice {
    if rules == [] then Advice(cause.id, "unknown", true)
    else if rules[|rules| - 1].cause == cause then rules[|rules| - 1].advice
    else AdviceOn(rules[..|rules| - 1], cause)
  }

  lemma {:induction false} ClassifyIsFirstMatch(rules: seq<Rule>, issue: Issue)
    ensures (exists i :: IsFirstMatch(rules, issue, i) && Classify(rules, issue) == rules[i].cause)
         || (Classify(rules, issue) == UNCATEGORIZED && forall i :: 0 <= i < |rules| ==> !RuleMatches(rules[i], issue))
  {
    if rules != [] {
      if RuleMatches(rules[0], issue) {
        assert IsFirstMatch(rules, issue, 0);
      } else {
        ClassifyIsFirstMatch(rules[1..], issue);
        if i :| IsFirstMatch(rules[1..], issue, i) && Classify(rules[1..], issue) == rules[1..][i].cause {
          assert IsFirstMatch(rules, issue, i + 1);
        }
      }
    }
  }

  ghost predicate IsFirstMatch(rules: seq<Rule>, issue: Issue, i: int) {
    0 <= i < |rules| && RuleMatches(rules[i], issue) && forall j :: 0 <= j < i ==> !RuleMatches(rules[j], issue)
  }

  // ---------------------------------------------------------------- groups

  datatype Group = Group(
    cause: Cause,
    advice: Advice,
    severity: Severity,
    hosts: seq<Host>,
    allHosts: set<Host>,
    hostCount: nat,
    sampleUrls: seq<Url>,
    sampleEvidence: seq<Evidence>,
    count: nat)

  /** One issue as the loops meet it. */
  datatype Seen = Seen(cause: Cause, severity: Severity, host: Host, url: Url, evidence: Evidence)

  /** The dictionary of groups in insertion order. */
  datatype Groups = Groups(order: seq<Cause>, byCause: map<Cause, Group>)

  const NO_GROUPS := Groups([], map[])

  function AddHost(hosts: seq<Host>, host: Host): seq<Host> {
    if host != NO_HOST && host !in hosts && |hosts| < HOST_LIMIT then hosts + [host] else hosts
  }

  function AddUrl(urls: seq<Url>, url: Url): seq<Url> {
    if url != NO_URL && |urls| < URL_LIMIT && url !in urls then urls + [url] else urls
  }

  function AddEvidence(evidence: seq<Evidence>, e: Evidence): seq<Evidence> {
    if e != NO_EVIDENCE && |evidence| < EVIDENCE_LIMIT then evidence + [e] else evidence
  }

  function Worse(a: Severity, b: Severity): Severity {
    if SeverityRank(b) > SeverityRank(a) then b else a
  }

  function AddToGroup(g: Group, x: Seen): Group {
    g.(count := g.count + 1,
       severity := Worse(g.severity, x.severity),
       hosts := AddHost(g.hosts, x.host),
       hostCount := if x.host != NO_HOST then |g.allHosts + {x.host}| else g.hostCount,
       allHosts := if x.host != NO_HOST then g.allHosts + {x.host} else g.allHosts,
       sampleUrls := AddUrl(g.sampleUrls, x.url),
       sampleEvidence := AddEvidence(g.sampleEvidence, x.evidence))
  }

  function NewGroup(rules: seq<Rule>, x: Seen): Group {
    Group(x.cause, AdviceOn(rules, x.cause), x.severity, [], {}, 0, [], [], 0)
  }

  function AddSeen(rules: seq<Rule>, gs: Groups, x: Seen): Groups {
    var g := if x.cause in gs.byCause then gs.byCause[x.cause] else NewGroup(rules, x);
    Groups(if x.cause in gs.byCause then gs.order else gs.order + [x.cause],
           gs.byCause[x.cause := AddToGroup(g, x)])
  }

  function AddAll(rules: seq<Rule>, xs: seq<Seen>): Groups {
    if xs == [] then NO_GROUPS else AddSeen(rules, AddAll(rules, xs[..|xs| - 1]), xs[|xs| - 1])
  }

  function SeenIn(rules: seq<Rule>, record: Audited, issue: Issue): Seen {
    Seen(Classify(rules, issue), issue.severity, record.host, record.url, issue.evidence)
  }

  function IssuesOf(rules: seq<Rule>, record: Audited, n: nat): seq<Seen>
    requires n <= |record.issues|
  {
    if n == 0 then [] else IssuesOf(rules, record, n - 1) + [SeenIn(rules, record, record.issues[n - 1])]
  }

  /** Every issue of every record, in the order the loops meet them. */
  function Flatten(rules: seq<Rule>, audited: seq<Audited>): seq<Seen> {
    if audited == [] then []
    else
      var last := audited[|audited| - 1];
      Flatten(rules, audited[..|audited| - 1]) + IssuesOf(rules, last, |last.issues|)
  }

  function InOrder(gs: Groups): seq<Group>
    requires forall c :: c in gs.order ==> c in gs.byCause
  {
    seq(|gs.order|, i requires 0 <= i < |gs.order| => gs.byCause[gs.order[i]])
  }

  /** Actionable first, then the most severe, then the largest. */
  function Priority(g: Group): Rank {
    Rank(if g.advice.actionable then 0 else 1, 3 - SeverityRank(g.severity), 0 - g.count)
  }

  ghost predicate WellFormed(gs: Groups) {
    && (forall c :: c in gs.order <==> c in gs.byCause)
    && (forall i, j :: 0 <= i < j < |gs.order| ==> gs.order[i] != gs.order[j])
    && (forall c :: c in gs.byCause ==> gs.byCause[c].cause == c)
  }

  lemma {:induction false} AddAllWellFormed(rules: seq<Rule>, xs: seq<Seen>)
    ensures WellFormed(AddAll(rules, xs))
  {
    if xs != [] {
      AddAllWellFormed(rules, xs[..|xs| - 1]);
    }
  }

  /** One turn of the inner loop: find or create the group, then count the issue into it, one
      entry after the other. */
  method CountIssue(rules: seq<Rule>, gs: Groups, x: Seen) returns (r: Groups)
    ensures r == AddSeen(rules, gs, x)
  {
    r := gs;
    if x.cause !in r.byCause {
      r := Groups(r.order + [x.cause], r.byCause[x.cause := NewGroup(rules, x)]);
    }
    var g := UpdateGroup(r.byCause[x.cause], x);
    assert r.byCause[x.cause := g] == gs.byCause[x.cause := g];
    r := r.(byCause := r.byCause[x.cause := g]);
  }

  method UpdateGroup(before: Group, x: Seen) returns (g: Group)
    ensures g == AddToGroup(before, x)
  {
    g := before.(count := before.count + 1);
    if SeverityRank(x.severity) > SeverityRank(g.severity) {
      g := g.(severity := x.severity);
    }
    if x.host != NO_HOST && x.host !in g.hosts && |g.hosts| < HOST_LIMIT {
      g := g.(hosts := g.hosts + [x.host]);
    }
    if x.host != NO_HOST {
      g := g.(hostCount := |g.allHosts + {x.host}|);
      g := g.(allHosts := g.allHosts + {x.host});
    }
    if x.url != NO_URL && |g.sampleUrls| < URL_LIMIT {
      if x.url !in g.sampleUrls {
        g := g.(sampleUrls := g.sampleUrls + [x.url]);
      }
    }
    if x.evidence != NO_EVIDENCE && |g.sampleEvidence| < EVIDENCE_LIMIT {
      g := g.(sampleEvidence := g.sampleEvidence + [x.evidence]);
    }
  }

  method CountRecord(rules: seq<Rule>, ghost met: seq<Seen>, gs: Groups, record: Audited) returns (r: Groups)
    requires gs == AddAll(rules, met)
    ensures r == AddAll(rules, met + IssuesOf(rules, record, |record.issues|))
  {
    r := gs;
    ghost var seen := met;
    for j := 0 to |record.issues|
      invariant seen == met + IssuesOf(rules, record, j)
      invariant r == AddAll(rules, seen)
    {
      ghost var x := SeenIn(rules, record, record.issues[j]);
      r := CountNext(rules, seen, r, SeenIn(rules, record, record.issues[j]));
      seen := seen + [x];
    }
  }

  method CountNext(rules: seq<Rule>, ghost seen: seq<Seen>, gs: Groups, x: Seen) returns (r: Groups)
    requires gs == AddAll(rules, seen)
    ensures r == AddAll(rules, seen + [x])
  {
    r := CountIssue(rules, gs, x);
  }

  // ---------------------------------------------------------------- sorted host lists

  /** How Python orders two different texts: by the first character at which they differ. */
  predicate TextBefore(a: string, b: string) {
    b != [] && (a == [] || a[0] < b[0] || (a[0] == b[0] && TextBefore(a[1..], b[1..])))
  }

  lemma {:induction false} TextsOrdered(a: string, b: string)
    ensures !(TextBefore(a, b) && TextBefore(b, a)) && !TextBefore(a, a)
    ensures a == b || TextBefore(a, b) || TextBefore(b, a)
  {
    if a != [] && b != [] {
      TextsOrdered(a[1..], b[1..]);
      assert a == [a[0]] + a[1..] && b == [b[0]] + b[1..];
    }
    if a != [] {
      TextsOrdered(a[1..], a[1..]);
    }
  }

  lemma {:induction false} TextsTransitive(a: string, b: string, c: string)
    requires TextBefore(a, b) && TextBefore(b, c)
    ensures TextBefore(a, c)
  {
    if a != [] && a[0] == b[0] == c[0] {
      TextsTransitive(a[1..], b[1..], c[1..]);
    }
  }

  ghost predicate Ascending(hosts: seq<Host>) {
    forall i, j :: 0 <= i < j < |hosts| ==> TextBefore(hosts[i].name, hosts[j].name)
  }

  /** The list of a set's hosts in ascending order. */
  ghost predicate Lists(hosts: seq<Host>, all: set<Host>) {
    Ascending(hosts) && forall h :: h in hosts <==> h in all
  }

  lemma {:induction false} FirstIsLeast(hosts: seq<Host>, h: Host)
    requires Ascending(hosts) && h in hosts
    ensures h == hosts[0] || TextBefore(hosts[0].name, h.name)
  {
  }

  /** A set has one such list. */
  lemma {:induction false} OneList(a: seq<Host>, b: seq<Host>, all: set<Host>)
    requires Lists(a, all) && Lists(b, all)
    ensures a == b
  {
    if b != [] {
      assert b[0] in all;
    }
    if a != [] {
      assert a[0] in all;
      FirstIsLeast(a, b[0]);
      FirstIsLeast(b, a[0]);
      TextsOrdered(a[0].name, b[0].name);
      TailLists(a, all);
      TailLists(b, all);
      OneList(a[1..], b[1..], all - {a[0]});
      assert a == [a[0]] + a[1..] && b == [b[0]] + b[1..];
    }
  }

  lemma TailLists(hosts: seq<Host>, all: set<Host>)
    requires Lists(hosts, all) && hosts != []
    ensures Lists(hosts[1..], all - {hosts[0]})
  {
    forall h | h in hosts[1..]
      ensures h != hosts[0]
    {
      TextsOrdered(h.name, h.name);
    }
    assert hosts == [hosts[0]] + hosts[1..];
  }

  lemma {:induction false} PrefixBefore(hosts: seq<Host>, h: Host, k: nat)
    requires Ascending(hosts) && h !in hosts && k <= |hosts|
    requires k == |hosts| || !TextBefore(hosts[k].name, h.name)
    requires k == 0 || TextBefore(hosts[k - 1].name, h.name)
    ensures Ascending(hosts[..k] + [h] + hosts[k..])
  {
    forall i | 0 <= i < |hosts|
      ensures if i < k then TextBefore(hosts[i].name, h.name) else TextBefore(h.name, hosts[i].name)
    {
      if i < k - 1 {
        TextsTransitive(hosts[i].name, hosts[k - 1].name, h.name);
      } else if i >= k {
        TextsOrdered(h.name, hosts[k].name);
        assert h != hosts[k] && h.name != hosts[k].name;
        if i > k {
          TextsTransitive(h.name, hosts[k].name, hosts[i].name);
        }
      }
    }
  }

  /** `sorted` of a set of hosts, which comes in any order. */
  method SortHosts(all: set<Host>) returns (hosts: seq<Host>)
    ensures Lists(hosts, all)
  {
    hosts := [];
    var rest := all;
    while rest != {}
      invariant rest <= all && Lists(hosts, all - rest)
      decreases |rest|
    {
      var h :| h in rest;
      var k := 0;
      while k < |hosts| && TextBefore(hosts[k].name, h.name)
        invariant 0 <= k <= |hosts| && (k == 0 || TextBefore(hosts[k - 1].name, h.name))
      {
        k := k + 1;
      }
      PrefixBefore(hosts, h, k);
      assert forall x :: x in hosts[..k] + [h] + hosts[k..] <==> x in hosts || x == h by {
        assert hosts == hosts[..k] + hosts[k..];
      }
      hosts := hosts[..k] + [h] + hosts[k..];
      rest := rest - {h};
    }
  }

  /** The last loop: each group's hosts as a sorted list. */
  method ListHosts(groups: seq<Group>) returns (hostLists: seq<seq<Host>>)
    ensures |hostLists| == |groups| && forall i :: 0 <= i < |groups| ==> Lists(hostLists[i], groups[i].allHosts)
  {
    hostLists := [];
    for i := 0 to |groups|
      invariant |hostLists| == i && forall j :: 0 <= j < i ==> Lists(hostLists[j], groups[j].allHosts)
    {
      var hosts := SortHosts(groups[i].allHosts);
      hostLists := hostLists + [hosts];
    }
  }

  /** `_build_root_cause_groups` as it runs: nested loops updating one dictionary of groups, a sort,
      and a sorted list of each group's hosts. */
  method BuildRootCauseGroups(rules: seq<Rule>, audited: seq<Audited>)
    returns (sorted: seq<Group>, hostLists: seq<seq<Host>>)
    ensures WellFormed(AddAll(rules, Flatten(rules, audited)))
    ensures sorted == Sorted(InOrder(AddAll(rules, Flatten(rules, audited))), Priority)
    ensures |hostLists| == |sorted| && forall i :: 0 <= i < |sorted| ==> Lists(hostLists[i], sorted[i].allHosts)
  {
    var gs := NO_GROUPS;
    for i := 0 to |audited|
      invariant gs == AddAll(rules, Flatten(rules, audited[..i]))
    {
      gs := CountRecord(rules, Flatten(rules, audited[..i]), gs, audited[i]);
      assert audited[..i + 1][..i] == audited[..i];
    }
    assert audited[..|audited|] == audited;
    AddAllWellFormed(rules, Flatten(rules, audited));
    sorted := Sorted(InOrder(gs), Priority);
    hostLists := ListHosts(sorted);
  }

  // ---------------------------------------------------------------- what a group holds

  function Of(xs: seq<Seen>, c: Cause): seq<Seen> {
    if xs == [] then []
    else
      var before, last := Of(xs[..|xs| - 1], c), xs[|xs| - 1];
      if last.cause == c then before + [last] else before
  }

  /** The distinct named hosts, by first appearance. */
  function DistinctHosts(xs: seq<Seen>): seq<Host> {
    if xs == [] then []
    else
      var before, h := DistinctHosts(xs[..|xs| - 1]), xs[|xs| - 1].host;
      if h == NO_HOST || h in before then before else before + [h]
  }

  /** At most the first five of them. */
  function FirstHosts(xs: seq<Seen>): seq<Host> {
    var all := DistinctHosts(xs);
    if |all| <= HOST_LIMIT then all else all[..HOST_LIMIT]
  }

  function HostSet(xs: seq<Seen>): set<Host> {
    set x | x in xs && x.host != NO_HOST :: x.host
  }

  /** The distinct URLs, by first appearance, and at most the first three of them. */
  function DistinctUrls(xs: seq<Seen>): seq<Url> {
    if xs == [] then []
    else
      var before, u := DistinctUrls(xs[..|xs| - 1]), xs[|xs| - 1].url;
      if u == NO_URL || u in before then before else before + [u]
  }

  function FirstUrls(xs: seq<Seen>): seq<Url> {
    var all := DistinctUrls(xs);
    if |all| <= URL_LIMIT then all else all[..URL_LIMIT]
  }

  /** All the evidence given, repeats included, and at most the first two pieces of it. */
  function AllEvidence(xs: seq<Seen>): seq<Evidence> {
    if xs == [] then []
    else
      var before, e := AllEvidence(xs[..|xs| - 1]), xs[|xs| - 1].evidence;
      if e == NO_EVIDENCE then before else before + [e]
  }

  function FirstEvidence(xs: seq<Seen>): seq<Evidence> {
    var all := AllEvidence(xs);
    if |all| <= EVIDENCE_LIMIT then all else all[..EVIDENCE_LIMIT]
  }

  ghost predicate HasTopSeverity(xs: seq<Seen>, s: Severity) {
    (exists x :: x in xs && x.severity == s) && forall x :: x in xs ==> SeverityRank(x.severity) <= SeverityRank(s)
  }

  /** A group of the issues `xs`, all of one cause. */
  ghost predicate Describes(rules: seq<Rule>, xs: seq<Seen>, c: Cause, g: Group) {
    && g.cause == c && g.advice == AdviceOn(rules, c)
    && g.count == |xs|
    && HasTopSeverity(xs, g.severity)
    && g.allHosts == HostSet(xs) && g.hostCount == |HostSet(xs)|
    && g.hosts == FirstHosts(xs)
    && g.sampleUrls == FirstUrls(xs) && g.sampleEvidence == FirstEvidence(xs)
  }

  lemma {:induction false} DistinctHostsAreHosts(xs: seq<Seen>)
    ensures forall h :: h in DistinctHosts(xs) <==> h in HostSet(xs)
    ensures |DistinctHosts(xs)| == |HostSet(xs)|
  {
    if xs != [] {
      var before, last := xs[..|xs| - 1], xs[|xs| - 1];
      DistinctHostsAreHosts(before);
      HostSetAppend(before, last);
      assert xs == before + [last];
      assert last.host in DistinctHosts(before) <==> last.host in HostSet(before);
      assert last.host in HostSet(before) ==> HostSet(before) + {last.host} == HostSet(before);
    }
  }

  lemma HostSetAppend(xs: seq<Seen>, x: Seen)
    ensures HostSet(xs + [x]) == HostSet(xs) + if x.host == NO_HOST then {} else {x.host}
  {
    assert forall y :: y in xs + [x] <==> y in xs || y == x;
    assert x in xs + [x];
    assert forall y :: y in xs ==> y in xs + [x];
  }

  lemma {:induction false} OfHolds(xs: seq<Seen>, c: Cause)
    ensures forall x :: x in Of(xs, c) <==> x in xs && x.cause == c
  {
    if xs != [] {
      OfHolds(xs[..|xs| - 1], c);
      assert xs == xs[..|xs| - 1] + [xs[|xs| - 1]];
    }
  }

  /** The lists and hosts of one issue. */
  lemma OneListed(none: seq<Seen>, x: Seen)
    requires none == []
    ensures FirstHosts(none + [x]) == AddHost([], x.host) && FirstUrls(none + [x]) == AddUrl([], x.url)
    ensures FirstEvidence(none + [x]) == AddEvidence([], x.evidence)
    ensures HostSet(none + [x]) == if x.host == NO_HOST then {} else {x.host}
  {
    ListsGrow(none, x);
    HostSetAppend(none, x);
  }

  /** A new group describes its first issue. */
  lemma NewGroupDescribes(rules: seq<Rule>, none: seq<Seen>, x: Seen)
    requires none == []
    ensures Describes(rules, none + [x], x.cause, AddToGroup(NewGroup(rules, x), x))
  {
    OneListed(none, x);
    assert none + [x] == [x];
  }

  lemma GroupGrows(rules: seq<Rule>, xs: seq<Seen>, c: Cause, g: Group, x: Seen)
    requires Describes(rules, xs, c, g)
    ensures Describes(rules, xs + [x], c, AddToGroup(g, x))
  {
    HostSetAppend(xs, x);
    ListsGrow(xs, x);
  }

  /** Keeping only the first few hosts, URLs and pieces of evidence can be done as they come. */
  lemma ListsGrow(xs: seq<Seen>, x: Seen)
    ensures FirstHosts(xs + [x]) == AddHost(FirstHosts(xs), x.host)
    ensures FirstUrls(xs + [x]) == AddUrl(FirstUrls(xs), x.url)
    ensures FirstEvidence(xs + [x]) == AddEvidence(FirstEvidence(xs), x.evidence)
  {
    assert (xs + [x])[..|xs|] == xs;
  }

  /** The groups partition the issues: a cause has a group exactly when it has issues, and the
      group describes exactly those. */
  lemma {:induction false} GroupsPartition(rules: seq<Rule>, xs: seq<Seen>, c: Cause)
    ensures var gs := AddAll(rules, xs);
            if c in gs.byCause then Describes(rules, Of(xs, c), c, gs.byCause[c]) else Of(xs, c) == []
  {
    if xs != [] {
      var before, x := xs[..|xs| - 1], xs[|xs| - 1];
      GroupsPartition(rules, before, c);
      if x.cause == c {
        var gs := AddAll(rules, before);
        if c in gs.byCause {
          GroupGrows(rules, Of(before, c), c, gs.byCause[c], x);
        } else {
          NewGroupDescribes(rules, Of(before, c), x);
        }
      }
    }
  }

  ghost predicate NamedBy(xs: seq<Seen>, c: Cause, h: Host) {
    h.name != "" && exists x :: x in xs && x.cause == c && x.host == h
  }

  /** What a group says, in terms of all the issues: it counts those of its cause, its hosts are
      exactly the ones they name, and of these it lists five, or all when there are fewer. */
  lemma GroupHolds(rules: seq<Rule>, xs: seq<Seen>, c: Cause, h: Host)
    requires c in AddAll(rules, xs).byCause
    ensures var g := AddAll(rules, xs).byCause[c];
            && g.count == |Of(xs, c)| > 0
            && (h in g.allHosts <==> NamedBy(xs, c, h)) && g.hostCount == |g.allHosts|
            && |g.hosts| == (if g.hostCount <= 5 then g.hostCount else 5)
            && (h in g.hosts ==> h in g.allHosts)
  {
    GroupsPartition(rules, xs, c);
    DistinctHostsAreHosts(Of(xs, c));
    OfHolds(xs, c);
    if x :| x in xs && x.cause == c && x.host == h {
      assert x in Of(xs, c);
    }
    if x :| x in Of(xs, c) && x.host == h {
      assert x in xs;
    }
  }

  function CountSum(groups: seq<Group>): nat {
    if groups == [] then 0 else CountSum(groups[..|groups| - 1]) + groups[|groups| - 1].count
  }

  lemma {:induction false} CountSumUpdate(groups: seq<Group>, i: nat, g: Group)
    requires i < |groups|
    ensures CountSum(groups[i := g]) == CountSum(groups) - groups[i].count + g.count
  {
    var n := |groups| - 1;
    if i < n {
      CountSumUpdate(groups[..n], i, g);
      assert groups[i := g][..n] == groups[..n][i := g];
    } else {
      assert groups[i := g][..n] == groups[..n];
    }
  }

  lemma OldGroupCounts(rules: seq<Rule>, gs: Groups, x: Seen)
    requires WellFormed(gs) && WellFormed(AddSeen(rules, gs, x)) && x.cause in gs.byCause
    ensures CountSum(InOrder(AddSeen(rules, gs, x))) == CountSum(InOrder(gs)) + 1
  {
    var i :| 0 <= i < |gs.order| && gs.order[i] == x.cause;
    var g := AddToGroup(gs.byCause[x.cause], x);
    CountSumUpdate(InOrder(gs), i, g);
    assert InOrder(AddSeen(rules, gs, x)) == InOrder(gs)[i := g];
  }

  lemma NewGroupCounts(rules: seq<Rule>, gs: Groups, x: Seen)
    requires WellFormed(gs) && WellFormed(AddSeen(rules, gs, x)) && x.cause !in gs.byCause
    ensures CountSum(InOrder(AddSeen(rules, gs, x))) == CountSum(InOrder(gs)) + 1
  {
    var g := AddToGroup(NewGroup(rules, x), x);
    var before := InOrder(gs);
    assert InOrder(AddSeen(rules, gs, x)) == before + [g];
    assert (before + [g])[..|before|] == before;
  }

  /** Conservation: the counts of all groups add up to the number of issues. */
  lemma {:induction false} CountsAddUp(rules: seq<Rule>, xs: seq<Seen>)
    ensures WellFormed(AddAll(rules, xs)) && CountSum(InOrder(AddAll(rules, xs))) == |xs|
  {
    AddAllWellFormed(rules, xs);
    if xs != [] {
      var before, x := xs[..|xs| - 1], xs[|xs| - 1];
      CountsAddUp(rules, before);
      var gs := AddAll(rules, before);
      if x.cause in gs.byCause {
        OldGroupCounts(rules, gs, x);
      } else {
        NewGroupCounts(rules, gs, x);
      }
    }
  }

  /** What comes out is ordered by priority, holds every group, and keeps ties in order of first
      appearance. */
  lemma GroupsSorted(rules: seq<Rule>, audited: seq<Audited>, k: Rank)
    ensures WellFormed(AddAll(rules, Flatten(rules, audited)))
    ensures var found := InOrder(AddAll(rules, Flatten(rules, audited)));
            var sorted := Sorted(found, Priority);
            Ordered(sorted, Priority) && multiset(sorted) == multiset(found)
            && WithKey(sorted, Priority, k) == WithKey(found, Priority, k)
  {
    AddAllWellFormed(rules, Flatten(rules, audited));
    var found := InOrder(AddAll(rules, Flatten(rules, audited)));
    SortedIsOrdered(found, Priority);
    SortedIsStable(found, Priority, k);
  }

  function TotalIssues(audited: seq<Audited>): nat {
    if audited == [] then 0 else TotalIssues(audited[..|audited| - 1]) + |audited[|audited| - 1].issues|
  }

  lemma {:induction false} IssuesOfSize(rules: seq<Rule>, record: Audited, n: nat)
    requires n <= |record.issues|
    ensures |IssuesOf(rules, record, n)| == n
  {
    if n > 0 {
      IssuesOfSize(rules, record, n - 1);
    }
  }

  /** No issue of any record is lost or counted twice. */
  lemma {:induction false} EveryIssueCounted(rules: seq<Rule>, audited: seq<Audited>)
    ensures |Flatten(rules, audited)| == TotalIssues(audited)
    ensures WellFormed(AddAll(rules, Flatten(rules, audited)))
    ensures CountSum(InOrder(AddAll(rules, Flatten(rules, audited)))) == TotalIssues(audited)
  {
    if audited != [] {
      var last := audited[|audited| - 1];
      EveryIssueCounted(rules, audited[..|audited| - 1]);
      IssuesOfSize(rules, last, |last.issues|);
    }
    CountsAddUp(rules, Flatten(rules, audited));
  }

  /** What comes earlier: actionable groups, then the worse severity, then the larger count. */
  predicate ComesFirst(a: Group, b: Group) {
    if a.advice.actionable != b.advice.actionable then a.advice.actionable
    else if a.severity == b.severity || !(Known(a.severity) || Known(b.severity)) then a.count > b.count
    else a.severity == High || (a.severity == Medium && b.severity != High) || !Known(b.severity)
  }

  predicate Known(s: Severity) {
    s == High || s == Medium || s == Low
  }

  lemma PriorityIsOrder(a: Group, b: Group)
    ensures Less(Priority(a), Priority(b)) <==> ComesFirst(a, b)
  {
  }

  /** No group comes after one that should come later. */
  lemma SortedByFields(groups: seq<Group>, i: nat, j: nat)
    requires i < j < |groups|
    ensures |Sorted(groups, Priority)| == |groups|
    ensures !ComesFirst(Sorted(groups, Priority)[j], Sorted(groups, Priority)[i])
  {
    SortedIsOrdered(groups, Priority);
    assert |multiset(Sorted(groups, Priority))| == |multiset(groups)|;
    PriorityIsOrder(Sorted(groups, Priority)[j], Sorted(groups, Priority)[i]);
  }

  ghost predicate IsLastRule(rules: seq<Rule>, cause: Cause, i: int) {
    0 <= i < |rules| && rules[i].cause == cause && forall j :: i < j < |rules| ==> rules[j].cause != cause
  }

  /** The advice of a cause is that of the last rule for it; without one the cause's own name, an
      unknown layer, and actionable. */
  lemma {:induction false} AdviceExactly(rules: seq<Rule>, cause: Cause)
    ensures forall i :: IsLastRule(rules, cause, i) ==> AdviceOn(rules, cause) == rules[i].advice
    ensures (forall i :: 0 <= i < |rules| ==> rules[i].cause != cause) ==>
              AdviceOn(rules, cause) == Advice(cause.id, "unknown", true)
  {
    if rules != [] && rules[|rules| - 1].cause != cause {
      var before := rules[..|rules| - 1];
      AdviceExactly(before, cause);
      forall i | IsLastRule(rules, cause, i)
        ensures AdviceOn(rules, cause) == rules[i].advice
      {
        assert IsLastRule(before, cause, i);
      }
    }
  }

  lemma {:induction false} UrlsByAppearance(xs: seq<Seen>, n: nat, u: Url)
    requires n <= |xs|
    ensures DistinctUrls(xs[..n]) <= DistinctUrls(xs)
    ensures u in DistinctUrls(xs) <==> u.text != "" && exists x :: x in xs && x.url == u
    ensures forall i, j :: 0 <= i < j < |DistinctUrls(xs)| ==> DistinctUrls(xs)[i] != DistinctUrls(xs)[j]
    decreases |xs|
  {
    if xs != [] {
      var m := |xs| - 1;
      var before := xs[..m];
      assert xs == before + [xs[m]];
      UrlsByAppearance(before, if n < m then n else m, u);
      if n <= m {
        assert before[..n] == xs[..n];
      } else {
        assert xs[..n] == xs;
      }
    }
  }

  /** A group's sample URLs are the first three distinct URLs of its issues, by first appearance; its
      sample evidence is the first two pieces given. */
  lemma SamplesHold(rules: seq<Rule>, xs: seq<Seen>, c: Cause)
    requires c in AddAll(rules, xs).byCause
    ensures var g, urls, evidence := AddAll(rules, xs).byCause[c], DistinctUrls(Of(xs, c)), AllEvidence(Of(xs, c));
            && g.sampleUrls <= urls && |g.sampleUrls| == (if |urls| <= 3 then |urls| else 3)
            && g.sampleEvidence <= evidence && |g.sampleEvidence| == (if |evidence| <= 2 then |evidence| else 2)
            && forall e :: e in g.sampleEvidence ==> e.text != ""
  {
    GroupsPartition(rules, xs, c);
    EvidenceGiven(Of(xs, c));
  }

  lemma {:induction false} EvidenceGiven(xs: seq<Seen>)
    ensures forall e :: e in AllEvidence(xs) ==> e.text != "" && exists x :: x in xs && x.evidence == e
  {
    if xs != [] {
      EvidenceGiven(xs[..|xs| - 1]);
      assert xs == xs[..|xs| - 1] + [xs[|xs| - 1]];
    }
  }

  /** A rule takes an issue of its category whose message fits; an issue none takes has no cause of
      its own. */
  lemma CauseExactly(rules: seq<Rule>, issue: Issue)
    ensures (forall i :: 0 <= i < |rules| ==>
                           rules[i].category != issue.category || !rules[i].pattern(issue.message))
            ==> Classify(rules, issue) == Cause("uncategorized")
    ensures forall i :: 0 <= i < |rules| && rules[i].category == issue.category && rules[i].pattern(issue.message)
                        && (forall j :: 0 <= j < i ==> !RuleMatches(rules[j], issue))
                        ==> Classify(rules, issue) == rules[i].cause
  {
    ClassifyIsFirstMatch(rules, issue);
  }
}
