/**
  For whom a domain is blocked: the peer lookups of the rule compiler over the tables they query, and the compiled list
  told from the rules and the rows alone.
*/
module DomainClients {
  import opened DomainRules
  import opened Option

  /** A row of `peers` joined with its user and its server; `department` is the user's. */
  datatype PeerRow = PeerRow(
    id: Uuid, user: Uuid, department: Option<Uuid>, host: string, peerStatus: string, serverStatus: string)

  predicate Online(row: PeerRow) { row.peerStatus == "active" && row.serverStatus == "active" }

  /** The addresses of the online rows with a property, each once. */
  function Hosts(rows: seq<PeerRow>, wanted: PeerRow -> bool): (hosts: seq<string>)
    ensures forall i, j | 0 <= i < j < |hosts| :: hosts[i] != hosts[j]
  {
    if rows == [] then []
    else
      var row, before := rows[|rows| - 1], Hosts(rows[..|rows| - 1], wanted);
      if Online(row) && wanted(row) && row.host !in before then before + [row.host] else before
  }

  lemma {:induction false} HostsExactly(rows: seq<PeerRow>, wanted: PeerRow -> bool, host: string)
    ensures host in Hosts(rows, wanted) <==> exists row | row in rows :: Online(row) && wanted(row) && row.host == host
  {
    if rows != [] {
      var n := |rows| - 1;
      HostsExactly(rows[..n], wanted, host);
      assert rows == rows[..n] + [rows[n]];
      HostsOneMore(rows, wanted, host);
    }
  }

  lemma HostsOneMore(rows: seq<PeerRow>, wanted: PeerRow -> bool, host: string)
    requires rows != []
    ensures var n := |rows| - 1;
            host in Hosts(rows, wanted) <==>
              host in Hosts(rows[..n], wanted) || (Online(rows[n]) && wanted(rows[n]) && rows[n].host == host)
  {
  }

  function UserPeerIPs(rows: seq<PeerRow>, user: Uuid, peers: seq<Uuid>): seq<string> {
    Hosts(rows, (row: PeerRow) => row.user == user && (peers == [] || row.id in peers))
  }

  function DepartmentPeerIPs(rows: seq<PeerRow>, department: Uuid): seq<string> {
    Hosts(rows, (row: PeerRow) => row.department == Some(department))
  }

  /** What the compiler is given when the queries answer. */
  function FromTables(groups: map<Uuid, seq<string>>, normalize: string -> Option<string>, rows: seq<PeerRow>): Context {
    Context(Some(groups), normalize,
            (user: Uuid, peers: seq<Uuid>) => Some(UserPeerIPs(rows, user, peers)),
            (department: Uuid) => Some(DepartmentPeerIPs(rows, department)))
  }

  /** The rule is meant for the peer: as one of its user's, perhaps of a selection, or through the department. */
  predicate MeantFor(rule: Rule, row: PeerRow) {
    || (rule.scope == "user" && rule.user == Some(row.user) && (rule.peers == [] || row.id in rule.peers))
    || (rule.scope == "department" && rule.department.Some? && rule.department == row.department)
  }

  predicate MeantForAll(rule: Rule) {
    !(rule.scope == "user" && rule.user.Some?) && !(rule.scope == "department" && rule.department.Some?)
  }

  ghost predicate Reached(rule: Rule, rows: seq<PeerRow>, host: string) {
    exists row | row in rows :: Online(row) && MeantFor(rule, row) && row.host == host
  }

  lemma AudienceExactly(groups: map<Uuid, seq<string>>, normalize: string -> Option<string>, rows: seq<PeerRow>, rule: Rule,
                        host: string)
    ensures var audience := AudienceOf(FromTables(groups, normalize, rows), rule);
            && (audience.Everybody? <==> MeantForAll(rule))
            && (audience.Clients? ==> audience.ips.Some? && (host in audience.ips.value <==> Reached(rule, rows, host)))
  {
    if rule.scope == "user" && rule.user.Some? {
      UserHosts(rows, rule, host);
    } else if rule.scope == "department" && rule.department.Some? {
      DepartmentHosts(rows, rule, host);
    }
  }

  lemma UserHosts(rows: seq<PeerRow>, rule: Rule, host: string)
    requires rule.scope == "user" && rule.user.Some?
    ensures host in UserPeerIPs(rows, rule.user.value, rule.peers) <==> Reached(rule, rows, host)
  {
    var wanted := (row: PeerRow) => row.user == rule.user.value && (rule.peers == [] || row.id in rule.peers);
    HostsExactly(rows, wanted, host);
    assert forall row | row in rows :: wanted(row) <==> MeantFor(rule, row);
    SameFilter(rows, wanted, (row: PeerRow) => row.user == rule.user.value && (rule.peers == [] || row.id in rule.peers));
  }

  lemma DepartmentHosts(rows: seq<PeerRow>, rule: Rule, host: string)
    requires rule.scope == "department" && rule.department.Some?
    ensures host in DepartmentPeerIPs(rows, rule.department.value) <==> Reached(rule, rows, host)
  {
    var wanted := (row: PeerRow) => row.department == Some(rule.department.value);
    HostsExactly(rows, wanted, host);
    assert forall row | row in rows :: wanted(row) <==> MeantFor(rule, row);
  }

  lemma {:induction false} SameFilter(rows: seq<PeerRow>, wanted: PeerRow -> bool, same: PeerRow -> bool)
    requires forall row | row in rows :: wanted(row) == same(row)
    ensures Hosts(rows, wanted) == Hosts(rows, same)
  {
    if rows != [] { SameFilter(rows[..|rows| - 1], wanted, same); }
  }

  /**
    Compiled from the tables, the list blocks a domain for an address exactly when some rule with that domain is meant
    for an online peer with the address, and for everybody exactly when a rule without user and department has it.
  */
  lemma BlockedExactly(groups: map<Uuid, seq<string>>, normalize: string -> Option<string>, rows: seq<PeerRow>,
                       rules: seq<Rule>, texts: seq<string>, domain: string, host: string)
    requires Enforces(FromTables(groups, normalize, rows), rules, texts)
    requires '^' !in domain && forall raw :: normalize(raw).Some? ==> '^' !in normalize(raw).value
    ensures Text(domain, Some(host)) in texts <==>
              exists rule | rule in rules :: HasDomain(groups, normalize, rule, domain) && Reached(rule, rows, host)
    ensures Text(domain, None) in texts <==>
              exists rule | rule in rules :: HasDomain(groups, normalize, rule, domain) && MeantForAll(rule)
  {
    var ctx := FromTables(groups, normalize, rows);
    RuleListKeepsMeaning(ctx, rules, texts, domain, Some(host));
    RuleListKeepsMeaning(ctx, rules, texts, domain, None);
    forall rule | rule in rules
      ensures Blocks(ctx, rule, domain, Some(host)) <==>
                HasDomain(groups, normalize, rule, domain) && Reached(rule, rows, host)
      ensures Blocks(ctx, rule, domain, None) <==> HasDomain(groups, normalize, rule, domain) && MeantForAll(rule)
    {
      AudienceExactly(groups, normalize, rows, rule, host);
      DomainExactly(groups, normalize, rows, rule, domain);
    }
  }

  /** The rule's own domain, or one of its group's, is this one in normal form. */
  ghost predicate HasDomain(groups: map<Uuid, seq<string>>, normalize: string -> Option<string>, rule: Rule, domain: string) {
    if rule.group.Some? then
      rule.group.value in groups && exists raw | raw in groups[rule.group.value] :: normalize(raw) == Some(domain)
    else normalize(rule.domain) == Some(domain)
  }

  lemma DomainExactly(groups: map<Uuid, seq<string>>, normalize: string -> Option<string>, rows: seq<PeerRow>, rule: Rule,
                      domain: string)
    ensures Valid(FromTables(groups, normalize, rows), rule, domain) <==> HasDomain(groups, normalize, rule, domain)
  {
    if rule.group.None? { assert rule.domain in Domains(FromTables(groups, normalize, rows), rule); }
  }
}
