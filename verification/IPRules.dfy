/**
  The expansion of stored IP-block rules into the drop list of one server.

  The address tests stand for the address library: whether a range contains an address, and the
  family of a range and of an address. The expansion is right for any behaviour of these tests.
*/
module IPRules {
  import opened Option
  import opened Canonical
  import CidrText

  type Uuid = nat

  datatype Rule = Rule(
    id: Uuid, scope: string, user: Option<Uuid>, department: Option<Uuid>,
    cidr: string, group: Option<Uuid>, peers: seq<Uuid>)

  datatype Peer = Peer(id: Uuid, ip: string)
  datatype Entry = Entry(source: string, cidr: string)
  datatype Conflict = Conflict(rule: Uuid, cidr: string, reason: string)

  datatype AddressTests = AddressTests(
    contains: (string, string) -> bool,
    cidrIsIPv4: string -> bool,
    addressIsIPv4: string -> bool)

  /** What one server's expansion is given besides the rules. */
  datatype Context = Context(
    peersByUser: map<Uuid, seq<Peer>>,
    peersByDepartment: map<Uuid, seq<string>>,
    groups: map<Uuid, seq<string>>,
    gateway: string,
    blockPage: string,
    tests: AddressTests)

  function Lookup<T>(m: map<Uuid, seq<T>>, key: Uuid): seq<T> {
    if key in m then m[key] else []
  }

  function Destinations(ctx: Context, rule: Rule): seq<string> {
    if rule.group.Some? then Lookup(ctx.groups, rule.group.value) else [rule.cidr]
  }

  /** Why a destination is never blocked on this server. */
  function Refusal(ctx: Context, dest: string): Option<string> {
    if ctx.gateway != "" && ctx.tests.contains(dest, ctx.gateway) then
      Some("contains the tunnel gateway " + ctx.gateway + " (DNS/block page)")
    else if ctx.blockPage != "" && ctx.tests.contains(dest, ctx.blockPage) then
      Some("contains the block-page/AdGuard address " + ctx.blockPage)
    else None
  }

  predicate UserScoped(rule: Rule) { rule.scope == "user" && rule.user.Some? }

  predicate DepartmentScoped(rule: Rule) { rule.scope == "department" && rule.department.Some? }

  predicate SameFamily(ctx: Context, dest: string, source: string) {
    ctx.tests.cidrIsIPv4(dest) == ctx.tests.addressIsIPv4(source)
  }

  // ----- what a rule means -----

  /** The rule asks for packets from `source` to `dest` to be dropped; the empty source is everybody. */
  ghost predicate Selects(ctx: Context, rule: Rule, source: string, dest: string) {
    if UserScoped(rule) then
      && SameFamily(ctx, dest, source)
      && exists p | p in Lookup(ctx.peersByUser, rule.user.value) ::
           p.ip == source && (rule.peers == [] || p.id in rule.peers)
    else if DepartmentScoped(rule) then
      && SameFamily(ctx, dest, source)
      && source in Lookup(ctx.peersByDepartment, rule.department.value)
    else
      source == ""
  }

  ghost predicate Drops(ctx: Context, rule: Rule, e: Entry) {
    && e.cidr in Destinations(ctx, rule)
    && Refusal(ctx, e.cidr).None?
    && Selects(ctx, rule, e.source, e.cidr)
  }

  /** A group without ranges, or a scoped rule that finds no source on this server. */
  ghost predicate HasNoEffect(ctx: Context, rule: Rule) {
    || (rule.group.Some? && Destinations(ctx, rule) == [])
    || ((UserScoped(rule) || DepartmentScoped(rule)) && forall e :: !Drops(ctx, rule, e))
  }

  // ----- the exact reports -----

  function ConflictsOf(ctx: Context, rule: Rule, dests: seq<string>): seq<Conflict> {
    if dests == [] then []
    else
      var last := dests[|dests| - 1];
      ConflictsOf(ctx, rule, dests[..|dests| - 1]) +
      (match Refusal(ctx, last)
       case Some(reason) => [Conflict(rule.id, last, reason)]
       case None => [])
  }

  function AllConflicts(ctx: Context, rules: seq<Rule>): seq<Conflict> {
    if rules == [] then []
    else
      var last := rules[|rules| - 1];
      AllConflicts(ctx, rules[..|rules| - 1]) + ConflictsOf(ctx, last, Destinations(ctx, last))
  }

  ghost function AllUnexpanded(ctx: Context, rules: seq<Rule>): seq<Uuid> {
    if rules == [] then []
    else
      var last := rules[|rules| - 1];
      AllUnexpanded(ctx, rules[..|rules| - 1]) + (if HasNoEffect(ctx, last) then [last.id] else [])
  }

  lemma {:induction false} ConflictsOfRule(ctx: Context, rule: Rule, dests: seq<string>, c: Conflict)
    ensures c in ConflictsOf(ctx, rule, dests) <==>
              c.rule == rule.id && c.cidr in dests && Refusal(ctx, c.cidr) == Some(c.reason)
  {
    if dests != [] {
      ConflictsOfRule(ctx, rule, dests[..|dests| - 1], c);
      assert dests == dests[..|dests| - 1] + [dests[|dests| - 1]];
    }
  }

  /** `conflicts` holds exactly the refused (rule, destination) pairs, each with its reason. */
  lemma {:induction false} ConflictsAreRefusals(ctx: Context, rules: seq<Rule>, c: Conflict)
    ensures c in AllConflicts(ctx, rules) <==>
              exists rule | rule in rules ::
                c.rule == rule.id && c.cidr in Destinations(ctx, rule) && Refusal(ctx, c.cidr) == Some(c.reason)
  {
    if rules != [] {
      var last := rules[|rules| - 1];
      ConflictsAreRefusals(ctx, rules[..|rules| - 1], c);
      ConflictsOfRule(ctx, last, Destinations(ctx, last), c);
      assert rules == rules[..|rules| - 1] + [last];
    }
  }

  // ----- the drop list -----

  predicate EntryLess(a: Entry, b: Entry) {
    if a.source != b.source then TextLess(a.source, b.source) else TextLess(a.cidr, b.cidr)
  }

  lemma EntryTransitive(a: Entry, b: Entry, c: Entry)
    requires EntryLess(a, b) && EntryLess(b, c)
    ensures EntryLess(a, c)
  {
    if a.source == b.source == c.source {
      TextTransitive(a.cidr, b.cidr, c.cidr);
    } else if a.source != b.source && b.source != c.source {
      TextTransitive(a.source, b.source, c.source);
      if a.source == c.source { TextIrreflexive(a.source); }
    }
  }

  lemma EntryIsStrictTotal()
    ensures StrictTotal(EntryLess)
  {
    forall a ensures !EntryLess(a, a) { TextIrreflexive(a.cidr); }
    forall a, b, c | EntryLess(a, b) && EntryLess(b, c) ensures EntryLess(a, c) { EntryTransitive(a, b, c); }
    forall a, b ensures a == b || EntryLess(a, b) || EntryLess(b, a) {
      TextConnected(a.source, b.source);
      TextConnected(a.cidr, b.cidr);
    }
  }

  ghost predicate Dropped(ctx: Context, rules: seq<Rule>, e: Entry) {
    exists rule | rule in rules :: Drops(ctx, rule, e)
  }

  /** Strictly sorted, and holding exactly the pairs that some rule drops. */
  ghost predicate IsDropList(ctx: Context, rules: seq<Rule>, entries: seq<Entry>) {
    && Sorted(EntryLess, entries)
    && forall e :: e in entries <==> Dropped(ctx, rules, e)
  }

  /** No drop ever covers the tunnel gateway or the block page. */
  lemma ControlPlaneStaysOpen(ctx: Context, rules: seq<Rule>, entries: seq<Entry>, e: Entry)
    requires IsDropList(ctx, rules, entries) && e in entries
    ensures ctx.gateway != "" ==> !ctx.tests.contains(e.cidr, ctx.gateway)
    ensures ctx.blockPage != "" ==> !ctx.tests.contains(e.cidr, ctx.blockPage)
  {
    assert Dropped(ctx, rules, e);
  }

  /** The tests the backend uses, for IPv4. */
  const TEXT_TESTS := AddressTests(CidrText.CidrContains, CidrText.CidrIsIPv4, CidrText.IsIPv4Address)

  /** With them: no dropped network contains the gateway's address or the block page's. */
  lemma ControlPlaneIsReachable(ctx: Context, rules: seq<Rule>, entries: seq<Entry>, e: Entry, n: CidrText.Network, g: nat)
    requires IsDropList(ctx, rules, entries) && e in entries && ctx.tests == TEXT_TESTS
    requires CidrText.ParseNetwork(e.cidr) == CidrText.Ok(n) && g < CidrText.SPACE
    requires CidrText.PrintAddress(g) in {ctx.gateway, ctx.blockPage}
    ensures !n.Contains(g)
  {
    CidrText.ParsePrintedAddress(g);
    assert !CidrText.CidrContains(e.cidr, CidrText.PrintAddress(g)) by {
      assert CidrText.PrintAddress(g) != "";
      ControlPlaneStaysOpen(ctx, rules, entries, e);
    }
  }

  /** The same tests and addresses, and the same members of every group and peer list, in any order and multiplicity. */
  ghost predicate SameMembers(a: Context, b: Context) {
    && a.tests == b.tests && a.gateway == b.gateway && a.blockPage == b.blockPage
    && (forall g :: Elements(Lookup(a.groups, g)) == Elements(Lookup(b.groups, g)))
    && (forall u :: Elements(Lookup(a.peersByUser, u)) == Elements(Lookup(b.peersByUser, u)))
    && (forall d :: Elements(Lookup(a.peersByDepartment, d)) == Elements(Lookup(b.peersByDepartment, d)))
  }

  /** A rule up to its identifier and the order and multiplicity of its peers. */
  datatype Shape = Shape(
    scope: string, user: Option<Uuid>, department: Option<Uuid>, cidr: string, group: Option<Uuid>, peers: set<Uuid>)

  function ShapeOf(rule: Rule): Shape {
    Shape(rule.scope, rule.user, rule.department, rule.cidr, rule.group, Elements(rule.peers))
  }

  function Shapes(rules: seq<Rule>): set<Shape> {
    set rule | rule in rules :: ShapeOf(rule)
  }

  lemma SamePeers(rule: Rule, rule': Rule, id: Uuid)
    requires ShapeOf(rule) == ShapeOf(rule') && (rule.peers == [] || id in rule.peers)
    ensures rule'.peers == [] || id in rule'.peers
  {
    if rule'.peers != [] {
      assert rule'.peers[0] in Elements(rule.peers);
      assert id in Elements(rule.peers);
    }
  }

  lemma SameShapeDropsSame(a: Context, rule: Rule, b: Context, rule': Rule, e: Entry)
    requires SameMembers(a, b) && ShapeOf(rule) == ShapeOf(rule') && Drops(a, rule, e)
    ensures Drops(b, rule', e)
  {
    if rule.group.Some? {
      assert e.cidr in Elements(Lookup(a.groups, rule.group.value));
      assert e.cidr in Elements(Lookup(b.groups, rule.group.value));
    }
    if UserScoped(rule) {
      var p :| p in Lookup(a.peersByUser, rule.user.value) && p.ip == e.source && (rule.peers == [] || p.id in rule.peers);
      assert p in Elements(Lookup(a.peersByUser, rule.user.value));
      assert p in Elements(Lookup(b.peersByUser, rule.user.value));
      SamePeers(rule, rule', p.id);
    } else if DepartmentScoped(rule) {
      assert e.source in Elements(Lookup(a.peersByDepartment, rule.department.value));
      assert e.source in Elements(Lookup(b.peersByDepartment, rule.department.value));
    }
  }

  lemma DroppedThere(a: Context, rules: seq<Rule>, b: Context, rules': seq<Rule>, e: Entry)
    requires SameMembers(a, b) && Shapes(rules) == Shapes(rules') && Dropped(a, rules, e)
    ensures Dropped(b, rules', e)
  {
    var rule :| rule in rules && Drops(a, rule, e);
    assert ShapeOf(rule) in Shapes(rules');
    var rule' :| rule' in rules' && ShapeOf(rule') == ShapeOf(rule);
    SameShapeDropsSame(a, rule, b, rule', e);
  }

  lemma SameMembersSymmetric(a: Context, b: Context)
    requires SameMembers(a, b)
    ensures SameMembers(b, a)
  {
  }

  lemma DroppedAlike(a: Context, rules: seq<Rule>, b: Context, rules': seq<Rule>, e: Entry)
    requires SameMembers(a, b) && Shapes(rules) == Shapes(rules')
    ensures Dropped(a, rules, e) <==> Dropped(b, rules', e)
  {
    if Dropped(a, rules, e) {
      DroppedThere(a, rules, b, rules', e);
    } else if Dropped(b, rules', e) {
      SameMembersSymmetric(a, b);
      DroppedThere(b, rules', a, rules, e);
    }
  }

  lemma SameEntriesSameList(x: seq<Entry>, y: seq<Entry>)
    requires Sorted(EntryLess, x) && Sorted(EntryLess, y) && forall e :: e in x <==> e in y
    ensures x == y
  {
    EntryIsStrictTotal();
    assert Elements(x) == Elements(y);
    SortedIsCanonical(EntryLess, x, y);
  }

  /** The drop list is canonical: reordering or repeating rules, peers or group members changes nothing. */
  lemma DropListIsCanonical(a: Context, b: Context, rules: seq<Rule>, rules': seq<Rule>, x: seq<Entry>, y: seq<Entry>)
    requires SameMembers(a, b) && Shapes(rules) == Shapes(rules')
    requires IsDropList(a, rules, x) && IsDropList(b, rules', y)
    ensures x == y
  {
    forall e ensures e in x <==> e in y {
      DroppedAlike(a, rules, b, rules', e);
      EntryOfList(a, rules, x, e);
      EntryOfList(b, rules', y, e);
    }
    SameEntriesSameList(x, y);
  }

  lemma EntryOfList(ctx: Context, rules: seq<Rule>, entries: seq<Entry>, e: Entry)
    requires IsDropList(ctx, rules, entries)
    ensures e in entries <==> Dropped(ctx, rules, e)
  {
  }

  // ----- the expansion -----

  ghost predicate DropsTo(ctx: Context, rule: Rule, dests: seq<string>, e: Entry) {
    e.cidr in dests && Refusal(ctx, e.cidr).None? && Selects(ctx, rule, e.source, e.cidr)
  }

  ghost predicate DropsSome(ctx: Context, rule: Rule, dests: seq<string>) {
    exists e :: DropsTo(ctx, rule, dests, e)
  }

  lemma RefusedAddsNothing(ctx: Context, rule: Rule, dests: seq<string>, dest: string)
    requires Refusal(ctx, dest).Some?
    ensures forall e :: DropsTo(ctx, rule, dests + [dest], e) <==> DropsTo(ctx, rule, dests, e)
    ensures DropsSome(ctx, rule, dests + [dest]) <==> DropsSome(ctx, rule, dests)
  {
    forall e ensures DropsTo(ctx, rule, dests + [dest], e) <==> DropsTo(ctx, rule, dests, e) {}
  }

  lemma OneMoreDestination(ctx: Context, rule: Rule, dests: seq<string>, dest: string)
    requires Refusal(ctx, dest).None?
    ensures forall e :: DropsTo(ctx, rule, dests + [dest], e) <==>
              DropsTo(ctx, rule, dests, e) || (e.cidr == dest && Selects(ctx, rule, e.source, dest))
    ensures DropsSome(ctx, rule, dests + [dest]) <==>
              DropsSome(ctx, rule, dests) || (exists source :: Selects(ctx, rule, source, dest))
  {
    if e :| DropsTo(ctx, rule, dests, e) {
      assert DropsTo(ctx, rule, dests + [dest], e);
    }
    if source :| Selects(ctx, rule, source, dest) {
      assert DropsTo(ctx, rule, dests + [dest], Entry(source, dest));
    }
    if e :| DropsTo(ctx, rule, dests + [dest], e) {
      assert DropsTo(ctx, rule, dests, e) || Selects(ctx, rule, e.source, dest);
    }
  }

  method ExpandIPBlockRules(ctx: Context, rules: seq<Rule>)
    returns (entries: seq<Entry>, conflicts: seq<Conflict>, unexpanded: seq<Uuid>)
    ensures IsDropList(ctx, rules, entries)
    ensures conflicts == AllConflicts(ctx, rules)
    ensures unexpanded == AllUnexpanded(ctx, rules)
  {
    entries, conflicts, unexpanded := [], [], [];
    for n := 0 to |rules|
      invariant Unique(entries)
      invariant forall e :: e in entries <==> Dropped(ctx, rules[..n], e)
      invariant conflicts == AllConflicts(ctx, rules[..n])
      invariant unexpanded == AllUnexpanded(ctx, rules[..n])
    {
      var rule := rules[n];
      assert rules[..n + 1] == rules[..n] + [rule];
      assert forall e :: Dropped(ctx, rules[..n + 1], e) <==> Dropped(ctx, rules[..n], e) || Drops(ctx, rule, e);
      var refused, noEffect;
      entries, refused, noEffect := ExpandRule(ctx, rule, entries);
      conflicts := conflicts + refused;
      if noEffect {
        unexpanded := unexpanded + [rule.id];
      }
    }
    assert rules[..|rules|] == rules;
    ghost var unsorted := entries;
    EntryIsStrictTotal();
    SortSorts(EntryLess, entries);
    entries := Sort(EntryLess, entries);
    assert forall e :: e in entries <==> e in Elements(entries);
    assert forall e :: e in unsorted <==> e in Elements(unsorted);
  }

  /** One rule: resolve its destinations, then add every source of every destination that is not refused. */
  method ExpandRule(ctx: Context, rule: Rule, before: seq<Entry>)
    returns (entries: seq<Entry>, conflicts: seq<Conflict>, noEffect: bool)
    requires Unique(before)
    ensures Unique(entries)
    ensures forall e :: e in entries <==> e in before || Drops(ctx, rule, e)
    ensures conflicts == ConflictsOf(ctx, rule, Destinations(ctx, rule))
    ensures noEffect <==> HasNoEffect(ctx, rule)
  {
    entries, conflicts := before, [];
    var dests := [rule.cidr];
    if rule.group.Some? {
      dests := Lookup(ctx.groups, rule.group.value);
      if |dests| == 0 {
        return entries, conflicts, true;
      }
    }
    var ruleAdded := false;
    for k := 0 to |dests|
      invariant Unique(entries)
      invariant forall e :: e in entries <==> e in before || DropsTo(ctx, rule, dests[..k], e)
      invariant ruleAdded <==> DropsSome(ctx, rule, dests[..k])
      invariant conflicts == ConflictsOf(ctx, rule, dests[..k])
    {
      var dest := dests[k];
      assert dests[..k + 1] == dests[..k] + [dest];
      var reason := Refusal(ctx, dest);
      if reason.Some? {
        conflicts := conflicts + [Conflict(rule.id, dest, reason.value)];
        RefusedAddsNothing(ctx, rule, dests[..k], dest);
        continue;
      }
      var added;
      entries, added := AddSources(ctx, rule, dest, entries);
      ruleAdded := ruleAdded || added;
      OneMoreDestination(ctx, rule, dests[..k], dest);
    }
    assert dests[..|dests|] == dests == Destinations(ctx, rule);
    assert forall e :: Drops(ctx, rule, e) <==> DropsTo(ctx, rule, dests, e);
    noEffect := (UserScoped(rule) && !ruleAdded) || (DepartmentScoped(rule) && !ruleAdded);
  }

  /** The sources of one destination, each added unless it is there already. */
  method AddSources(ctx: Context, rule: Rule, dest: string, entries: seq<Entry>)
    returns (result: seq<Entry>, added: bool)
    requires Unique(entries)
    ensures Unique(result)
    ensures forall e :: e in result <==> e in entries || (e.cidr == dest && Selects(ctx, rule, e.source, dest))
    ensures added <==> exists source :: Selects(ctx, rule, source, dest)
  {
    result, added := entries, false;
    if UserScoped(rule) {
      var peers := Lookup(ctx.peersByUser, rule.user.value);
      for p := 0 to |peers|
        invariant Unique(result)
        invariant forall e :: e in result <==>
          e in entries || (e.cidr == dest && exists q | 0 <= q < p :: Allowed(ctx, rule, peers[q], e.source, dest))
        invariant added <==> exists q | 0 <= q < p :: Allowed(ctx, rule, peers[q], peers[q].ip, dest)
      {
        var peer := peers[p];
        if rule.peers != [] && peer.id !in rule.peers {
          continue;
        }
        if ctx.tests.cidrIsIPv4(dest) != ctx.tests.addressIsIPv4(peer.ip) {
          continue;
        }
        result := Add(result, Entry(peer.ip, dest));
        added := true;
        assert Allowed(ctx, rule, peers[p], peers[p].ip, dest);
      }
      forall source ensures Selects(ctx, rule, source, dest) <==>
                              exists q | 0 <= q < |peers| :: Allowed(ctx, rule, peers[q], source, dest)
      {
        UserSelects(ctx, rule, source, dest);
      }
      if source :| Selects(ctx, rule, source, dest) {
        var q :| 0 <= q < |peers| && Allowed(ctx, rule, peers[q], source, dest);
        assert Allowed(ctx, rule, peers[q], peers[q].ip, dest);
      }
      assert forall q | 0 <= q < |peers| && Allowed(ctx, rule, peers[q], peers[q].ip, dest) ::
        Selects(ctx, rule, peers[q].ip, dest);
    } else if DepartmentScoped(rule) {
      var ips := Lookup(ctx.peersByDepartment, rule.department.value);
      for p := 0 to |ips|
        invariant Unique(result)
        invariant forall e :: e in result <==>
          e in entries || (e.cidr == dest && e.source in ips[..p] && SameFamily(ctx, dest, e.source))
        invariant added <==> exists source | source in ips[..p] :: SameFamily(ctx, dest, source)
      {
        assert ips[..p + 1] == ips[..p] + [ips[p]];
        if ctx.tests.cidrIsIPv4(dest) != ctx.tests.addressIsIPv4(ips[p]) {
          continue;
        }
        result := Add(result, Entry(ips[p], dest));
        added := true;
        assert ips[p] in ips[..p + 1] && SameFamily(ctx, dest, ips[p]);
      }
      assert ips[..|ips|] == ips;
      assert forall source :: Selects(ctx, rule, source, dest) <==> source in ips && SameFamily(ctx, dest, source);
    } else {
      result := Add(result, Entry("", dest));
      added := true;
      assert Selects(ctx, rule, "", dest);
    }
  }

  predicate Allowed(ctx: Context, rule: Rule, peer: Peer, source: string, dest: string) {
    peer.ip == source && (rule.peers == [] || peer.id in rule.peers) && SameFamily(ctx, dest, source)
  }

  lemma UserSelects(ctx: Context, rule: Rule, source: string, dest: string)
    requires UserScoped(rule)
    ensures var peers := Lookup(ctx.peersByUser, rule.user.value);
            Selects(ctx, rule, source, dest) <==>
              exists q | 0 <= q < |peers| :: Allowed(ctx, rule, peers[q], source, dest)
  {
    var peers := Lookup(ctx.peersByUser, rule.user.value);
    if Selects(ctx, rule, source, dest) {
      var p :| p in peers && p.ip == source && (rule.peers == [] || p.id in rule.peers);
      var q :| 0 <= q < |peers| && peers[q] == p;
      assert Allowed(ctx, rule, peers[q], source, dest);
    }
  }

  method Add(entries: seq<Entry>, e: Entry) returns (result: seq<Entry>)
    requires Unique(entries)
    ensures Unique(result)
    ensures forall x :: x in result <==> x in entries || x == e
  {
    result := if e in entries then entries else entries + [e];
  }
}
