/**
  The compilation of stored domain rules into the text rules of the DNS filter, and the comparison of
  what was compiled with what the filter holds.

  The domain normaliser, the domains of the groups and the two peer lookups are parameters: a normaliser may reject
  a value, and a query may fail.
*/
module DomainRules {
  import opened Option
  import opened Canonical

  type Uuid = nat

  datatype Rule = Rule(
    scope: string, user: Option<Uuid>, department: Option<Uuid>,
    domain: string, group: Option<Uuid>, peers: seq<Uuid>)

  datatype Context = Context(
    groups: Option<map<Uuid, seq<string>>>,
    normalize: string -> Option<string>,
    userIPs: (Uuid, seq<Uuid>) -> Option<seq<string>>,
    departmentIPs: Uuid -> Option<seq<string>>)

  datatype Built = Failed | Built(rules: seq<string>, invalid: seq<string>, unexpanded: nat)

  function Domains(ctx: Context, rule: Rule): seq<string> {
    if rule.group.None? then [rule.domain]
    else if ctx.groups.Some? && rule.group.value in ctx.groups.value then ctx.groups.value[rule.group.value]
    else []
  }

  predicate Valid(ctx: Context, rule: Rule, domain: string) {
    exists raw | raw in Domains(ctx, rule) :: ctx.normalize(raw) == Some(domain)
  }

  /** The clients a rule is narrowed to: `None` for a rule that applies to everybody. */
  datatype Audience = Everybody | Clients(ips: Option<seq<string>>)

  function AudienceOf(ctx: Context, rule: Rule): Audience {
    if rule.scope == "user" && rule.user.Some? then Clients(ctx.userIPs(rule.user.value, rule.peers))
    else if rule.scope == "department" && rule.department.Some? then Clients(ctx.departmentIPs(rule.department.value))
    else Everybody
  }

  // ----- what a rule means, and its text -----

  /** The rule blocks `domain` for `client`, or for everybody when there is no client. */
  predicate Blocks(ctx: Context, rule: Rule, domain: string, client: Option<string>) {
    && Valid(ctx, rule, domain)
    && match AudienceOf(ctx, rule)
       case Everybody => client.None?
       case Clients(ips) => client.Some? && ips.Some? && client.value in ips.value
  }

  function Text(domain: string, client: Option<string>): string {
    if client.None? then "||" + domain + "^" else "||" + domain + "^$client=" + client.value
  }

  lemma {:induction false} UpToCaret(a: string, b: string, x: string, y: string)
    requires '^' !in a && '^' !in b && a + "^" + x == b + "^" + y
    ensures a == b && x == y
  {
    if a == "" || b == "" {
      assert (a + "^" + x)[0] == (b + "^" + y)[0];
      assert a == "" && b == "";
      assert (a + "^" + x)[1..] == x && (b + "^" + y)[1..] == y;
    } else {
      assert (a + "^" + x)[0] == a[0] && (b + "^" + y)[0] == b[0];
      assert (a + "^" + x)[1..] == a[1..] + "^" + x && (b + "^" + y)[1..] == b[1..] + "^" + y;
      UpToCaret(a[1..], b[1..], x, y);
      assert a == [a[0]] + a[1..] && b == [b[0]] + b[1..];
    }
  }

  /** The text of a rule determines the domain and the client it blocks. */
  lemma TextIsInjective(d: string, c: Option<string>, d': string, c': Option<string>)
    requires '^' !in d && '^' !in d' && Text(d, c) == Text(d', c')
    ensures d == d' && c == c'
  {
    var x := if c.None? then "" else "$client=" + c.value;
    var y := if c'.None? then "" else "$client=" + c'.value;
    assert Text(d, c) == "||" + (d + "^" + x) && Text(d', c') == "||" + (d' + "^" + y);
    assert Text(d, c)[2..] == d + "^" + x && Text(d', c')[2..] == d' + "^" + y;
    UpToCaret(d, d', x, y);
    if c.Some? {
      assert x[8..] == c.value && (c'.Some? ==> y[8..] == c'.value);
    }
  }

  // ----- the compiled list -----

  ghost predicate Compiles(ctx: Context, rule: Rule, text: string) {
    exists domain, client :: Blocks(ctx, rule, domain, client) && text == Text(domain, client)
  }

  ghost predicate Compiled(ctx: Context, rules: seq<Rule>, text: string) {
    exists rule | rule in rules :: Compiles(ctx, rule, text)
  }

  /** Holding exactly the texts of what some rule blocks. */
  ghost predicate Enforces(ctx: Context, rules: seq<Rule>, texts: seq<string>) {
    forall text :: text in texts <==> Compiled(ctx, rules, text)
  }

  ghost predicate IsRuleList(ctx: Context, rules: seq<Rule>, texts: seq<string>) {
    Sorted(TextLess, texts) && Enforces(ctx, rules, texts)
  }

  /** Such texts keep the meaning: a pair's text is among them exactly when some rule blocks the pair. */
  lemma RuleListKeepsMeaning(ctx: Context, rules: seq<Rule>, texts: seq<string>, domain: string, client: Option<string>)
    requires Enforces(ctx, rules, texts)
    requires '^' !in domain && forall raw :: ctx.normalize(raw).Some? ==> '^' !in ctx.normalize(raw).value
    ensures Text(domain, client) in texts <==> exists rule | rule in rules :: Blocks(ctx, rule, domain, client)
  {
    var text := Text(domain, client);
    if text in texts {
      assert Compiled(ctx, rules, text);
      var rule :| rule in rules && Compiles(ctx, rule, text);
      var d, c :| Blocks(ctx, rule, d, c) && text == Text(d, c);
      TextIsInjective(domain, client, d, c);
    }
    if rule :| rule in rules && Blocks(ctx, rule, domain, client) {
      assert Compiles(ctx, rule, text);
      assert Compiled(ctx, rules, text);
    }
  }

  /** What a rule comes down to: its domains and its clients (nothing when they cannot be looked up), without order. */
  datatype Reach = All | These(ips: Option<set<string>>)
  datatype Meaning = Meaning(domains: set<string>, reach: Reach)

  function MeaningOf(ctx: Context, rule: Rule): Meaning {
    Meaning(Elements(Domains(ctx, rule)),
            match AudienceOf(ctx, rule)
            case Everybody => All
            case Clients(None) => These(None)
            case Clients(Some(ips)) => These(Some(Elements(ips))))
  }

  function Meanings(ctx: Context, rules: seq<Rule>): set<Meaning> {
    set rule | rule in rules :: MeaningOf(ctx, rule)
  }

  lemma SameMeaningBlocksSame(a: Context, rule: Rule, b: Context, rule': Rule, domain: string, client: Option<string>)
    requires a.normalize == b.normalize && MeaningOf(a, rule) == MeaningOf(b, rule') && Blocks(a, rule, domain, client)
    ensures Blocks(b, rule', domain, client)
  {
    var raw :| raw in Domains(a, rule) && a.normalize(raw) == Some(domain);
    assert raw in Elements(Domains(a, rule));
    assert raw in Elements(Domains(b, rule'));
    if AudienceOf(a, rule).Clients? {
      assert client.value in Elements(AudienceOf(a, rule).ips.value);
      assert client.value in Elements(AudienceOf(b, rule').ips.value);
    }
  }

  lemma CompiledThere(a: Context, rules: seq<Rule>, b: Context, rules': seq<Rule>, text: string)
    requires a.normalize == b.normalize && Meanings(a, rules) == Meanings(b, rules') && Compiled(a, rules, text)
    ensures Compiled(b, rules', text)
  {
    var rule :| rule in rules && Compiles(a, rule, text);
    var domain, client :| Blocks(a, rule, domain, client) && text == Text(domain, client);
    assert MeaningOf(a, rule) in Meanings(b, rules');
    var rule' :| rule' in rules' && MeaningOf(b, rule') == MeaningOf(a, rule);
    SameMeaningBlocksSame(a, rule, b, rule', domain, client);
    assert Compiles(b, rule', text);
  }

  /** The list is canonical: reordering or repeating rules, group members, or the peers behind a rule changes nothing. */
  lemma RuleListIsCanonical(a: Context, b: Context, rules: seq<Rule>, rules': seq<Rule>, x: seq<string>, y: seq<string>)
    requires a.normalize == b.normalize && Meanings(a, rules) == Meanings(b, rules')
    requires IsRuleList(a, rules, x) && IsRuleList(b, rules', y)
    ensures x == y
  {
    forall text ensures Compiled(a, rules, text) <==> Compiled(b, rules', text) {
      if Compiled(a, rules, text) { CompiledThere(a, rules, b, rules', text); }
      if Compiled(b, rules', text) { CompiledThere(b, rules', a, rules, text); }
    }
    TextIsStrictTotal();
    assert Elements(x) == Elements(y);
    SortedIsCanonical(TextLess, x, y);
  }

  // ----- the exact reports -----

  predicate HasValid(ctx: Context, rule: Rule) {
    exists raw | raw in Domains(ctx, rule) :: ctx.normalize(raw).Some?
  }

  /** The compilation stops at the first rule whose peers cannot be looked up. */
  predicate LookupFails(ctx: Context, rule: Rule) {
    HasValid(ctx, rule) && AudienceOf(ctx, rule) == Clients(None)
  }

  predicate Unexpanded(ctx: Context, rule: Rule) {
    || (rule.group.Some? && Domains(ctx, rule) == [])
    || (HasValid(ctx, rule) && AudienceOf(ctx, rule) == Clients(Some([])))
  }

  function CountUnexpanded(ctx: Context, rules: seq<Rule>): nat {
    if rules == [] then 0
    else CountUnexpanded(ctx, rules[..|rules| - 1]) + (if Unexpanded(ctx, rules[|rules| - 1]) then 1 else 0)
  }

  function Rejected(ctx: Context, domains: seq<string>): seq<string> {
    if domains == [] then []
    else
      var last := domains[|domains| - 1];
      Rejected(ctx, domains[..|domains| - 1]) + (if ctx.normalize(last).None? then [last] else [])
  }

  function AllRejected(ctx: Context, rules: seq<Rule>): seq<string> {
    if rules == [] then []
    else AllRejected(ctx, rules[..|rules| - 1]) + Rejected(ctx, Domains(ctx, rules[|rules| - 1]))
  }

  // ----- the builder -----

  method BuildAdGuardRules(ctx: Context, rules: seq<Rule>) returns (built: Built)
    ensures built.Failed? <==> ctx.groups.None? || exists rule | rule in rules :: LookupFails(ctx, rule)
    ensures built.Built? ==>
              && IsRuleList(ctx, rules, built.rules)
              && built.invalid == AllRejected(ctx, rules)
              && built.unexpanded == CountUnexpanded(ctx, rules)
  {
    if ctx.groups.None? {
      return Failed;
    }
    var texts: seq<string>, invalid: seq<string>, unexpanded := [], [], 0;
    for n := 0 to |rules|
      invariant Unique(texts)
      invariant forall text :: text in texts <==> Compiled(ctx, rules[..n], text)
      invariant invalid == AllRejected(ctx, rules[..n])
      invariant unexpanded == CountUnexpanded(ctx, rules[..n])
      invariant forall rule | rule in rules[..n] :: !LookupFails(ctx, rule)
    {
      assert rules[..n + 1] == rules[..n] + [rules[n]];
      assert forall text :: Compiled(ctx, rules[..n + 1], text) <==>
        Compiled(ctx, rules[..n], text) || Compiles(ctx, rules[n], text);
      var failed, rejected, skipped;
      failed, texts, rejected, skipped := CompileRule(ctx, rules[n], texts);
      if failed {
        return Failed;
      }
      invalid := invalid + rejected;
      unexpanded := unexpanded + (if skipped then 1 else 0);
    }
    assert rules[..|rules|] == rules;
    TextIsStrictTotal();
    SortSorts(TextLess, texts);
    var sorted := Sort(TextLess, texts);
    assert forall text :: text in sorted <==> text in Elements(sorted);
    assert forall text :: text in texts <==> text in Elements(texts);
    built := Built(sorted, invalid, unexpanded);
  }

  method CompileRule(ctx: Context, rule: Rule, texts: seq<string>)
    returns (failed: bool, result: seq<string>, rejected: seq<string>, skipped: bool)
    requires Unique(texts)
    ensures failed <==> LookupFails(ctx, rule)
    ensures !failed ==>
              && Unique(result)
              && (forall text :: text in result <==> text in texts || Compiles(ctx, rule, text))
              && rejected == Rejected(ctx, Domains(ctx, rule))
              && (skipped <==> Unexpanded(ctx, rule))
  {
    failed, result, rejected, skipped := false, texts, [], false;
    if rule.group.Some? && |Domains(ctx, rule)| == 0 {
      skipped := true;
      return;
    }
    var valid;
    valid, rejected := Normalized(ctx, Domains(ctx, rule));
    assert forall domain :: domain in valid <==> Valid(ctx, rule, domain);
    if |valid| == 0 {
      assert forall raw | raw in Domains(ctx, rule) && ctx.normalize(raw).Some? :: ctx.normalize(raw).value in valid;
      return;
    }
    assert HasValid(ctx, rule) by { assert Valid(ctx, rule, valid[0]); }
    match AudienceOf(ctx, rule)
    case Everybody =>
      result := AddAll(texts, valid, None);
      forall text ensures Compiles(ctx, rule, text) <==> exists d | d in valid :: text == Text(d, None) {
        if d :| d in valid && text == Text(d, None) {
          assert Blocks(ctx, rule, d, None);
        }
      }
    case Clients(None) =>
      failed := true;
    case Clients(Some(ips)) =>
      if |ips| == 0 {
        skipped := true;
        return;
      }
      result := AddForClients(texts, valid, ips);
      forall text ensures Compiles(ctx, rule, text) <==>
                            exists d, ip | d in valid && ip in ips :: text == Text(d, Some(ip))
      {
        if d, ip :| d in valid && ip in ips && text == Text(d, Some(ip)) {
          assert Blocks(ctx, rule, d, Some(ip));
        }
      }
  }

  method Normalized(ctx: Context, domains: seq<string>) returns (valid: seq<string>, rejected: seq<string>)
    ensures forall domain :: domain in valid <==> exists raw | raw in domains :: ctx.normalize(raw) == Some(domain)
    ensures rejected == Rejected(ctx, domains)
  {
    valid, rejected := [], [];
    for k := 0 to |domains|
      invariant forall domain :: domain in valid <==>
        exists raw | raw in domains[..k] :: ctx.normalize(raw) == Some(domain)
      invariant rejected == Rejected(ctx, domains[..k])
    {
      assert domains[..k + 1] == domains[..k] + [domains[k]];
      match ctx.normalize(domains[k])
      case Some(domain) => valid := valid + [domain];
      case None => rejected := rejected + [domains[k]];
    }
    assert domains[..|domains|] == domains;
  }

  method AddAll(texts: seq<string>, valid: seq<string>, client: Option<string>) returns (result: seq<string>)
    requires Unique(texts)
    ensures Unique(result)
    ensures forall text :: text in result <==> text in texts || exists d | d in valid :: text == Text(d, client)
  {
    result := texts;
    for k := 0 to |valid|
      invariant Unique(result)
      invariant forall text :: text in result <==>
        text in texts || exists d | d in valid[..k] :: text == Text(d, client)
    {
      assert valid[..k + 1] == valid[..k] + [valid[k]];
      var text := Text(valid[k], client);
      if text !in result {
        result := result + [text];
      }
    }
    assert valid[..|valid|] == valid;
  }

  method AddForClients(texts: seq<string>, valid: seq<string>, ips: seq<string>) returns (result: seq<string>)
    requires Unique(texts)
    ensures Unique(result)
    ensures forall text :: text in result <==>
              text in texts || exists d, ip | d in valid && ip in ips :: text == Text(d, Some(ip))
  {
    result := texts;
    for k := 0 to |ips|
      invariant Unique(result)
      invariant forall text :: text in result <==>
        text in texts || exists d, ip | d in valid && ip in ips[..k] :: text == Text(d, Some(ip))
    {
      assert ips[..k + 1] == ips[..k] + [ips[k]];
      result := AddAll(result, valid, Some(ips[k]));
    }
    assert ips[..|ips|] == ips;
  }

  // ----- the comparison with what the filter holds -----

  method DiffRuleSets(expected: seq<string>, actual: seq<string>) returns (missing: nat, unexpected: nat)
    ensures missing == |Elements(expected) - Elements(actual)|
    ensures unexpected == |Elements(actual) - Elements(expected)|
  {
    var want := Collect(expected);
    var have := Collect(actual);
    missing := CountOutside(want, have);
    unexpected := CountOutside(have, want);
  }

  method Collect(rules: seq<string>) returns (held: set<string>)
    ensures held == Elements(rules)
  {
    held := {};
    for k := 0 to |rules|
      invariant held == Elements(rules[..k])
    {
      assert rules[..k + 1] == rules[..k] + [rules[k]];
      held := held + {rules[k]};
    }
    assert rules[..|rules|] == rules;
  }

  lemma OneMore(a: set<string>, b: set<string>, todo: set<string>, rule: string)
    requires todo <= a && rule in todo
    ensures |(a - (todo - {rule})) - b| == |(a - todo) - b| + (if rule in b then 0 else 1)
  {
    var done := (a - todo) - b;
    if rule in b {
      assert (a - (todo - {rule})) - b == done;
    } else {
      assert (a - (todo - {rule})) - b == done + {rule};
    }
  }

  method CountOutside(a: set<string>, b: set<string>) returns (count: nat)
    ensures count == |a - b|
  {
    count := 0;
    var todo := a;
    while todo != {}
      invariant todo <= a && count == |(a - todo) - b|
      decreases todo
    {
      var rule :| rule in todo;
      OneMore(a, b, todo, rule);
      todo := todo - {rule};
      if rule !in b {
        count := count + 1;
      }
    }
    assert (a - todo) - b == a - b;
  }

  /** A difference of (0, 0) means the same rules, whatever their order. */
  lemma NoDifferenceMeansSameRules(expected: seq<string>, actual: seq<string>)
    ensures (|Elements(expected) - Elements(actual)| == 0 && |Elements(actual) - Elements(expected)| == 0) <==>
              (forall rule :: rule in expected <==> rule in actual)
  {
    assert forall rule :: rule in expected <==> rule in Elements(expected);
    assert forall rule :: rule in actual <==> rule in Elements(actual);
    if Elements(expected) - Elements(actual) == {} && Elements(actual) - Elements(expected) == {} {
      assert Elements(expected) == Elements(actual);
    }
    if forall rule :: rule in expected <==> rule in actual {
      assert Elements(expected) == Elements(actual);
    }
  }

  // ----- pushing the list and reading it back -----

  datatype FilterStatus = FilterStatus(filtering: bool, protected: bool, rules: seq<string>)

  /** How the requests of one sync end; a status is none when the filter does not answer. */
  datatype Filter = Filter(
    ping: bool, before: Option<FilterStatus>, enable: bool, resume: bool, push: bool, after: Option<FilterStatus>)

  datatype Request = EnableFiltering | ResumeProtection | ReplaceRules(rules: seq<string>)

  datatype SyncError =
    | NotLoaded | NotBuilt | Unreachable | NotEnabled | NotResumed | NotPushed | NotReadBack | Differs | StillPaused

  /** The rules were loaded and compiled. */
  predicate Compilable(ctx: Context, loaded: Option<seq<Rule>>) {
    loaded.Some? && ctx.groups.Some? && forall rule | rule in loaded.value :: !LookupFails(ctx, rule)
  }

  predicate Asks(filter: Filter) { filter.ping && filter.before.Some? }

  predicate Filters(filter: Filter) {
    Asks(filter) && (filter.before.value.filtering || filter.enable)
  }

  predicate Protects(filter: Filter) {
    Filters(filter) && (filter.before.value.protected || filter.resume)
  }

  /** A filter that does not filter or is paused is healed first; only a healed one gets the list. */
  function Requests(texts: seq<string>, filter: Filter): seq<Request> {
    (if Asks(filter) && !filter.before.value.filtering then [EnableFiltering] else []) +
    (if Filters(filter) && !filter.before.value.protected then [ResumeProtection] else []) +
    (if Protects(filter) then [ReplaceRules(texts)] else [])
  }

  lemma ReadBackEnforces(ctx: Context, rules: seq<Rule>, texts: seq<string>, actual: seq<string>)
    requires IsRuleList(ctx, rules, texts)
    ensures Enforces(ctx, rules, actual) <==> forall text :: text in texts <==> text in actual
  {
  }

  method Verify(texts: seq<string>, after: Option<FilterStatus>) returns (err: Option<SyncError>)
    ensures err.None? <==>
              after.Some? && after.value.protected && forall text :: text in texts <==> text in after.value.rules
  {
    if after.None? {
      return Some(NotReadBack);
    }
    var missing, unexpected := DiffRuleSets(texts, after.value.rules);
    NoDifferenceMeansSameRules(texts, after.value.rules);
    err := if missing > 0 || unexpected > 0 then Some(Differs) else if after.value.protected then None else Some(StillPaused);
  }

  class RuleSync {
    var sent: seq<Request>
    var lastErr: Option<SyncError>

    /**
      One sync. It succeeds exactly when the filter takes the list and then, protected, reports just the texts of
      what the loaded rules block, in any order.
    */
    method SyncDomainRules(ctx: Context, loaded: Option<seq<Rule>>, filter: Filter) returns (err: Option<SyncError>)
      modifies this
      ensures lastErr == err
      ensures err.None? <==>
                && Compilable(ctx, loaded) && Protects(filter) && filter.push
                && filter.after.Some? && filter.after.value.protected
                && Enforces(ctx, loaded.value, filter.after.value.rules)
      ensures !Compilable(ctx, loaded) ==> sent == old(sent)
      ensures Compilable(ctx, loaded) ==>
                exists texts :: IsRuleList(ctx, loaded.value, texts) && sent == old(sent) + Requests(texts, filter)
    {
      if loaded.None? {
        err, lastErr := Some(NotLoaded), Some(NotLoaded);
        return;
      }
      var built := BuildAdGuardRules(ctx, loaded.value);
      if built.Failed? {
        err, lastErr := Some(NotBuilt), Some(NotBuilt);
        return;
      }
      err := Push(built.rules, filter);
      assert IsRuleList(ctx, loaded.value, built.rules);
      if err.None? {
        err := Verify(built.rules, filter.after);
        if filter.after.Some? {
          ReadBackEnforces(ctx, loaded.value, built.rules, filter.after.value.rules);
        }
      }
      lastErr := err;
    }

    /** Heals a filter that does not filter or is paused, and replaces its rules. */
    method Push(texts: seq<string>, filter: Filter) returns (err: Option<SyncError>)
      modifies this`sent
      ensures err.None? <==> Protects(filter) && filter.push
      ensures sent == old(sent) + Requests(texts, filter)
    {
      if !filter.ping || filter.before.None? {
        return Some(Unreachable);
      }
      if !filter.before.value.filtering {
        sent := sent + [EnableFiltering];
        if !filter.enable {
          return Some(NotEnabled);
        }
      }
      if !filter.before.value.protected {
        sent := sent + [ResumeProtection];
        if !filter.resume {
          return Some(NotResumed);
        }
      }
      sent := sent + [ReplaceRules(texts)];
      err := if filter.push then None else Some(NotPushed);
    }
  }
}
