/**
  Which packets a drop list drops, told from the rules: IPv4 destinations as numbers, sources as the addresses that the
  peers were given.
*/
module PacketDrops {
  import opened IPRules
  import opened Option
  import CidrReading
  import CidrText

  /** The text is an address of the network. */
  ghost predicate InRange(n: CidrText.Network, text: string)
    requires n.Valid()
  {
    exists a: nat | a < CidrText.SPACE :: text == CidrText.PrintAddress(a) && n.Contains(a)
  }

  lemma ContainsExactly(cidr: string, n: CidrText.Network, text: string)
    requires n.Valid() && CidrText.ParseNetwork(cidr) == CidrText.Ok(n)
    ensures CidrText.CidrContains(cidr, text) <==> InRange(n, text)
  {
    if CidrText.ParseAddress(text).Some? {
      CidrReading.AddressText(text, CidrText.ParseAddress(text).value);
    }
    if a: nat :| a < CidrText.SPACE && text == CidrText.PrintAddress(a) && n.Contains(a) {
      CidrReading.AddressText(text, a);
    }
  }

  /** The network holds neither the tunnel's gateway nor the block page. */
  ghost predicate SparesControlPlane(ctx: Context, n: CidrText.Network)
    requires n.Valid()
  {
    !InRange(n, ctx.gateway) && !InRange(n, ctx.blockPage)
  }

  lemma NoEmptyAddress(a: nat)
    requires a < CidrText.SPACE
    ensures CidrText.PrintAddress(a) != ""
  {
  }

  /** A destination is refused exactly when it holds an address of the control plane; unset addresses refuse nothing. */
  lemma RefusedExactly(ctx: Context, cidr: string, n: CidrText.Network)
    requires ctx.tests == TEXT_TESTS && n.Valid() && CidrText.ParseNetwork(cidr) == CidrText.Ok(n)
    ensures Refusal(ctx, cidr).None? <==> SparesControlPlane(ctx, n)
  {
    ContainsExactly(cidr, n, ctx.gateway);
    ContainsExactly(cidr, n, ctx.blockPage);
    forall a: nat | a < CidrText.SPACE ensures CidrText.PrintAddress(a) != "" { NoEmptyAddress(a); }
  }

  /** What a rule asks for is dropped exactly when it spares the control plane. */
  lemma DroppedUnlessProtected(ctx: Context, rules: seq<Rule>, entries: seq<Entry>, rule: Rule, source: string, cidr: string,
                               n: CidrText.Network)
    requires IsDropList(ctx, rules, entries) && ctx.tests == TEXT_TESTS
    requires n.Valid() && CidrText.ParseNetwork(cidr) == CidrText.Ok(n)
    requires rule in rules && cidr in Destinations(ctx, rule) && Selects(ctx, rule, source, cidr)
    ensures Entry(source, cidr) in entries <==> SparesControlPlane(ctx, n)
  {
    RefusedExactly(ctx, cidr, n);
    if Refusal(ctx, cidr).None? {
      assert Drops(ctx, rule, Entry(source, cidr));
    }
    assert Dropped(ctx, rules, Entry(source, cidr)) <==> Refusal(ctx, cidr).None?;
  }

  /** An entry drops the packets to its range from its source, or from everywhere when it names none. */
  predicate Hits(e: Entry, source: string, dest: nat) {
    && (e.source == "" || e.source == source)
    && CidrText.ParseNetwork(e.cidr).Ok? && CidrText.ParseNetwork(e.cidr).value.Contains(dest)
  }

  ghost predicate PacketDropped(entries: seq<Entry>, source: string, dest: nat) {
    exists e | e in entries :: Hits(e, source, dest)
  }

  /** The rule has a range with the destination, spares the control plane with it, and is meant for the source. */
  ghost predicate ForbidsPacket(ctx: Context, rule: Rule, cidr: string, source: string, dest: nat) {
    && cidr in Destinations(ctx, rule)
    && CidrText.ParseNetwork(cidr).Ok? && CidrText.ParseNetwork(cidr).value.Contains(dest)
    && SparesControlPlane(ctx, CidrText.ParseNetwork(cidr).value)
    && (Selects(ctx, rule, source, cidr) || Selects(ctx, rule, "", cidr))
  }

  /** A packet is dropped exactly when some rule forbids it. */
  lemma PacketDroppedExactly(ctx: Context, rules: seq<Rule>, entries: seq<Entry>, source: string, dest: nat)
    requires IsDropList(ctx, rules, entries) && ctx.tests == TEXT_TESTS
    ensures PacketDropped(entries, source, dest) <==>
              exists rule, cidr | rule in rules :: ForbidsPacket(ctx, rule, cidr, source, dest)
  {
    if e :| e in entries && Hits(e, source, dest) {
      assert Dropped(ctx, rules, e);
      var rule :| rule in rules && Drops(ctx, rule, e);
      RefusedExactly(ctx, e.cidr, CidrText.ParseNetwork(e.cidr).value);
      assert ForbidsPacket(ctx, rule, e.cidr, source, dest);
    }
    if rule, cidr :| rule in rules && ForbidsPacket(ctx, rule, cidr, source, dest) {
      var from := if Selects(ctx, rule, source, cidr) then source else "";
      DroppedUnlessProtected(ctx, rules, entries, rule, from, cidr, CidrText.ParseNetwork(cidr).value);
      assert Hits(Entry(from, cidr), source, dest);
    }
  }
}
