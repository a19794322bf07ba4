/**
  The download name of a client config: a short lower-case slug of a display name.

  The backend walks over the runes of the name; the frontend runs a chain of replacements over the UTF-16
  code units of the same name, after trimming a different set of white space.
*/
module ConfigFileName {
  import opened Option

  type Rune = r: int | 0 <= r < 0x11_0000
  type Text = seq<int>

  const DASH := '-' as int
  const MAX_BASE := 64
  const FALLBACK := Codes("wireguard")
  const SUFFIX := Codes(".conf")

  function Codes(s: string): Text {
    seq(|s|, i requires 0 <= i < |s| => s[i] as int)
  }

  predicate Lower(c: int) { 'a' as int <= c <= 'z' as int }
  predicate Upper(c: int) { 'A' as int <= c <= 'Z' as int }
  predicate Digit(c: int) { '0' as int <= c <= '9' as int }
  predicate SlugChar(c: int) { Lower(c) || Digit(c) }
  predicate Kept(c: int) { SlugChar(c) || Upper(c) }

  function Fold(c: int): int { if Upper(c) then c + 32 else c }

  // ----- trimming -----

  predicate CommonSpace(c: int) {
    || 0x09 <= c <= 0x0D || c == 0x20 || c == 0xA0 || c == 0x1680 || 0x2000 <= c <= 0x200A
    || c == 0x2028 || c == 0x2029 || c == 0x202F || c == 0x205F || c == 0x3000
  }

  predicate GoSpace(c: int) { CommonSpace(c) || c == 0x85 }
  predicate JsSpace(c: int) { CommonSpace(c) || c == 0xFEFF }
  predicate IsDash(c: int) { c == DASH }

  function TrimLeft(s: Text, drop: int -> bool): Text {
    if s != [] && drop(s[0]) then TrimLeft(s[1..], drop) else s
  }

  function TrimRight(s: Text, drop: int -> bool): Text {
    if s != [] && drop(s[|s| - 1]) then TrimRight(s[..|s| - 1], drop) else s
  }

  function Trim(s: Text, drop: int -> bool): Text {
    TrimRight(TrimLeft(s, drop), drop)
  }

  function Cap(s: Text): Text {
    if |s| > MAX_BASE then s[..MAX_BASE] else s
  }

  // ----- the backend -----

  /** The text the loop writes for `s`, given whether it has just written a dash. */
  function Collapse(s: Text, lastDash: bool): Text {
    if s == [] then []
    else if Kept(s[0]) then [Fold(s[0])] + Collapse(s[1..], false)
    else (if lastDash then [] else [DASH]) + Collapse(s[1..], true)
  }

  /** The slug of a collapsed text: dashes trimmed, capped, the dash exposed by the cap trimmed again. */
  function Finish(collapsed: Text): Text {
    var base := TrimRight(Cap(Trim(collapsed, IsDash)), IsDash);
    if base == [] then FALLBACK else base
  }

  function Base(name: Text): Text {
    Finish(Collapse(Trim(name, GoSpace), false))
  }

  method ConfigFileName(name: seq<Rune>) returns (file: Text)
    ensures file == Base(name) + SUFFIX
  {
    var b := WriteRunes(Trim(name, GoSpace));
    var slug := Trim(b, IsDash);
    if |slug| > MAX_BASE {
      slug := slug[..MAX_BASE];
    }
    slug := TrimRight(slug, IsDash);
    if slug == [] {
      slug := FALLBACK;
    }
    file := slug + SUFFIX;
  }

  predicate DashBefore(name: Text, i: nat)
    requires i <= |name|
  {
    i > 0 && !Kept(name[i - 1])
  }

  /** What is written for the first `i` runes. */
  function Written(name: Text, i: nat): Text
    requires i <= |name|
  {
    if i == 0 then []
    else
      var b, r := Written(name, i - 1), name[i - 1];
      if Kept(r) then b + [Fold(r)] else if DashBefore(name, i - 1) then b else b + [DASH]
  }

  lemma {:induction false} WrittenThenRest(name: Text, i: nat)
    requires i <= |name|
    ensures Written(name, i) + Collapse(name[i..], DashBefore(name, i)) == Collapse(name, false)
  {
    if i == 0 {
      assert name[0..] == name;
    } else {
      WrittenThenRest(name, i - 1);
      var b, s, rest := Written(name, i - 1), name[i - 1..], Collapse(name[i..], DashBefore(name, i));
      assert s[0] == name[i - 1] && s[1..] == name[i..];
      assert Collapse(s, DashBefore(name, i - 1)) ==
        (if Kept(s[0]) then [Fold(s[0])] else if DashBefore(name, i - 1) then [] else [DASH]) + rest;
    }
  }

  method WriteRunes(name: Text) returns (b: Text)
    ensures b == Collapse(name, false)
  {
    b := [];
    var lastDash := false;
    for i := 0 to |name|
      invariant b == Written(name, i) && lastDash == DashBefore(name, i)
    {
      var r := name[i];
      if Lower(r) {
        b := b + [r];
        lastDash := false;
      } else if Upper(r) {
        b := b + [r + ('a' as int - 'A' as int)];
        lastDash := false;
      } else if Digit(r) {
        b := b + [r];
        lastDash := false;
      } else {
        if !lastDash {
          b := b + [DASH];
          lastDash := true;
        }
      }
    }
    WrittenThenRest(name, |name|);
    assert b + Collapse([], lastDash) == b;
  }

  // ----- the frontend -----

  /** UTF-16: a rune beyond the basic plane becomes two surrogates. */
  function Units(s: seq<Rune>): Text {
    if s == [] then []
    else if s[0] < 0x1_0000 then [s[0]] + Units(s[1..])
    else [0xD800 + (s[0] - 0x1_0000) / 0x400, 0xDC00 + (s[0] - 0x1_0000) % 0x400] + Units(s[1..])
  }

  function FoldAll(s: Text): Text {
    seq(|s|, i requires 0 <= i < |s| => Fold(s[i]))
  }

  function DropRun(s: Text): Text {
    if s != [] && !SlugChar(s[0]) then DropRun(s[1..]) else s
  }

  lemma DropRunShortens(s: Text)
    ensures |DropRun(s)| <= |s|
  {
  }

  /** Every maximal run of characters that do not belong in a slug becomes one dash. */
  function ReplaceRuns(s: Text): Text
    decreases |s|
  {
    if s == [] then []
    else if SlugChar(s[0]) then [s[0]] + ReplaceRuns(s[1..])
    else
      DropRunShortens(s[1..]);
      [DASH] + ReplaceRuns(DropRun(s[1..]))
  }

  function FrontendConfigFileName(name: Option<seq<Rune>>): Text {
    var units := Units(if name.Some? then name.value else []);
    var replaced := ReplaceRuns(FoldAll(Trim(units, JsSpace)));
    var base := TrimRight(Cap(TrimRight(TrimLeft(replaced, IsDash), IsDash)), IsDash);
    (if base == [] then FALLBACK else base) + SUFFIX
  }

  // ----- the two agree -----

  lemma {:induction false} RunsAreCollapsed(s: Text)
    ensures ReplaceRuns(FoldAll(s)) == Collapse(s, false)
    ensures ReplaceRuns(DropRun(FoldAll(s))) == Collapse(s, true)
  {
    if s == [] {
    } else {
      RunsAreCollapsed(s[1..]);
      assert FoldAll(s)[1..] == FoldAll(s[1..]);
      assert SlugChar(FoldAll(s)[0]) <==> Kept(s[0]);
    }
  }

  lemma {:induction false} UnitsCollapseAlike(s: seq<Rune>, lastDash: bool)
    ensures Collapse(Units(s), lastDash) == Collapse(s, lastDash)
  {
    if s != [] {
      var units := Units(s);
      if s[0] < 0x1_0000 {
        UnitsCollapseAlike(s[1..], !Kept(s[0]));
        assert units[1..] == Units(s[1..]);
      } else {
        UnitsCollapseAlike(s[1..], true);
        assert units[1..][1..] == Units(s[1..]);
        assert !Kept(units[0]) && !Kept(units[1..][0]);
      }
    }
  }

  lemma LeadingDashIsLost(s: Text)
    ensures TrimLeft(Collapse(s, false), IsDash) == TrimLeft(Collapse(s, true), IsDash)
  {
    if s != [] && !Kept(s[0]) {
      var c := Collapse(s, false);
      assert c[1..] == Collapse(s[1..], true);
      assert Collapse(s, true) == Collapse(s[1..], true);
    }
  }

  /** Trimming in front, of anything that is not kept, does not show once leading dashes are trimmed. */
  lemma {:induction false} FrontTrimIsLost(s: Text, drop: int -> bool)
    requires forall c | drop(c) :: !Kept(c)
    ensures TrimLeft(Collapse(TrimLeft(s, drop), false), IsDash) == TrimLeft(Collapse(s, false), IsDash)
  {
    if s != [] && drop(s[0]) {
      FrontTrimIsLost(s[1..], drop);
      LeadingDashIsLost(s);
      LeadingDashIsLost(s[1..]);
      assert Collapse(s, true) == Collapse(s[1..], true);
    }
  }

  lemma {:induction false} CollapseAppend(s: Text, c: int, lastDash: bool)
    requires !Kept(c)
    ensures Collapse(s + [c], lastDash) == Collapse(s, lastDash)
         || Collapse(s + [c], lastDash) == Collapse(s, lastDash) + [DASH]
  {
    if s == [] {
      assert [c][1..] == [];
    } else {
      assert (s + [c])[1..] == s[1..] + [c];
      CollapseAppend(s[1..], c, !Kept(s[0]));
    }
  }

  lemma {:induction false} TrailingDashIsLost(s: Text)
    ensures Trim(s + [DASH], IsDash) == Trim(s, IsDash)
  {
    if s == [] {
      assert [DASH][1..] == [];
    } else if s[0] == DASH {
      assert (s + [DASH])[1..] == s[1..] + [DASH];
      TrailingDashIsLost(s[1..]);
    } else {
      assert (s + [DASH])[..|s|] == s;
    }
  }

  /** Trimming at the end, of anything that is not kept, does not show once dashes are trimmed. */
  lemma {:induction false} BackTrimIsLost(s: Text, drop: int -> bool)
    requires forall c | drop(c) :: !Kept(c)
    ensures Trim(Collapse(TrimRight(s, drop), false), IsDash) == Trim(Collapse(s, false), IsDash)
  {
    if s != [] && drop(s[|s| - 1]) {
      var front := s[..|s| - 1];
      BackTrimIsLost(front, drop);
      assert s == front + [s[|s| - 1]];
      CollapseAppend(front, s[|s| - 1], false);
      TrailingDashIsLost(Collapse(front, false));
    }
  }

  lemma TrimIsLost(s: Text, drop: int -> bool)
    requires forall c | drop(c) :: !Kept(c)
    ensures Trim(Collapse(Trim(s, drop), false), IsDash) == Trim(Collapse(s, false), IsDash)
  {
    BackTrimIsLost(TrimLeft(s, drop), drop);
    FrontTrimIsLost(s, drop);
  }

  /** The two helpers produce the same file name for every name. */
  lemma BothSidesAgree(name: seq<Rune>)
    ensures FrontendConfigFileName(Some(name)) == Base(name) + SUFFIX
    ensures FrontendConfigFileName(None) == Base([]) + SUFFIX
  {
    forall s: seq<Rune> ensures FrontendConfigFileName(Some(s)) == Base(s) + SUFFIX {
      RunsAreCollapsed(Trim(Units(s), JsSpace));
      TrimIsLost(Units(s), JsSpace);
      UnitsCollapseAlike(s, false);
      TrimIsLost(s, GoSpace);
    }
    var none: seq<Rune> := [];
    assert FrontendConfigFileName(None) == FrontendConfigFileName(Some(none));
  }

  // ----- what a base looks like -----

  /** Slug characters separated by single dashes, from both ends. */
  ghost predicate Tidy(s: Text) {
    && (forall i | 0 <= i < |s| :: SlugChar(s[i]) || s[i] == DASH)
    && (forall i | 0 <= i < |s| - 1 :: !(s[i] == DASH && s[i + 1] == DASH))
  }

  ghost predicate IsSlug(s: Text) {
    && 1 <= |s| <= MAX_BASE
    && Tidy(s)
    && s[0] != DASH && s[|s| - 1] != DASH
  }

  lemma {:induction false} CollapseIsTidy(s: Text, lastDash: bool)
    ensures Tidy(Collapse(s, lastDash))
    ensures lastDash && Collapse(s, lastDash) != [] ==> Collapse(s, lastDash)[0] != DASH
  {
    if s != [] {
      CollapseIsTidy(s[1..], !Kept(s[0]));
    }
  }

  lemma {:induction false} TrimLeftCuts(s: Text, drop: int -> bool) returns (n: nat)
    ensures n <= |s| && TrimLeft(s, drop) == s[n..]
    ensures n < |s| ==> !drop(s[n])
  {
    n := 0;
    if s != [] && drop(s[0]) {
      n := TrimLeftCuts(s[1..], drop);
      n := n + 1;
    }
  }

  lemma {:induction false} TrimRightCuts(s: Text, drop: int -> bool) returns (n: nat)
    ensures n <= |s| && TrimRight(s, drop) == s[..n]
    ensures n > 0 ==> !drop(s[n - 1])
  {
    n := |s|;
    if s != [] && drop(s[|s| - 1]) {
      n := TrimRightCuts(s[..|s| - 1], drop);
    }
  }

  lemma TidySlice(s: Text, from: nat, to: nat)
    requires Tidy(s) && from <= to <= |s|
    ensures Tidy(s[from..to])
  {
    var t := s[from..to];
    forall i | 0 <= i < |t| - 1 ensures !(t[i] == DASH && t[i + 1] == DASH) {
      assert t[i] == s[from + i] && t[i + 1] == s[from + i + 1];
    }
  }

  lemma TrimmedIsTidy(s: Text)
    requires Tidy(s)
    ensures Tidy(Trim(s, IsDash))
    ensures Trim(s, IsDash) != [] ==> Trim(s, IsDash)[0] != DASH
  {
    var n := TrimLeftCuts(s, IsDash);
    TidySlice(s, n, |s|);
    var m := TrimRightCuts(s[n..], IsDash);
    TidySlice(s[n..], 0, m);
  }

  lemma CappedIsSlug(s: Text)
    requires Tidy(s) && (s != [] ==> s[0] != DASH)
    ensures TrimRight(Cap(s), IsDash) != [] ==> IsSlug(TrimRight(Cap(s), IsDash))
  {
    var capped := Cap(s);
    TidySlice(s, 0, |capped|);
    var k := TrimRightCuts(capped, IsDash);
    TidySlice(capped, 0, k);
  }

  lemma FallbackIsSlug()
    ensures IsSlug(FALLBACK)
  {
    assert FALLBACK == ['w' as int, 'i' as int, 'r' as int, 'e' as int, 'g' as int, 'u' as int, 'a' as int, 'r' as int, 'd' as int];
  }

  /** 1 to 64 characters of a-z, 0-9 and dash, with no leading, trailing or doubled dash. */
  lemma BaseIsSlug(name: Text)
    ensures IsSlug(Base(name))
  {
    var collapsed := Collapse(Trim(name, GoSpace), false);
    CollapseIsTidy(Trim(name, GoSpace), false);
    TrimmedIsTidy(collapsed);
    CappedIsSlug(Trim(collapsed, IsDash));
    FallbackIsSlug();
  }

  lemma {:induction false} TidyCollapsesToItself(s: Text, lastDash: bool)
    requires Tidy(s) && (lastDash && s != [] ==> s[0] != DASH)
    ensures Collapse(s, lastDash) == s
  {
    if s != [] {
      TidyCollapsesToItself(s[1..], !Kept(s[0]));
      assert s == [s[0]] + s[1..];
    }
  }

  /** Slugging a slug changes nothing. */
  lemma SlugIsFixed(s: Text)
    requires IsSlug(s)
    ensures Base(s) == s
  {
    assert Trim(s, GoSpace) == s;
    TidyCollapsesToItself(s, false);
  }

  lemma SlugIsIdempotent(name: Text)
    ensures Base(Base(name)) == Base(name)
  {
    BaseIsSlug(name);
    SlugIsFixed(Base(name));
  }
}
