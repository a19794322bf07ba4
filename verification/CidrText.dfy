/**
  The canonical text of IPv4 ranges (section 3.1 of RFC 4632): parse, mask, validate, print.

  A range is denoted by a bare address or by `address/ones`; host bits are masked away. An address is a
  number below 2^32.
*/
module CidrText {
  import opened Option
  import opened Canonical

  // ----- binary prefixes -----

  function Pow2(n: nat): (p: nat)
    ensures p > 0
  {
    if n == 0 then 1 else 2 * Pow2(n - 1)
  }

  /** `x` without its `low` lowest bits. */
  function Prefix(x: nat, low: nat): nat {
    if low == 0 then x else Prefix(x / 2, low - 1)
  }

  /** `x` with its `low` lowest bits cleared. */
  function Clear(x: nat, low: nat): nat {
    if low == 0 then x else 2 * Clear(x / 2, low - 1)
  }

  lemma {:induction false} Pow2Grows(m: nat, n: nat)
    requires m < n
    ensures Pow2(m) < Pow2(n)
  {
    if m < n - 1 { Pow2Grows(m, n - 1); }
  }

  lemma {:induction false} ClearKeepsPrefix(x: nat, low: nat)
    ensures Clear(x, low) <= x
    ensures Prefix(Clear(x, low), low) == Prefix(x, low)
    ensures Clear(Clear(x, low), low) == Clear(x, low)
  {
    if low > 0 {
      ClearKeepsPrefix(x / 2, low - 1);
      assert Clear(x, low) / 2 == Clear(x / 2, low - 1);
    }
  }

  /** The numbers with one prefix are the block that starts where the low bits are clear. */
  lemma {:induction false} PrefixBlock(start: nat, low: nat, x: nat)
    requires Clear(start, low) == start
    ensures Prefix(x, low) == Prefix(start, low) <==> start <= x < start + Pow2(low)
  {
    if low > 0 {
      assert start / 2 == Clear(start / 2, low - 1);
      PrefixBlock(start / 2, low - 1, x / 2);
    }
  }

  lemma {:induction false} BlockFits(start: nat, low: nat, high: nat)
    requires Clear(start, low) == start && start < Pow2(low + high)
    ensures start + Pow2(low) <= Pow2(low + high)
  {
    if low > 0 {
      assert start / 2 == Clear(start / 2, low - 1);
      BlockFits(start / 2, low - 1, high);
    }
  }

  // ----- networks -----

  const SPACE := 0x1_0000_0000

  datatype Network = Network(address: nat, ones: nat)
  {
    predicate Valid() {
      ones <= 32 && address < SPACE && Clear(address, 32 - ones) == address
    }

    predicate Contains(x: nat)
      requires ones <= 32
    {
      Prefix(x, 32 - ones) == Prefix(address, 32 - ones)
    }
  }

  function Masked(address: nat, ones: nat): (n: Network)
    requires address < SPACE && ones <= 32
    ensures n.Valid() && n.ones == ones
    ensures forall x: nat :: n.Contains(x) <==> Prefix(x, 32 - ones) == Prefix(address, 32 - ones)
  {
    ClearKeepsPrefix(address, 32 - ones);
    Network(Clear(address, 32 - ones), ones)
  }

  lemma EndsInSpace(n: Network)
    requires n.Valid()
    ensures n.address + Pow2(32 - n.ones) <= SPACE
  {
    assert Pow2(32) == SPACE by {
      assert Pow2(8) == 0x100;
      assert Pow2(16) == 0x1_0000;
      assert Pow2(24) == 0x100_0000;
    }
    BlockFits(n.address, 32 - n.ones, n.ones);
  }

  lemma SameBlock(m: Network, n: Network, x: nat)
    requires m.Valid() && n.Valid() && (m.Contains(x) <==> n.Contains(x))
    ensures m.address <= x < m.address + Pow2(32 - m.ones) <==> n.address <= x < n.address + Pow2(32 - n.ones)
  {
    PrefixBlock(m.address, 32 - m.ones, x);
    PrefixBlock(n.address, 32 - n.ones, x);
  }

  /** A network that contains whatever another contains has a lower start and a higher end. */
  lemma Encloses(m: Network, n: Network)
    requires m.Valid() && n.Valid()
    requires forall x: nat | x < SPACE :: m.Contains(x) <==> n.Contains(x)
    ensures m.address <= n.address && n.address + Pow2(32 - n.ones) <= m.address + Pow2(32 - m.ones)
  {
    EndsInSpace(n);
    SameBlock(m, n, n.address);
    SameBlock(m, n, n.address + Pow2(32 - n.ones) - 1);
  }

  /** Two networks that contain the same addresses are the same network. */
  lemma SameAddressesSameNetwork(m: Network, n: Network)
    requires m.Valid() && n.Valid()
    requires forall x: nat | x < SPACE :: m.Contains(x) <==> n.Contains(x)
    ensures m == n
  {
    Encloses(m, n);
    Encloses(n, m);
    if m.ones < n.ones { Pow2Grows(32 - n.ones, 32 - m.ones); }
    if n.ones < m.ones { Pow2Grows(32 - m.ones, 32 - n.ones); }
  }

  // ----- decimal text -----

  predicate IsDigit(c: char) { '0' <= c <= '9' }

  function Decimal(n: nat): (s: string)
    ensures s != "" && (forall c | c in s :: IsDigit(c)) && (n > 0 ==> s[0] != '0')
  {
    var d := [('0' as int + n % 10) as char];
    if n < 10 then d else Decimal(n / 10) + d
  }

  function DigitValue(c: char): nat
    requires IsDigit(c)
  {
    c as int - '0' as int
  }

  function Value(s: string): nat
    requires forall c | c in s :: IsDigit(c)
  {
    if s == "" then 0
    else 10 * Value(s[..|s| - 1]) + DigitValue(s[|s| - 1])
  }

  lemma {:induction false} ValueOfDecimal(n: nat)
    ensures Value(Decimal(n)) == n
  {
    var s := Decimal(n);
    if n < 10 {
      assert s[..|s| - 1] == "";
    } else {
      ValueOfDecimal(n / 10);
      assert s[..|s| - 1] == Decimal(n / 10);
    }
  }

  function ParseNumber(s: string, leadingZeros: bool, limit: nat): Option<nat> {
    if s == "" || (exists c | c in s :: !IsDigit(c)) then None
    else if !leadingZeros && |s| > 1 && s[0] == '0' then None
    else if Value(s) > limit then None
    else Some(Value(s))
  }

  lemma ParseDecimal(n: nat, leadingZeros: bool, limit: nat)
    requires n <= limit
    ensures ParseNumber(Decimal(n), leadingZeros, limit) == Some(n)
  {
    ValueOfDecimal(n);
  }

  // ----- addresses and ranges as text -----

  function Split(s: string, sep: char): (parts: seq<string>)
    ensures parts != []
  {
    if s == "" then [""]
    else if s[0] == sep then [""] + Split(s[1..], sep)
    else
      var rest := Split(s[1..], sep);
      [[s[0]] + rest[0]] + rest[1..]
  }

  lemma {:induction false} SplitAt(a: string, sep: char, rest: string)
    requires sep !in a
    ensures Split(a + [sep] + rest, sep) == [a] + Split(rest, sep)
  {
    var s := a + [sep] + rest;
    if a == "" {
      assert s[1..] == rest;
    } else {
      assert s[1..] == a[1..] + [sep] + rest;
      SplitAt(a[1..], sep, rest);
      assert a == [a[0]] + a[1..];
    }
  }

  lemma {:induction false} SplitWhole(a: string, sep: char)
    requires sep !in a
    ensures Split(a, sep) == [a]
  {
    if a != "" {
      SplitWhole(a[1..], sep);
      assert a == [a[0]] + a[1..];
    }
  }

  function ParseAddress(s: string): (r: Option<nat>)
    ensures r.Some? ==> r.value < SPACE
  {
    var parts := Split(s, '.');
    if |parts| != 4 then None
    else
      match (ParseNumber(parts[0], false, 255), ParseNumber(parts[1], false, 255),
             ParseNumber(parts[2], false, 255), ParseNumber(parts[3], false, 255))
      case (Some(a), Some(b), Some(c), Some(d)) => Some(a * 0x100_0000 + b * 0x1_0000 + c * 0x100 + d)
      case _ => None
  }

  function PrintAddress(a: nat): string
    requires a < SPACE
  {
    Decimal(a / 0x100_0000) + "." + (Decimal(a / 0x1_0000 % 0x100) + "." +
      (Decimal(a / 0x100 % 0x100) + "." + Decimal(a % 0x100)))
  }

  lemma SplitFour(p: string, q: string, r: string, s: string)
    requires '.' !in p && '.' !in q && '.' !in r && '.' !in s
    ensures Split(p + "." + (q + "." + (r + "." + s)), '.') == [p, q, r, s]
  {
    SplitWhole(s, '.');
    SplitAt(r, '.', s);
    SplitAt(q, '.', r + "." + s);
    SplitAt(p, '.', q + "." + (r + "." + s));
  }

  lemma OctetsOf(a: nat)
    requires a < SPACE
    ensures a / 0x100_0000 < 0x100
    ensures a == a / 0x100_0000 * 0x100_0000 + a / 0x1_0000 % 0x100 * 0x1_0000 + a / 0x100 % 0x100 * 0x100 + a % 0x100
  {
    var x := a / 0x100;
    var y := x / 0x100;
    var z := y / 0x100;
    assert a / 0x1_0000 == y;
    assert a / 0x100_0000 == z;
  }

  lemma ParsePrintedAddress(a: nat)
    requires a < SPACE
    ensures ParseAddress(PrintAddress(a)) == Some(a)
  {
    OctetsOf(a);
    var p, q, r, s := a / 0x100_0000, a / 0x1_0000 % 0x100, a / 0x100 % 0x100, a % 0x100;
    SplitFour(Decimal(p), Decimal(q), Decimal(r), Decimal(s));
    ParseDecimal(p, false, 255);
    ParseDecimal(q, false, 255);
    ParseDecimal(r, false, 255);
    ParseDecimal(s, false, 255);
  }

  function Print(n: Network): string
    requires n.Valid()
  {
    PrintAddress(n.address) + "/" + Decimal(n.ones)
  }

  function IndexOf(s: string, c: char): (i: nat)
    ensures i <= |s| && (forall k | 0 <= k < i :: s[k] != c) && (i < |s| ==> s[i] == c)
  {
    if s == "" || s[0] == c then 0 else 1 + IndexOf(s[1..], c)
  }

  datatype Error = Empty | BadCIDR | BadAddress | DefaultRoute | Unspecified | Loopback | NoEntries | TooMany

  datatype Result<T> = Ok(value: T) | Err(error: Error)

  /** The range a text denotes, before validation. A bare address is a range of one. */
  function Parse(s: string): (r: Result<Network>)
    ensures r.Ok? ==> r.value.Valid()
  {
    if s == "" then Err(Empty)
    else
      var slash := IndexOf(s, '/');
      if slash < |s| then
        match (ParseAddress(s[..slash]), ParseNumber(s[slash + 1..], true, 32))
        case (Some(a), Some(ones)) => Ok(Masked(a, ones))
        case _ => Err(BadCIDR)
      else
        match ParseAddress(s)
        case Some(a) => Ok(Masked(a, 32))
        case None => Err(BadAddress)
  }

  /** A range in the long form only: a bare address is not a network here. */
  function ParseNetwork(cidr: string): (r: Result<Network>)
    ensures r.Ok? ==> r.value.Valid()
  {
    if '/' in cidr then Parse(cidr) else Err(BadCIDR)
  }

  // ----- tests on text -----

  predicate CidrContains(cidr: string, address: string) {
    ParseNetwork(cidr).Ok? && ParseAddress(address).Some? && ParseNetwork(cidr).value.Contains(ParseAddress(address).value)
  }

  predicate CidrIsIPv4(cidr: string) { ParseNetwork(cidr).Ok? }

  predicate IsIPv4Address(s: string) { ParseAddress(s).Some? }

  // ----- printing and parsing -----

  lemma AddressHasNoSlash(a: nat)
    requires a < SPACE
    ensures '/' !in PrintAddress(a)
  {
    var p, q, r, s := Decimal(a / 0x100_0000), Decimal(a / 0x1_0000 % 0x100), Decimal(a / 0x100 % 0x100), Decimal(a % 0x100);
    assert '/' !in p && '/' !in q && '/' !in r && '/' !in s;
  }

  lemma CutAtSlash(a: string, d: string)
    requires '/' !in a
    ensures var s := a + "/" + d; IndexOf(s, '/') == |a| && s[..|a|] == a && s[|a| + 1..] == d
  {
    var s := a + "/" + d;
    assert s[|a|] == '/' && forall k | 0 <= k < |a| :: s[k] == a[k];
  }

  lemma ParseParts(n: Network, a: string, d: string)
    requires n.Valid() && '/' !in a
    requires ParseAddress(a) == Some(n.address) && ParseNumber(d, true, 32) == Some(n.ones)
    ensures Parse(a + "/" + d) == Ok(n)
  {
    CutAtSlash(a, d);
    assert Masked(n.address, n.ones) == n;
  }

  /** Printing then parsing is the identity. */
  lemma ParsePrinted(n: Network)
    requires n.Valid()
    ensures Parse(Print(n)) == Ok(n)
  {
    AddressHasNoSlash(n.address);
    ParsePrintedAddress(n.address);
    ParseDecimal(n.ones, true, 32);
    ParseParts(n, PrintAddress(n.address), Decimal(n.ones));
  }

  // ----- normalisation -----

  predicate IsSpace(c: char) {
    || '\t' <= c <= '\r' || c == ' ' || c as int in {0x85, 0xA0, 0x1680, 0x2028, 0x2029, 0x202F, 0x205F, 0x3000}
    || 0x2000 <= c as int <= 0x200A
  }

  function TrimSpace(s: string): string {
    if s != "" && IsSpace(s[0]) then TrimSpace(s[1..])
    else if s != "" && IsSpace(s[|s| - 1]) then TrimSpace(s[..|s| - 1])
    else s
  }

  function Validate(n: Network): Option<Error> {
    if n.ones == 0 then Some(DefaultRoute)
    else if n.address == 0 then Some(Unspecified)
    else if n.address / 0x100_0000 == 127 then Some(Loopback)
    else None
  }

  function Normalize(raw: string): Result<string> {
    match Parse(TrimSpace(raw))
    case Err(e) => Err(e)
    case Ok(n) =>
      match Validate(n)
      case Some(e) => Err(e)
      case None => Ok(Print(n))
  }

  /** The addresses a text stands for. */
  predicate Covers(raw: string, x: nat) {
    var parsed := Parse(TrimSpace(raw));
    parsed.Ok? && parsed.value.Contains(x)
  }

  lemma PrintedIsTrimmed(n: Network)
    requires n.Valid()
    ensures TrimSpace(Print(n)) == Print(n)
  {
    var s := Print(n);
    assert s[0] == PrintAddress(n.address)[0] == Decimal(n.address / 0x100_0000)[0];
    assert IsDigit(s[0]);
    assert s[|s| - 1] == Decimal(n.ones)[|Decimal(n.ones)| - 1];
    assert IsDigit(s[|s| - 1]);
  }

  /** Normalising a canonical text changes nothing, and canonical text covers what the input covered. */
  lemma NormalizeIsIdempotent(raw: string)
    ensures Normalize(raw).Ok? ==>
              && Normalize(Normalize(raw).value) == Normalize(raw)
              && forall x: nat :: Covers(Normalize(raw).value, x) <==> Covers(raw, x)
  {
    if Normalize(raw).Ok? {
      var n := Parse(TrimSpace(raw)).value;
      PrintedIsTrimmed(n);
      ParsePrinted(n);
    }
  }

  /** Two accepted inputs have the same canonical text exactly when they cover the same addresses. */
  lemma SameTextSameNetwork(a: string, b: string)
    ensures Normalize(a).Ok? && Normalize(b).Ok? ==>
              (Normalize(a) == Normalize(b) <==> forall x: nat | x < SPACE :: Covers(a, x) <==> Covers(b, x))
  {
    if Normalize(a).Ok? && Normalize(b).Ok? {
      var m, n := Parse(TrimSpace(a)).value, Parse(TrimSpace(b)).value;
      if Normalize(a) == Normalize(b) {
        ParsePrinted(m);
        ParsePrinted(n);
        assert m == n;
      }
      if forall x: nat | x < SPACE :: Covers(a, x) <==> Covers(b, x) {
        forall x: nat | x < SPACE ensures m.Contains(x) <==> n.Contains(x) {
          assert Covers(a, x) <==> Covers(b, x);
        }
        SameAddressesSameNetwork(m, n);
      }
    }
  }

  // ----- lists -----

  predicate IsSeparator(c: char) { c in {'\n', '\r', ',', ';', ' ', '\t'} }

  /** The maximal runs of characters that are not separators. */
  function Fields(s: string): seq<string> {
    if s == "" then []
    else if IsSeparator(s[0]) then Fields(s[1..])
    else if |s| == 1 || IsSeparator(s[1]) then [[s[0]]] + Fields(s[1..])
    else
      var rest := Fields(s[1..]);
      if rest == [] then [[s[0]]] else [[s[0]] + rest[0]] + rest[1..]
  }

  predicate SeparatorFree(s: string) {
    forall c | c in s :: !IsSeparator(c)
  }

  function Joined(fields: seq<string>): string {
    if fields == [] then "" else fields[0] + Joined(fields[1..])
  }

  function WithoutSeparators(s: string): string {
    if s == "" then "" else (if IsSeparator(s[0]) then "" else [s[0]]) + WithoutSeparators(s[1..])
  }

  ghost predicate AreFields(fields: seq<string>) {
    forall f | f in fields :: f != "" && SeparatorFree(f)
  }

  lemma OneMoreField(f: string, fields: seq<string>)
    requires AreFields(fields) && f != "" && SeparatorFree(f)
    ensures AreFields([f] + fields)
    ensures Joined([f] + fields) == f + Joined(fields)
  {
    assert ([f] + fields)[1..] == fields;
  }

  lemma StaysSeparatorFree(c: char, f: string)
    requires SeparatorFree(f) && !IsSeparator(c)
    ensures SeparatorFree([c] + f)
  {
  }

  lemma InFront(c: char, f: string, rest: string)
    ensures [c] + f + rest == [c] + (f + rest)
  {
  }

  lemma FirstGrows(c: char, f: string, rest: seq<string>)
    requires AreFields([f] + rest) && !IsSeparator(c)
    ensures AreFields([[c] + f] + rest)
    ensures Joined([[c] + f] + rest) == [c] + Joined([f] + rest)
  {
    assert f in [f] + rest && forall g | g in rest :: g in [f] + rest;
    StaysSeparatorFree(c, f);
    OneMoreField(f, rest);
    OneMoreField([c] + f, rest);
    InFront(c, f, Joined(rest));
  }

  /** The fields are non-empty and free of separators, and in order they hold every other character. */
  lemma {:induction false} FieldsHoldEverything(s: string)
    ensures AreFields(Fields(s))
    ensures Joined(Fields(s)) == WithoutSeparators(s)
  {
    if s != "" {
      FieldsHoldEverything(s[1..]);
      if !IsSeparator(s[0]) {
        OneMoreField([s[0]], Fields(s[1..]));
        if Fields(s[1..]) != [] {
          var rest := Fields(s[1..]);
          assert rest == [rest[0]] + rest[1..];
          FirstGrows(s[0], rest[0], rest[1..]);
        }
      }
    }
  }

  lemma {:induction false} WholeField(a: string)
    requires SeparatorFree(a) && a != ""
    ensures Fields(a) == [a]
  {
    assert a[0] in a;
    if |a| == 1 {
      assert a[1..] == "" && [a[0]] == a;
    } else {
      assert a[1] in a;
      WholeField(a[1..]);
      assert [a[0]] + a[1..] == a && [a[1..]][1..] == [];
    }
  }

  lemma {:induction false} FieldThenRest(a: string, b: string)
    requires SeparatorFree(a) && a != "" && b != "" && IsSeparator(b[0])
    ensures Fields(a + b) == [a] + Fields(b)
  {
    var s := a + b;
    assert a[0] in a && s[0] == a[0] && s[1..] == a[1..] + b;
    if |a| == 1 {
      assert a[1..] == "" && s[1..] == b && s[1] == b[0] && [a[0]] == a;
    } else {
      assert a[1] in a && s[1] == a[1];
      FieldThenRest(a[1..], b);
      assert ([a[1..]] + Fields(b))[1..] == Fields(b);
      assert [a[0]] + a[1..] == a;
    }
  }

  /** A text without separators is one field, and a separator ends the field before it. */
  lemma SeparatorEndsField(a: string, c: char, rest: string)
    requires SeparatorFree(a) && IsSeparator(c)
    ensures Fields(a) == if a == "" then [] else [a]
    ensures Fields(a + ([c] + rest)) == Fields(a) + Fields(rest)
  {
    var b := [c] + rest;
    assert b[1..] == rest;
    if a == "" {
      assert a + b == b;
    } else {
      WholeField(a);
      FieldThenRest(a, b);
    }
  }

  function Expand(input: seq<string>): seq<string> {
    if input == [] then [] else Expand(input[..|input| - 1]) + Fields(input[|input| - 1])
  }

  method ExpandInput(input: seq<string>) returns (raw: seq<string>)
    ensures raw == Expand(input)
  {
    raw := [];
    for k := 0 to |input|
      invariant raw == Expand(input[..k])
    {
      assert input[..k + 1][..k] == input[..k];
      raw := raw + Fields(input[k]);
    }
    assert input[..|input|] == input;
  }

  /** `out` holds exactly the canonical texts of the items, all of which have one. */
  ghost predicate AreNormalForms(items: seq<string>, out: seq<string>) {
    && (forall item | item in items :: Normalize(item).Ok? && Normalize(item).value in out)
    && (forall text | text in out :: exists item | item in items :: Normalize(item) == Ok(text))
  }

  ghost predicate SomeRefused(items: seq<string>) {
    exists item | item in items :: Normalize(item).Err?
  }

  lemma OneRefused(items: seq<string>, k: nat)
    requires k < |items| && Normalize(items[k]).Err?
    ensures SomeRefused(items)
  {
  }

  lemma NormalMeansNoneRefused(items: seq<string>, out: seq<string>)
    requires AreNormalForms(items, out)
    ensures !SomeRefused(items)
  {
  }

  function Added(out: seq<string>, text: string): seq<string> {
    if text in out then out else out + [text]
  }

  lemma NormalFormsGrow(items: seq<string>, out: seq<string>, item: string, text: string)
    requires Unique(out) && AreNormalForms(items, out) && Normalize(item) == Ok(text)
    ensures Unique(Added(out, text)) && AreNormalForms(items + [item], Added(out, text))
  {
    var more := items + [item];
    assert item in more;
    forall t | t in Added(out, text) ensures exists i | i in more :: Normalize(i) == Ok(t) {
      if t in out {
        var i :| i in items && Normalize(i) == Ok(t);
        assert i in more;
      }
    }
  }

  /** The error is that of the first item that is refused. */
  ghost predicate IsFirstRefusal(items: seq<string>, e: Error) {
    exists k | 0 <= k < |items| ::
      Normalize(items[k]) == Err(e) && forall j | 0 <= j < k :: Normalize(items[j]).Ok?
  }

  function First<T>(items: seq<T>, wanted: T -> bool): (k: nat)
    ensures k <= |items| && (k < |items| ==> wanted(items[k]))
    ensures forall j | 0 <= j < k :: !wanted(items[j])
  {
    if items == [] || wanted(items[0]) then 0 else 1 + First(items[1..], wanted)
  }

  lemma FirstIs<T>(items: seq<T>, wanted: T -> bool, k: nat)
    requires k < |items| && wanted(items[k]) && forall j | 0 <= j < k :: !wanted(items[j])
    ensures First(items, wanted) == k
  {
    var f := First(items, wanted);
    assert !(f < k) && !(k < f);
  }

  lemma FirstStays<T>(items: seq<T>, item: T, wanted: T -> bool)
    requires First(items, wanted) < |items|
    ensures First(items + [item], wanted) == First(items, wanted)
  {
    FirstIs(items + [item], wanted, First(items, wanted));
  }

  lemma FirstIsNew<T>(items: seq<T>, item: T, wanted: T -> bool)
    requires wanted(item) && forall other | other in items :: !wanted(other)
    ensures First(items + [item], wanted) == |items|
  {
    assert forall j | 0 <= j < |items| :: (items + [item])[j] in items;
    FirstIs(items + [item], wanted, |items|);
  }

  /** Where a canonical text is first given. */
  function FirstGiven(items: seq<string>, text: string): nat {
    First(items, Gives(text))
  }

  function Gives(text: string): string -> bool {
    item => Normalize(item) == Ok(text)
  }

  ghost predicate Increasing(out: seq<string>, place: string -> nat) {
    forall i, j | 0 <= i < j < |out| :: place(out[i]) < place(out[j])
  }

  /** The entries keep the order in which they are first given. */
  ghost predicate InOrder(items: seq<string>, out: seq<string>) {
    forall i, j | 0 <= i < j < |out| :: FirstGiven(items, out[i]) < FirstGiven(items, out[j])
  }

  lemma FirstOfOld(items: seq<string>, out: seq<string>, item: string, t: string)
    requires AreNormalForms(items, out) && t in out
    ensures FirstGiven(items, t) < |items| && FirstGiven(items + [item], t) == FirstGiven(items, t)
  {
    var given :| given in items && Normalize(given) == Ok(t);
    assert Gives(t)(given);
    FirstStays(items, item, Gives(t));
  }

  lemma FirstOfNew(items: seq<string>, out: seq<string>, item: string, text: string)
    requires AreNormalForms(items, out) && text !in out && Normalize(item) == Ok(text)
    ensures FirstGiven(items + [item], text) == |items|
  {
    FirstIsNew(items, item, Gives(text));
  }

  lemma OneMorePlace(out: seq<string>, text: string, place: string -> nat, place': string -> nat, n: nat)
    requires Increasing(out, place) && forall t | t in out :: place'(t) == place(t) < n
    requires text !in out ==> place'(text) == n
    ensures Increasing(Added(out, text), place')
  {
    forall i, j | 0 <= i < j < |Added(out, text)| ensures place'(Added(out, text)[i]) < place'(Added(out, text)[j]) {
      assert out[i] in out && (j < |out| ==> out[j] in out);
    }
  }

  lemma OrderGrows(items: seq<string>, out: seq<string>, item: string, text: string)
    requires AreNormalForms(items, out) && InOrder(items, out) && Normalize(item) == Ok(text)
    ensures InOrder(items + [item], Added(out, text))
  {
    var place, place' := t => FirstGiven(items, t), t => FirstGiven(items + [item], t);
    forall t | t in out ensures place'(t) == place(t) < |items| { FirstOfOld(items, out, item, t); }
    if text !in out { FirstOfNew(items, out, item, text); }
    OneMorePlace(out, text, place, place', |items|);
  }

  ghost predicate IsNormalizedList(input: seq<string>, out: seq<string>) {
    Unique(out) && AreNormalForms(Expand(input), out)
  }

  /**
    One canonical entry per network, covering what the input covers; refused for no entries, more than
    500, or an entry that is refused.
  */
  method NormalizeCIDRList(input: seq<string>) returns (r: Result<seq<string>>)
    ensures r.Err? <==>
              || Expand(input) == [] || |Expand(input)| > 500
              || SomeRefused(Expand(input))
    ensures r.Ok? ==> IsNormalizedList(input, r.value) && InOrder(Expand(input), r.value)
    ensures Expand(input) == [] ==> r == Err(NoEntries)
    ensures |Expand(input)| > 500 ==> r == Err(TooMany)
    ensures 0 < |Expand(input)| <= 500 && r.Err? ==> IsFirstRefusal(Expand(input), r.error)
  {
    var raw := ExpandInput(input);
    if |raw| == 0 {
      return Err(NoEntries);
    }
    if |raw| > 500 {
      return Err(TooMany);
    }
    r := NormalizeAll(raw);
  }

  method NormalizeAll(raw: seq<string>) returns (r: Result<seq<string>>)
    ensures r.Err? <==> SomeRefused(raw)
    ensures r.Ok? ==> Unique(r.value) && AreNormalForms(raw, r.value) && InOrder(raw, r.value)
    ensures r.Err? ==> IsFirstRefusal(raw, r.error)
  {
    var seen: set<string>, out: seq<string> := {}, [];
    for k := 0 to |raw|
      invariant Unique(out) && (forall text :: text in seen <==> text in out)
      invariant AreNormalForms(raw[..k], out) && InOrder(raw[..k], out)
    {
      var cidr := Normalize(raw[k]);
      if cidr.Err? {
        OneRefused(raw, k);
        return Err(cidr.error);
      }
      assert raw[..k + 1] == raw[..k] + [raw[k]];
      NormalFormsGrow(raw[..k], out, raw[k], cidr.value);
      OrderGrows(raw[..k], out, raw[k], cidr.value);
      if cidr.value !in seen {
        seen := seen + {cidr.value};
        out := out + [cidr.value];
      }
    }
    assert raw[..|raw|] == raw;
    NormalMeansNoneRefused(raw, out);
    r := Ok(out);
  }

  predicate CoveredBy(texts: seq<string>, x: nat) {
    exists text | text in texts :: Covers(text, x)
  }

  /** No two entries of a normalised list stand for the same network. */
  lemma ListHasNoTwins(input: seq<string>, out: seq<string>, i: nat, j: nat)
    requires IsNormalizedList(input, out) && i < j < |out|
    ensures exists x: nat | x < SPACE :: Covers(out[i], x) != Covers(out[j], x)
  {
    EntryIsCanonical(input, out, out[i]);
    EntryIsCanonical(input, out, out[j]);
    SameTextSameNetwork(out[i], out[j]);
  }

  lemma EntryIsCanonical(input: seq<string>, out: seq<string>, text: string)
    ensures IsNormalizedList(input, out) && text in out ==> Normalize(text) == Ok(text)
  {
    if !IsNormalizedList(input, out) || text !in out {
      return;
    }
    var item :| item in Expand(input) && Normalize(item) == Ok(text);
    NormalizeIsIdempotent(item);
  }

  /** A normalised list covers exactly the addresses its input covers. */
  lemma ListCoversInput(input: seq<string>, out: seq<string>, x: nat)
    requires IsNormalizedList(input, out)
    ensures CoveredBy(out, x) <==> CoveredBy(Expand(input), x)
  {
    if text :| text in out && Covers(text, x) {
      var item :| item in Expand(input) && Normalize(item) == Ok(text);
      NormalizeIsIdempotent(item);
      assert Covers(item, x);
    }
    if item :| item in Expand(input) && Covers(item, x) {
      NormalizeIsIdempotent(item);
      var text := Normalize(item).value;
      assert text in out && Covers(text, x);
    }
  }
}
