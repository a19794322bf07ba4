/**
  Which texts denote which IPv4 ranges: what the parser accepts, spelled out, and what it makes of host bits.
*/
module CidrReading {
  import opened CidrText
  import opened Option

  // ----- numbers -----

  function Zeros(z: nat): string {
    seq(z, _ => '0')
  }

  predicate AllDigits(s: string) {
    forall c | c in s :: IsDigit(c)
  }

  lemma OneDigit(c: char)
    requires IsDigit(c)
    ensures Decimal(DigitValue(c)) == [c]
  {
  }

  lemma OneMoreDigit(n: nat, c: char)
    requires n > 0 && IsDigit(c)
    ensures Decimal(10 * n + DigitValue(c)) == Decimal(n) + [c]
  {
    var d := DigitValue(c);
    assert (10 * n + d) / 10 == n && (10 * n + d) % 10 == d;
  }

  lemma DigitsOf(front: string, c: char)
    requires AllDigits(front + [c])
    ensures AllDigits(front) && IsDigit(c) && Value(front + [c]) == 10 * Value(front) + DigitValue(c)
  {
    assert c in front + [c] && forall d | d in front :: d in front + [c];
    assert (front + [c])[..|front|] == front;
  }

  lemma {:induction false} DecimalOfValue(front: string, c: char)
    requires AllDigits(front + [c]) && (front != "" ==> front[0] != '0')
    ensures Decimal(Value(front + [c])) == front + [c]
    decreases |front|
  {
    DigitsOf(front, c);
    if front == "" {
      OneDigit(c);
      assert front + [c] == [c] && Value("") == 0;
    } else {
      var n := |front| - 1;
      assert front[..n] + [front[n]] == front;
      DecimalOfValue(front[..n], front[n]);
      assert Decimal(0)[0] == '0';
      OneMoreDigit(Value(front), c);
    }
  }

  lemma PlainDecimal(s: string)
    requires s != "" && AllDigits(s) && (|s| > 1 ==> s[0] != '0')
    ensures Decimal(Value(s)) == s
  {
    var n := |s| - 1;
    assert s[..n] + [s[n]] == s;
    DecimalOfValue(s[..n], s[n]);
  }

  lemma {:induction false} ValueOfZeros(z: nat, s: string)
    requires AllDigits(s)
    ensures AllDigits(Zeros(z) + s) && Value(Zeros(z) + s) == Value(s)
  {
    var t := Zeros(z) + s;
    if s != "" {
      assert t[..|t| - 1] == Zeros(z) + s[..|s| - 1];
      ValueOfZeros(z, s[..|s| - 1]);
    } else if z > 0 {
      assert t[..|t| - 1] == Zeros(z - 1) + s;
      ValueOfZeros(z - 1, s);
    }
  }

  /** The digits after the leading zeros, of which the last digit is none. */
  lemma {:induction false} LeadingZeros(s: string) returns (z: nat)
    requires s != "" && AllDigits(s)
    ensures z < |s| && s == Zeros(z) + s[z..] && (|s[z..]| > 1 ==> s[z] != '0')
  {
    if |s| == 1 || s[0] != '0' {
      z := 0;
    } else {
      z := LeadingZeros(s[1..]);
      assert s == ['0'] + s[1..];
      assert s[1..][z..] == s[z + 1..];
      assert Zeros(z + 1) == ['0'] + Zeros(z);
      z := z + 1;
    }
  }

  /** Without leading zeros a number has one text. */
  lemma PlainNumber(s: string, limit: nat, n: nat)
    ensures ParseNumber(s, false, limit) == Some(n) <==> n <= limit && s == Decimal(n)
  {
    if ParseNumber(s, false, limit) == Some(n) {
      PlainDecimal(s);
    }
    if n <= limit && s == Decimal(n) { ParseDecimal(n, false, limit); }
  }

  predicate PaddedText(s: string, z: nat, n: nat) { s == Zeros(z) + Decimal(n) }

  lemma PaddedNumber(s: string, limit: nat, n: nat)
    ensures ParseNumber(s, true, limit) == Some(n) <==> n <= limit && exists z: nat :: PaddedText(s, z, n)
  {
    if ParseNumber(s, true, limit) == Some(n) {
      var z := LeadingZeros(s);
      forall c | c in s[z..] ensures IsDigit(c) { assert c in s; }
      PlainDecimal(s[z..]);
      ValueOfZeros(z, s[z..]);
      assert PaddedText(s, z, n);
    }
    if z: nat :| n <= limit && PaddedText(s, z, n) {
      ValueOfZeros(z, Decimal(n));
      ValueOfDecimal(n);
    }
  }

  // ----- addresses -----

  function Join(parts: seq<string>, sep: char): string
    requires parts != []
  {
    if |parts| == 1 then parts[0] else parts[0] + ([sep] + Join(parts[1..], sep))
  }

  lemma {:induction false} SplitJoins(s: string, sep: char)
    ensures Join(Split(s, sep), sep) == s
  {
    if s != "" {
      var rest := Split(s[1..], sep);
      SplitJoins(s[1..], sep);
      assert s == [s[0]] + s[1..];
      if s[0] == sep {
        assert ([""] + rest)[1..] == rest;
      } else {
        assert ([[s[0]] + rest[0]] + rest[1..])[1..] == rest[1..];
      }
    }
  }

  lemma JoinOneMore(p: string, rest: seq<string>)
    requires rest != []
    ensures Join([p] + rest, '.') == p + "." + Join(rest, '.')
  {
    assert ([p] + rest)[1..] == rest;
    assert p + (['.'] + Join(rest, '.')) == p + "." + Join(rest, '.');
  }

  lemma JoinFour(p: string, q: string, r: string, s: string)
    ensures Join([p, q, r, s], '.') == p + "." + (q + "." + (r + "." + s))
  {
    JoinOneMore(r, [s]);
    JoinOneMore(q, [r] + [s]);
    JoinOneMore(p, [q] + ([r] + [s]));
    assert [p, q, r, s] == [p] + ([q] + ([r] + [s]));
  }

  lemma OctetsBack(a: nat, b: nat, c: nat, d: nat)
    requires a < 0x100 && b < 0x100 && c < 0x100 && d < 0x100
    ensures var x := a * 0x100_0000 + b * 0x1_0000 + c * 0x100 + d;
            x < SPACE && x / 0x100_0000 == a && x / 0x1_0000 % 0x100 == b && x / 0x100 % 0x100 == c && x % 0x100 == d
  {
    var x := a * 0x100_0000 + b * 0x1_0000 + c * 0x100 + d;
    var y := a * 0x1_0000 + b * 0x100 + c;
    assert x == y * 0x100 + d;
    assert x / 0x100 == y;
    assert y / 0x100 == a * 0x100 + b;
    assert x / 0x1_0000 == y / 0x100;
  }

  predicate IsOctet(s: string, n: nat) { ParseNumber(s, false, 255) == Some(n) }

  lemma FourNumbers(parts: seq<string>, p: nat, q: nat, r: nat, t: nat)
    requires |parts| == 4 && IsOctet(parts[0], p) && IsOctet(parts[1], q) && IsOctet(parts[2], r) && IsOctet(parts[3], t)
    ensures parts == [Decimal(p), Decimal(q), Decimal(r), Decimal(t)] && p < 0x100 && q < 0x100 && r < 0x100 && t < 0x100
  {
    PlainNumber(parts[0], 255, p);
    PlainNumber(parts[1], 255, q);
    PlainNumber(parts[2], 255, r);
    PlainNumber(parts[3], 255, t);
  }

  lemma ParsedIsPrinted(s: string, p: nat, q: nat, r: nat, t: nat)
    requires Split(s, '.') == [Decimal(p), Decimal(q), Decimal(r), Decimal(t)]
    requires p < 0x100 && q < 0x100 && r < 0x100 && t < 0x100
    ensures var a := p * 0x100_0000 + q * 0x1_0000 + r * 0x100 + t; a < SPACE && s == PrintAddress(a)
  {
    SplitJoins(s, '.');
    OctetsBack(p, q, r, t);
    JoinFour(Decimal(p), Decimal(q), Decimal(r), Decimal(t));
  }

  /** An address has one text: the dotted form that is printed. */
  lemma AddressText(s: string, a: nat)
    requires a < SPACE
    ensures ParseAddress(s) == Some(a) <==> s == PrintAddress(a)
  {
    if ParseAddress(s) == Some(a) {
      var parts := Split(s, '.');
      var p, q := ParseNumber(parts[0], false, 255).value, ParseNumber(parts[1], false, 255).value;
      var r, t := ParseNumber(parts[2], false, 255).value, ParseNumber(parts[3], false, 255).value;
      FourNumbers(parts, p, q, r, t);
      ParsedIsPrinted(s, p, q, r, t);
    }
    if s == PrintAddress(a) { ParsePrintedAddress(a); }
  }

  // ----- ranges -----

  lemma {:induction false} ClearIsPrefix(x: nat, y: nat, low: nat)
    requires Prefix(x, low) == Prefix(y, low)
    ensures Clear(x, low) == Clear(y, low)
  {
    if low > 0 { ClearIsPrefix(x / 2, y / 2, low - 1); }
  }

  /** The host bits of the address do not matter. */
  lemma MaskedExactly(a: nat, n: Network)
    requires a < SPACE && n.Valid()
    ensures Masked(a, n.ones) == n <==> n.Contains(a)
  {
    ClearKeepsPrefix(a, 32 - n.ones);
    if n.Contains(a) { ClearIsPrefix(a, n.address, 32 - n.ones); }
  }

  predicate LongForm(s: string, a: nat, z: nat, ones: nat)
    requires a < SPACE
  {
    s == PrintAddress(a) + "/" + (Zeros(z) + Decimal(ones))
  }

  /** A bare address denotes itself; `address/ones` the network of that length the address is in. */
  ghost predicate Denotes(s: string, n: Network)
    requires n.Valid()
  {
    || (n.ones == 32 && s == PrintAddress(n.address))
    || exists a: nat, z: nat | a < SPACE :: LongForm(s, a, z, n.ones) && n.Contains(a)
  }

  lemma LongFormIsCut(a: string, d: string)
    requires '/' !in a
    ensures var s := a + "/" + d; '/' in s && IndexOf(s, '/') == |a| && s[..|a|] == a && s[|a| + 1..] == d
  {
    CutAtSlash(a, d);
    assert (a + "/" + d)[|a|] == '/';
  }

  lemma ParsesLongForm(s: string, a: nat, z: nat, n: Network)
    requires n.Valid() && a < SPACE && LongForm(s, a, z, n.ones) && n.Contains(a)
    ensures Parse(s) == Ok(n)
  {
    AddressHasNoSlash(a);
    LongFormIsCut(PrintAddress(a), Zeros(z) + Decimal(n.ones));
    AddressText(PrintAddress(a), a);
    assert PaddedText(Zeros(z) + Decimal(n.ones), z, n.ones);
    PaddedNumber(Zeros(z) + Decimal(n.ones), 32, n.ones);
    MaskedExactly(a, n);
  }

  lemma ParsesBare(n: Network)
    requires n.Valid() && n.ones == 32
    ensures Parse(PrintAddress(n.address)) == Ok(n)
  {
    AddressHasNoSlash(n.address);
    AddressText(PrintAddress(n.address), n.address);
    MaskedExactly(n.address, n);
    assert IndexOf(PrintAddress(n.address), '/') == |PrintAddress(n.address)|;
  }

  lemma CutAndJoined(s: string, slash: nat)
    requires slash < |s| && s[slash] == '/'
    ensures s == s[..slash] + "/" + s[slash + 1..]
  {
  }

  lemma LongFormDenotes(s: string, slash: nat, a: nat, n: Network)
    requires slash < |s| && s[slash] == '/' && a < SPACE && n.Valid() && Masked(a, n.ones) == n
    requires ParseAddress(s[..slash]) == Some(a) && ParseNumber(s[slash + 1..], true, 32) == Some(n.ones)
    ensures Denotes(s, n)
  {
    AddressText(s[..slash], a);
    PaddedNumber(s[slash + 1..], 32, n.ones);
    MaskedExactly(a, n);
    var z: nat :| PaddedText(s[slash + 1..], z, n.ones);
    CutAndJoined(s, slash);
    assert LongForm(s, a, z, n.ones);
  }

  lemma BareDenotes(s: string, a: nat, n: Network)
    requires a < SPACE && ParseAddress(s) == Some(a) && n == Masked(a, 32)
    ensures Denotes(s, n)
  {
    AddressText(s, a);
    assert Clear(a, 0) == a;
  }

  lemma ParsedIsDenoted(s: string, n: Network)
    requires n.Valid() && Parse(s) == Ok(n)
    ensures Denotes(s, n)
  {
    var slash := IndexOf(s, '/');
    if slash < |s| {
      LongFormDenotes(s, slash, ParseAddress(s[..slash]).value, n);
    } else {
      BareDenotes(s, ParseAddress(s).value, n);
    }
  }

  /** Parsing accepts exactly the texts that denote a range, and gives that range. */
  lemma ParsesExactly(s: string, n: Network)
    requires n.Valid()
    ensures Parse(s) == Ok(n) <==> Denotes(s, n)
  {
    if Parse(s) == Ok(n) { ParsedIsDenoted(s, n); }
    if Denotes(s, n) {
      if n.ones == 32 && s == PrintAddress(n.address) {
        ParsesBare(n);
      } else {
        var a: nat, z: nat :| a < SPACE && LongForm(s, a, z, n.ones) && n.Contains(a);
        ParsesLongForm(s, a, z, n);
      }
    }
  }

  /** What is wrong with a text that denotes nothing: it is empty, or no network, or no address. */
  lemma ParseFailsExactly(s: string)
    ensures Parse(s).Err? <==> !exists n: Network :: n.Valid() && Denotes(s, n)
    ensures Parse(s).Err? ==> Parse(s).error == if s == "" then Empty else if '/' in s then BadCIDR else BadAddress
  {
    if Parse(s).Ok? {
      ParsesExactly(s, Parse(s).value);
    }
    if n: Network :| n.Valid() && Denotes(s, n) { ParsesExactly(s, n); }
    SlashAt(s);
  }

  lemma {:induction false} SlashAt(s: string)
    ensures IndexOf(s, '/') < |s| <==> '/' in s
  {
    var i := IndexOf(s, '/');
    if i < |s| { assert s[i] == '/'; }
  }

  // ----- normalisation -----

  /** `core` is the text without the white space around it. */
  predicate IsTrimmed(s: string, i: nat, j: nat) {
    && i <= j <= |s|
    && (forall k | 0 <= k < i :: IsSpace(s[k])) && (forall k | j <= k < |s| :: IsSpace(s[k]))
    && (i < j ==> !IsSpace(s[i]) && !IsSpace(s[j - 1]))
  }

  lemma {:induction false} TrimmedAt(s: string) returns (i: nat, j: nat)
    ensures IsTrimmed(s, i, j) && TrimSpace(s) == s[i..j]
    decreases |s|
  {
    if s != "" && IsSpace(s[0]) {
      i, j := TrimmedAt(s[1..]);
      assert s[1..][i..j] == s[i + 1..j + 1];
      i, j := i + 1, j + 1;
    } else if s != "" && IsSpace(s[|s| - 1]) {
      i, j := TrimmedAt(s[..|s| - 1]);
      assert s[..|s| - 1][i..j] == s[i..j];
    } else {
      i, j := 0, |s|;
    }
  }

  /** Trimming takes away exactly the white space at both ends. */
  lemma TrimsExactly(s: string)
    ensures exists i: nat, j: nat :: IsTrimmed(s, i, j) && TrimSpace(s) == s[i..j]
  {
    var i, j := TrimmedAt(s);
  }

  /** A range that may be in a rule: not everything, not the unspecified address, not the loopback block. */
  predicate IsAdmitted(n: Network) {
    n.ones > 0 && n.address != 0 && n.address / 0x100_0000 != 127
  }

  ghost predicate Means(raw: string, n: Network) {
    n.Valid() && IsAdmitted(n) && Denotes(TrimSpace(raw), n)
  }

  /** Why a range may not be in a rule. */
  lemma RefusedExactly(raw: string, e: Error)
    ensures Normalize(raw) == Err(e) <==>
              || Parse(TrimSpace(raw)) == Err(e)
              || exists n: Network | n.Valid() && Denotes(TrimSpace(raw), n) ::
                   !IsAdmitted(n) && e == if n.ones == 0 then DefaultRoute else if n.address == 0 then Unspecified else Loopback
  {
    var parsed := Parse(TrimSpace(raw));
    if parsed.Ok? { ParsesExactly(TrimSpace(raw), parsed.value); }
    if n: Network :| n.Valid() && Denotes(TrimSpace(raw), n) { ParsesExactly(TrimSpace(raw), n); }
    forall n: Network | n.Valid() && Denotes(TrimSpace(raw), n) ensures parsed == Ok(n) { ParsesExactly(TrimSpace(raw), n); }
  }

  /** A text is accepted, and turned into the canonical form of a range, exactly when it denotes that admitted range. */
  lemma NormalizesExactly(raw: string, text: string)
    ensures Normalize(raw) == Ok(text) <==> exists n: Network :: Means(raw, n) && text == Print(n)
  {
    if Normalize(raw) == Ok(text) {
      var n := Parse(TrimSpace(raw)).value;
      ParsesExactly(TrimSpace(raw), n);
      assert Means(raw, n) && text == Print(n);
    }
    if n: Network :| Means(raw, n) && text == Print(n) {
      ParsesExactly(TrimSpace(raw), n);
    }
  }
}
