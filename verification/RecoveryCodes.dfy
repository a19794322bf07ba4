/**
  Recovery codes: their text, their stored hashes, and using one up.

  A stored hash is either salted with the admin or of the older scheme without salt; a hash stands for exactly the
  text it was made from.
*/
module RecoveryCodes {
  import opened Option

  type AdminId = nat

  datatype Hash = Salted(admin: AdminId, text: string) | Legacy(text: string)

  // ----- text -----

  /** Upper case as far as it can yield a letter or digit that is kept: two letters outside ASCII have ASCII capitals. */
  function Upper(c: char): char {
    if 'a' <= c <= 'z' then (c as int - 32) as char
    else if c as int == 0x131 then 'I'
    else if c as int == 0x17F then 'S'
    else c
  }

  predicate Kept(c: char) { 'A' <= c <= 'Z' || '0' <= c <= '9' }

  function NormalizedChar(c: char): string {
    if Kept(Upper(c)) then [Upper(c)] else ""
  }

  function Normalized(code: string): (text: string)
    ensures forall c | c in text :: Kept(c)
  {
    if code == "" then ""
    else Normalized(code[..|code| - 1]) + NormalizedChar(code[|code| - 1])
  }

  method NormalizeRecoveryCode(code: string) returns (text: string)
    ensures text == Normalized(code)
  {
    text := "";
    for k := 0 to |code|
      invariant text == Normalized(code[..k])
    {
      assert code[..k + 1][..k] == code[..k];
      var r := Upper(code[k]);
      if Kept(r) {
        text := text + [r];
      }
    }
    assert code[..|code|] == code;
  }

  lemma {:induction false} NormalizedConcat(a: string, b: string)
    ensures Normalized(a + b) == Normalized(a) + Normalized(b)
  {
    if b == "" {
      assert a + b == a;
    } else {
      var n := |b| - 1;
      NormalizedConcat(a, b[..n]);
      assert (a + b)[..|a + b| - 1] == a + b[..n];
    }
  }

  lemma {:induction false} KeptIsNormalized(code: string)
    requires forall c | c in code :: Kept(c)
    ensures Normalized(code) == code
  {
    if code != "" {
      KeptIsNormalized(code[..|code| - 1]);
      assert code[|code| - 1] in code;
    }
  }

  lemma DashIsDropped(a: string, b: string)
    ensures Normalized(a + "-" + b) == Normalized(a + b)
  {
    NormalizedConcat(a + "-", b);
    NormalizedConcat(a, b);
    assert (a + "-")[..|a|] == a;
  }

  /** A code is recognised however it is grouped with dashes, and normalising again changes nothing. */
  lemma GroupingIsIgnored(a: string, b: string, c: string)
    ensures Normalized(a + "-" + b + "-" + c) == Normalized(a + b + c)
    ensures Normalized(Normalized(a)) == Normalized(a)
  {
    DashIsDropped(a + "-" + b, c);
    assert a + "-" + b + c == a + "-" + (b + c);
    DashIsDropped(a, b + c);
    assert a + (b + c) == a + b + c;
    KeptIsNormalized(Normalized(a));
  }

  /** A code as it is typed without the shift key. */
  function Lowered(code: string): string {
    seq(|code|, i requires 0 <= i < |code| => if 'A' <= code[i] <= 'Z' then (code[i] as int + 32) as char else code[i])
  }

  /** A code is recognised in small letters as well. */
  lemma {:induction false} CaseIsIgnored(code: string)
    requires forall c | c in code :: Kept(c)
    ensures Normalized(Lowered(code)) == code
  {
    if code != "" {
      var n := |code| - 1;
      CaseIsIgnored(code[..n]);
      assert Lowered(code)[..n] == Lowered(code[..n]);
      assert code[n] in code;
      assert code == code[..n] + [code[n]];
    }
  }

  // ----- stored hashes -----

  predicate Matches(h: Hash, admin: AdminId, text: string) {
    h == Salted(admin, text) || h == Legacy(text)
  }

  predicate Accepts(hashes: seq<Hash>, admin: AdminId, code: string) {
    Normalized(code) != "" && exists h | h in hashes :: Matches(h, admin, Normalized(code))
  }

  function FirstMatch(hashes: seq<Hash>, admin: AdminId, text: string): (h: Option<Hash>)
    ensures h.Some? <==> exists m | m in hashes :: Matches(m, admin, text)
    ensures h.Some? ==> h.value in hashes && Matches(h.value, admin, text)
  {
    if hashes == [] then None
    else if Matches(hashes[0], admin, text) then Some(hashes[0])
    else FirstMatch(hashes[1..], admin, text)
  }

  /** All entries equal to `h` go. */
  function Removed(hashes: seq<Hash>, h: Hash): (rest: seq<Hash>)
    ensures forall m :: m in rest <==> m in hashes && m != h
  {
    if hashes == [] then []
    else (if hashes[0] == h then [] else [hashes[0]]) + Removed(hashes[1..], h)
  }

  function AfterUse(hashes: seq<Hash>, admin: AdminId, code: string): seq<Hash> {
    var match' := FirstMatch(hashes, admin, Normalized(code));
    if Accepts(hashes, admin, code) && match'.Some? then Removed(hashes, match'.value) else hashes
  }

  /** An accepted code, however typed, is accepted again exactly when it was stored under both schemes. */
  lemma AcceptedAgain(hashes: seq<Hash>, admin: AdminId, code: string, again: string)
    requires Accepts(hashes, admin, code) && Normalized(again) == Normalized(code)
    ensures Accepts(AfterUse(hashes, admin, code), admin, again) <==>
              Salted(admin, Normalized(code)) in hashes && Legacy(Normalized(code)) in hashes
  {
    var text := Normalized(code);
    var used := FirstMatch(hashes, admin, text).value;
    var rest := AfterUse(hashes, admin, code);
    if Salted(admin, text) in hashes && Legacy(text) in hashes {
      var other := if used == Legacy(text) then Salted(admin, text) else Legacy(text);
      assert other in rest && Matches(other, admin, text);
    }
  }

  /** Using a code leaves every other code as usable as it was. */
  lemma OthersStay(hashes: seq<Hash>, admin: AdminId, code: string, other: string)
    requires Normalized(other) != Normalized(code)
    ensures Accepts(AfterUse(hashes, admin, code), admin, other) <==> Accepts(hashes, admin, other)
  {
    var rest := AfterUse(hashes, admin, code);
    if h :| h in hashes && Matches(h, admin, Normalized(other)) {
      assert h in rest;
    }
  }
}
