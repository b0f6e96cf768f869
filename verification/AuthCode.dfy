/** The box an authentication code is typed into: every change of its text is cleaned. */
module AuthCode {
  import opened Text

  datatype Accepts = Totp | Either

  predicate IsDigit(c: char) {
    '0' <= c <= '9'
  }

  predicate IsLower(c: char) {
    'a' <= c <= 'z'
  }

  predicate IsUpper(c: char) {
    'A' <= c <= 'Z'
  }

  /** The characters that are not stripped. */
  predicate Kept(c: char, accepts: Accepts) {
    IsDigit(c) || (accepts == Either && (IsLower(c) || IsUpper(c)))
  }

  function Max(accepts: Accepts): nat {
    if accepts == Totp then 6 else 8
  }

  function Strip(raw: string, accepts: Accepts): string {
    if raw == "" then "" else (if Kept(raw[0], accepts) then [raw[0]] else "") + Strip(raw[1..], accepts)
  }

  /** Upper case of what stripping leaves. */
  function Upper(c: char): char {
    if IsLower(c) then (c as int - 32) as char else c
  }

  function UpperAll(s: string): string {
    if s == "" then "" else [Upper(s[0])] + UpperAll(s[1..])
  }

  function Take(s: string, n: nat): string {
    if |s| <= n then s else s[..n]
  }

  function CleanCode(raw: string, accepts: Accepts): string {
    var stripped := Strip(raw, accepts);
    Take(if accepts == Either then UpperAll(stripped) else stripped, Max(accepts))
  }

  /** What one character leaves in the code. */
  function Cleaned(c: char, accepts: Accepts): string {
    if !Kept(c, accepts) then "" else if accepts == Either then [Upper(c)] else [c]
  }

  /** The code without its length limit, one character at a time. */
  function Normal(raw: string, accepts: Accepts): string {
    if raw == "" then "" else Cleaned(raw[0], accepts) + Normal(raw[1..], accepts)
  }

  lemma {:induction false} StripThenUpper(raw: string)
    ensures UpperAll(Strip(raw, Either)) == Normal(raw, Either)
  {
    if raw != "" {
      StripThenUpper(raw[1..]);
      if Kept(raw[0], Either) {
        assert Strip(raw, Either)[1..] == Strip(raw[1..], Either);
      } else {
        assert Strip(raw, Either) == Strip(raw[1..], Either);
      }
    }
  }

  lemma {:induction false} StripOnly(raw: string)
    ensures Strip(raw, Totp) == Normal(raw, Totp)
  {
    if raw != "" { StripOnly(raw[1..]); }
  }

  lemma CleanIsNormal(raw: string, accepts: Accepts)
    ensures CleanCode(raw, accepts) == Take(Normal(raw, accepts), Max(accepts))
  {
    StripThenUpper(raw);
    StripOnly(raw);
  }

  lemma {:induction false} NormalConcat(x: string, y: string, accepts: Accepts)
    ensures Normal(x + y, accepts) == Normal(x, accepts) + Normal(y, accepts)
  {
    hide Kept, Upper;
    if x == "" {
      assert x + y == y;
    } else {
      NormalConcat(x[1..], y, accepts);
      assert (x + y)[1..] == x[1..] + y;
      Assoc(Cleaned(x[0], accepts), Normal(x[1..], accepts), Normal(y, accepts));
    }
  }

  /** The characters a clean code is made of. */
  predicate Clean(c: char, accepts: Accepts) {
    IsDigit(c) || (accepts == Either && IsUpper(c))
  }

  lemma {:induction false} NormalIsClean(raw: string, accepts: Accepts)
    ensures forall c :: c in Normal(raw, accepts) ==> Clean(c, accepts)
  {
    if raw != "" { NormalIsClean(raw[1..], accepts); }
  }

  lemma {:induction false} NormalKeepsClean(s: string, accepts: Accepts)
    requires forall c :: c in s ==> Clean(c, accepts)
    ensures Normal(s, accepts) == s
  {
    if s != "" {
      NormalKeepsClean(s[1..], accepts);
      assert Clean(s[0], accepts) && Upper(s[0]) == s[0];
      assert s == [s[0]] + s[1..];
    }
  }

  /** A cleaned text followed by more is cleaned to what the whole would have been. */
  lemma CleanAbsorbs(x: string, y: string, accepts: Accepts)
    ensures CleanCode(CleanCode(x, accepts) + y, accepts) == CleanCode(x + y, accepts)
  {
    var m, nx, ny := Max(accepts), Normal(x, accepts), Normal(y, accepts);
    CleanIsNormal(x, accepts);
    CleanIsNormal(x + y, accepts);
    CleanIsNormal(Take(nx, m) + y, accepts);
    NormalConcat(x, y, accepts);
    NormalConcat(Take(nx, m), y, accepts);
    NormalIsClean(x, accepts);
    NormalKeepsClean(Take(nx, m), accepts);
    assert Take(Take(nx, m) + ny, m) == Take(nx + ny, m);
  }

  lemma CleanIsClean(raw: string, accepts: Accepts)
    ensures |CleanCode(raw, accepts)| <= Max(accepts) && forall c :: c in CleanCode(raw, accepts) ==> Clean(c, accepts)
    ensures raw == "" ==> CleanCode(raw, accepts) == ""
  {
    CleanIsNormal(raw, accepts);
    NormalIsClean(raw, accepts);
  }

  lemma {:induction false} NormalOfOne(c: char, accepts: Accepts)
    ensures Normal([c], accepts) == Cleaned(c, accepts)
  {
    assert [c][1..] == "";
  }

  lemma NormalAround(x: string, c: string, y: string, accepts: Accepts)
    ensures Normal(x + c + y, accepts) == Normal(x, accepts) + Normal(c, accepts) + Normal(y, accepts)
  {
    NormalConcat(x + c, y, accepts);
    NormalConcat(x, c, accepts);
  }

  /** A character that is no digit, and no letter where letters count, can be left out anywhere. */
  lemma OthersAreDropped(x: string, c: char, y: string, accepts: Accepts)
    requires c !in "0123456789" && (accepts == Totp || (c !in CAPITALS && c !in SMALLS))
    ensures CleanCode(x + [c] + y, accepts) == CleanCode(x + y, accepts)
  {
    Alphabets(c);
    NormalAround(x, [c], y, accepts);
    NormalOfOne(c, accepts);
    NormalConcat(x, y, accepts);
    CleanIsNormal(x + [c] + y, accepts);
    CleanIsNormal(x + y, accepts);
  }

  lemma Alphabets(c: char)
    ensures c in "0123456789" <==> IsDigit(c)
    ensures c in CAPITALS <==> IsUpper(c)
    ensures c in SMALLS <==> IsLower(c)
  {
    LetterRanges(c);
  }

  /** In a recovery code a small letter counts as its capital. */
  lemma CaseIsIgnored(x: string, k: nat, y: string)
    requires k < 26
    ensures CleanCode(x + [SMALLS[k]] + y, Either) == CleanCode(x + [CAPITALS[k]] + y, Either)
  {
    var small, capital := SMALLS[k], CAPITALS[k];
    LetterCodes(k);
    assert Cleaned(small, Either) == Cleaned(capital, Either) == [capital];
    hide CleanCode, Normal, Cleaned;
    NormalAround(x, [small], y, Either);
    NormalAround(x, [capital], y, Either);
    NormalOfOne(small, Either);
    NormalOfOne(capital, Either);
    CleanIsNormal(x + [small] + y, Either);
    CleanIsNormal(x + [capital] + y, Either);
  }

  /** Digits, and capitals where letters count, stay as they are, up to six or eight of them. */
  lemma CodesAreKept(s: string, accepts: Accepts)
    requires forall c :: c in s ==> c in "0123456789" || (accepts == Either && c in CAPITALS)
    ensures var max := if accepts == Totp then 6 else 8;
      CleanCode(s, accepts) == s[..if |s| <= max then |s| else max]
  {
    forall c | c in s ensures Clean(c, accepts) { Alphabets(c); }
    NormalKeepsClean(s, accepts);
    CleanIsNormal(s, accepts);
  }

  /** What the box shows after `keys` are typed one by one at its end. */
  function Typed(keys: string, accepts: Accepts): string {
    if keys == "" then "" else CleanCode(Typed(keys[..|keys| - 1], accepts) + [keys[|keys| - 1]], accepts)
  }

  /** Typing ends at the code one paste would have given, within the alphabet and the length of that kind. */
  lemma {:induction false} TypingIsPasting(keys: string, accepts: Accepts)
    ensures Typed(keys, accepts) == CleanCode(keys, accepts)
    ensures |Typed(keys, accepts)| <= Max(accepts) && forall c :: c in Typed(keys, accepts) ==> Clean(c, accepts)
  {
    CleanIsClean(keys, accepts);
    CleanIsClean("", accepts);
    hide CleanCode;
    if keys != "" {
      var n := |keys| - 1;
      TypingIsPasting(keys[..n], accepts);
      CleanAbsorbs(keys[..n], [keys[n]], accepts);
      assert keys == keys[..n] + [keys[n]];
    }
  }
}
