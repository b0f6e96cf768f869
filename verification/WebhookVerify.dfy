/**
 The receiver customers copy to check a webhook's signature header: the parser, the time
 window, and the comparison of digests.  The digest itself is a parameter, a function of
 the timestamp's text with the body and the secret fixed.
 */
module WebhookVerify {
  import opened Text

  newtype byte = x: int | 0 <= x < 256

  /** An HMAC-SHA256 digest. */
  type Digest = d: seq<byte> | |d| == 32 witness seq(32, _ => 0)

  const MAX_SAFE_INTEGER := 0x1F_FFFF_FFFF_FFFF

  // ---------------------------------------------------------------- the receiver

  function TrimAll(parts: seq<string>): (r: seq<string>)
    ensures |r| == |parts| && forall i :: 0 <= i < |parts| ==> r[i] == Trim(parts[i])
  {
    if parts == [] then [] else [Trim(parts[0])] + TrimAll(parts[1..])
  }

  function Parts(header: string): seq<string> {
    TrimAll(Split(header, ','))
  }

  /** What the first part that begins as a time goes on with. */
  function FirstTime(parts: seq<string>): Option<string> {
    if parts == [] then None
    else if StartsWith(parts[0], "t=") then Some(parts[0][2..])
    else FirstTime(parts[1..])
  }

  function Signatures(parts: seq<string>): seq<string> {
    if parts == [] then []
    else (if StartsWith(parts[0], "v1=") then [parts[0][3..]] else []) + Signatures(parts[1..])
  }

  /** The number a digit string writes. */
  function Value(s: string): nat
    requires AllDigits(s)
  {
    if s == "" then 0 else 10 * Value(s[..|s| - 1]) + (s[|s| - 1] as int - '0' as int)
  }

  predicate IsHex(s: string) {
    forall i :: 0 <= i < |s| ==> HexValue(s[i]) >= 0
  }

  /** The byte two hex digits write. */
  function Pair(hi: char, lo: char): byte
    requires HexValue(hi) >= 0 && HexValue(lo) >= 0
  {
    (16 * HexValue(hi) + HexValue(lo)) as byte
  }

  /** The bytes a string of hex pairs writes. */
  function FromHex(s: string): (r: seq<byte>)
    requires IsHex(s) && |s| % 2 == 0
    ensures |r| == |s| / 2
  {
    if s == "" then [] else [Pair(s[0], s[1])] + FromHex(s[2..])
  }

  /** Node's comparison throws on different lengths. */
  predicate TimingSafeEqual(a: seq<byte>, b: seq<byte>)
    requires |a| == |b|
  {
    a == b
  }

  predicate Matches(signature: string, expected: Digest) {
    |signature| == 64 && IsHex(signature) && TimingSafeEqual(FromHex(signature), expected)
  }

  predicate SomeMatch(signatures: seq<string>, expected: Digest) {
    signatures != [] && (Matches(signatures[0], expected) || SomeMatch(signatures[1..], expected))
  }

  function Abs(x: int): nat {
    if x < 0 then -x else x
  }

  /** `digest` gives the expected digest for a timestamp's text; `nowMs` is the clock in milliseconds. */
  predicate Verify(header: string, digest: string -> Digest, nowMs: int) {
    if header == "" then false else
    var parts := Parts(header);
    var ts := FirstTime(parts);
    if ts.None? || ts.value == "" || !AllDigits(ts.value) then false else
    var time := Value(ts.value);
    if time > MAX_SAFE_INTEGER || time <= 0 || Abs(nowMs - 1000 * time) > 300 * 1000 then false
    else SomeMatch(Signatures(parts), digest(ts.value))
  }

  // ---------------------------------------------------------------- exactly what it accepts

  lemma {:induction false} FirstTimeIsFirst(parts: seq<string>)
    ensures FirstTime(parts).None? <==> forall i :: 0 <= i < |parts| ==> !StartsWith(parts[i], "t=")
    ensures FirstTime(parts).Some? ==>
      exists i :: 0 <= i < |parts| && IsFirstTime(parts, i) && parts[i] == "t=" + FirstTime(parts).value
  {
    if parts != [] {
      if StartsWith(parts[0], "t=") {
        assert IsFirstTime(parts, 0);
        assert parts[0] == "t=" + FirstTime(parts).value;
      } else {
        var rest := parts[1..];
        FirstTimeIsFirst(rest);
        if FirstTime(parts).Some? {
          var i :| 0 <= i < |rest| && IsFirstTime(rest, i) && rest[i] == "t=" + FirstTime(parts).value;
          assert parts[i + 1] == rest[i];
          forall j | 0 <= j < i + 1 ensures !StartsWith(parts[j], "t=") { if j > 0 { assert rest[j - 1] == parts[j]; } }
          assert IsFirstTime(parts, i + 1);
        }
      }
    }
  }

  predicate IsFirstTime(parts: seq<string>, i: nat)
    requires i < |parts|
  {
    StartsWith(parts[i], "t=") && forall j :: 0 <= j < i ==> !StartsWith(parts[j], "t=")
  }

  lemma FirstTimeAt(parts: seq<string>, i: nat)
    requires i < |parts| && IsFirstTime(parts, i)
    ensures FirstTime(parts) == Some(parts[i][2..])
  {
    FirstTimeIsFirst(parts);
    var k :| 0 <= k < |parts| && IsFirstTime(parts, k) && parts[k] == "t=" + FirstTime(parts).value;
    assert k == i && parts[i][2..] == FirstTime(parts).value;
  }

  lemma {:induction false} SignatureMembers(parts: seq<string>, signature: string)
    ensures signature in Signatures(parts) <==> "v1=" + signature in parts
  {
    if parts != [] {
      SignatureMembers(parts[1..], signature);
      assert StartsWith(parts[0], "v1=") ==> parts[0] == "v1=" + parts[0][3..];
      assert ("v1=" + signature)[3..] == signature;
      assert parts == [parts[0]] + parts[1..];
    }
  }

  lemma {:induction false} SomeMatchMember(signatures: seq<string>, expected: Digest)
    ensures SomeMatch(signatures, expected) <==> exists s :: s in signatures && Matches(s, expected)
  {
    if signatures != [] {
      SomeMatchMember(signatures[1..], expected);
      assert signatures == [signatures[0]] + signatures[1..];
    }
  }

  lemma EmptyHeader()
    ensures FirstTime(Parts("")).None?
  {
    assert Parts("") == [""];
  }

  /** A positive number JavaScript holds exactly, within five minutes of the clock. */
  predicate Timely(ts: string, nowMs: int) {
    && ts != "" && AllDigits(ts) && 1 <= Value(ts) <= 9_007_199_254_740_991
    && -300_000 <= nowMs - 1000 * Value(ts) <= 300_000
  }

  /** Accepted: the first `t=` part is a timely number, and some `v1=` part writes the digest expected for it. */
  lemma AcceptsExactly(header: string, digest: string -> Digest, nowMs: int)
    ensures var parts := Parts(header);
      Verify(header, digest, nowMs) <==>
        exists i, signature :: 0 <= i < |parts| && IsFirstTime(parts, i) && Timely(parts[i][2..], nowMs)
          && "v1=" + signature in parts && Matches(signature, digest(parts[i][2..]))
  {
    var parts := Parts(header);
    FirstTimeIsFirst(parts);
    EmptyHeader();
    hide Parts, IsHex, FromHex, Signatures, SomeMatch;
    if Verify(header, digest, nowMs) {
      var ts := FirstTime(parts).value;
      var i :| 0 <= i < |parts| && IsFirstTime(parts, i) && parts[i] == "t=" + ts;
      assert parts[i][2..] == ts;
      SomeMatchMember(Signatures(parts), digest(ts));
      var s :| s in Signatures(parts) && Matches(s, digest(ts));
      SignatureMembers(parts, s);
    }
    if i, s :| 0 <= i < |parts| && IsFirstTime(parts, i) && Timely(parts[i][2..], nowMs)
               && "v1=" + s in parts && Matches(s, digest(parts[i][2..])) {
      FirstTimeAt(parts, i);
      SignatureMembers(parts, s);
      SomeMatchMember(Signatures(parts), digest(parts[i][2..]));
    }
  }

  // ---------------------------------------------------------------- what does not matter

  /** The verdict depends on the first `t=` part and on which `v1=` parts there are, and on nothing else. */
  lemma VerdictDependsOn(a: string, b: string, digest: string -> Digest, nowMs: int)
    requires FirstTime(Parts(a)) == FirstTime(Parts(b))
    requires forall s :: "v1=" + s in Parts(a) <==> "v1=" + s in Parts(b)
    ensures Verify(a, digest, nowMs) == Verify(b, digest, nowMs)
  {
    VerdictTransfers(a, b, digest, nowMs);
    VerdictTransfers(b, a, digest, nowMs);
  }

  lemma VerdictTransfers(a: string, b: string, digest: string -> Digest, nowMs: int)
    requires FirstTime(Parts(a)) == FirstTime(Parts(b))
    requires forall s :: "v1=" + s in Parts(a) ==> "v1=" + s in Parts(b)
    ensures Verify(a, digest, nowMs) ==> Verify(b, digest, nowMs)
  {
    if Verify(a, digest, nowMs) {
      var ts := FirstTime(Parts(a)).value;
      EmptyHeader();
      SomeMatchMember(Signatures(Parts(a)), digest(ts));
      var s :| s in Signatures(Parts(a)) && Matches(s, digest(ts));
      SignatureMembers(Parts(a), s);
      SignatureMembers(Parts(b), s);
      SomeMatchMember(Signatures(Parts(b)), digest(ts));
    }
  }

  lemma {:induction false} FirstTimeSkips(before: seq<string>, extra: string, after: seq<string>)
    requires !StartsWith(extra, "t=")
    ensures FirstTime(before + [extra] + after) == FirstTime(before + after)
  {
    if before == [] {
      assert before + [extra] + after == [extra] + after && before + after == after;
    } else {
      FirstTimeSkips(before[1..], extra, after);
      assert (before + [extra] + after)[1..] == before[1..] + [extra] + after;
      assert (before + after)[1..] == before[1..] + after;
    }
  }

  lemma TrimAllParts(before: seq<string>, after: seq<string>)
    ensures TrimAll(before + after) == TrimAll(before) + TrimAll(after)
  {
  }

  /** A part that is neither a time nor a signature can be added anywhere. */
  lemma UnknownPartsAreIgnored(
    before: seq<string>, extra: string, after: seq<string>, digest: string -> Digest, nowMs: int)
    requires before + after != [] && forall p :: p in before + [extra] + after ==> ',' !in p
    requires !StartsWith(Trim(extra), "t=") && !StartsWith(Trim(extra), "v1=")
    ensures Verify(Join(before + [extra] + after, ","), digest, nowMs)
            == Verify(Join(before + after, ","), digest, nowMs)
  {
    var fuller, leaner := before + [extra] + after, before + after;
    assert forall p :: p in leaner ==> p in fuller;
    JoinSplits(fuller, ',');
    JoinSplits(leaner, ',');
    TrimAllParts(before + [extra], after);
    TrimAllParts(before, [extra]);
    TrimAllParts(before, after);
    assert TrimAll([extra]) == [Trim(extra)];
    FirstTimeSkips(TrimAll(before), Trim(extra), TrimAll(after));
    forall s ensures "v1=" + s in TrimAll(fuller) <==> "v1=" + s in TrimAll(leaner) {
      assert "v1=" + s == Trim(extra) ==> StartsWith(Trim(extra), "v1=");
    }
    VerdictDependsOn(Join(fuller, ","), Join(leaner, ","), digest, nowMs);
  }

  /** The parts that are no signatures, in their order. */
  function Others(parts: seq<string>): seq<string> {
    if parts == [] then []
    else (if StartsWith(parts[0], "v1=") then [] else [parts[0]]) + Others(parts[1..])
  }

  lemma {:induction false} FirstTimeOfOthers(parts: seq<string>)
    ensures FirstTime(Others(parts)) == FirstTime(parts)
  {
    if parts != [] {
      FirstTimeOfOthers(parts[1..]);
      if StartsWith(parts[0], "v1=") {
        assert parts[0][0] == "v1="[0] && Others(parts) == Others(parts[1..]);
      } else {
        assert Others(parts) == [parts[0]] + Others(parts[1..]);
      }
    }
  }

  /**
   Two headers whose other parts agree are judged alike when they hold the same signatures, in
   whatever order and places, however often, and with whatever white space around the commas.
   */
  lemma SignaturesMayMove(a: seq<string>, b: seq<string>, digest: string -> Digest, nowMs: int)
    requires a != [] && b != [] && (forall p :: p in a + b ==> ',' !in p)
    requires Others(TrimAll(a)) == Others(TrimAll(b))
    requires forall p :: StartsWith(p, "v1=") ==> (p in TrimAll(a) <==> p in TrimAll(b))
    ensures Verify(Join(a, ","), digest, nowMs) == Verify(Join(b, ","), digest, nowMs)
  {
    assert forall p :: p in a || p in b ==> p in a + b;
    JoinSplits(a, ',');
    JoinSplits(b, ',');
    FirstTimeOfOthers(TrimAll(a));
    FirstTimeOfOthers(TrimAll(b));
    forall s ensures "v1=" + s in TrimAll(a) <==> "v1=" + s in TrimAll(b) { assert StartsWith("v1=" + s, "v1="); }
    VerdictDependsOn(Join(a, ","), Join(b, ","), digest, nowMs);
  }

  // ---------------------------------------------------------------- printing a header and verifying it

  function Decimal(n: nat): (s: string)
    ensures s != "" && AllDigits(s) && Value(s) == n
  {
    var last := [(n % 10 + '0' as int) as char];
    if n < 10 then
      assert last[..0] == "" && Value("") == 0;
      last
    else
      var s := Decimal(n / 10) + last;
      assert s[..|s| - 1] == Decimal(n / 10);
      s
  }

  const HEX := "0123456789abcdef"

  function ToHex(bytes: seq<byte>): (s: string)
    ensures |s| == 2 * |bytes|
  {
    if bytes == [] then "" else [HEX[bytes[0] as int / 16], HEX[bytes[0] as int % 16]] + ToHex(bytes[1..])
  }

  lemma HexDigitReads(v: nat)
    requires v < 16
    ensures HexValue(HEX[v]) == v
  {
  }

  lemma {:induction false} HexIsHex(bytes: seq<byte>)
    ensures IsHex(ToHex(bytes))
  {
    if bytes != [] {
      var s, rest := ToHex(bytes), ToHex(bytes[1..]);
      HexIsHex(bytes[1..]);
      HexDigitReads(bytes[0] as int / 16);
      HexDigitReads(bytes[0] as int % 16);
      forall i | 0 <= i < |s| ensures HexValue(s[i]) >= 0 { if i >= 2 { assert s[i] == rest[i - 2]; } }
    }
  }

  /** A byte is its two hex digits. */
  lemma ByteRoundTrip(b: byte)
    ensures var hi, lo := HEX[b as int / 16], HEX[b as int % 16];
      HexValue(hi) >= 0 && HexValue(lo) >= 0 && Pair(hi, lo) == b
  {
    HexDigitReads(b as int / 16);
    HexDigitReads(b as int % 16);
  }

  lemma {:induction false} HexRoundTrip(bytes: seq<byte>)
    ensures IsHex(ToHex(bytes)) && FromHex(ToHex(bytes)) == bytes
  {
    HexIsHex(bytes);
    if bytes != [] {
      hide HexValue, Pair, IsHex;
      HexIsHex(bytes[1..]);
      HexRoundTrip(bytes[1..]);
      ByteRoundTrip(bytes[0]);
      assert ToHex(bytes)[2..] == ToHex(bytes[1..]);
    }
  }

  lemma {:induction false} FromHexAt(s: string, i: nat)
    requires IsHex(s) && |s| % 2 == 0 && i < |s| / 2
    ensures FromHex(s)[i] == Pair(s[2 * i], s[2 * i + 1])
  {
    if i > 0 { FromHexAt(s[2..], i - 1); }
  }

  lemma {:induction false} ToHexAt(bytes: seq<byte>, i: nat)
    requires i < |bytes|
    ensures ToHex(bytes)[2 * i] == HEX[bytes[i] as int / 16] && ToHex(bytes)[2 * i + 1] == HEX[bytes[i] as int % 16]
  {
    if i > 0 { ToHexAt(bytes[1..], i - 1); }
  }

  lemma DigitOf(c: char, v: nat)
    requires v < 16
    ensures HexValue(c) == v <==> SameLetter(c, HEX[v])
  {
    forall k | 0 <= k < 26 ensures CAPITALS[k] as int == 65 + k && SMALLS[k] as int == 97 + k { LetterCodes(k); }
    assert HEX[v] as int == if v < 10 then 48 + v else 87 + v;
    if 'A' <= c <= 'F' { assert CAPITALS[c as int - 65] == c; }
  }

  lemma PairIs(hi: char, lo: char, b: byte)
    ensures HexValue(hi) >= 0 && HexValue(lo) >= 0 && Pair(hi, lo) == b
            <==> SameLetter(hi, HEX[b as int / 16]) && SameLetter(lo, HEX[b as int % 16])
  {
    DigitOf(hi, b as int / 16);
    DigitOf(lo, b as int % 16);
  }

  /** A signature matches a digest exactly when it is its 64 hex digits, in either case. */
  lemma MatchesInEitherCase(signature: string, expected: Digest)
    ensures Matches(signature, expected) <==> |signature| == 64 && SameLetters(signature, ToHex(expected))
  {
    hide HexValue, Pair, SameLetter, ToHex;
    if |signature| == 64 {
      forall i | 0 <= i < 32
        ensures
          && HexValue(signature[2 * i]) >= 0 && HexValue(signature[2 * i + 1]) >= 0
          && Pair(signature[2 * i], signature[2 * i + 1]) == expected[i]
          <==> SameLetter(signature[2 * i], ToHex(expected)[2 * i])
               && SameLetter(signature[2 * i + 1], ToHex(expected)[2 * i + 1])
      {
        PairIs(signature[2 * i], signature[2 * i + 1], expected[i]);
        ToHexAt(expected, i);
      }
      if Matches(signature, expected) {
        forall k | 0 <= k < 64 ensures SameLetter(signature[k], ToHex(expected)[k]) {
          FromHexAt(signature, k / 2);
          assert k == 2 * (k / 2) || k == 2 * (k / 2) + 1;
        }
      }
      if SameLetters(signature, ToHex(expected)) {
        forall k | 0 <= k < 64 ensures HexValue(signature[k]) >= 0 { assert k == 2 * (k / 2) || k == 2 * (k / 2) + 1; }
        forall i | 0 <= i < 32 ensures FromHex(signature)[i] == expected[i] { FromHexAt(signature, i); }
      }
    }
  }

  /** Leading zeros do not change the number a timestamp writes. */
  lemma {:induction false} LeadingZeros(s: string)
    requires AllDigits(s)
    ensures AllDigits("0" + s) && Value("0" + s) == Value(s)
  {
    var t := "0" + s;
    if s == "" {
      assert t[..0] == "" && Value("") == 0;
    } else {
      LeadingZeros(s[..|s| - 1]);
      assert t[..|t| - 1] == "0" + s[..|s| - 1];
    }
  }

  function SignatureParts(digests: seq<Digest>): (r: seq<string>)
    ensures |r| == |digests| && forall i :: 0 <= i < |digests| ==> r[i] == "v1=" + ToHex(digests[i])
  {
    if digests == [] then [] else ["v1=" + ToHex(digests[0])] + SignatureParts(digests[1..])
  }

  /** The header a sender writes. */
  function Print(time: nat, digests: seq<Digest>): string {
    Join(["t=" + Decimal(time)] + SignatureParts(digests), ",")
  }

  /** Without outer white space, and without a comma. */
  predicate Tight(s: string) {
    s != "" && !IsSpace(s[0]) && !IsSpace(s[|s| - 1]) && ',' !in s
  }

  lemma TightIsTrimmed(s: string)
    requires Tight(s)
    ensures Trim(s) == s
  {
  }

  lemma DigitsAreTight(s: string)
    requires s != "" && AllDigits(s)
    ensures Tight("t=" + s)
  {
  }

  lemma {:induction false} HexChars(bytes: seq<byte>)
    ensures forall c :: c in ToHex(bytes) ==> c in HEX
  {
    if bytes != [] { HexChars(bytes[1..]); }
  }

  lemma HexIsTight(bytes: seq<byte>)
    ensures Tight("v1=" + ToHex(bytes))
  {
    HexChars(bytes);
    var s := "v1=" + ToHex(bytes);
    assert forall c :: c in HEX ==> !IsSpace(c) && c != ',';
    assert s[|s| - 1] == '=' || s[|s| - 1] in ToHex(bytes);
  }

  lemma {:induction false} SignaturePartsAreTight(digests: seq<Digest>)
    ensures forall p :: p in SignatureParts(digests) ==> Tight(p) && StartsWith(p, "v1=")
    ensures TrimAll(SignatureParts(digests)) == SignatureParts(digests)
  {
    if digests != [] {
      SignaturePartsAreTight(digests[1..]);
      HexIsTight(digests[0]);
      TightIsTrimmed("v1=" + ToHex(digests[0]));
    }
  }

  lemma PrintedParts(time: nat, digests: seq<Digest>)
    ensures Parts(Print(time, digests)) == ["t=" + Decimal(time)] + SignatureParts(digests)
    ensures FirstTime(Parts(Print(time, digests))) == Some(Decimal(time))
  {
    var ps := ["t=" + Decimal(time)] + SignatureParts(digests);
    DigitsAreTight(Decimal(time));
    TightIsTrimmed("t=" + Decimal(time));
    SignaturePartsAreTight(digests);
    forall p | p in ps ensures ',' !in p {}
    JoinSplits(ps, ',');
    TrimAllParts(["t=" + Decimal(time)], SignatureParts(digests));
    assert ("t=" + Decimal(time))[2..] == Decimal(time);
  }

  lemma OwnHexMatches(d: Digest, s: string, expected: Digest)
    ensures Matches(ToHex(d), d)
    ensures s == ToHex(d) && Matches(s, expected) ==> expected == d
  {
    HexRoundTrip(d);
  }

  /** The printed signatures that match a digest are those printed from it. */
  lemma PrintedSignatures(time: nat, digests: seq<Digest>, expected: Digest)
    ensures SomeMatch(Signatures(Parts(Print(time, digests))), expected) <==> expected in digests
  {
    var parts := Parts(Print(time, digests));
    PrintedParts(time, digests);
    SomeMatchMember(Signatures(parts), expected);
    hide Parts, Matches, ToHex, SomeMatch, Signatures, Print;
    if expected in digests {
      var i :| 0 <= i < |digests| && digests[i] == expected;
      OwnHexMatches(expected, "", expected);
      assert parts[i + 1] == "v1=" + ToHex(expected);
      SignatureMembers(parts, ToHex(expected));
    }
    if s :| s in Signatures(parts) && Matches(s, expected) {
      SignatureMembers(parts, s);
      var i :| 0 <= i < |parts| && parts[i] == "v1=" + s;
      assert parts[i][0] == 'v' && parts[0][0] == 't';
      assert parts[i] == SignatureParts(digests)[i - 1] == "v1=" + ToHex(digests[i - 1]);
      assert s == parts[i][3..] == ToHex(digests[i - 1]);
      OwnHexMatches(digests[i - 1], s, expected);
    }
  }

  /** A printed header is accepted exactly when its time is timely and the expected digest is among those printed. */
  lemma PrintVerifies(time: nat, digests: seq<Digest>, digest: string -> Digest, nowMs: int)
    ensures Verify(Print(time, digests), digest, nowMs) <==>
            && 1 <= time <= 9_007_199_254_740_991 && -300_000 <= nowMs - 1000 * time <= 300_000
            && digest(Decimal(time)) in digests
  {
    hide SomeMatch, Signatures, Trim, ToHex;
    PrintedParts(time, digests);
    PrintedSignatures(time, digests, digest(Decimal(time)));
    EmptyHeader();
  }
}
