/** The few string operations of JavaScript that the models share. */
module Text {

  datatype Option<+T> = None | Some(value: T)

  /** The characters that `\s` matches and `trim` removes. */
  predicate IsSpace(c: char) {
    || '\t' <= c <= '\r'
    || c == ' ' || c == '\U{00A0}' || c == '\U{1680}'
    || '\U{2000}' <= c <= '\U{200A}'
    || c == '\U{2028}' || c == '\U{2029}' || c == '\U{202F}' || c == '\U{205F}' || c == '\U{3000}' || c == '\U{FEFF}'
  }

  function TrimStart(s: string): string {
    if s != "" && IsSpace(s[0]) then TrimStart(s[1..]) else s
  }

  function TrimEnd(s: string): string {
    if s != "" && IsSpace(s[|s| - 1]) then TrimEnd(s[..|s| - 1]) else s
  }

  function Trim(s: string): string {
    TrimEnd(TrimStart(s))
  }

  predicate StartsWith(s: string, prefix: string) {
    prefix <= s
  }

  predicate EndsWith(s: string, suffix: string) {
    |suffix| <= |s| && s[|s| - |suffix|..] == suffix
  }

  lemma Assoc<T>(a: seq<T>, b: seq<T>, c: seq<T>)
    ensures (a + b) + c == a + (b + c)
  {
  }

  // ---------------------------------------------------------------- white space

  predicate AllSpace(s: string) {
    forall i :: 0 <= i < |s| ==> IsSpace(s[i])
  }

  /** White space by code point: ECMAScript's WhiteSpace and LineTerminator. */
  lemma SpaceByCode(c: char)
    ensures var n := c as int;
      IsSpace(c) <==>
        || n in {9, 10, 11, 12, 13, 32, 160, 5760, 8232, 8233, 8239, 8287, 12288, 65279}
        || 8192 <= n <= 8202
  {
  }

  lemma {:induction false} TrimStartCuts(s: string) returns (a: string)
    ensures s == a + TrimStart(s) && AllSpace(a) && (TrimStart(s) != "" ==> !IsSpace(TrimStart(s)[0]))
  {
    if s != "" && IsSpace(s[0]) {
      a := TrimStartCuts(s[1..]);
      a := [s[0]] + a;
      assert s == [s[0]] + s[1..];
    } else {
      a := "";
    }
  }

  lemma {:induction false} TrimEndCuts(s: string) returns (b: string)
    ensures s == TrimEnd(s) + b && AllSpace(b) && (TrimEnd(s) != "" ==> !IsSpace(TrimEnd(s)[|TrimEnd(s)| - 1]))
    decreases |s|
  {
    if s != "" && IsSpace(s[|s| - 1]) {
      b := TrimEndCuts(s[..|s| - 1]);
      b := b + [s[|s| - 1]];
      assert s == s[..|s| - 1] + [s[|s| - 1]];
    } else {
      b := "";
    }
  }

  /** Trimming takes white space from both ends, and all of it. */
  lemma TrimCuts(s: string) returns (a: string, b: string)
    ensures s == a + Trim(s) + b && AllSpace(a) && AllSpace(b)
    ensures Trim(s) != "" ==> !IsSpace(Trim(s)[0]) && !IsSpace(Trim(s)[|Trim(s)| - 1])
    ensures Trim(s) == "" <==> AllSpace(s)
  {
    a := TrimStartCuts(s);
    b := TrimEndCuts(TrimStart(s));
    hide TrimStart, TrimEnd;
    if Trim(s) != "" { assert s[|a|] == Trim(s)[0]; }
  }

  lemma {:induction false} TrimStartOf(a: string, t: string)
    requires AllSpace(a) && (t != "" ==> !IsSpace(t[0]))
    ensures TrimStart(a + t) == t
  {
    if a == "" {
      assert a + t == t;
    } else {
      TrimStartOf(a[1..], t);
      assert (a + t)[1..] == a[1..] + t;
    }
  }

  lemma {:induction false} TrimEndOf(t: string, b: string)
    requires AllSpace(b) && (t != "" ==> !IsSpace(t[|t| - 1]))
    ensures TrimEnd(t + b) == t
    decreases |b|
  {
    if b == "" {
      assert t + b == t;
    } else {
      TrimEndOf(t, b[..|b| - 1]);
      assert (t + b)[..|t + b| - 1] == t + b[..|b| - 1];
    }
  }

  /** What is left when white space around a text is trimmed is that text. */
  lemma TrimOf(a: string, t: string, b: string)
    requires AllSpace(a) && AllSpace(b) && (t != "" ==> !IsSpace(t[0]) && !IsSpace(t[|t| - 1]))
    ensures Trim(a + t + b) == t
  {
    if t == "" {
      TrimStartOf(a + t + b, "");
      assert a + t + b + "" == a + t + b;
    } else {
      TrimStartOf(a, t + b);
      Assoc(a, t, b);
      TrimEndOf(t, b);
    }
  }

  /** Trimming only drops characters. */
  lemma {:induction false} TrimKeepsOut(s: string, c: char)
    requires c !in s
    ensures c !in TrimStart(s) && c !in TrimEnd(s)
    decreases |s|
  {
    if s != "" {
      TrimKeepsOut(s[1..], c);
      TrimKeepsOut(s[..|s| - 1], c);
    }
  }

  /** The parts with `sep` between them. */
  function Join(parts: seq<string>, sep: string): string {
    if parts == [] then "" else if |parts| == 1 then parts[0] else parts[0] + sep + Join(parts[1..], sep)
  }

  lemma {:induction false} JoinConcat(a: seq<string>, b: seq<string>, sep: string)
    requires a != [] && b != []
    ensures Join(a + b, sep) == Join(a, sep) + sep + Join(b, sep)
  {
    if |a| == 1 {
      assert (a + b)[1..] == b;
    } else {
      assert (a + b)[1..] == a[1..] + b;
      JoinConcat(a[1..], b, sep);
      hide Join;
      var joined, last := Join(a[1..], sep), Join(b, sep);
      assert a[0] + sep + (joined + sep + last) == a[0] + sep + joined + sep + last;
    }
  }

  /** The parts of `s` between the separators. */
  function Split(s: string, sep: char): (r: seq<string>)
    ensures |r| > 0
  {
    if s == "" then [""]
    else
      var rest := Split(s[1..], sep);
      if s[0] == sep then [""] + rest else [[s[0]] + rest[0]] + rest[1..]
  }

  lemma {:induction false} SplitConcat(a: string, b: string, sep: char)
    ensures Split(a + [sep] + b, sep) == Split(a, sep) + Split(b, sep)
  {
    var s := a + [sep] + b;
    if a == "" {
      assert s[1..] == b;
    } else {
      assert s[1..] == a[1..] + [sep] + b;
      SplitConcat(a[1..], b, sep);
    }
  }

  lemma JoinGrows(x: string, parts: seq<string>, sep: string)
    requires parts != []
    ensures Join([x + parts[0]] + parts[1..], sep) == x + Join(parts, sep)
    ensures Join([x] + parts, sep) == x + sep + Join(parts, sep)
  {
    var longer := [x + parts[0]] + parts[1..];
    assert longer[1..] == parts[1..] && ([x] + parts)[1..] == parts;
    if |parts| > 1 {
      assert x + (parts[0] + sep + Join(parts[1..], sep)) == x + parts[0] + sep + Join(parts[1..], sep);
    }
  }

  /** Splitting loses nothing and leaves no separator in any part. */
  lemma {:induction false} SplitJoins(s: string, sep: char)
    ensures Join(Split(s, sep), [sep]) == s
    ensures forall p :: p in Split(s, sep) ==> sep !in p
  {
    if s != "" {
      SplitJoins(s[1..], sep);
      JoinGrows(if s[0] == sep then "" else [s[0]], Split(s[1..], sep), [sep]);
      hide Join;
      assert s == [s[0]] + s[1..];
    }
  }

  /** A text without the separator is one part; joining parts without it and splitting gives them back. */
  lemma {:induction false} JoinSplits(parts: seq<string>, sep: char)
    requires parts != [] && forall p :: p in parts ==> sep !in p
    ensures Split(Join(parts, [sep]), sep) == parts
    decreases |parts|, |parts[0]|
  {
    var s := Join(parts, [sep]);
    if parts[0] == "" {
      if |parts| > 1 {
        JoinSplits(parts[1..], sep);
        assert s[1..] == Join(parts[1..], [sep]);
      }
    } else {
      var shorter := [parts[0][1..]] + parts[1..];
      forall p | p in shorter ensures sep !in p {
        if p == parts[0][1..] { assert parts[0] in parts; } else { assert p in parts[1..]; }
      }
      JoinSplits(shorter, sep);
      assert parts[0] in parts && parts[0][0] in parts[0];
      assert shorter[1..] == parts[1..];
      assert s[0] == parts[0][0] && s[1..] == Join(shorter, [sep]);
      assert [s[0]] + shorter[0] == parts[0];
    }
  }

  /** The first part is what precedes the first separator. */
  lemma {:induction false} FirstPart(s: string, sep: char) returns (rest: string)
    ensures s == Split(s, sep)[0] + rest && sep !in Split(s, sep)[0] && (rest != "" ==> rest[0] == sep)
  {
    if s == "" || s[0] == sep {
      assert Split(s, sep)[0] == "";
      return s;
    }
    rest := FirstPart(s[1..], sep);
    var first := Split(s[1..], sep)[0];
    assert Split(s, sep)[0] == [s[0]] + first;
    hide Split;
    Assoc([s[0]], first, rest);
    assert s == [s[0]] + s[1..];
  }

  lemma {:induction false} FirstPartOf(first: string, rest: string, sep: char)
    requires sep !in first && (rest != "" ==> rest[0] == sep)
    ensures Split(first + rest, sep)[0] == first
  {
    if first == "" {
      assert first + rest == rest;
    } else {
      FirstPartOf(first[1..], rest, sep);
      assert (first + rest)[1..] == first[1..] + rest;
    }
  }

  predicate AllDigits(s: string) {
    forall i :: 0 <= i < |s| ==> '0' <= s[i] <= '9'
  }

  /** A hex digit's value, -1 for any other character. */
  function HexValue(c: char): (v: int)
    ensures -1 <= v < 16
  {
    if '0' <= c <= '9' then c as int - '0' as int
    else if 'a' <= c <= 'f' then c as int - 'a' as int + 10
    else if 'A' <= c <= 'F' then c as int - 'A' as int + 10
    else -1
  }

  /** The hex digits are these twenty-two, in either case. */
  lemma HexByDigit(c: char)
    ensures HexValue(c) >= 0 <==> c in "0123456789abcdefABCDEF"
    ensures forall k :: 0 <= k < 16 ==> HexValue("0123456789abcdef"[k]) == HexValue("0123456789ABCDEF"[k]) == k
  {
    forall k | 0 <= k < 16
      ensures HexValue("0123456789abcdef"[k]) == HexValue("0123456789ABCDEF"[k]) == k
    {
    }
  }

  function Lower(c: char): char {
    if 'A' <= c <= 'Z' then ((c as int) + 32) as char else c
  }

  const CAPITALS := "ABCDEFGHIJKLMNOPQRSTUVWXYZ"
  const SMALLS := "abcdefghijklmnopqrstuvwxyz"

  lemma LetterCodes(k: nat)
    requires k < 26
    ensures CAPITALS[k] as int == 65 + k && SMALLS[k] as int == 97 + k
  {
  }

  /** The same letter, whatever its case, or the same other character. */
  predicate SameLetter(c: char, small: char) {
    c == small || exists k :: 0 <= k < 26 && CAPITALS[k] == c && SMALLS[k] == small
  }

  lemma LowerIsSameLetter(c: char, small: char)
    requires !('A' <= small <= 'Z')
    ensures Lower(c) == small <==> SameLetter(c, small)
    ensures SameLetter(c, small) && !IsSpace(small) ==> !IsSpace(c)
  {
    forall k | 0 <= k < 26 ensures CAPITALS[k] as int == 65 + k && SMALLS[k] as int == 97 + k { LetterCodes(k); }
    if 'A' <= c <= 'Z' { assert CAPITALS[c as int - 65] == c; }
  }

  predicate SameLetters(s: string, small: string) {
    |s| == |small| && forall i :: 0 <= i < |s| ==> SameLetter(s[i], small[i])
  }

  /** The word stands somewhere in the text, in any case. */
  ghost predicate Mentions(s: string, small: string) {
    exists a, word, b :: s == a + word + b && SameLetters(word, small)
  }

  predicate NoCapitals(small: string) {
    forall i :: 0 <= i < |small| ==> !('A' <= small[i] <= 'Z')
  }

  lemma LowerIsSameLetters(s: string, small: string)
    requires NoCapitals(small)
    ensures LowerAll(s) == small <==> SameLetters(s, small)
  {
    if |s| == |small| {
      forall i | 0 <= i < |s| ensures Lower(s[i]) == small[i] <==> SameLetter(s[i], small[i]) {
        LowerIsSameLetter(s[i], small[i]);
      }
      hide Lower, SameLetter;
      if SameLetters(s, small) { assert LowerAll(s) == small; }
      if LowerAll(s) == small {
        forall i | 0 <= i < |s| ensures Lower(s[i]) == small[i] { assert LowerAll(s)[i] == small[i]; }
      }
    }
  }

  lemma LetterRanges(c: char)
    ensures c in CAPITALS <==> 'A' <= c <= 'Z'
    ensures c in SMALLS <==> 'a' <= c <= 'z'
  {
    forall k | 0 <= k < 26 ensures CAPITALS[k] as int == 65 + k && SMALLS[k] as int == 97 + k { LetterCodes(k); }
    if 'A' <= c <= 'Z' { assert CAPITALS[c as int - 65] == c; }
    if 'a' <= c <= 'z' { assert SMALLS[c as int - 97] == c; }
  }

  /** Capitals become the small letter at their place in the alphabet, and nothing else changes. */
  lemma LowerByLetter(c: char)
    ensures forall k :: 0 <= k < 26 ==> Lower(CAPITALS[k]) == SMALLS[k]
    ensures c in CAPITALS <==> 'A' <= c <= 'Z'
    ensures c !in CAPITALS ==> Lower(c) == c
  {
    forall k | 0 <= k < 26 ensures Lower(CAPITALS[k]) == SMALLS[k] && 'A' <= CAPITALS[k] <= 'Z' { LetterCodes(k); }
    if 'A' <= c <= 'Z' { LetterCodes(c as int - 65); }
  }

  /** ASCII lower case. */
  function LowerAll(s: string): string {
    seq(|s|, k requires 0 <= k < |s| => Lower(s[k]))
  }
}
