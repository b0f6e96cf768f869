/**
 The HTML escaping of the marketing pages: five chained global replacements, and the
 two ways of undoing them.
 */
module Escaping {
  import opened Text

  // ---------------------------------------------------------------- esc

  /** Every `c` replaced by `entity`. */
  function ReplaceChar(s: string, c: char, entity: string): string {
    if s == "" then "" else (if s[0] == c then entity else [s[0]]) + ReplaceChar(s[1..], c, entity)
  }

  function Esc(s: string): string {
    ReplaceChar(ReplaceChar(ReplaceChar(ReplaceChar(ReplaceChar(
      s, '&', "&amp;"), '<', "&lt;"), '>', "&gt;"), '"', "&quot;"), '\'', "&#39;")
  }

  const ENTITIES: seq<(char, string)> :=
    [('&', "&amp;"), ('<', "&lt;"), ('>', "&gt;"), ('"', "&quot;"), ('\'', "&#39;")]

  /** The entity a character has, 5 for none. */
  function EntityOf(c: char): (k: nat)
    ensures k <= 5 && (k < 5 ==> ENTITIES[k].0 == c)
    ensures forall j :: 0 <= j < 5 && ENTITIES[j].0 == c ==> j == k
  {
    if c == '&' then 0 else if c == '<' then 1 else if c == '>' then 2
    else if c == '"' then 3 else if c == '\'' then 4 else 5
  }

  /** What one character becomes when the first `k` entities are in use. */
  function EncodeChar(k: nat, c: char): string
    requires k <= 5
  {
    if EntityOf(c) < k then ENTITIES[EntityOf(c)].1 else [c]
  }

  /** One substitution per character, in a single pass. */
  function Encode(k: nat, s: string): string
    requires k <= 5
  {
    if s == "" then "" else EncodeChar(k, s[0]) + Encode(k, s[1..])
  }

  lemma {:induction false} ReplaceConcat(a: string, b: string, c: char, entity: string)
    ensures ReplaceChar(a + b, c, entity) == ReplaceChar(a, c, entity) + ReplaceChar(b, c, entity)
  {
    if a == "" {
      assert a + b == b;
    } else {
      ReplaceConcat(a[1..], b, c, entity);
      assert (a + b)[1..] == a[1..] + b;
      Assoc(if a[0] == c then entity else [a[0]], ReplaceChar(a[1..], c, entity), ReplaceChar(b, c, entity));
    }
  }

  lemma {:induction false} ReplaceNothing(s: string, c: char, entity: string)
    requires c !in s
    ensures ReplaceChar(s, c, entity) == s
  {
    if s != "" { ReplaceNothing(s[1..], c, entity); }
  }

  lemma EntityHasNoLater(j: nat, k: nat)
    requires j < k < 5
    ensures ENTITIES[k].0 !in ENTITIES[j].1
  {
  }

  lemma {:induction false} ReplaceIsNextEncode(k: nat, s: string)
    requires k < 5
    ensures ReplaceChar(Encode(k, s), ENTITIES[k].0, ENTITIES[k].1) == Encode(k + 1, s)
  {
    if s != "" {
      var (c, entity) := ENTITIES[k];
      ReplaceIsNextEncode(k, s[1..]);
      ReplaceConcat(EncodeChar(k, s[0]), Encode(k, s[1..]), c, entity);
      if EntityOf(s[0]) < k {
        EntityHasNoLater(EntityOf(s[0]), k);
        ReplaceNothing(EncodeChar(k, s[0]), c, entity);
      }
    }
  }

  /** The five chained replacements are one substitution per character. */
  lemma EscIsOnePass(s: string)
    ensures Esc(s) == Encode(5, s)
  {
    assert Encode(0, s) == s by { EncodeNothing(s); }
    ReplaceIsNextEncode(0, s);
    ReplaceIsNextEncode(1, s);
    ReplaceIsNextEncode(2, s);
    ReplaceIsNextEncode(3, s);
    ReplaceIsNextEncode(4, s);
  }

  lemma {:induction false} EncodeNothing(s: string)
    ensures Encode(0, s) == s
  {
    if s != "" { EncodeNothing(s[1..]); }
  }

  lemma {:induction false} EncodeConcat(k: nat, a: string, b: string)
    requires k <= 5
    ensures Encode(k, a + b) == Encode(k, a) + Encode(k, b)
  {
    hide EncodeChar;
    if a == "" {
      assert a + b == b && Encode(k, a) == "";
    } else {
      var s := a + b;
      assert s[0] == a[0] && s[1..] == a[1..] + b;
      assert Encode(k, s) == EncodeChar(k, a[0]) + Encode(k, s[1..]);
      EncodeConcat(k, a[1..], b);
      Assoc(EncodeChar(k, a[0]), Encode(k, a[1..]), Encode(k, b));
    }
  }

  lemma EscConcat(a: string, b: string)
    ensures Esc(a + b) == Esc(a) + Esc(b)
  {
    EscIsOnePass(a);
    EscIsOnePass(b);
    EscIsOnePass(a + b);
    EncodeConcat(5, a, b);
  }

  predicate Raw(c: char) {
    c == '<' || c == '>' || c == '"' || c == '\''
  }

  lemma EntityIsClean(k: nat)
    requires k < 5
    ensures forall c :: c in ENTITIES[k].1 ==> !Raw(c)
  {
  }

  /** Nothing that could open or close a tag or an attribute survives. */
  lemma {:induction false} EscLeavesNothingRaw(s: string)
    ensures forall c :: c in Esc(s) ==> !Raw(c)
  {
    EscIsOnePass(s);
    if s != "" {
      EscLeavesNothingRaw(s[1..]);
      EscIsOnePass(s[1..]);
      if EntityOf(s[0]) < 5 { EntityIsClean(EntityOf(s[0])); }
    }
  }

  // ---------------------------------------------------------------- undoing esc

  /** The entity a string starts with, 5 for none. */
  function EntityAt(s: string): (k: nat)
    ensures k <= 5 && (k < 5 ==> StartsWith(s, ENTITIES[k].1))
  {
    if StartsWith(s, "&amp;") then 0 else if StartsWith(s, "&lt;") then 1 else if StartsWith(s, "&gt;") then 2
    else if StartsWith(s, "&quot;") then 3 else if StartsWith(s, "&#39;") then 4 else 5
  }

  /** One left-to-right pass over the entities. */
  function Decode(s: string): string
    decreases |s|
  {
    if s == "" then ""
    else if EntityAt(s) < 5 then [ENTITIES[EntityAt(s)].0] + Decode(s[|ENTITIES[EntityAt(s)].1|..])
    else [s[0]] + Decode(s[1..])
  }

  /** Every occurrence of a literal pattern replaced by `c`, from left to right. */
  function ReplaceAll(s: string, pat: string, c: char): string
    requires pat != ""
    decreases |s|
  {
    if s == "" then "" else if StartsWith(s, pat) then [c] + ReplaceAll(s[|pat|..], pat, c)
    else [s[0]] + ReplaceAll(s[1..], pat, c)
  }

  /** The five replacements the other way round, in reverse order. */
  function Unesc(s: string): string {
    ReplaceAll(ReplaceAll(ReplaceAll(ReplaceAll(ReplaceAll(
      s, "&#39;", '\''), "&quot;", '"'), "&gt;", '>'), "&lt;", '<'), "&amp;", '&')
  }

  /** The encoded character in front decides which entity, if any, a string starts with. */
  lemma EntityAtFront(c: char, rest: string)
    ensures EntityAt(EncodeChar(5, c) + rest) == EntityOf(c)
  {
    var s := EncodeChar(5, c) + rest;
    assert EntityOf(c) == 5 ==> s[0] != '&';
    assert EntityOf(c) < 5 ==> s[1] == ENTITIES[EntityOf(c)].1[1];
  }

  lemma {:induction false} DecodeUndoesEsc(s: string)
    ensures Decode(Esc(s)) == s
  {
    EscIsOnePass(s);
    if s != "" {
      DecodeUndoesEsc(s[1..]);
      EscIsOnePass(s[1..]);
      EntityAtFront(s[0], Encode(5, s[1..]));
      assert Esc(s)[|EncodeChar(5, s[0])|..] == Esc(s[1..]);
    }
  }

  lemma {:induction false} SkipPlain(a: string, rest: string, pat: string, c: char)
    requires pat != "" && pat[0] == '&' && '&' !in a
    ensures ReplaceAll(a + rest, pat, c) == a + ReplaceAll(rest, pat, c)
  {
    if a == "" {
      assert a + rest == rest;
    } else {
      SkipPlain(a[1..], rest, pat, c);
      assert (a + rest)[1..] == a[1..] + rest;
    }
  }

  lemma EntityShape(k: nat)
    requires k < 5
    ensures |ENTITIES[k].1| >= 4 && ENTITIES[k].1[0] == '&' && '&' !in ENTITIES[k].1[1..]
    ensures forall j :: 0 <= j < 5 && j != k ==> ENTITIES[j].1[1] != ENTITIES[k].1[1]
  {
  }

  /** Scanning for an entity passes over what any other character was encoded as. */
  lemma SkipBlock(k: nat, ch: char, rest: string)
    requires k < 5 && EntityOf(ch) != k
    ensures ENTITIES[k].1 != "" && ReplaceAll(EncodeChar(k + 1, ch) + rest, ENTITIES[k].1, ENTITIES[k].0)
                                   == EncodeChar(k, ch) + ReplaceAll(rest, ENTITIES[k].1, ENTITIES[k].0)
  {
    EntityShape(k);
    var (c, pat) := ENTITIES[k];
    var block := EncodeChar(k, ch);
    if EntityOf(ch) < k {
      EntityShape(EntityOf(ch));
      assert (block + rest)[1] == block[1] != pat[1];
    } else {
      assert (block + rest)[0] == ch != pat[0];
    }
    assert !StartsWith(block + rest, pat);
    assert (block + rest)[1..] == block[1..] + rest;
    SkipPlain(block[1..], rest, pat, c);
    assert block == [block[0]] + block[1..];
  }

  lemma {:induction false} ReplaceAllIsPreviousEncode(k: nat, s: string)
    requires k < 5
    ensures ENTITIES[k].1 != "" && ReplaceAll(Encode(k + 1, s), ENTITIES[k].1, ENTITIES[k].0) == Encode(k, s)
  {
    EntityShape(k);
    if s != "" {
      ReplaceAllIsPreviousEncode(k, s[1..]);
      var pat, rest := ENTITIES[k].1, Encode(k + 1, s[1..]);
      if EntityOf(s[0]) == k {
        assert (pat + rest)[|pat|..] == rest;
      } else {
        SkipBlock(k, s[0], rest);
      }
    }
  }

  lemma UnescUndoesEsc(s: string)
    ensures Unesc(Esc(s)) == s
  {
    EscIsOnePass(s);
    ReplaceAllIsPreviousEncode(4, s);
    ReplaceAllIsPreviousEncode(3, s);
    ReplaceAllIsPreviousEncode(2, s);
    ReplaceAllIsPreviousEncode(1, s);
    ReplaceAllIsPreviousEncode(0, s);
    EncodeNothing(s);
  }
}
