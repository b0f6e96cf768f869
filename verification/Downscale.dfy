/**
 Shrinking a camera photo before it is uploaded: the guards, the arithmetic of the drawn
 size in exact rationals, and the decision whether the result is worth sending.
 */
module Downscale {
  import opened Text

  const MAX_EDGE := 2048
  const FLOOR_BYTES := 600 * 1024

  datatype File = File(name: string, mime: string, size: nat)

  /** What comes of encoding a canvas: a blob of some size, none, or an exception. */
  datatype Encoded = Blob(size: nat) | NoBlob | Refused

  /** What the browser makes of a file: whether it has the functions, decodes, has a canvas context, draws, encodes. */
  datatype Browser = Browser(
    supported: bool,
    decoded: Option<(nat, nat)>,
    context: bool,
    draws: bool,
    encoded: (nat, nat, string) -> Encoded)

  datatype Downscaled = Downscaled(file: File, originalBytes: nat, shrunk: bool)

  // ---------------------------------------------------------------- the decision

  function MimeOf(f: File): string {
    LowerAll(Trim(Split(f.mime, ';')[0]))
  }

  predicate ReEncodable(mime: string) {
    mime == "image/jpeg" || mime == "image/jpg" || mime == "image/webp"
  }

  function Max(a: nat, b: nat): nat {
    if a < b then b else a
  }

  /** The nearest integer to a fraction, halves upwards. */
  function Round(n: nat, d: nat): nat
    requires d > 0
  {
    (2 * n + d) / (2 * d)
  }

  /** The size drawn for an image, its longest edge brought down to the maximum. */
  function Scaled(w: nat, h: nat): (nat, nat)
    requires Max(w, h) > 0
  {
    (Round(w * MAX_EDGE, Max(w, h)), Round(h * MAX_EDGE, Max(w, h)))
  }

  function OutputMime(mime: string): string {
    if mime == "image/webp" then "image/webp" else "image/jpeg"
  }

  /** Where the extension, a last dot and what follows it, starts; -1 when there is none. */
  function ExtensionAt(name: string): (k: int)
    ensures -1 <= k < |name|
  {
    LastStop(name, |name|)
  }

  /** The last of `.`, `/` and `\` before `n`, if it is a dot with something after it. */
  function LastStop(name: string, n: nat): (k: int)
    requires n <= |name|
    ensures -1 <= k < n || k == -1
  {
    if n == 0 then -1
    else if name[n - 1] == '.' then (if n < |name| then n - 1 else -1)
    else if name[n - 1] == '/' || name[n - 1] == '\\' then -1
    else LastStop(name, n - 1)
  }

  function RenameFor(name: string, mime: string): string {
    var k := ExtensionAt(name);
    var stem := if k == -1 then name else name[..k];
    (if stem == "" then "photo" else stem) + "." + (if mime == "image/webp" then "webp" else "jpg")
  }

  function Keep(f: File): Downscaled {
    Downscaled(f, f.size, false)
  }

  /** A decoded image is worth sending anew: too long, drawn, encoded, and at least a quarter saved. */
  predicate Saves(f: File, b: Browser, w: nat, h: nat) {
    && Max(w, h) > MAX_EDGE && b.context && b.draws
    && var (dw, dh) := Scaled(w, h);
       var blob := b.encoded(dw, dh, OutputMime(MimeOf(f)));
       blob.Blob? && 4 * blob.size < 3 * f.size
  }

  /** The file was decoded at all. */
  predicate Decodes(f: File, b: Browser) {
    ReEncodable(MimeOf(f)) && f.size > FLOOR_BYTES && b.supported && b.decoded.Some?
  }

  predicate Shrinks(f: File, b: Browser) {
    Decodes(f, b) && Saves(f, b, b.decoded.value.0, b.decoded.value.1)
  }

  function Decide(f: File, b: Browser): Downscaled {
    if !Shrinks(f, b) then Keep(f)
    else
      var (dw, dh) := Scaled(b.decoded.value.0, b.decoded.value.1);
      var out := OutputMime(MimeOf(f));
      Downscaled(File(RenameFor(f.name, out), out, b.encoded(dw, dh, out).size), f.size, true)
  }

  // ---------------------------------------------------------------- the bitmap is always closed

  class Bitmap {
    const width: nat
    const height: nat
    var open: bool

    constructor (width: nat, height: nat)
      ensures this.width == width && this.height == height && open
    {
      this.width, this.height, open := width, height, true;
    }

    method Close()
      modifies this
      ensures !open
    {
      open := false;
    }
  }

  /** The canvas refuses to draw an image that is too long, or to be read back. */
  predicate CanvasThrows(f: File, b: Browser, w: nat, h: nat) {
    && Max(w, h) > MAX_EDGE && b.context
    && (!b.draws || var (dw, dh) := Scaled(w, h); b.encoded(dw, dh, OutputMime(MimeOf(f))).Refused?)
  }

  /** How the guarded block ends: with a result, or with an exception. */
  datatype Ending = Returned(result: Downscaled) | Threw

  /** The guarded block, one exit after another; it leaves a decoded bitmap open. */
  method Redraw(f: File, b: Browser) returns (ending: Ending, bitmap: Bitmap?)
    requires ReEncodable(MimeOf(f)) && f.size > FLOOR_BYTES && b.supported
    ensures (if ending.Threw? then Keep(f) else ending.result) == Decide(f, b)
    ensures bitmap == null <==> b.decoded.None?
    ensures bitmap != null ==> fresh(bitmap) && bitmap.open
    ensures ending.Threw? <==> b.decoded.None? || CanvasThrows(f, b, b.decoded.value.0, b.decoded.value.1)
  {
    if b.decoded.None? { return Threw, null; }
    bitmap := new Bitmap(b.decoded.value.0, b.decoded.value.1);
    var longest := Max(bitmap.width, bitmap.height);
    if longest <= MAX_EDGE { return Returned(Keep(f)), bitmap; }
    var w := Round(bitmap.width * MAX_EDGE, longest);
    var h := Round(bitmap.height * MAX_EDGE, longest);
    if !b.context { return Returned(Keep(f)), bitmap; }
    if !b.draws { return Threw, bitmap; }
    var out := if MimeOf(f) == "image/webp" then "image/webp" else "image/jpeg";
    var blob := b.encoded(w, h, out);
    if blob.Refused? { return Threw, bitmap; }
    if blob.NoBlob? || 4 * blob.size >= 3 * f.size { return Returned(Keep(f)), bitmap; }
    return Returned(Downscaled(File(RenameFor(f.name, out), out, blob.size), f.size, true)), bitmap;
  }

  /** An exception means the original, and a bitmap that was decoded is closed however the block ended. */
  method DownscaleImage(f: File, b: Browser) returns (r: Downscaled, bitmap: Bitmap?)
    ensures r == Decide(f, b)
    ensures bitmap != null ==> fresh(bitmap) && !bitmap.open
    ensures bitmap != null <==> Decodes(f, b)
  {
    if !ReEncodable(MimeOf(f)) || f.size <= FLOOR_BYTES { return Keep(f), null; }
    if !b.supported { return Keep(f), null; }
    var ending;
    ending, bitmap := Redraw(f, b);
    r := if ending.Threw? then Keep(f) else ending.result;
    if bitmap != null { bitmap.Close(); }
  }

  // ---------------------------------------------------------------- the arithmetic

  lemma RoundIsNearest(n: nat, d: nat)
    requires d > 0
    ensures var q := Round(n, d); -(d as int) < 2 * (q * d - n) <= d
  {
    var q, t := Round(n, d), 2 * n + d;
    assert t == (2 * d) * q + t % (2 * d);
    assert q * d == d * q && (2 * d) * q == 2 * (d * q);
  }

  lemma LessTimes(a: nat, b: nat, c: nat)
    ensures a < b ==> a * c + c <= b * c
    ensures a == b ==> a * c == b * c
  {
    if a < b {
      var k := b - a - 1;
      assert b * c == (a + 1 + k) * c == a * c + c + k * c;
    }
  }

  /** One edge scaled by the longest: never past the maximum, and zero only for a sliver. */
  lemma EdgeScales(e: nat, longest: nat)
    requires e <= longest && longest > 0
    ensures var s := Round(e * MAX_EDGE, longest);
      && s <= MAX_EDGE
      && (e == longest ==> s == MAX_EDGE)
      && 2 * Abs(MAX_EDGE * e - s * longest) <= longest
      && (s >= 1 <==> 2 * MAX_EDGE * e >= longest)
  {
    var s := Round(e * MAX_EDGE, longest);
    RoundIsNearest(e * MAX_EDGE, longest);
    LessTimes(MAX_EDGE, s, longest);
    LessTimes(s, MAX_EDGE, longest);
    LessTimes(0, s, longest);
  }

  function Abs(x: int): nat {
    if x < 0 then -x else x
  }

  /**
   The drawn size of an image longer than the maximum: its longest edge is exactly the maximum, the
   aspect is off by less than one rounding, the longer side stays the longer, and a side vanishes
   exactly when the image is more than 4096 times as long as it is wide.
   */
  lemma ScaledKeepsShape(w: nat, h: nat)
    requires Max(w, h) > MAX_EDGE
    ensures var (dw, dh) := Scaled(w, h);
      && Max(dw, dh) == MAX_EDGE
      && 2 * Abs(dw * h - dh * w) <= Max(w, h)
      && (w <= h ==> dw <= dh) && (h <= w ==> dh <= dw)
      && (dw >= 1 && dh >= 1 <==> Max(w, h) <= 4096 * (if w < h then w else h))
  {
    EdgeScales(w, Max(w, h));
    EdgeScales(h, Max(w, h));
  }

  // ---------------------------------------------------------------- what is sent

  /** A declared type names `mime`: in any case, with white space around it, and parameters after a semicolon. */
  ghost predicate Names(declared: string, mime: string) {
    exists a, body, b, rest ::
      && declared == a + body + b + rest && AllSpace(a) && AllSpace(b)
      && ';' !in a + body + b && (rest != "" ==> rest[0] == ';')
      && SameLetters(body, mime)
  }

  predicate Tight(mime: string) {
    NoCapitals(mime) && mime != "" && !IsSpace(mime[0]) && !IsSpace(mime[|mime| - 1])
  }

  lemma NamesIsMime(f: File, mime: string)
    requires Tight(mime)
    ensures MimeOf(f) == mime <==> Names(f.mime, mime)
  {
    var first := Split(f.mime, ';')[0];
    LowerIsSameLetters(Trim(first), mime);
    if MimeOf(f) == mime {
      var rest := FirstPart(f.mime, ';');
      var a, b := TrimCuts(first);
      assert f.mime == a + Trim(first) + b + rest;
    }
    if a, body, b, rest :|
      && f.mime == a + body + b + rest && AllSpace(a) && AllSpace(b)
      && ';' !in a + body + b && (rest != "" ==> rest[0] == ';')
      && SameLetters(body, mime)
    {
      FirstPartOf(a + body + b, rest, ';');
      LowerIsSameLetter(body[0], mime[0]);
      LowerIsSameLetter(body[|body| - 1], mime[|body| - 1]);
      TrimOf(a, body, b);
    }
  }

  lemma PhotoTypes()
    ensures Tight("image/jpeg") && Tight("image/jpg") && Tight("image/webp")
  {
  }

  /** The format a photo is sent in, when it is drawn anew. */
  ghost function SentAs(f: File): string {
    if Names(f.mime, "image/webp") then "image/webp" else "image/jpeg"
  }

  /** A photo worth drawing anew: the right format, big, long, and at least a quarter smaller once drawn. */
  ghost predicate WorthIt(f: File, b: Browser) {
    && (Names(f.mime, "image/jpeg") || Names(f.mime, "image/jpg") || Names(f.mime, "image/webp"))
    && f.size > 614_400 && b.supported && b.decoded.Some? && b.context && b.draws
    && var (w, h) := b.decoded.value;
       && (w > 2048 || h > 2048)
       && var (dw, dh) := Scaled(w, h);
          b.encoded(dw, dh, SentAs(f)).Blob? && 4 * b.encoded(dw, dh, SentAs(f)).size < 3 * f.size
  }

  /** Exactly such photos are replaced, by what was encoded; any other file is handed back. */
  lemma ShrinksExactly(f: File, b: Browser)
    ensures WorthIt(f, b) ==>
      var (dw, dh) := Scaled(b.decoded.value.0, b.decoded.value.1);
      Decide(f, b) == Downscaled(
        File(RenameFor(f.name, SentAs(f)), SentAs(f), b.encoded(dw, dh, SentAs(f)).size), f.size, true)
    ensures !WorthIt(f, b) ==> Decide(f, b) == Downscaled(f, f.size, false)
  {
    PhotoTypes();
    NamesIsMime(f, "image/jpeg");
    NamesIsMime(f, "image/jpg");
    NamesIsMime(f, "image/webp");
    hide Names, MimeOf, Scaled, RenameFor;
  }

  /** What an extension is made of: no dot and no slash of either kind. */
  predicate Inner(s: string) {
    forall i :: 0 <= i < |s| ==> s[i] != '.' && s[i] != '/' && s[i] != '\\'
  }

  /** A photo without a name is called one. */
  function Named(stem: string): string {
    if stem == "" then "photo" else stem
  }

  /** Renaming replaces the extension, all of it and nothing else. */
  lemma RenamesExtension(stem: string, ext: string)
    requires ext != "" && Inner(ext)
    ensures RenameFor(stem + "." + ext, "image/webp") == Named(stem) + ".webp"
    ensures RenameFor(stem + "." + ext, "image/jpeg") == Named(stem) + ".jpg"
  {
    LastStopOfExtension(stem, ext, |ext|);
    assert (stem + "." + ext)[..|stem|] == stem;
    assert Named(stem) + "." + "webp" == Named(stem) + ".webp" && Named(stem) + "." + "jpg" == Named(stem) + ".jpg";
  }

  lemma {:induction false} NoStop(name: string, n: nat)
    requires n <= |name| && Inner(name[n..])
    requires forall k :: 0 <= k < |name| - 1 && name[k] == '.' ==> !Inner(name[k + 1..])
    ensures LastStop(name, n) == -1
  {
    if n > 0 && name[n - 1] != '.' && name[n - 1] != '/' && name[n - 1] != '\\' {
      assert name[n - 1..] == [name[n - 1]] + name[n..];
      NoStop(name, n - 1);
    }
  }

  /** A name without an extension gets one. */
  lemma RenamesPlain(name: string)
    requires forall k :: 0 <= k < |name| - 1 && name[k] == '.' ==> !Inner(name[k + 1..])
    ensures RenameFor(name, "image/webp") == Named(name) + ".webp"
    ensures RenameFor(name, "image/jpeg") == Named(name) + ".jpg"
  {
    NoStop(name, |name|);
    assert Named(name) + "." + "webp" == Named(name) + ".webp" && Named(name) + "." + "jpg" == Named(name) + ".jpg";
  }

  function Extension(mime: string): string {
    if mime == "image/webp" then ".webp" else ".jpg"
  }

  /**
   The result is never worse than the original: either that very file, or one smaller than three
   quarters of it whose type and extension both tell the format it arrived in.
   */
  lemma NeverWorse(f: File, b: Browser)
    ensures var r := Decide(f, b);
      && r.originalBytes == f.size
      && (!r.shrunk ==> r.file == f)
      && (r.shrunk ==> 4 * r.file.size < 3 * f.size && ReEncodable(r.file.mime)
                       && (r.file.mime == "image/webp" <==> MimeOf(f) == "image/webp")
                       && exists stem :: stem != "" && r.file.name == stem + Extension(MimeOf(f)))
      && (MimeOf(f) == "image/png" || f.size <= 614_400 || b.decoded.None? || !b.context ==> !r.shrunk)
  {
    if Decide(f, b).shrunk {
      var k := ExtensionAt(f.name);
      var stem := if k == -1 then f.name else f.name[..k];
      assert Decide(f, b).file.name == (if stem == "" then "photo" else stem) + Extension(MimeOf(f));
    }
  }

  /** An accepted result, decoded to the size it was drawn at, is returned untouched. */
  lemma ShrinkingTwiceIsOnce(f: File, b: Browser, again: Browser)
    requires Decide(f, b).shrunk
    requires again.decoded.Some? ==> again.decoded.value == Scaled(b.decoded.value.0, b.decoded.value.1)
    ensures Decide(Decide(f, b).file, again) == Keep(Decide(f, b).file)
  {
    ScaledKeepsShape(b.decoded.value.0, b.decoded.value.1);
  }

  /** The file after one upload after another, each from what the last one sent. */
  function Resent(f: File, browsers: seq<Browser>): File
    decreases |browsers|
  {
    if browsers == [] then f else Resent(Decide(f, browsers[0]).file, browsers[1..])
  }

  /**
   However often a photo is sent on, it is redrawn at most once: what arrives is the original, or the
   first result accepted, provided a redrawn photo decodes to the size it was drawn at.
   */
  lemma {:induction false} RedrawnAtMostOnce(f: File, browsers: seq<Browser>, first: nat)
    requires first <= |browsers| && forall i :: 0 <= i < first ==> !Decide(f, browsers[i]).shrunk
    requires first < |browsers| ==>
      && Decide(f, browsers[first]).shrunk
      && forall i :: first < i < |browsers| && browsers[i].decoded.Some? ==>
           browsers[i].decoded.value == Scaled(browsers[first].decoded.value.0, browsers[first].decoded.value.1)
    ensures Resent(f, browsers) == if first < |browsers| then Decide(f, browsers[first]).file else f
    decreases |browsers|
  {
    hide Scaled;
    if browsers != [] {
      if first > 0 {
        NeverWorse(f, browsers[0]);
        RedrawnAtMostOnce(f, browsers[1..], first - 1);
      } else {
        var b, sent := browsers[0], Decide(f, browsers[0]).file;
        var rest := browsers[1..];
        forall i | 0 <= i < |rest| ensures !Decide(sent, rest[i]).shrunk {
          assert rest[i] == browsers[i + 1];
          ShrinkingTwiceIsOnce(f, b, rest[i]);
        }
        RedrawnAtMostOnce(sent, rest, |rest|);
      }
    }
  }

  lemma LastStopOfExtension(stem: string, ext: string, n: nat)
    requires forall i :: 0 <= i < |ext| ==> ext[i] != '.' && ext[i] != '/' && ext[i] != '\\'
    requires 0 < n <= |ext|
    ensures LastStop(stem + "." + ext, |stem| + 1 + n) == |stem|
  {
    var name := stem + "." + ext;
    assert name[|stem| + n] == ext[n - 1] && name[|stem|] == '.';
    if n > 1 { LastStopOfExtension(stem, ext, n - 1); } else { assert LastStop(name, |stem| + 1) == |stem|; }
  }

  /** Renaming for the same format again changes nothing. */
  lemma RenamingTwiceIsOnce(name: string, mime: string)
    ensures RenameFor(RenameFor(name, mime), mime) == RenameFor(name, mime)
  {
    var k := ExtensionAt(name);
    var cut := if k == -1 then name else name[..k];
    var stem := if cut == "" then "photo" else cut;
    var ext := if mime == "image/webp" then "webp" else "jpg";
    LastStopOfExtension(stem, ext, |ext|);
    assert RenameFor(name, mime) == stem + "." + ext;
    assert (stem + "." + ext)[..|stem|] == stem;
  }
}
