/**
 * The media resolver of the lightbox panel's `itemload` handler: how an item is
 * classified (responsive image, image, video, iframe, YouTube, Vimeo or nothing),
 * which element is built for it, and the sequence of contents the handler commits
 * to the item's slide.
 *
 * The regular expressions of the handler are given twice: as ghost predicates that
 * say where the pattern matches (the leftmost start position, then the shortest
 * choice for each lazy `.*?`, as a JavaScript regular-expression engine picks it),
 * and as executable searches whose contracts are proved against them.
 */
module Media {
  import opened Util

  // ---------------------------------------------------------------- data

  datatype AttrValue = Text(text: string) | Number(number: int)

  /** Element attributes; `{...base, ...attrs}` is the right-biased union `base + attrs`. */
  type Attrs = map<string, AttrValue>

  datatype Tag = ImgTag | VideoTag | IframeTag | SpanTag

  datatype Element = Element(tag: Tag, attrs: Attrs)

  /** The class that marks a zoomable lightbox image. */
  const ImageClass: string := "uk-lightbox-plus-image"

  /** The placeholder set first on every load. */
  const Spinner: Element := Element(SpanTag, map["uk-spinner" := Text("")])

  /** The error marker set when an image or video fails or the Vimeo lookup fails. */
  const ErrorIcon: Element := Element(SpanTag, map["uk-icon" := Text("icon: bolt; ratio: 2")])

  /**
   * One gallery entry as read from its trigger element. Every string field is
   * absent when the trigger has no such attribute; `mediaType` is the `type` field.
   */
  datatype Item = Item(
    source: Option<string>,
    srcset: Option<string>,
    caption: Option<string>,
    mediaType: Option<string>,
    poster: Option<string>,
    alt: Option<string>,
    attrs: Attrs)

  /** JavaScript truthiness of an optional string: present and not empty. */
  predicate Truthy(o: Option<string>) {
    o.Some? && o.value != ""
  }

  /** An element that the zoom controller attaches to: an `<img>` carrying the image class. */
  predicate IsZoomableImage(el: Element) {
    el.tag == ImgTag && "class" in el.attrs && el.attrs["class"] == Text(ImageClass)
  }

  // ---------------------------------------------------------------- characters

  /** The characters that `.` does not match in a JavaScript regular expression. */
  predicate IsLineTerminator(c: char) {
    c == '\n' || c == '\r' || c == '\U{2028}' || c == '\U{2029}'
  }

  /** `\w`. */
  predicate IsWordChar(c: char) {
    ('a' <= c <= 'z') || ('A' <= c <= 'Z') || ('0' <= c <= '9') || c == '_'
  }

  /** `\d`. */
  predicate IsDigit(c: char) {
    '0' <= c <= '9'
  }

  /** `[a-z]`. */
  predicate IsLowerLetter(c: char) {
    'a' <= c <= 'z'
  }

  /**
   * ASCII lower-casing. It decides the `i` flag exactly for the patterns here: their
   * letters are ASCII, and without the `u` flag no character outside ASCII folds onto one.
   */
  function ToLower(c: char): (r: char)
    ensures IsLowerLetter(r) ==> IsLowerLetter(c) || ('A' <= c <= 'Z')
    ensures !('A' <= c <= 'Z') ==> r == c
  {
    if 'A' <= c <= 'Z' then (c as int + 32) as char else c
  }

  predicate LowerEquals(a: string, pattern: string) {
    |a| == |pattern| && forall j :: 0 <= j < |a| ==> ToLower(a[j]) == pattern[j]
  }

  /** `lit` occurs in `s` at position `i`. */
  predicate LiteralAt(s: string, i: nat, lit: string) {
    i + |lit| <= |s| && s[i..i + |lit|] == lit
  }

  /** No line terminator in `s[a..b]`: what a `.*` may run across. */
  predicate NoLineTerminator(s: string, a: nat, b: nat)
    requires a <= b <= |s|
  {
    forall i :: a <= i < b ==> !IsLineTerminator(s[i])
  }

  // ---------------------------------------------------------------- file extensions

  /** `/\.(avif|jpe?g|jfif|a?png|gif|svg|webp)($|\?)/i` */
  const ImageExtensions: seq<string> := ["avif", "jpg", "jpeg", "jfif", "png", "apng", "gif", "svg", "webp"]

  /** `/\.(mp4|webm|ogv)($|\?)/i` */
  const VideoExtensions: seq<string> := ["mp4", "webm", "ogv"]

  /** `/\.(html|php)($|\?)/i` */
  const FrameExtensions: seq<string> := ["html", "php"]

  /** At `i`: a dot, the extension in any ASCII case, then the end of the string or `?`. */
  predicate ExtensionAt(s: string, i: nat, ext: string) {
    && i + 1 + |ext| <= |s|
    && s[i] == '.'
    && LowerEquals(s[i + 1..i + 1 + |ext|], ext)
    && (i + 1 + |ext| == |s| || s[i + 1 + |ext|] == '?')
  }

  /** The extension pattern matches somewhere in `s` (the patterns are not anchored). */
  ghost predicate ExtensionMatch(s: string, exts: seq<string>) {
    exists i: nat, k :: i < |s| && 0 <= k < |exts| && ExtensionAt(s, i, exts[k])
  }

  function AnyExtensionAt(s: string, i: nat, exts: seq<string>): (b: bool)
    ensures b <==> exists k :: 0 <= k < |exts| && ExtensionAt(s, i, exts[k])
  {
    if exts == [] then false
    else if ExtensionAt(s, i, exts[0]) then true
    else
      var b := AnyExtensionAt(s, i, exts[1..]);
      assert forall k :: 1 <= k < |exts| ==> exts[k] == exts[1..][k - 1];
      b
  }

  function HasExtensionFrom(s: string, exts: seq<string>, i: nat): (b: bool)
    decreases |s| - i
    ensures b <==> exists j: nat, k :: i <= j < |s| && 0 <= k < |exts| && ExtensionAt(s, j, exts[k])
  {
    if i >= |s| then false
    else AnyExtensionAt(s, i, exts) || HasExtensionFrom(s, exts, i + 1)
  }

  /** The executable test is exactly the pattern's match. */
  function HasExtension(s: string, exts: seq<string>): (b: bool)
    ensures b <==> ExtensionMatch(s, exts)
  {
    HasExtensionFrom(s, exts, 0)
  }

  // ---------------------------------------------------------------- shared pattern pieces

  predicate DoubleSlashAt(s: string, p: nat) {
    p + 2 <= |s| && s[p] == '/' && s[p + 1] == '/'
  }

  /** The end of the longest run of non-line-terminators from `j`: what a greedy `.*` takes. */
  function LineEnd(s: string, j: nat): (e: nat)
    requires j <= |s|
    decreases |s| - j
    ensures j <= e <= |s|
    ensures NoLineTerminator(s, j, e)
    ensures e == |s| || IsLineTerminator(s[e])
  {
    if j == |s| || IsLineTerminator(s[j]) then j else LineEnd(s, j + 1)
  }

  /** `[&?]?(.*)?` after position `i`: one optional `&` or `?` is skipped, the rest of the line is captured. */
  function Tail(s: string, i: nat): (rest: string)
    requires i <= |s|
    ensures var j := if i < |s| && (s[i] == '&' || s[i] == '?') then i + 1 else i;
      && j + |rest| <= |s| && rest == s[j..j + |rest|]
      && (j + |rest| == |s| || IsLineTerminator(s[j + |rest|]))
    ensures forall j :: 0 <= j < |rest| ==> !IsLineTerminator(rest[j])
  {
    var j := if i < |s| && (s[i] == '&' || s[i] == '?') then i + 1 else i;
    s[j..LineEnd(s, j)]
  }

  /** The captures an embed pattern yields: the `-nocookie` group, the video id and the trailing group. */
  datatype EmbedMatch = EmbedMatch(nocookie: bool, id: string, rest: string)

  // ---------------------------------------------------------------- YouTube

  /*
   * /\/\/(?:.*?youtube(-nocookie)?\..*?(?:[?&]v=|\/shorts\/)|youtu\.be\/)([\w-]{11})[&?]?(.*)?/
   *
   * Long form: `//`, a lazy run up to position k1, the host `youtube.` or
   * `youtube-nocookie.`, a lazy run up to position k2, the marker `?v=`, `&v=` or
   * `/shorts/`, then eleven id characters. Short form: `//youtu.be/` and the id.
   */

  /** Where the host part starting at `k1` ends; `-nocookie` is tried first (a greedy `?`). */
  function HostEnd(s: string, k1: nat): (h: Option<nat>)
    ensures h.Some? ==> h.value <= |s|
  {
    if LiteralAt(s, k1, "youtube-nocookie.") then Some(k1 + 17)
    else if LiteralAt(s, k1, "youtube.") then Some(k1 + 8)
    else None
  }

  /** Where the marker starting at `k` ends. */
  function MarkerEnd(s: string, k: nat): Option<nat> {
    if k + 3 <= |s| && (s[k] == '?' || s[k] == '&') && s[k + 1] == 'v' && s[k + 2] == '=' then Some(k + 3)
    else if LiteralAt(s, k, "/shorts/") then Some(k + 8)
    else None
  }

  /** `[\w-]{11}` at `q`. */
  predicate IdAt(s: string, q: nat) {
    q + 11 <= |s| && forall j :: q <= j < q + 11 ==> IsWordChar(s[j]) || s[j] == '-'
  }

  predicate MarkerOk(s: string, k: nat) {
    MarkerEnd(s, k).Some? && IdAt(s, MarkerEnd(s, k).value)
  }

  ghost predicate LongFormAt(s: string, p: nat, k1: nat, k2: nat) {
    && DoubleSlashAt(s, p)
    && p + 2 <= k1 <= |s| && NoLineTerminator(s, p + 2, k1)
    && HostEnd(s, k1).Some?
    && HostEnd(s, k1).value <= k2 <= |s| && NoLineTerminator(s, HostEnd(s, k1).value, k2)
    && MarkerOk(s, k2)
  }

  ghost predicate ShortFormAt(s: string, p: nat) {
    DoubleSlashAt(s, p) && LiteralAt(s, p + 2, "youtu.be/") && IdAt(s, p + 11)
  }

  /** The YouTube pattern matches starting at `p`. */
  ghost predicate YouTubeMatchAt(s: string, p: nat) {
    (exists k1: nat, k2: nat :: LongFormAt(s, p, k1, k2)) || ShortFormAt(s, p)
  }

  /** The match positions the engine settles on. */
  datatype YouTubeHit = LongHit(p: nat, k1: nat, k2: nat) | ShortHit(p: nat)

  /**
   * The engine's choice: the leftmost start; there the long form before the short one,
   * and among long forms the shortest first lazy run, then the shortest second one.
   */
  ghost predicate IsYouTubeChoice(s: string, hit: YouTubeHit) {
    && YouTubeMatchAt(s, hit.p)
    && (forall q: nat :: q < hit.p ==> !YouTubeMatchAt(s, q))
    && match hit
       case LongHit(p, k1, k2) =>
         && LongFormAt(s, p, k1, k2)
         && forall a: nat, b: nat :: LongFormAt(s, p, a, b) ==> k1 < a || (k1 == a && k2 <= b)
       case ShortHit(p) =>
         ShortFormAt(s, p) && forall a: nat, b: nat :: !LongFormAt(s, p, a, b)
  }

  /** The lazy `.*?` before the marker: the first `k2 >= k` reachable without a line terminator. */
  function FindMarker(s: string, k: nat): (r: Option<nat>)
    requires k <= |s|
    decreases |s| - k
    ensures r.Some? ==> k <= r.value <= |s| && NoLineTerminator(s, k, r.value) && MarkerOk(s, r.value)
    ensures r.Some? ==> forall b: nat :: k <= b < r.value ==> !MarkerOk(s, b)
    ensures r.None? ==> forall b: nat :: k <= b <= |s| && NoLineTerminator(s, k, b) ==> !MarkerOk(s, b)
  {
    if MarkerOk(s, k) then Some(k)
    else if k < |s| && !IsLineTerminator(s[k]) then FindMarker(s, k + 1)
    else None
  }

  /** At a fixed host position `k1`: the shortest marker run that completes a long form. */
  function MarkerAfterHost(s: string, p: nat, k1: nat): (r: Option<nat>)
    requires DoubleSlashAt(s, p) && p + 2 <= k1 <= |s| && NoLineTerminator(s, p + 2, k1)
    ensures r.None? ==> forall b: nat :: !LongFormAt(s, p, k1, b)
    ensures r.Some? ==> LongFormAt(s, p, k1, r.value)
    ensures r.Some? ==> forall b: nat :: LongFormAt(s, p, k1, b) ==> r.value <= b
  {
    if HostEnd(s, k1).Some? then FindMarker(s, HostEnd(s, k1).value) else None
  }

  /** A line terminator at `k` (or the end of `s`) stops the lazy run: no host position lies beyond it. */
  lemma NoLongFormBeyond(s: string, p: nat, k: nat)
    requires p + 2 <= k <= |s|
    requires k == |s| || IsLineTerminator(s[k])
    ensures forall a: nat, b: nat :: k < a ==> !LongFormAt(s, p, a, b)
  {
  }

  /** The lazy `.*?` before the host: the first `k1 >= k` from which a long form completes. */
  function FindLongForm(s: string, p: nat, k: nat): (r: Option<(nat, nat)>)
    requires DoubleSlashAt(s, p) && p + 2 <= k <= |s| && NoLineTerminator(s, p + 2, k)
    decreases |s| - k
    ensures r.Some? ==> k <= r.value.0 && LongFormAt(s, p, r.value.0, r.value.1)
    ensures r.Some? ==> forall a: nat, b: nat :: k <= a && LongFormAt(s, p, a, b) ==>
                          r.value.0 < a || (r.value.0 == a && r.value.1 <= b)
    ensures r.None? ==> forall a: nat, b: nat :: k <= a ==> !LongFormAt(s, p, a, b)
  {
    var inner := MarkerAfterHost(s, p, k);
    if inner.Some? then
      Some((k, inner.value))
    else if k < |s| && !IsLineTerminator(s[k]) then
      var r := FindLongForm(s, p, k + 1);
      assert forall a: nat, b: nat :: k <= a && LongFormAt(s, p, a, b) ==> k + 1 <= a;
      r
    else
      NoLongFormBeyond(s, p, k);
      None
  }

  /** The engine's choice among the matches that start at `p`, the long form first. */
  function YouTubeAt(s: string, p: nat): (r: Option<YouTubeHit>)
    ensures r.None? <==> !YouTubeMatchAt(s, p)
    ensures r.Some? ==> r.value.p == p
    ensures r.Some? && r.value.LongHit? ==>
      && LongFormAt(s, p, r.value.k1, r.value.k2)
      && forall a: nat, b: nat :: LongFormAt(s, p, a, b) ==> r.value.k1 < a || (r.value.k1 == a && r.value.k2 <= b)
    ensures r.Some? && r.value.ShortHit? ==>
      ShortFormAt(s, p) && forall a: nat, b: nat :: !LongFormAt(s, p, a, b)
  {
    if !DoubleSlashAt(s, p) then
      None
    else
      var long := FindLongForm(s, p, p + 2);
      assert forall a: nat, b: nat :: LongFormAt(s, p, a, b) ==> p + 2 <= a;
      if long.Some? then
        Some(LongHit(p, long.value.0, long.value.1))
      else if LiteralAt(s, p + 2, "youtu.be/") && IdAt(s, p + 11) then
        Some(ShortHit(p))
      else
        None
  }

  /** The unanchored search: start positions from `p` on, leftmost first. */
  function FindYouTubeFrom(s: string, p: nat): (r: Option<YouTubeHit>)
    decreases |s| - p
    ensures r.None? ==> forall q: nat :: p <= q ==> !YouTubeMatchAt(s, q)
    ensures r.Some? ==> p <= r.value.p && r == YouTubeAt(s, r.value.p)
    ensures r.Some? ==> forall q: nat :: p <= q < r.value.p ==> !YouTubeMatchAt(s, q)
  {
    if p + 2 > |s| then
      assert forall q: nat :: p <= q ==> !DoubleSlashAt(s, q);
      None
    else
      var here := YouTubeAt(s, p);
      if here.Some? then here else FindYouTubeFrom(s, p + 1)
  }

  /** `src.match(youtubePattern)`: no match exactly when the pattern matches nowhere, else the engine's choice. */
  function FindYouTube(s: string): (r: Option<YouTubeHit>)
    ensures r.None? <==> forall q: nat :: !YouTubeMatchAt(s, q)
    ensures r.Some? ==> IsYouTubeChoice(s, r.value)
  {
    FindYouTubeFrom(s, 0)
  }

  /** The groups of a YouTube match. */
  function YouTubeCaptures(s: string, hit: YouTubeHit): (m: EmbedMatch)
    requires hit.LongHit? ==> MarkerOk(s, hit.k2)
    requires hit.ShortHit? ==> IdAt(s, hit.p + 11)
    ensures |m.id| == 11
    ensures forall j :: 0 <= j < |m.id| ==> IsWordChar(m.id[j]) || m.id[j] == '-'
    ensures hit.LongHit? ==>
      && m.nocookie == LiteralAt(s, hit.k1, "youtube-nocookie.")
      && m.id == s[MarkerEnd(s, hit.k2).value..MarkerEnd(s, hit.k2).value + 11]
      && m.rest == Tail(s, MarkerEnd(s, hit.k2).value + 11)
    ensures hit.ShortHit? ==> !m.nocookie && m.id == s[hit.p + 11..hit.p + 22] && m.rest == Tail(s, hit.p + 22)
  {
    match hit
    case LongHit(_, k1, k2) =>
      var q := MarkerEnd(s, k2).value;
      EmbedMatch(LiteralAt(s, k1, "youtube-nocookie."), s[q..q + 11], Tail(s, q + 11))
    case ShortHit(p) =>
      EmbedMatch(false, s[p + 11..p + 22], Tail(s, p + 22))
  }

  // ---------------------------------------------------------------- Vimeo

  /*
   * /\/\/.*?vimeo\.[a-z]+\/(\d+)[&?]?(.*)?/
   *
   * `//`, a lazy run up to k1, `vimeo.`, a run of lower-case letters, `/`, and the
   * digits of the id. `[a-z]` never matches `/`, so the letter run is the longest
   * one; `\d+` is greedy and what follows always matches, so the id is the longest
   * digit run.
   */

  function LowerRunEnd(s: string, i: nat): (e: nat)
    requires i <= |s|
    decreases |s| - i
    ensures i <= e <= |s|
    ensures forall j :: i <= j < e ==> IsLowerLetter(s[j])
    ensures e == |s| || !IsLowerLetter(s[e])
  {
    if i == |s| || !IsLowerLetter(s[i]) then i else LowerRunEnd(s, i + 1)
  }

  function DigitRunEnd(s: string, i: nat): (e: nat)
    requires i <= |s|
    decreases |s| - i
    ensures i <= e <= |s|
    ensures forall j :: i <= j < e ==> IsDigit(s[j])
    ensures e == |s| || !IsDigit(s[e])
  {
    if i == |s| || !IsDigit(s[i]) then i else DigitRunEnd(s, i + 1)
  }

  /** From `k1` on: `vimeo.`, letters, `/`, at least one digit. */
  predicate VimeoHostAt(s: string, k1: nat) {
    && LiteralAt(s, k1, "vimeo.")
    && var l := LowerRunEnd(s, k1 + 6);
       l > k1 + 6 && l < |s| && s[l] == '/' && DigitRunEnd(s, l + 1) > l + 1
  }

  ghost predicate VimeoMatchAt(s: string, p: nat, k1: nat) {
    DoubleSlashAt(s, p) && p + 2 <= k1 <= |s| && NoLineTerminator(s, p + 2, k1) && VimeoHostAt(s, k1)
  }

  /** The engine's choice: the leftmost start, then the shortest lazy run. */
  ghost predicate IsVimeoChoice(s: string, p: nat, k1: nat) {
    && VimeoMatchAt(s, p, k1)
    && (forall q: nat, a: nat :: q < p ==> !VimeoMatchAt(s, q, a))
    && (forall a: nat :: a < k1 ==> !VimeoMatchAt(s, p, a))
  }

  function FindVimeoHost(s: string, p: nat, k: nat): (r: Option<nat>)
    requires DoubleSlashAt(s, p) && p + 2 <= k <= |s| && NoLineTerminator(s, p + 2, k)
    decreases |s| - k
    ensures r.Some? ==> k <= r.value && VimeoMatchAt(s, p, r.value)
    ensures r.Some? ==> forall a: nat :: k <= a < r.value ==> !VimeoMatchAt(s, p, a)
    ensures r.None? ==> forall a: nat :: k <= a ==> !VimeoMatchAt(s, p, a)
  {
    if VimeoHostAt(s, k) then Some(k)
    else if k < |s| && !IsLineTerminator(s[k]) then FindVimeoHost(s, p, k + 1)
    else None
  }

  function FindVimeoFrom(s: string, p: nat): (r: Option<(nat, nat)>)
    decreases |s| - p
    ensures r.None? ==> forall q: nat, a: nat :: p <= q ==> !VimeoMatchAt(s, q, a)
    ensures r.Some? ==> p <= r.value.0 && VimeoMatchAt(s, r.value.0, r.value.1)
    ensures r.Some? ==> forall q: nat, a: nat :: p <= q < r.value.0 ==> !VimeoMatchAt(s, q, a)
    ensures r.Some? ==> forall a: nat :: a < r.value.1 ==> !VimeoMatchAt(s, r.value.0, a)
  {
    if p + 2 > |s| then
      None
    else if s[p] == '/' && s[p + 1] == '/' then
      var k1 := FindVimeoHost(s, p, p + 2);
      if k1.Some? then Some((p, k1.value)) else FindVimeoFrom(s, p + 1)
    else
      FindVimeoFrom(s, p + 1)
  }

  /** `src.match(vimeoPattern)`: no match exactly when the pattern matches nowhere, else the engine's choice. */
  function FindVimeo(s: string): (r: Option<(nat, nat)>)
    ensures r.None? <==> forall q: nat, a: nat :: !VimeoMatchAt(s, q, a)
    ensures r.Some? ==> IsVimeoChoice(s, r.value.0, r.value.1)
  {
    FindVimeoFrom(s, 0)
  }

  /** The groups of a Vimeo match at `k1`: the digit run and the trailing group. */
  function VimeoCaptures(s: string, k1: nat): (m: EmbedMatch)
    requires VimeoHostAt(s, k1)
    ensures m.id != [] && forall j :: 0 <= j < |m.id| ==> IsDigit(m.id[j])
    ensures var start := LowerRunEnd(s, k1 + 6) + 1;
      && s[start - 1] == '/'
      && start + |m.id| <= |s| && m.id == s[start..start + |m.id|]
      && (start + |m.id| == |s| || !IsDigit(s[start + |m.id|]))
      && m.rest == Tail(s, start + |m.id|)
    ensures !m.nocookie
  {
    var l := LowerRunEnd(s, k1 + 6);
    var d := DigitRunEnd(s, l + 1);
    EmbedMatch(false, s[l + 1..d], Tail(s, d))
  }

  // ---------------------------------------------------------------- classification

  /** The kinds the handler's if-chain distinguishes, in the order it tests them. */
  datatype Kind = NoSource | ResponsiveImage | Image | Video | Frame | YouTube | Vimeo | Unmatched

  ghost predicate IsImageSource(item: Item)
    requires item.source.Some?
  {
    item.mediaType == Some("image") || ExtensionMatch(item.source.value, ImageExtensions)
  }

  ghost predicate IsVideoSource(item: Item)
    requires item.source.Some?
  {
    item.mediaType == Some("video") || ExtensionMatch(item.source.value, VideoExtensions)
  }

  ghost predicate IsFrameSource(item: Item)
    requires item.source.Some?
  {
    item.mediaType == Some("iframe") || ExtensionMatch(item.source.value, FrameExtensions)
  }

  ghost predicate IsYouTubeSource(src: string) {
    exists q: nat :: YouTubeMatchAt(src, q)
  }

  ghost predicate IsVimeoSource(src: string) {
    exists q: nat, a: nat :: VimeoMatchAt(src, q, a)
  }

  /**
   * First match wins: a missing or empty source stops the handler; then a srcset,
   * the image rule, the video rule, the iframe rule, the YouTube pattern and the
   * Vimeo pattern are tried in this order.
   */
  function Classify(item: Item): (k: Kind)
    ensures k == NoSource <==> !Truthy(item.source)
    ensures k == ResponsiveImage <==> Truthy(item.source) && Truthy(item.srcset)
    ensures k == Image <==> Truthy(item.source) && !Truthy(item.srcset) && IsImageSource(item)
    ensures k == Video <==>
      Truthy(item.source) && !Truthy(item.srcset) && !IsImageSource(item) && IsVideoSource(item)
    ensures k == Frame <==>
      && Truthy(item.source) && !Truthy(item.srcset) && !IsImageSource(item) && !IsVideoSource(item)
      && IsFrameSource(item)
    ensures k == YouTube <==>
      && Truthy(item.source) && !Truthy(item.srcset) && !IsImageSource(item) && !IsVideoSource(item)
      && !IsFrameSource(item) && IsYouTubeSource(item.source.value)
    ensures k == Vimeo <==>
      && Truthy(item.source) && !Truthy(item.srcset) && !IsImageSource(item) && !IsVideoSource(item)
      && !IsFrameSource(item) && !IsYouTubeSource(item.source.value) && IsVimeoSource(item.source.value)
    ensures k == Unmatched <==>
      && Truthy(item.source) && !Truthy(item.srcset) && !IsImageSource(item) && !IsVideoSource(item)
      && !IsFrameSource(item) && !IsYouTubeSource(item.source.value) && !IsVimeoSource(item.source.value)
  {
    if !Truthy(item.source) then NoSource
    else
      var src := item.source.value;
      if Truthy(item.srcset) then ResponsiveImage
      else if item.mediaType == Some("image") || HasExtension(src, ImageExtensions) then Image
      else if item.mediaType == Some("video") || HasExtension(src, VideoExtensions) then Video
      else if item.mediaType == Some("iframe") || HasExtension(src, FrameExtensions) then Frame
      else if FindYouTube(src).Some? then YouTube
      else if FindVimeo(src).Some? then Vimeo
      else Unmatched
  }

  // ---------------------------------------------------------------- elements

  function BoolText(b: bool): string {
    if b then "true" else "false"
  }

  /** `?rest` when the trailing group captured something, nothing otherwise. */
  function QueryPart(rest: string): string {
    if rest == "" then "" else "?" + rest
  }

  function YouTubeEmbedUrl(m: EmbedMatch): string {
    "https://www.youtube" + (if m.nocookie then "-nocookie" else "") + ".com/embed/" + m.id + QueryPart(m.rest)
  }

  function VimeoEmbedUrl(m: EmbedMatch): string {
    "https://player.vimeo.com/video/" + m.id + QueryPart(m.rest)
  }

  /** The attributes shared by the YouTube and Vimeo iframes. */
  function EmbedAttrs(autoplay: bool): Attrs {
    map[
      "allowfullscreen" := Text(""),
      "style" := Text("max-width: 100%; box-sizing: border-box;"),
      "uk-responsive" := Text(""),
      "uk-video" := Text(BoolText(autoplay))]
  }

  /** `<img>` with `src`, optionally `srcset`, the image class and `alt` (default empty), then the item's own attributes. */
  function ImageElement(item: Item, withSrcset: bool): (e: Element)
    requires item.source.Some? && (withSrcset ==> item.srcset.Some?)
    ensures e.tag == ImgTag && "src" in e.attrs && "alt" in e.attrs
    ensures forall a :: a in item.attrs ==> a in e.attrs && e.attrs[a] == item.attrs[a]
    ensures "src" !in item.attrs ==> e.attrs["src"] == Text(item.source.value)
    ensures "alt" !in item.attrs ==> e.attrs["alt"] == Text(item.alt.GetOr(""))
    ensures "class" !in item.attrs ==> IsZoomableImage(e)
    ensures "srcset" in e.attrs <==> withSrcset || "srcset" in item.attrs
    ensures withSrcset && "srcset" !in item.attrs ==> e.attrs["srcset"] == Text(item.srcset.value)
  {
    var base := map["src" := Text(item.source.value), "class" := Text(ImageClass), "alt" := Text(item.alt.GetOr(""))];
    var withSet := if withSrcset then base["srcset" := Text(item.srcset.value)] else base;
    Element(ImgTag, withSet + item.attrs)
  }

  /** `<video>`; an absent poster sets no attribute. */
  function VideoElement(item: Item, autoplay: bool): (e: Element)
    requires item.source.Some?
    ensures e.tag == VideoTag && "src" in e.attrs && "controls" in e.attrs && "playsinline" in e.attrs && "uk-video" in e.attrs
    ensures forall a :: a in item.attrs ==> a in e.attrs && e.attrs[a] == item.attrs[a]
    ensures "src" !in item.attrs ==> e.attrs["src"] == Text(item.source.value)
    ensures "uk-video" !in item.attrs ==> e.attrs["uk-video"] == Text(BoolText(autoplay))
    ensures "poster" in e.attrs <==> item.poster.Some? || "poster" in item.attrs
    ensures item.poster.Some? && "poster" !in item.attrs ==> e.attrs["poster"] == Text(item.poster.value)
  {
    var base := map[
      "src" := Text(item.source.value),
      "controls" := Text(""),
      "playsinline" := Text(""),
      "uk-video" := Text(BoolText(autoplay))];
    var withPoster := if item.poster.Some? then base["poster" := Text(item.poster.value)] else base;
    Element(VideoTag, withPoster + item.attrs)
  }

  /** The class an iframe item's element carries. */
  const FrameClass := "uk-lightbox-plus-iframe"

  function FrameElement(item: Item): (e: Element)
    requires item.source.Some?
    ensures e.tag == IframeTag && "src" in e.attrs && "allowfullscreen" in e.attrs && "class" in e.attrs
    ensures forall a :: a in item.attrs ==> a in e.attrs && e.attrs[a] == item.attrs[a]
    ensures "src" !in item.attrs ==> e.attrs["src"] == Text(item.source.value)
    ensures "class" !in item.attrs ==> e.attrs["class"] == Text(FrameClass)
  {
    var base := map[
      "src" := Text(item.source.value),
      "allowfullscreen" := Text(""),
      "class" := Text(FrameClass)];
    Element(IframeTag, base + item.attrs)
  }

  function YouTubeElement(m: EmbedMatch, autoplay: bool, attrs: Attrs): Element {
    var base := map["src" := Text(YouTubeEmbedUrl(m)), "width" := Number(1920), "height" := Number(1080)];
    Element(IframeTag, base + EmbedAttrs(autoplay) + attrs)
  }

  function VimeoElement(m: EmbedMatch, width: int, height: int, autoplay: bool, attrs: Attrs): Element {
    var base := map["src" := Text(VimeoEmbedUrl(m)), "width" := Number(width), "height" := Number(height)];
    Element(IframeTag, base + EmbedAttrs(autoplay) + attrs)
  }

  // ---------------------------------------------------------------- the itemload handler

  /** What the handler leaves to happen after its synchronous part. */
  datatype Resolution =
    | Placeholder                         // no source, or no rule matched: the spinner stays
    | AwaitLoad(el: Element, once: bool)  // image or video: committed by the element's load listener
    | Direct(el: Element)                 // iframe or YouTube: committed at once
    | AwaitOEmbed(m: EmbedMatch)          // Vimeo: committed once the oEmbed lookup settles

  function Resolve(item: Item, autoplay: bool): (r: Resolution)
    ensures r.Placeholder? <==> Classify(item) == NoSource || Classify(item) == Unmatched
    ensures Classify(item) == Vimeo ==> r.AwaitOEmbed?
    ensures r.AwaitLoad? ==> r.el.tag != SpanTag
    ensures r.Direct? ==> r.el.tag == IframeTag
    ensures Classify(item) == ResponsiveImage ==> r == AwaitLoad(ImageElement(item, true), true)
    ensures Classify(item) == Image ==> r == AwaitLoad(ImageElement(item, false), false)
    ensures r.AwaitLoad? && r.el.tag == ImgTag ==> (r.once <==> Classify(item) == ResponsiveImage)
    ensures Classify(item) == Video ==> r == AwaitLoad(VideoElement(item, autoplay), false)
    ensures Classify(item) == Frame ==> r == Direct(FrameElement(item))
    ensures Classify(item) == YouTube ==> r.Direct?
  {
    match Classify(item)
    case NoSource => Placeholder
    case Unmatched => Placeholder
    case ResponsiveImage => AwaitLoad(ImageElement(item, true), true)
    case Image => AwaitLoad(ImageElement(item, false), false)
    case Video => AwaitLoad(VideoElement(item, autoplay), false)
    case Frame => Direct(FrameElement(item))
    case YouTube =>
      var src := item.source.value;
      var hit := FindYouTube(src).value;
      Direct(YouTubeElement(YouTubeCaptures(src, hit), autoplay, item.attrs))
    case Vimeo =>
      var src := item.source.value;
      AwaitOEmbed(VimeoCaptures(src, FindVimeo(src).value.1))
  }

  /** A load-type event (`load`, `loadedmetadata`) or an `error` event of a media element. */
  datatype MediaEvent = Ready | Failed

  /** The outcome of the Vimeo oEmbed lookup: its width and height, or a network or parse failure. */
  datatype OEmbedOutcome = OEmbed(width: int, height: int) | LookupFailed

  /**
   * The contents the element's listeners commit for a sequence of its events. The
   * error listener stays registered; the load listener is removed after its first
   * call when it was registered with `once` (`armed` says whether it is still there).
   */
  function ListenerCommits(el: Element, armed: bool, once: bool, events: seq<MediaEvent>): (r: seq<Element>)
    ensures forall i :: 0 <= i < |r| ==> r[i] == el || r[i] == ErrorIcon
  {
    if events == [] then []
    else if events[0] == Ready then
      (if armed then [el] else []) + ListenerCommits(el, armed && !once, once, events[1..])
    else
      [ErrorIcon] + ListenerCommits(el, armed, once, events[1..])
  }

  /** What is committed after the spinner, once the handler's waits are over. */
  function LaterCommits(res: Resolution, autoplay: bool, attrs: Attrs, lookup: OEmbedOutcome, events: seq<MediaEvent>): (r: seq<Element>)
    requires (res.AwaitLoad? || res.Direct?) ==> res.el.tag != SpanTag
    ensures forall i :: 0 <= i < |r| ==> r[i] != Spinner
    ensures res.Placeholder? ==> r == []
    ensures res.AwaitOEmbed? && lookup.LookupFailed? ==> r == [ErrorIcon]
  {
    assert "uk-spinner" !in ErrorIcon.attrs;
    match res
    case Placeholder => []
    case AwaitLoad(el, once) => ListenerCommits(el, true, once, events)
    case Direct(el) => [el]
    case AwaitOEmbed(m) =>
      match lookup
      case LookupFailed => [ErrorIcon]
      case OEmbed(w, h) => [VimeoElement(m, w, h, autoplay, attrs)]
  }

  /**
   * Every content the handler commits to the item's slide, in order: the spinner,
   * then what the item's kind produces, given the outcome of the Vimeo lookup and
   * the events of the created image or video element.
   */
  function ItemLoad(item: Item, autoplay: bool, lookup: OEmbedOutcome, events: seq<MediaEvent>): (r: seq<Element>)
    ensures |r| >= 1 && r[0] == Spinner
    ensures forall i :: 1 <= i < |r| ==> r[i] != Spinner
    ensures Classify(item) == NoSource || Classify(item) == Unmatched ==> r == [Spinner]
    ensures Classify(item) == Vimeo && lookup.LookupFailed? ==> r == [Spinner, ErrorIcon]
  {
    [Spinner] + LaterCommits(Resolve(item, autoplay), autoplay, item.attrs, lookup, events)
  }

  /**
   * An image or video whose element reports an error shows the error icon right after the
   * spinner, whatever follows: the error listener is registered beside the load listener.
   */
  lemma MediaErrorShowsErrorIcon(item: Item, autoplay: bool, lookup: OEmbedOutcome, events: seq<MediaEvent>)
    requires Classify(item) == ResponsiveImage || Classify(item) == Image || Classify(item) == Video
    ensures var r := ItemLoad(item, autoplay, lookup, [Failed] + events);
      |r| >= 2 && r[1] == ErrorIcon
  {
    var res := Resolve(item, autoplay);
    assert ([Failed] + events)[1..] == events;
    assert LaterCommits(res, autoplay, item.attrs, lookup, [Failed] + events)
      == [ErrorIcon] + ListenerCommits(res.el, true, res.once, events);
  }

  /** The part of `ItemLoad` that runs before the handler first waits: what `loadItem` leaves behind at once. */
  function SyncCommits(item: Item, autoplay: bool): seq<Element> {
    [Spinner] + match Resolve(item, autoplay) case Direct(el) => [el] case _ => []
  }

  /** The slide's content when `loadItem` returns. */
  function SyncContent(item: Item, autoplay: bool): (el: Element)
    ensures el == SyncCommits(item, autoplay)[|SyncCommits(item, autoplay)| - 1]
    ensures !IsZoomableImage(el)
  {
    match Resolve(item, autoplay) case Direct(el) => el case _ => Spinner
  }

  /** Whatever the lookup and the element events turn out to be, the synchronous commits come first. */
  lemma SyncCommitsArePrefix(item: Item, autoplay: bool, lookup: OEmbedOutcome, events: seq<MediaEvent>)
    ensures SyncCommits(item, autoplay) <= ItemLoad(item, autoplay, lookup, events)
  {
  }

  function Count(s: seq<Element>, x: Element): nat {
    if s == [] then 0 else (if s[0] == x then 1 else 0) + Count(s[1..], x)
  }

  lemma CountAppend(a: seq<Element>, b: seq<Element>, x: Element)
    ensures Count(a + b, x) == Count(a, x) + Count(b, x)
  {
    if a == [] {
      assert a + b == b;
    } else {
      assert (a + b)[1..] == a[1..] + b;
      CountAppend(a[1..], b, x);
    }
  }

  function ReadyCount(events: seq<MediaEvent>): nat {
    if events == [] then 0 else (if events[0] == Ready then 1 else 0) + ReadyCount(events[1..])
  }

  /**
   * A `once` load listener commits its element at most once, whatever events follow
   * (the srcset is later removed and the browser may fire `load` again); a plain
   * listener commits it on every load event.
   */
  lemma {:induction false} ListenerCommitCount(el: Element, armed: bool, once: bool, events: seq<MediaEvent>)
    requires el != ErrorIcon
    ensures once ==> Count(ListenerCommits(el, armed, once, events), el) <= (if armed then 1 else 0)
    ensures !once && armed ==> Count(ListenerCommits(el, armed, once, events), el) == ReadyCount(events)
  {
    if events != [] {
      var rest := ListenerCommits(el, if events[0] == Ready then armed && !once else armed, once, events[1..]);
      ListenerCommitCount(el, if events[0] == Ready then armed && !once else armed, once, events[1..]);
      if events[0] == Ready {
        CountAppend(if armed then [el] else [], rest, el);
      } else {
        CountAppend([ErrorIcon], rest, el);
      }
    }
  }

  /** A responsive image is put into its slide at most once. */
  lemma ResponsiveImageCommittedOnce(item: Item, autoplay: bool, lookup: OEmbedOutcome, events: seq<MediaEvent>)
    requires Classify(item) == ResponsiveImage
    ensures Count(ItemLoad(item, autoplay, lookup, events), ImageElement(item, true)) <= 1
  {
    var el := ImageElement(item, true);
    ListenerCommitCount(el, true, true, events);
    CountAppend([Spinner], ListenerCommits(el, true, true, events), el);
  }

  lemma YouTubeElementAttrs(m: EmbedMatch, autoplay: bool, attrs: Attrs)
    ensures var el := YouTubeElement(m, autoplay, attrs);
            && el.tag == IframeTag
            && ("src" !in attrs ==> el.attrs["src"] == Text(YouTubeEmbedUrl(m)))
            && ("width" !in attrs ==> el.attrs["width"] == Number(1920))
            && ("height" !in attrs ==> el.attrs["height"] == Number(1080))
  {
  }

  lemma VimeoElementAttrs(m: EmbedMatch, w: int, h: int, autoplay: bool, attrs: Attrs)
    ensures var el := VimeoElement(m, w, h, autoplay, attrs);
            && el.tag == IframeTag
            && ("src" !in attrs ==> el.attrs["src"] == Text(VimeoEmbedUrl(m)))
            && ("width" !in attrs ==> el.attrs["width"] == Number(w))
            && ("height" !in attrs ==> el.attrs["height"] == Number(h))
  {
  }

  /**
   * A YouTube source becomes one iframe whose `src` (unless the item's own attributes
   * override it) is the embed URL built from the engine's match: the `-nocookie` host
   * when captured, the eleven-character id, and `?rest` only when the trailing group is not empty.
   */
  lemma YouTubeEmbed(item: Item, autoplay: bool, lookup: OEmbedOutcome, events: seq<MediaEvent>)
    requires Classify(item) == YouTube
    ensures var src := item.source.value;
            var hit := FindYouTube(src).value;
            var m := YouTubeCaptures(src, hit);
            var r := ItemLoad(item, autoplay, lookup, events);
            && IsYouTubeChoice(src, hit)
            && |m.id| == 11
            && r == [Spinner, YouTubeElement(m, autoplay, item.attrs)]
  {
    var src := item.source.value;
    var hit := FindYouTube(src).value;
    var m := YouTubeCaptures(src, hit);
    var el := YouTubeElement(m, autoplay, item.attrs);
    assert Resolve(item, autoplay) == Direct(el);
    assert LaterCommits(Direct(el), autoplay, item.attrs, lookup, events) == [el];
  }

  /**
   * A Vimeo source becomes, once the lookup answers, one iframe with the player URL
   * built from the numeric id and the looked-up size.
   */
  lemma VimeoEmbed(item: Item, autoplay: bool, w: int, h: int, events: seq<MediaEvent>)
    requires Classify(item) == Vimeo
    ensures var src := item.source.value;
            var hit := FindVimeo(src).value;
            var m := VimeoCaptures(src, hit.1);
            var r := ItemLoad(item, autoplay, OEmbed(w, h), events);
            && IsVimeoChoice(src, hit.0, hit.1)
            && m.id != [] && (forall j :: 0 <= j < |m.id| ==> IsDigit(m.id[j]))
            && r == [Spinner, VimeoElement(m, w, h, autoplay, item.attrs)]
  {
    var src := item.source.value;
    var m := VimeoCaptures(src, FindVimeo(src).value.1);
    assert Resolve(item, autoplay) == AwaitOEmbed(m);
    assert LaterCommits(AwaitOEmbed(m), autoplay, item.attrs, OEmbed(w, h), events) == [VimeoElement(m, w, h, autoplay, item.attrs)];
  }

  /** A plain `.jpg` link is shown as an image, the same link with a srcset as a responsive image, and an empty source as nothing. */
  lemma ClassifyExamples()
    ensures Classify(Item(Some("photos/cat.jpg"), None, None, None, None, None, map[])) == Image
    ensures Classify(Item(Some("a.jpg"), Some("a-2x.jpg 2x"), None, None, None, None, map[])) == ResponsiveImage
    ensures Classify(Item(Some(""), None, None, Some("image"), None, None, map[])) == NoSource
  {
    assert ImageExtensions[1] == "jpg";
    assert ExtensionAt("photos/cat.jpg", 10, ImageExtensions[1]);
  }
}
