/**
 * The media screen's string helpers: pulling a YouTube video id out of a URL
 * with a regular expression, choosing a thumbnail image for a video, and
 * writing a number of seconds as `m:ss`.
 */
module Media {
  import opened Wrappers
  import opened Strings

  // ---------------------------------------------------------------------------
  // The regular expression
  //
  //   /^.*(youtu.be\/|v\/|u\/\w\/|embed\/|watch\?v=|&v=)([^#&?]*).*/
  //
  // has no flags, so `^` anchors at the start of the URL and `.` matches any
  // character except a line terminator. The greedy `.*` is backtracked from
  // its longest extent: the match uses the LAST position on the first line at
  // which one of the alternatives matches, and capture group 2 is the longest
  // run of characters other than `#`, `&` and `?` after that marker (the
  // negated class also crosses line breaks). The trailing `.*` always matches.

  /** The characters ECMAScript's `.` refuses. */
  predicate LineTerminator(c: char)
  {
    c == '\n' || c == '\r' || c == '\U{2028}' || c == '\U{2029}'
  }

  /** ECMAScript `\w`. */
  predicate WordChar(c: char)
  {
    ('a' <= c <= 'z') || ('A' <= c <= 'Z') || ('0' <= c <= '9') || c == '_'
  }

  /** The class `[^#&?]` of capture group 2. */
  predicate IdChar(c: char)
  {
    c != '#' && c != '&' && c != '?'
  }

  /**
   * The length of the text matched by the first alternative of group 1 that
   * matches at position `i`, if any does: `youtu.be/` (with `.` any character
   * but a line terminator), `v/`, `u/` + `\w` + `/`, `embed/`, `watch?v=`, `&v=`.
   */
  function MarkerAt(s: string, i: nat): (r: Option<nat>)
    requires i <= |s|
    ensures r.Some? ==> 2 <= r.value && i + r.value <= |s|
    ensures r.Some? ==> s[i + r.value - 1] == '/' || s[i + r.value - 1] == '='
  {
    if i + 9 <= |s| && s[i] == 'y' && s[i + 1] == 'o' && s[i + 2] == 'u' && s[i + 3] == 't' && s[i + 4] == 'u'
      && !LineTerminator(s[i + 5]) && s[i + 6] == 'b' && s[i + 7] == 'e' && s[i + 8] == '/'
    then Some(9)
    else if i + 2 <= |s| && s[i] == 'v' && s[i + 1] == '/' then Some(2)
    else if i + 4 <= |s| && s[i] == 'u' && s[i + 1] == '/' && WordChar(s[i + 2]) && s[i + 3] == '/' then Some(4)
    else if i + 6 <= |s| && s[i] == 'e' && s[i + 1] == 'm' && s[i + 2] == 'b' && s[i + 3] == 'e' && s[i + 4] == 'd'
      && s[i + 5] == '/'
    then Some(6)
    else if i + 8 <= |s| && s[i] == 'w' && s[i + 1] == 'a' && s[i + 2] == 't' && s[i + 3] == 'c' && s[i + 4] == 'h'
      && s[i + 5] == '?' && s[i + 6] == 'v' && s[i + 7] == '='
    then Some(8)
    else if i + 3 <= |s| && s[i] == '&' && s[i + 1] == 'v' && s[i + 2] == '=' then Some(3)
    else None
  }

  /** The length of the first line: how far `^.*` can reach. */
  function FirstLineEnd(s: string): (e: nat)
    ensures e <= |s|
    ensures e < |s| ==> LineTerminator(s[e])
  {
    if s == [] || LineTerminator(s[0]) then 0 else 1 + FirstLineEnd(s[1..])
  }

  /** No character before `FirstLineEnd(s)` is a line terminator. */
  lemma {:induction false} FirstLineClear(s: string, k: nat)
    requires k < FirstLineEnd(s)
    ensures !LineTerminator(s[k])
  {
    if k > 0 {
      FirstLineClear(s[1..], k - 1);
    }
  }

  /** A prefix without line terminators is all on the first line. */
  lemma OnFirstLine(url: string, m: nat)
    requires m <= |url| && forall k :: 0 <= k < m ==> !LineTerminator(url[k])
    ensures m <= FirstLineEnd(url)
  {
  }

  /**
   * Backtracking the greedy `.*` from position `i` down: the last position
   * at most `i` where a marker matches, with the marker's length.
   */
  function LastMarkerFrom(s: string, i: nat): (r: Option<(nat, nat)>)
    requires i <= |s|
    ensures r.Some? ==> r.value.0 <= i && MarkerAt(s, r.value.0) == Some(r.value.1)
    ensures r.Some? ==> forall q :: r.value.0 < q <= i ==> MarkerAt(s, q).None?
    ensures r.None? ==> forall q :: 0 <= q <= i ==> MarkerAt(s, q).None?
    decreases i
  {
    match MarkerAt(s, i)
    case Some(n) => Some((i, n))
    case None => if i == 0 then None else LastMarkerFrom(s, i - 1)
  }

  /** The length of the longest run of `[^#&?]` starting at `j`: capture group 2. */
  function RunLength(s: string, j: nat): (n: nat)
    requires j <= |s|
    ensures j + n <= |s|
    ensures j + n < |s| ==> !IdChar(s[j + n])
    decreases |s| - j
  {
    if j == |s| || !IdChar(s[j]) then 0 else 1 + RunLength(s, j + 1)
  }

  /** Every character of the run is in `[^#&?]`. */
  lemma {:induction false} RunChars(s: string, j: nat)
    requires j <= |s|
    ensures forall k :: j <= k < j + RunLength(s, j) ==> IdChar(s[k])
    decreases |s| - j
  {
    if j < |s| && IdChar(s[j]) {
      RunChars(s, j + 1);
    }
  }

  /** A run that starts with `m` characters of `[^#&?]` goes on from after them. */
  lemma {:induction false} RunSplit(s: string, j: nat, m: nat)
    requires j + m <= |s| && forall k :: j <= k < j + m ==> IdChar(s[k])
    ensures RunLength(s, j) == m + RunLength(s, j + m)
    decreases m
  {
    if m > 0 {
      assert IdChar(s[j]);
      RunSplit(s, j + 1, m - 1);
    }
  }

  /** `extractYouTubeId`: capture group 2 when it is exactly 11 characters long, else `""`. */
  function ExtractYouTubeId(url: string): (id: string)
    ensures id == [] || (|id| == 11 && forall k :: 0 <= k < 11 ==> IdChar(id[k]))
  {
    match LastMarkerFrom(url, FirstLineEnd(url))
    case None => ""
    case Some((i, n)) =>
      RunChars(url, i + n);
      if RunLength(url, i + n) == 11 then url[i + n..i + n + 11] else ""
  }

  /**
   * The id is decided by the last marker on the first line alone: when the
   * run after it is not 11 characters long the result is `""`, whatever an
   * earlier marker is followed by.
   */
  lemma ExtractAfterLastMarker(url: string, q: nat, n: nat)
    requires q <= FirstLineEnd(url) && MarkerAt(url, q) == Some(n)
    requires forall p :: q < p <= FirstLineEnd(url) ==> MarkerAt(url, p).None?
    ensures ExtractYouTubeId(url) == if RunLength(url, q + n) == 11 then url[q + n..q + n + 11] else ""
  {
    var e := FirstLineEnd(url);
    var r := LastMarkerFrom(url, e);
    assert r.Some?;
    assert r.value.0 == q;
  }

  /** A URL with no marker on its first line has no id. */
  lemma ExtractWithoutMarker(url: string)
    requires NoMarkerFrom(url, 0)
    ensures ExtractYouTubeId(url) == ""
  {
  }

  /** No `/` and no `=`, the characters every marker ends with, from position `j` on. */
  predicate Unmarked(s: string, j: nat)
    requires j <= |s|
    decreases |s| - j
  {
    j == |s| || (s[j] != '/' && s[j] != '=' && Unmarked(s, j + 1))
  }

  lemma {:induction false} UnmarkedFrom(s: string, j: nat)
    requires j <= |s| && forall k :: j <= k < |s| ==> s[k] != '/' && s[k] != '='
    ensures Unmarked(s, j)
    decreases |s| - j
  {
    if j < |s| {
      UnmarkedFrom(s, j + 1);
    }
  }

  lemma {:induction false} UnmarkedAt(s: string, j: nat, k: nat)
    requires j <= k < |s| && Unmarked(s, j)
    ensures s[k] != '/' && s[k] != '='
    decreases k - j
  {
    if j < k {
      UnmarkedAt(s, j + 1, k);
    }
  }

  /** Where no `/` or `=` follows, no marker starts. */
  lemma UnmarkedNoMarker(s: string, j: nat)
    requires j <= |s| && Unmarked(s, j)
    ensures forall p :: j <= p <= |s| ==> MarkerAt(s, p).None?
  {
    forall p | j <= p <= |s|
      ensures MarkerAt(s, p).None?
    {
      if MarkerAt(s, p).Some? {
        UnmarkedAt(s, j, p + MarkerAt(s, p).value - 1);
      }
    }
  }

  /**
   * The marker of length `n` at `i` is on the first line and no other marker
   * starts inside it.
   */
  predicate FinalMarker(url: string, i: nat, n: nat)
  {
    && i <= FirstLineEnd(url) && MarkerAt(url, i) == Some(n)
    && NoMarkerIn(url, i + 1, i + n)
  }

  /** No marker starts at any position of `[lo, hi)`. */
  predicate NoMarkerIn(s: string, lo: nat, hi: nat)
    requires hi <= |s|
    decreases hi - lo
  {
    lo >= hi || (MarkerAt(s, lo).None? && NoMarkerIn(s, lo + 1, hi))
  }

  /** `NoMarkerIn` as a statement about every position. */
  lemma {:induction false} NoMarkerInAll(s: string, lo: nat, hi: nat)
    requires hi <= |s| && NoMarkerIn(s, lo, hi)
    ensures forall p :: lo <= p < hi ==> MarkerAt(s, p).None?
    decreases hi - lo
  {
    if lo < hi {
      NoMarkerInAll(s, lo + 1, hi);
    }
  }

  /**
   * `ExtractAfterLastMarker` when nothing after the marker holds `/` or `=`,
   * so that no later marker exists.
   */
  lemma ExtractAfterFinalMarker(url: string, q: nat, n: nat)
    requires FinalMarker(url, q, n) && q + n <= |url| && Unmarked(url, q + n)
    ensures ExtractYouTubeId(url) == if RunLength(url, q + n) == 11 then url[q + n..q + n + 11] else ""
  {
    NoMarkerInAll(url, q + 1, q + n);
    UnmarkedNoMarker(url, q + n);
    ExtractAfterLastMarker(url, q, n);
  }

  /**
   * `id` is 11 characters of `[^#&?]` written at `j`, the run stops after
   * them, and no `/` or `=` follows from `j` on.
   */
  predicate IdFollows(url: string, j: nat, id: string)
  {
    && j + 11 <= |url| && |id| == 11
    && (forall k :: 0 <= k < 11 ==> url[j + k] == id[k] && IdChar(id[k]))
    && (j + 11 == |url| || !IdChar(url[j + 11]))
  }

  /** After the marker, exactly the 11 characters of `id` form capture group 2. */
  lemma RunIsId(url: string, j: nat, id: string)
    requires IdFollows(url, j, id)
    ensures RunLength(url, j) == 11 && url[j..j + 11] == id
  {
    assert forall k :: j <= k < j + 11 ==> url[k] == id[k - j];
    RunSplit(url, j, 11);
  }

  /** A run of `[^#&?]` that reaches the end of the URL is all of what follows. */
  lemma RunToEnd(url: string, j: nat)
    requires j <= |url| && forall k :: j <= k < |url| ==> IdChar(url[k])
    ensures RunLength(url, j) == |url| - j
  {
    RunSplit(url, j, |url| - j);
  }

  /** No alternative of group 1 can start at a character that begins none of them. */
  lemma NotMarkerStart(s: string, p: nat)
    requires p < |s| && s[p] != 'y' && s[p] != 'v' && s[p] != 'w' && s[p] != '&'
    requires s[p] == 'u' ==> p + 1 < |s| && s[p + 1] != '/'
    requires s[p] == 'e' ==> p + 1 < |s| && s[p + 1] != 'm'
    ensures MarkerAt(s, p).None?
  {
  }

  /** An `embed/` on the first line is a marker with no other marker starting inside it. */
  lemma EmbedMarker(url: string, i: nat)
    requires i <= FirstLineEnd(url) && i + 6 <= |url|
    requires url[i] == 'e' && url[i + 1] == 'm' && url[i + 2] == 'b' && url[i + 3] == 'e'
    requires url[i + 4] == 'd' && url[i + 5] == '/'
    ensures FinalMarker(url, i, 6)
  {
    NotMarkerStart(url, i + 5);
    NotMarkerStart(url, i + 4);
    NotMarkerStart(url, i + 3);
    NotMarkerStart(url, i + 2);
    NotMarkerStart(url, i + 1);
    assert NoMarkerIn(url, i + 5, i + 6);
    assert NoMarkerIn(url, i + 4, i + 6);
    assert NoMarkerIn(url, i + 3, i + 6);
    assert NoMarkerIn(url, i + 2, i + 6);
  }

  /** A `youtu.be/` on the first line is a marker with no other marker starting inside it. */
  lemma ShortMarker(url: string, i: nat)
    requires i <= FirstLineEnd(url) && i + 9 <= |url|
    requires url[i] == 'y' && url[i + 1] == 'o' && url[i + 2] == 'u' && url[i + 3] == 't' && url[i + 4] == 'u'
    requires url[i + 5] == '.' && url[i + 6] == 'b' && url[i + 7] == 'e' && url[i + 8] == '/'
    ensures FinalMarker(url, i, 9)
  {
    NotMarkerStart(url, i + 8);
    NotMarkerStart(url, i + 7);
    NotMarkerStart(url, i + 6);
    NotMarkerStart(url, i + 5);
    NotMarkerStart(url, i + 4);
    NotMarkerStart(url, i + 3);
    NotMarkerStart(url, i + 2);
    NotMarkerStart(url, i + 1);
    assert NoMarkerIn(url, i + 8, i + 9);
    assert NoMarkerIn(url, i + 7, i + 9);
    assert NoMarkerIn(url, i + 6, i + 9);
    assert NoMarkerIn(url, i + 5, i + 9);
    assert NoMarkerIn(url, i + 4, i + 9);
    assert NoMarkerIn(url, i + 3, i + 9);
    assert NoMarkerIn(url, i + 2, i + 9);
  }

  /** No marker starts at `j` or after it on the first line. */
  predicate NoMarkerFrom(url: string, j: nat)
  {
    forall p :: j <= p <= FirstLineEnd(url) ==> MarkerAt(url, p).None?
  }

  /**
   * A marker on the first line followed by an 11-character id, with no
   * marker starting after it on that line: the id is extracted.
   */
  lemma IdAfterMarker(url: string, i: nat, n: nat, id: string)
    requires FinalMarker(url, i, n) && IdFollows(url, i + n, id) && NoMarkerFrom(url, i + n)
    ensures ExtractYouTubeId(url) == id
  {
    RunIsId(url, i + n, id);
    NoMarkerInAll(url, i + 1, i + n);
    ExtractAfterLastMarker(url, i, n);
  }

  /** The first line of `a + m + id + b` reaches past `a`, and `m` sits right after `a`. */
  lemma LinkHead(a: string, m: string, id: string, b: string)
    requires forall k :: 0 <= k < |a| ==> !LineTerminator(a[k])
    ensures var url := a + m + id + b;
      && |a| <= FirstLineEnd(url)
      && (forall k :: |a| <= k < |a| + |m| ==> url[k] == m[k - |a|])
  {
    var url := a + m + id + b;
    assert forall k :: 0 <= k < |a| ==> url[k] == a[k];
    assert forall k :: |a| <= k < |a| + |m| ==> url[k] == m[k - |a|];
    OnFirstLine(url, |a|);
  }

  /** In `pre + id + b`, `id` is followed as `IdFollows` says. */
  lemma TailIdFollows(pre: string, id: string, b: string)
    requires |id| == 11 && forall k :: 0 <= k < 11 ==> IdChar(id[k])
    requires b == [] || !IdChar(b[0])
    ensures IdFollows(pre + id + b, |pre|, id)
  {
    var url, j := pre + id + b, |pre|;
    assert forall k :: 0 <= k < 11 ==> url[j + k] == id[k];
    assert |b| > 0 ==> url[j + 11] == b[0];
  }

  /** In `pre + id + b`, no `/` or `=` follows `pre` when `id + b` has none. */
  lemma TailUnmarked(pre: string, id: string, b: string)
    requires forall k :: 0 <= k < |id + b| ==> (id + b)[k] != '/' && (id + b)[k] != '='
    ensures Unmarked(pre + id + b, |pre|)
  {
    var url := pre + id + b;
    assert forall k :: |pre| <= k < |url| ==> url[k] == (id + b)[k - |pre|];
    UnmarkedFrom(url, |pre|);
  }

  /** The positions of `a + m + id + b`, for a marker `m` written out. */
  lemma LinkParts(a: string, m: string, id: string, b: string)
    requires forall k :: 0 <= k < |a| ==> !LineTerminator(a[k])
    requires |id| == 11 && forall k :: 0 <= k < 11 ==> IdChar(id[k])
    requires b == [] || !IdChar(b[0])
    ensures var url := a + m + id + b;
      && |a| <= FirstLineEnd(url)
      && (forall k :: |a| <= k < |a| + |m| ==> url[k] == m[k - |a|])
      && IdFollows(url, |a| + |m|, id)
  {
    LinkHead(a, m, id, b);
    TailIdFollows(a + m, id, b);
  }

  /** The characters of `embed/` one by one. */
  lemma EmbedAt(url: string, i: nat)
    requires i + 6 <= |url| && forall k :: i <= k < i + 6 ==> url[k] == "embed/"[k - i]
    ensures url[i] == 'e' && url[i + 1] == 'm' && url[i + 2] == 'b' && url[i + 3] == 'e'
    ensures url[i + 4] == 'd' && url[i + 5] == '/'
  {
    assert url[i] == "embed/"[0];
    assert url[i + 1] == "embed/"[1];
    assert url[i + 2] == "embed/"[2];
    assert url[i + 3] == "embed/"[3];
    assert url[i + 4] == "embed/"[4];
    assert url[i + 5] == "embed/"[5];
  }

  /** In an embed link, `embed/` is a marker that no later one overrides, and the id follows it. */
  lemma EmbedParts(a: string, id: string, b: string)
    requires forall k :: 0 <= k < |a| ==> !LineTerminator(a[k])
    requires |id| == 11 && forall k :: 0 <= k < 11 ==> IdChar(id[k])
    requires b == [] || !IdChar(b[0])
    ensures var url := a + "embed/" + id + b; FinalMarker(url, |a|, 6) && IdFollows(url, |a| + 6, id)
  {
    var url := a + "embed/" + id + b;
    LinkParts(a, "embed/", id, b);
    EmbedAt(url, |a|);
    EmbedMarker(url, |a|);
  }

  /** In a short link, `youtu.be/` is a marker that no later one overrides, and the id follows it. */
  lemma ShortParts(a: string, id: string, b: string)
    requires forall k :: 0 <= k < |a| ==> !LineTerminator(a[k])
    requires |id| == 11 && forall k :: 0 <= k < 11 ==> IdChar(id[k])
    requires b == [] || !IdChar(b[0])
    ensures var url := a + "youtu.be/" + id + b; FinalMarker(url, |a|, 9) && IdFollows(url, |a| + 9, id)
  {
    var url := a + "youtu.be/" + id + b;
    LinkParts(a, "youtu.be/", id, b);
    ShortAt(url, |a|);
    ShortMarker(url, |a|);
  }

  /**
   * An embed link `a + "embed/" + id + b` (data/mediaData.ts:43 is one)
   * yields the 11 characters after `embed/` when no other marker starts
   * after `embed/` on the first line; a query such as `?t=42` or `?si=x`
   * holds none.
   */
  lemma EmbedLink(a: string, id: string, b: string)
    requires forall k :: 0 <= k < |a| ==> !LineTerminator(a[k])
    requires |id| == 11 && forall k :: 0 <= k < 11 ==> IdChar(id[k])
    requires b == [] || !IdChar(b[0])
    requires NoMarkerFrom(a + "embed/" + id + b, |a| + 6)
    ensures ExtractYouTubeId(a + "embed/" + id + b) == id
  {
    EmbedParts(a, id, b);
    IdAfterMarker(a + "embed/" + id + b, |a|, 6, id);
  }

  /** The characters of `youtu.be/` one by one. */
  lemma ShortAt(url: string, i: nat)
    requires i + 9 <= |url| && forall k :: i <= k < i + 9 ==> url[k] == "youtu.be/"[k - i]
    ensures url[i] == 'y' && url[i + 1] == 'o' && url[i + 2] == 'u' && url[i + 3] == 't' && url[i + 4] == 'u'
    ensures url[i + 5] == '.' && url[i + 6] == 'b' && url[i + 7] == 'e' && url[i + 8] == '/'
  {
    assert url[i] == "youtu.be/"[0];
    assert url[i + 1] == "youtu.be/"[1];
    assert url[i + 2] == "youtu.be/"[2];
    assert url[i + 3] == "youtu.be/"[3];
    assert url[i + 4] == "youtu.be/"[4];
    assert url[i + 5] == "youtu.be/"[5];
    assert url[i + 6] == "youtu.be/"[6];
    assert url[i + 7] == "youtu.be/"[7];
    assert url[i + 8] == "youtu.be/"[8];
  }

  /**
   * A short link `a + "youtu.be/" + id + b` yields the 11 characters after
   * the slash when no other marker starts after `youtu.be/` on the first line.
   */
  lemma ShortLink(a: string, id: string, b: string)
    requires forall k :: 0 <= k < |a| ==> !LineTerminator(a[k])
    requires |id| == 11 && forall k :: 0 <= k < 11 ==> IdChar(id[k])
    requires b == [] || !IdChar(b[0])
    requires NoMarkerFrom(a + "youtu.be/" + id + b, |a| + 9)
    ensures ExtractYouTubeId(a + "youtu.be/" + id + b) == id
  {
    ShortParts(a, id, b);
    IdAfterMarker(a + "youtu.be/" + id + b, |a|, 9, id);
  }

  /** The first video link of data/mediaData.ts:43. */
  lemma EmbedExample()
    ensures ExtractYouTubeId("https://www.youtube.com/embed/IhuwS5ZLwKY") == "IhuwS5ZLwKY"
  {
    var a, id := "https://www.youtube.com/", "IhuwS5ZLwKY";
    assert a + "embed/" + id + "" == "https://www.youtube.com/embed/IhuwS5ZLwKY";
    assert id + "" == id;
    TailUnmarked(a + "embed/", id, "");
    UnmarkedNoMarker(a + "embed/" + id + "", |a| + 6);
    EmbedLink("https://www.youtube.com/", "IhuwS5ZLwKY", "");
  }

  /** The run after the short link's marker in `NoFallback` is the 11-character id. */
  lemma NoFallbackFirstRun(a: string, id: string, c: string)
    requires |id| == 11 && forall k :: 0 <= k < 11 ==> IdChar(id[k])
    ensures RunLength(a + "youtu.be/" + id + "&v=" + c, |a| + 9) == 11
  {
    var url := a + "youtu.be/" + id + "&v=" + c;
    var j := |a| + 9;
    assert forall k :: 0 <= k < 11 ==> url[j + k] == id[k];
    assert url[j + 11] == '&';
    assert IdFollows(url, j, id);
    RunIsId(url, j, id);
  }

  /** The `&v=` marker of `NoFallback` is the last one on the first line, and is followed by `c`. */
  lemma NoFallbackMarker(a: string, id: string, c: string)
    requires forall k :: 0 <= k < |a| ==> !LineTerminator(a[k])
    requires |id| == 11 && forall k :: 0 <= k < 11 ==> !LineTerminator(id[k])
    requires forall k :: 0 <= k < |c| ==> IdChar(c[k]) && c[k] != '/' && c[k] != '='
    ensures var url, q := a + "youtu.be/" + id + "&v=" + c, |a| + 20;
      FinalMarker(url, q, 3) && q + 3 <= |url| && Unmarked(url, q + 3) && RunLength(url, q + 3) == |c|
  {
    var url, q := a + "youtu.be/" + id + "&v=" + c, |a| + 20;
    assert forall k :: 0 <= k < |a| ==> url[k] == a[k];
    assert forall k :: |a| <= k < |a| + 9 ==> url[k] == "youtu.be/"[k - |a|];
    assert forall k :: |a| + 9 <= k < q ==> url[k] == id[k - |a| - 9];
    OnFirstLine(url, q);
    assert url[q] == '&' && url[q + 1] == 'v' && url[q + 2] == '=';
    assert forall k :: q + 3 <= k < |url| ==> url[k] == c[k - q - 3];
    UnmarkedFrom(url, q + 3);
    RunToEnd(url, q + 3);
  }

  /** The `&v=` marker of `NoFallback` decides the result, and its run is too short or too long. */
  lemma NoFallbackLost(a: string, id: string, c: string)
    requires forall k :: 0 <= k < |a| ==> !LineTerminator(a[k])
    requires |id| == 11 && forall k :: 0 <= k < 11 ==> !LineTerminator(id[k])
    requires |c| != 11 && forall k :: 0 <= k < |c| ==> IdChar(c[k]) && c[k] != '/' && c[k] != '='
    ensures ExtractYouTubeId(a + "youtu.be/" + id + "&v=" + c) == ""
  {
    NoFallbackMarker(a, id, c);
    ExtractAfterFinalMarker(a + "youtu.be/" + id + "&v=" + c, |a| + 20, 3);
  }

  /**
   * No fallback: a short link's 11-character id is lost when a later `&v=`
   * marker is followed by a run of another length.
   */
  lemma NoFallback(a: string, id: string, c: string)
    requires forall k :: 0 <= k < |a| ==> !LineTerminator(a[k])
    requires |id| == 11 && forall k :: 0 <= k < 11 ==> IdChar(id[k]) && !LineTerminator(id[k])
    requires |c| != 11 && forall k :: 0 <= k < |c| ==> IdChar(c[k]) && c[k] != '/' && c[k] != '='
    ensures RunLength(a + "youtu.be/" + id + "&v=" + c, |a| + 9) == 11
    ensures ExtractYouTubeId(a + "youtu.be/" + id + "&v=" + c) == ""
  {
    NoFallbackFirstRun(a, id, c);
    NoFallbackLost(a, id, c);
  }

  // ---------------------------------------------------------------------------
  // Thumbnails

  const ThumbnailPrefix := "https://img.youtube.com/vi/"
  const ThumbnailSuffix := "/hqdefault.jpg"
  const PlaceholderImage := "https://images.pexels.com/photos/2747449/pexels-photo-2747449.jpeg?auto=compress&cs=tinysrgb&w=1260&h=750&dpr=1"

  /** `url` names YouTube, by the literal test `getThumbnailForVideo` makes: one of the two host names occurs somewhere in it. */
  predicate IsYouTubeUrl(url: string)
    ensures IsYouTubeUrl(url) <==> exists k :: 0 <= k <= |url| && (StartsWith(url[k..], "youtube.com") || StartsWith(url[k..], "youtu.be"))
  {
    Contains(url, "youtube.com") || Contains(url, "youtu.be")
  }

  /**
   * `getThumbnailForVideo`: YouTube's high-quality still for the extracted id
   * (an empty id still yields a URL), or a fixed placeholder image.
   */
  function Thumbnail(url: string): (r: string)
    ensures IsYouTubeUrl(url) ==> exists id :: |id| in {0, 11} && r == ThumbnailPrefix + id + ThumbnailSuffix
    ensures !IsYouTubeUrl(url) ==> r == PlaceholderImage
  {
    if IsYouTubeUrl(url) then
      var id := ExtractYouTubeId(url);
      assert |id| in {0, 11};
      ThumbnailPrefix + id + ThumbnailSuffix
    else PlaceholderImage
  }

  /** The thumbnail of a YouTube link is the one for the id `extractYouTubeId` finds. */
  lemma ThumbnailOfYouTube(url: string)
    requires IsYouTubeUrl(url)
    ensures Thumbnail(url) == ThumbnailPrefix + ExtractYouTubeId(url) + ThumbnailSuffix
    ensures |Thumbnail(url)| == |ThumbnailPrefix| + |ThumbnailSuffix| + |ExtractYouTubeId(url)|
  {
  }

  /** The thumbnail of an embed link is the still of the 11 characters after `embed/`. */
  lemma ThumbnailOfEmbedLink(a: string, id: string, b: string)
    requires IsYouTubeUrl(a + "embed/" + id + b)
    requires forall k :: 0 <= k < |a| ==> !LineTerminator(a[k])
    requires |id| == 11 && forall k :: 0 <= k < 11 ==> IdChar(id[k])
    requires b == [] || !IdChar(b[0])
    requires NoMarkerFrom(a + "embed/" + id + b, |a| + 6)
    ensures Thumbnail(a + "embed/" + id + b) == ThumbnailPrefix + id + ThumbnailSuffix
  {
    EmbedLink(a, id, b);
  }

  /** A YouTube address without a video still gets a YouTube thumbnail URL, with an empty id. */
  lemma ThumbnailWithoutId(url: string)
    requires IsYouTubeUrl(url) && NoMarkerFrom(url, 0)
    ensures Thumbnail(url) == ThumbnailPrefix + ThumbnailSuffix
  {
    ExtractWithoutMarker(url);
  }

  /** No alternative of group 1 starts in the second half of the bare site address. */
  lemma SiteTailUnmarked()
    ensures NoMarkerIn("https://www.youtube.com/", 12, 24)
  {
    var url := "https://www.youtube.com/";
    NotMarkerStart(url, 23);
    assert NoMarkerIn(url, 23, 24);
    NotMarkerStart(url, 22);
    assert NoMarkerIn(url, 22, 24);
    NotMarkerStart(url, 21);
    assert NoMarkerIn(url, 21, 24);
    NotMarkerStart(url, 20);
    assert NoMarkerIn(url, 20, 24);
    NotMarkerStart(url, 19);
    assert NoMarkerIn(url, 19, 24);
    NotMarkerStart(url, 18);
    assert NoMarkerIn(url, 18, 24);
    NotMarkerStart(url, 17);
    assert NoMarkerIn(url, 17, 24);
    NotMarkerStart(url, 16);
    assert NoMarkerIn(url, 16, 24);
    NotMarkerStart(url, 15);
    assert NoMarkerIn(url, 15, 24);
    NotMarkerStart(url, 14);
    assert NoMarkerIn(url, 14, 24);
    NotMarkerStart(url, 13);
    assert NoMarkerIn(url, 13, 24);
    assert NoMarkerIn(url, 12, 24);
  }

  /** Nor from the `www.` on. */
  lemma SiteMiddleUnmarked()
    ensures NoMarkerIn("https://www.youtube.com/", 6, 24)
  {
    var url := "https://www.youtube.com/";
    SiteTailUnmarked();
    NotMarkerStart(url, 11);
    assert NoMarkerIn(url, 11, 24);
    assert NoMarkerIn(url, 10, 24);
    assert NoMarkerIn(url, 9, 24);
    assert NoMarkerIn(url, 8, 24);
    NotMarkerStart(url, 7);
    assert NoMarkerIn(url, 7, 24);
    NotMarkerStart(url, 6);
    assert NoMarkerIn(url, 6, 24);
  }

  /** Nor anywhere from its start. */
  lemma SiteHeadUnmarked()
    ensures NoMarkerIn("https://www.youtube.com/", 0, 24)
  {
    var url := "https://www.youtube.com/";
    SiteMiddleUnmarked();
    NotMarkerStart(url, 5);
    assert NoMarkerIn(url, 5, 24);
    NotMarkerStart(url, 4);
    assert NoMarkerIn(url, 4, 24);
    NotMarkerStart(url, 3);
    assert NoMarkerIn(url, 3, 24);
    NotMarkerStart(url, 2);
    assert NoMarkerIn(url, 2, 24);
    NotMarkerStart(url, 1);
    assert NoMarkerIn(url, 1, 24);
    NotMarkerStart(url, 0);
    assert NoMarkerIn(url, 0, 24);
  }

  /** No alternative of group 1 starts anywhere in the bare site address. */
  lemma SiteUnmarked()
    ensures NoMarkerFrom("https://www.youtube.com/", 0)
  {
    SiteHeadUnmarked();
    NoMarkerInAll("https://www.youtube.com/", 0, 24);
  }

  /** The bare address of the site, with its scheme and a final `/`, gets the still URL of the empty id. */
  lemma SiteThumbnail()
    ensures Thumbnail("https://www.youtube.com/") == ThumbnailPrefix + ThumbnailSuffix
  {
    var url := "https://www.youtube.com/";
    assert url == "https://www." + "youtube.com" + "/";
    ContainsMiddle("https://www.", "youtube.com", "/");
    SiteUnmarked();
    ThumbnailWithoutId(url);
  }

  // ---------------------------------------------------------------------------
  // Durations

  predicate IsDigit(c: char)
  {
    '0' <= c <= '9'
  }

  predicate AllDigits(s: string)
  {
    forall k :: 0 <= k < |s| ==> IsDigit(s[k])
  }

  function DigitChar(d: nat): (c: char)
    requires d < 10
    ensures IsDigit(c) && c as int - '0' as int == d
  {
    ('0' as int + d) as char
  }

  /** The value of a string of decimal digits. */
  function DigitsValue(s: string): nat
    requires AllDigits(s)
  {
    if s == [] then 0 else DigitsValue(s[..|s| - 1]) * 10 + (s[|s| - 1] as int - '0' as int)
  }

  /** JavaScript's decimal form of a natural number. */
  function NatToString(n: nat): (s: string)
    ensures 1 <= |s| && AllDigits(s)
    ensures n < 10 <==> |s| == 1
    ensures n < 100 ==> |s| <= 2
    ensures s[0] == '0' ==> n == 0
    decreases n
  {
    if n < 10 then [DigitChar(n)]
    else
      var front := NatToString(n / 10);
      front + [DigitChar(n % 10)]
  }

  lemma {:induction false} NatToStringValue(n: nat)
    ensures DigitsValue(NatToString(n)) == n
    decreases n
  {
    if n >= 10 {
      var front := NatToString(n / 10);
      var s := front + [DigitChar(n % 10)];
      assert s[..|s| - 1] == front;
      NatToStringValue(n / 10);
    }
  }

  /** The seconds part of a duration: zero-padded to two digits. */
  function SecondsText(s: nat): (t: string)
    requires s < 60
    ensures |t| == 2 && AllDigits(t)
  {
    (if s < 10 then "0" else "") + NatToString(s)
  }

  /** The seconds part reads back as the seconds, and starts with `0` exactly when they are below 10. */
  lemma SecondsTextValue(s: nat)
    requires s < 60
    ensures DigitsValue(SecondsText(s)) == s
    ensures SecondsText(s)[0] == '0' <==> s < 10
  {
    var t := SecondsText(s);
    NatToStringValue(s);
    if s < 10 {
      assert t[..1] == "0" && t[1] == NatToString(s)[0];
      assert DigitsValue(t[..1]) == 0;
      assert DigitsValue(NatToString(s)) == DigitsValue([]) * 10 + (NatToString(s)[0] as int - '0' as int);
    }
  }

  /** `formatDuration`: whole minutes, a colon, and the remaining seconds as two digits. */
  function FormatDuration(seconds: nat): (r: string)
    ensures |NatToString(seconds / 60)| + 3 == |r|
    ensures r[..|r| - 3] == NatToString(seconds / 60) && r[|r| - 3] == ':' && r[|r| - 2..] == SecondsText(seconds % 60)
  {
    var m := NatToString(seconds / 60);
    var ss := SecondsText(seconds % 60);
    var r := m + ":" + ss;
    assert r[..|r| - 3] == m && r[|r| - 2..] == ss;
    r
  }

  /**
   * The two parts of `formatDuration`'s text are the minutes and the
   * seconds below 60 that make up `seconds`, and the seconds part starts
   * with a padding zero exactly when it is below 10.
   */
  lemma DurationParts(seconds: nat)
    ensures var r := FormatDuration(seconds);
      && AllDigits(r[..|r| - 3]) && AllDigits(r[|r| - 2..])
      && DigitsValue(r[..|r| - 3]) * 60 + DigitsValue(r[|r| - 2..]) == seconds
      && DigitsValue(r[|r| - 2..]) < 60
      && (r[|r| - 2] == '0' <==> DigitsValue(r[|r| - 2..]) < 10)
  {
    var r := FormatDuration(seconds);
    NatToStringValue(seconds / 60);
    SecondsTextValue(seconds % 60);
    assert r[|r| - 2] == SecondsText(seconds % 60)[0];
  }

  /** `formatDuration` writes exactly one colon. */
  lemma DurationOneColon(seconds: nat)
    ensures Count(':', FormatDuration(seconds)) == 1
  {
    var m := NatToString(seconds / 60);
    var ss := SecondsText(seconds % 60);
    assert FormatDuration(seconds) == m + ":" + ss;
    assert ':' !in m && ':' !in ss;
    CountAppend(':', m + ":", ss);
    CountAppend(':', m, ":");
    CountAbsent(':', m);
    CountAbsent(':', ss);
  }

  /** Reading an `m:ss` text back, as the media list's durations are written. */
  function ParseDuration(t: string): Option<nat>
  {
    match FindChar(t, ':')
    case None => None
    case Some(k) =>
      var mins, secs := t[..k], t[k + 1..];
      if mins != [] && AllDigits(mins) && |secs| == 2 && AllDigits(secs) && DigitsValue(secs) < 60
      then Some(DigitsValue(mins) * 60 + DigitsValue(secs))
      else None
  }

  /** The first colon of `formatDuration`'s text is the one before the seconds. */
  lemma DurationColon(seconds: nat)
    ensures var r := FormatDuration(seconds); FindChar(r, ':') == Some(|r| - 3)
  {
    var r := FormatDuration(seconds);
    var k := |r| - 3;
    var m := NatToString(seconds / 60);
    assert forall j :: 0 <= j < k ==> r[j] == r[..k][j] == m[j];
  }

  /** `ParseDuration` of a text whose first colon has two digits after it. */
  lemma ParseDurationAt(t: string, k: nat)
    requires FindChar(t, ':') == Some(k) && k + 3 == |t|
    requires t[..k] != [] && AllDigits(t[..k]) && AllDigits(t[k + 1..]) && DigitsValue(t[k + 1..]) < 60
    ensures ParseDuration(t) == Some(DigitsValue(t[..k]) * 60 + DigitsValue(t[k + 1..]))
  {
  }

  /** Formatting then reading back gives the number of seconds again. */
  lemma DurationRoundTrip(seconds: nat)
    ensures ParseDuration(FormatDuration(seconds)) == Some(seconds)
  {
    var r := FormatDuration(seconds);
    var k := |r| - 3;
    DurationColon(seconds);
    DurationParts(seconds);
    assert r[k + 1..] == r[|r| - 2..];
    ParseDurationAt(r, k);
  }

  /** The durations of data/mediaData.ts:44 and :8 are what `formatDuration` writes. */
  lemma DurationExamples()
    ensures FormatDuration(765) == "12:45"
    ensures FormatDuration(225) == "3:45"
    ensures FormatDuration(61) == "1:01"
  {
  }
}
