/** The feed's event handler (src/handler.ts): it keeps the matching post
    creates of each batch, deletes the deleted posts, and once a minute
    at most applies the operator's side files of post URLs to delete and
    to insert. The side-file and URL logic is shared with the older
    handler in src/subscription.ts. */
module Handler {
  import opened Wrappers
  import opened Timer
  import opened Store
  import opened Text
  import Seqs

  // ---------------------------------------------------------------------
  // Topic filter
  // ---------------------------------------------------------------------

  /** The hashtag a post must mention. The source's `(\d*|cbs)?` suffix is
      optional, so the pattern matches exactly the texts containing it. */
  const IncludeTag := "#survivor"

  /** The hashtags that disqualify a post, in the order of the source. */
  const ExcludeTags: seq<string> := [
    "#survivorseries", "#survivorgameplay", "#deadbydaylight", "#survivors",
    "#survivorslike", "#rainworld", "#survivorlike", "#survivorsguilt",
    "#survivorguilt", "#csasurvivor", "#survivorsempowered", "#mentalhealth",
    "#excult", "#traffickingsurvivor", "#survivorcoach", "#survivormusic",
    "#abortion", "#csa", "#sa", "#cptsd", "#iptv"]

  /** Some tag of `tags` occurs in `text`. */
  predicate MentionsAny(text: string, tags: seq<string>)
  {
    exists i :: 0 <= i < |tags| && Contains(text, tags[i])
  }

  /** The shape shared by both handlers' `filterPost`: the lower-cased text
      contains the include tag and none of the exclude tags. */
  predicate OnTopic(text: string, excludes: seq<string>)
  {
    var t := Lower(text);
    Contains(t, IncludeTag) && !MentionsAny(t, excludes)
  }

  predicate FilterPost(text: string)
  {
    OnTopic(text, ExcludeTags)
  }

  /** The filter does not depend on letter case. */
  lemma OnTopicIgnoresCase(text: string, excludes: seq<string>)
    ensures OnTopic(Lower(text), excludes) == OnTopic(text, excludes)
  {
    LowerIdempotent(text);
  }

  /** An accepted text mentions the include tag, whatever its case. */
  lemma OnTopicMentionsTag(text: string, excludes: seq<string>)
    requires OnTopic(text, excludes)
    ensures Contains(Lower(text), IncludeTag)
  {
  }

  /** A text that mentions one of the exclude tags, in any case, is rejected. */
  lemma {:induction false} ExcludedTagRejects(text: string, excludes: seq<string>, i: int)
    requires 0 <= i < |excludes| && Lower(excludes[i]) == excludes[i]
    requires Contains(Lower(text), excludes[i])
    ensures !OnTopic(text, excludes)
  {
  }

  /** `toLowerCase` turns the Kelvin sign into `k`, so a tag spelled
      with it in place of a `k` (`#traffic\u212Aingsurvivor`) still counts:
      a text holding such a spelling anywhere is rejected. */
  lemma KelvinSignRejects(pre: string, post: string, excludes: seq<string>, i: int, j: int)
    requires 0 <= i < |excludes| && Lower(excludes[i]) == excludes[i]
    requires 0 <= j < |excludes[i]| && excludes[i][j] == 'k'
    ensures !OnTopic(pre + (excludes[i][..j] + [KelvinSign] + excludes[i][j + 1..]) + post, excludes)
  {
    var tag := excludes[i];
    var w := tag[..j] + [KelvinSign] + tag[j + 1..];
    KelvinSpelling(tag, j);
    LowerConcat(pre, w);
    LowerConcat(pre + w, post);
    ContainsMiddle(Lower(pre), tag, Lower(post));
  }

  /** Texts mentioning `#survivors`, `#sa` or `#survivorcoach`, in any
      letter case, never pass. */
  lemma FilterPostRejects(text: string)
    requires var t := Lower(text);
      Contains(t, "#survivors") || Contains(t, "#sa") || Contains(t, "#survivorcoach")
    ensures !FilterPost(text)
  {
    var t := Lower(text);
    if Contains(t, "#survivors") {
      assert ExcludeTags[3] == "#survivors";
    } else if Contains(t, "#sa") {
      assert ExcludeTags[18] == "#sa";
    } else {
      assert ExcludeTags[14] == "#survivorcoach";
    }
  }

  // ---------------------------------------------------------------------
  // Post URLs in the side files
  // ---------------------------------------------------------------------

  /** A pattern `{prefix}([^/]+){infix}([^/]+)`: two runs of characters
      other than '/' between fixed texts. */
  datatype UrlPattern = UrlPattern(prefix: string, infix: string)

  /** The pattern of a post's web URL,
      `https://bsky.app/profile/([^/]+)/post/([^/]+)`. */
  const PostUrlPattern := UrlPattern("https://bsky.app/profile/", "/post/")

  /** Length of the run of characters other than '/' starting at `i`
      (what a greedy `[^/]+` consumes). */
  function NonSlashRun(s: string, i: nat): (n: nat)
    requires i <= |s|
    ensures i + n <= |s|
    ensures forall j :: i <= j < i + n ==> s[j] != '/'
    ensures i + n < |s| ==> s[i + n] == '/'
    decreases |s| - i
  {
    if i < |s| && s[i] != '/' then 1 + NonSlashRun(s, i + 1) else 0
  }

  predicate SlashFree(s: string)
  {
    forall j :: 0 <= j < |s| ==> s[j] != '/'
  }

  /** The text the pattern reads as the two groups `a` and `b`. */
  function Render(pat: UrlPattern, a: string, b: string): string
  {
    pat.prefix + a + pat.infix + b
  }

  /** The pattern tried at position `p`: the two captured groups, if it
      matches there. */
  function MatchAt(pat: UrlPattern, s: string, p: nat): Option<(string, string)>
    requires p <= |s|
  {
    if !OccursAt(s, pat.prefix, p) then None
    else
      var q := p + |pat.prefix|;
      var h := NonSlashRun(s, q);
      if h == 0 || !OccursAt(s, pat.infix, q + h) then None
      else
        var r := q + h + |pat.infix|;
        var n := NonSlashRun(s, r);
        if n == 0 then None else Some((s[q..q + h], s[r..r + n]))
  }

  /** A match yields two non-empty groups free of '/'. */
  lemma MatchAtGroups(pat: UrlPattern, s: string, p: nat)
    requires p <= |s| && MatchAt(pat, s, p).Some?
    ensures var m := MatchAt(pat, s, p).value;
      |m.0| > 0 && |m.1| > 0 && SlashFree(m.0) && SlashFree(m.1)
  {
    var q := p + |pat.prefix|;
    var h := NonSlashRun(s, q);
    var r := q + h + |pat.infix|;
    var n := NonSlashRun(s, r);
    RunSlashFree(s, q, h);
    RunSlashFree(s, r, n);
  }

  /** A run of characters other than '/' is a slice free of '/'. */
  lemma RunSlashFree(s: string, i: nat, n: nat)
    requires i + n <= |s| && forall j :: i <= j < i + n ==> s[j] != '/'
    ensures SlashFree(s[i..i + n])
  {
    var t := s[i..i + n];
    forall j | 0 <= j < |t| ensures t[j] != '/' {
      assert t[j] == s[i + j];
    }
  }

  lemma SliceSplit(s: string, a: nat, b: nat, c: nat, d: nat, e: nat)
    requires a <= b <= c <= d <= e <= |s|
    ensures s[a..e] == s[a..b] + s[b..c] + s[c..d] + s[d..e]
  {
    assert s[c..e] == s[c..d] + s[d..e];
    assert s[b..e] == s[b..c] + s[c..e];
    assert s[a..e] == s[a..b] + s[b..e];
  }

  /** A match at `p` is an occurrence of the text of its two groups. */
  lemma MatchAtOccurs(pat: UrlPattern, s: string, p: nat, a: string, b: string)
    requires p <= |s| && MatchAt(pat, s, p) == Some((a, b))
    ensures OccursAt(s, Render(pat, a, b), p)
  {
    var q := p + |pat.prefix|;
    var h := NonSlashRun(s, q);
    var r := q + h + |pat.infix|;
    var n := NonSlashRun(s, r);
    OccursRender(pat, s, p, q, q + h, r, r + n, a, b);
  }

  /** The four slices of an occurrence of the pattern's text. */
  lemma OccursRender(pat: UrlPattern, s: string, p: nat, q: nat, c: nat, r: nat, e: nat, a: string, b: string)
    requires p <= q <= c <= r <= e <= |s|
    requires s[p..q] == pat.prefix && s[c..r] == pat.infix
    requires a == s[q..c] && b == s[r..e]
    ensures OccursAt(s, Render(pat, a, b), p)
  {
    SliceSplit(s, p, q, c, r, e);
  }

  /** Where the pattern first matches, and its two groups. */
  datatype UrlMatch = UrlMatch(at: nat, handle: string, postId: string)

  /** The leftmost match at or after `p` (the pattern is not anchored). */
  function FindMatch(pat: UrlPattern, s: string, p: nat): (m: Option<UrlMatch>)
    requires p <= |s|
    ensures m.Some? ==> p <= m.value.at <= |s|
    ensures m.Some? ==> MatchAt(pat, s, m.value.at) == Some((m.value.handle, m.value.postId))
    ensures m.Some? ==> forall q :: p <= q < m.value.at ==> MatchAt(pat, s, q).None?
    ensures m.None? ==> forall q :: p <= q <= |s| ==> MatchAt(pat, s, q).None?
    decreases |s| - p
  {
    match MatchAt(pat, s, p)
    case Some(g) => Some(UrlMatch(p, g.0, g.1))
    case None =>
      if p == |s| then None
      else
        var m := FindMatch(pat, s, p + 1);
        NoMatchBefore(pat, s, p, if m.Some? then m.value.at else |s| + 1);
        m
  }

  /** No match at `p` and none in `(p, e)` is none in `[p, e)`. */
  lemma NoMatchBefore(pat: UrlPattern, s: string, p: nat, e: nat)
    requires p < e <= |s| + 1 && MatchAt(pat, s, p).None?
    requires forall q :: p + 1 <= q < e ==> MatchAt(pat, s, q).None?
    ensures forall q :: p <= q < e ==> MatchAt(pat, s, q).None?
  {
  }

  lemma {:induction false} NonSlashRunExact(s: string, i: nat, n: nat)
    requires i + n <= |s|
    requires forall j :: i <= j < i + n ==> s[j] != '/'
    requires i + n == |s| || s[i + n] == '/'
    ensures NonSlashRun(s, i) == n
    decreases n
  {
    if n > 0 {
      NonSlashRunExact(s, i + 1, n - 1);
    }
  }

  /** The pattern reads back the groups of its own text, when the infix
      starts with '/' (so the first group cannot run into it). */
  lemma FindMatchOfRender(pat: UrlPattern, a: string, b: string)
    requires |pat.infix| > 0 && pat.infix[0] == '/'
    requires |a| > 0 && |b| > 0 && SlashFree(a) && SlashFree(b)
    ensures FindMatch(pat, Render(pat, a, b), 0) == Some(UrlMatch(0, a, b))
  {
    MatchAtRender(pat, a, b);
  }

  /** The pattern matches its own text at the start, with its groups. */
  lemma MatchAtRender(pat: UrlPattern, a: string, b: string)
    requires |pat.infix| > 0 && pat.infix[0] == '/'
    requires |a| > 0 && |b| > 0 && SlashFree(a) && SlashFree(b)
    ensures MatchAt(pat, Render(pat, a, b), 0) == Some((a, b))
  {
    RenderParts(pat, a, b);
    MatchAtParts(pat, Render(pat, a, b), |pat.prefix|, |pat.prefix| + |a| + |pat.infix|, a, b);
  }

  /** The pattern matches at the start of a text laid out as its prefix,
      a first group, its infix and a second group. */
  lemma MatchAtParts(pat: UrlPattern, s: string, q: nat, r: nat, a: string, b: string)
    requires |pat.infix| > 0 && pat.infix[0] == '/'
    requires |a| > 0 && |b| > 0 && SlashFree(a) && SlashFree(b)
    requires q == |pat.prefix| && r == q + |a| + |pat.infix| && |s| == r + |b|
    requires s[0..q] == pat.prefix && s[q..q + |a|] == a
    requires s[q + |a|..r] == pat.infix && s[r..r + |b|] == b
    ensures MatchAt(pat, s, 0) == Some((a, b))
  {
    assert s[q + |a|] == '/' by { assert s[q + |a|..r][0] == s[q + |a|]; }
    SlashFreeRun(s, q, |a|);
    SlashFreeRun(s, r, |b|);
    assert OccursAt(s, pat.prefix, 0);
    assert OccursAt(s, pat.infix, q + |a|);
    MatchAtExact(pat, s, 0, q, |a|, r, |b|);
  }

  /** The four parts of the pattern's text. */
  lemma RenderParts(pat: UrlPattern, a: string, b: string)
    ensures var s := Render(pat, a, b);
      var q := |pat.prefix|;
      var r := q + |a| + |pat.infix|;
      && |s| == r + |b|
      && s[0..q] == pat.prefix && s[q..q + |a|] == a
      && s[q + |a|..r] == pat.infix && s[r..r + |b|] == b
  {
  }

  /** A slice free of '/' followed by a '/' or the end is what a greedy
      `[^/]+` reads there. */
  lemma SlashFreeRun(s: string, i: nat, n: nat)
    requires i + n <= |s| && SlashFree(s[i..i + n])
    requires i + n == |s| || s[i + n] == '/'
    ensures NonSlashRun(s, i) == n
  {
    assert forall j :: i <= j < i + n ==> s[j] == s[i..i + n][j - i];
    NonSlashRunExact(s, i, n);
  }

  /** The pattern matches at `p`, with groups `s[q..q + h]` and
      `s[r..r + n]`, when its fixed texts sit around two runs of those
      lengths. */
  lemma MatchAtExact(pat: UrlPattern, s: string, p: nat, q: nat, h: nat, r: nat, n: nat)
    requires q == p + |pat.prefix| && r == q + h + |pat.infix| && r + n <= |s|
    requires h > 0 && n > 0
    requires OccursAt(s, pat.prefix, p) && OccursAt(s, pat.infix, q + h)
    requires NonSlashRun(s, q) == h && NonSlashRun(s, r) == n
    ensures MatchAt(pat, s, p) == Some((s[q..q + h], s[r..r + n]))
  {
  }

  /** The URL text a (handle, post id) pair stands for. */
  function PostUrl(handle: string, id: string): string
  {
    Render(PostUrlPattern, handle, id)
  }

  /** The text a resolved DID contributes to a template string: a failed
      resolution is `undefined`. */
  function DidText(did: Option<string>): string
  {
    match did
    case Some(d) => d
    case None => "undefined"
  }

  /** `at://{did}/app.bsky.feed.post/{id}`. */
  function PostUri(did: string, id: string): string
  {
    "at://" + did + "/app.bsky.feed.post/" + id
  }

  /** `urlToUri`: the handle and post id captured from the URL, with the
      handle resolved to a DID by the `resolve` oracle; an error when the
      URL does not match. */
  function UrlToUri(url: string, resolve: string -> Option<string>): Result<string>
  {
    match FindMatch(PostUrlPattern, url, 0)
    case None => Err("Invalid post URL: " + url)
    case Some(m) => Ok(PostUri(DidText(resolve(m.handle)), m.postId))
  }

  /** `urlToUri` throws exactly when the pattern matches nowhere. */
  lemma UrlToUriRejects(url: string, resolve: string -> Option<string>)
    ensures UrlToUri(url, resolve).Err? <==>
      forall q :: 0 <= q <= |url| ==> MatchAt(PostUrlPattern, url, q).None?
  {
  }

  /** A uri built from a URL comes from a handle and a post id, both
      non-empty and free of '/', whose post URL occurs in the input. */
  lemma UrlToUriShape(url: string, resolve: string -> Option<string>)
    requires UrlToUri(url, resolve).Ok?
    ensures exists h, id :: |h| > 0 && |id| > 0 && SlashFree(h) && SlashFree(id)
              && (exists q :: OccursAt(url, PostUrl(h, id), q))
              && UrlToUri(url, resolve).value == PostUri(DidText(resolve(h)), id)
  {
    var m := FindMatch(PostUrlPattern, url, 0).value;
    MatchAtOccurs(PostUrlPattern, url, m.at, m.handle, m.postId);
    MatchAtGroups(PostUrlPattern, url, m.at);
    assert OccursAt(url, PostUrl(m.handle, m.postId), m.at);
  }

  /** Parsing a URL built from a handle and a post id gives back that
      handle, resolved, and that id. */
  lemma UrlToUriOfPostUrl(h: string, id: string, resolve: string -> Option<string>)
    requires |h| > 0 && |id| > 0 && SlashFree(h) && SlashFree(id)
    ensures UrlToUri(PostUrl(h, id), resolve) == Ok(PostUri(DidText(resolve(h)), id))
  {
    assert PostUrlPattern.infix[0] == '/';
    FindMatchOfRender(PostUrlPattern, h, id);
  }

  // ---------------------------------------------------------------------
  // Side files
  // ---------------------------------------------------------------------

  const DeletePostsFile := "deletePosts.txt"
  const InsertPostsFile := "insertPosts.txt"

  /** What reading a side file finds: no file (`ENOENT`), another read
      error, or its text. */
  datatype FileState = Missing | Unreadable(code: string) | Present(content: string)

  /** The lines that are not blank, in order. */
  function NonBlank(lines: seq<string>): (r: seq<string>)
    ensures |r| <= |lines|
    ensures forall x :: x in r <==> x in lines && !Blank(x)
  {
    if lines == [] then []
    else (if Blank(lines[0]) then [] else [lines[0]]) + NonBlank(lines[1..])
  }

  lemma {:induction false} NonBlankConcat(a: seq<string>, b: seq<string>)
    ensures NonBlank(a + b) == NonBlank(a) + NonBlank(b)
  {
    if a != [] {
      Seqs.ConsSplit(a, b);
      NonBlankConcat(a[1..], b);
      Seqs.AppendAssoc(if Blank(a[0]) then [] else [a[0]], NonBlank(a[1..]), NonBlank(b));
    } else {
      Seqs.EmptyAppend(b);
    }
  }

  /** `fileContent.split('\n').filter((line) => line.trim() !== '')`. */
  function Lines(content: string): seq<string>
  {
    NonBlank(Split(content, '\n'))
  }

  /** `Promise.all(urls.map(urlToUri))`: all uris, or the first error. */
  function ResolveAll(urls: seq<string>, resolve: string -> Option<string>): (r: Result<seq<string>>)
    ensures r.Ok? <==> forall i :: 0 <= i < |urls| ==> UrlToUri(urls[i], resolve).Ok?
    ensures r.Ok? ==> |r.value| == |urls|
    ensures r.Ok? ==> forall i :: 0 <= i < |urls| ==> r.value[i] == UrlToUri(urls[i], resolve).value
  {
    if urls == [] then Ok([])
    else
      var first := UrlToUri(urls[0], resolve);
      var rest := ResolveAll(urls[1..], resolve);
      if first.Err? then Err(first.error)
      else if rest.Err? then Err(rest.error)
      else Ok([first.value] + rest.value)
  }

  /** The outcome of `processFile`: the uris read and whether the file was
      emptied afterwards. */
  datatype FileRead = FileRead(uris: seq<string>, emptied: bool)

  /** `processFile`: a missing file gives no uri and is left alone; a file
      whose every non-blank line is a post URL gives those uris in order
      and is emptied; anything else is an error and the file is kept. */
  function ProcessFile(file: FileState, resolve: string -> Option<string>): (r: Result<FileRead>)
    ensures file.Missing? ==> r == Ok(FileRead([], false))
    ensures file.Unreadable? ==> r.Err?
    ensures file.Present? ==> (r.Ok? <==> forall i :: 0 <= i < |Lines(file.content)| ==> UrlToUri(Lines(file.content)[i], resolve).Ok?)
    ensures file.Present? && r.Ok? ==> r.value.emptied && |r.value.uris| == |Lines(file.content)|
    ensures file.Present? && r.Ok? ==> forall i :: 0 <= i < |r.value.uris| ==> r.value.uris[i] == UrlToUri(Lines(file.content)[i], resolve).value
  {
    match file
    case Missing => Ok(FileRead([], false))
    case Unreadable(code) => Err(code)
    case Present(content) =>
      match ResolveAll(Lines(content), resolve)
      case Err(e) => Err(e)
      case Ok(uris) => Ok(FileRead(uris, true))
  }

  /** What `getPostThread` answers for one uri: the post's text, cid and
      indexing time. */
  datatype Fetched = Fetched(text: string, cid: string, indexedAt: Millis)

  /** `fetchPosts`: one entry per uri, in order; a failed request yields an
      entry whose uri is empty. */
  function FetchPosts(uris: seq<string>, fetch: string -> Option<Fetched>): (r: seq<FeedCreateEvent>)
    ensures |r| == |uris|
    ensures forall i :: 0 <= i < |uris| && fetch(uris[i]).Some? ==>
              r[i] == FeedCreateEvent(uris[i], fetch(uris[i]).value.cid, fetch(uris[i]).value.indexedAt, fetch(uris[i]).value.text)
    ensures forall i :: 0 <= i < |uris| && fetch(uris[i]).None? ==> r[i].uri == "" && r[i].text == ""
  {
    seq(|uris|, i requires 0 <= i < |uris| =>
      match fetch(uris[i])
      case Some(f) => FeedCreateEvent(uris[i], f.cid, f.indexedAt, f.text)
      case None => FeedCreateEvent("", "", 0, ""))
  }

  // ---------------------------------------------------------------------
  // Throttle and rows
  // ---------------------------------------------------------------------

  /** `!lastFileCheck[f] || now - lastFileCheck[f] >= interval`: the file was
      never checked (an unset entry, or 0, is falsy) or the interval has
      elapsed. */
  predicate Due(lastFileCheck: map<string, int>, file: string, now: Millis, interval: int)
  {
    file !in lastFileCheck || lastFileCheck[file] == 0 || now - lastFileCheck[file] >= interval
  }

  /** After a check recorded at a non-zero `now`, the file is due again
      exactly when the interval has elapsed since; other files are not
      affected. */
  lemma DueAfterCheck(last: map<string, int>, file: string, other: string, now: Millis, later: Millis, interval: int)
    requires now != 0 && file != other
    ensures Due(last[file := now], file, later, interval) <==> later - now >= interval
    ensures Due(last[file := now], other, later, interval) == Due(last, other, later, interval)
  {
  }

  /** The stream's post creates that pass `keep`, in batch order. */
  function Matching(creates: seq<FeedCreateEvent>, keep: string -> bool): (r: seq<FeedCreateEvent>)
    ensures |r| <= |creates|
    ensures forall x :: x in r <==> x in creates && keep(x.text)
  {
    if creates == [] then []
    else (if keep(creates[0].text) then [creates[0]] else []) + Matching(creates[1..], keep)
  }

  /** Filtering keeps batch order: it distributes over concatenation. */
  lemma {:induction false} MatchingConcat(a: seq<FeedCreateEvent>, b: seq<FeedCreateEvent>, keep: string -> bool)
    ensures Matching(a + b, keep) == Matching(a, keep) + Matching(b, keep)
  {
    if a != [] {
      var h := if keep(a[0].text) then [a[0]] else [];
      Seqs.ConsSplit(a, b);
      MatchingConcat(a[1..], b, keep);
      Seqs.AppendAssoc(h, Matching(a[1..], keep), Matching(b, keep));
    } else {
      Seqs.EmptyAppend(b);
    }
  }

  /** Rows for the kept creates: uri and cid from the batch, `indexedAt`
      from the clock (`stamp(k)` is the time read for the k-th row), the
      batch's own `indexedAt` being discarded. */
  function Stamped(creates: seq<FeedCreateEvent>, stamp: nat -> Millis): (r: seq<PostRow>)
    ensures |r| == |creates|
    ensures forall k :: 0 <= k < |r| ==> r[k] == PostRow(creates[k].uri, creates[k].cid, stamp(k))
  {
    seq(|creates|, k requires 0 <= k < |creates| => PostRow(creates[k].uri, creates[k].cid, stamp(k)))
  }

  /** `ops.posts.deletes.map((del) => del.uri)`. */
  function DeletedUris(deletes: seq<FeedEvent>): (r: seq<string>)
    ensures |r| == |deletes| && forall i :: 0 <= i < |r| ==> r[i] == deletes[i].uri
  {
    seq(|deletes|, i requires 0 <= i < |deletes| => deletes[i].uri)
  }

  /** Fetched posts worth inserting: a non-empty uri and a matching text. */
  function ManualRows(fetched: seq<FeedCreateEvent>, keep: string -> bool): (r: seq<PostRow>)
    ensures forall k :: 0 <= k < |r| ==> r[k].uri != ""
    ensures forall x :: x in fetched && x.uri != "" && keep(x.text) ==> PostRow(x.uri, x.cid, x.indexedAt) in r
    ensures forall k :: 0 <= k < |r| ==> exists x :: x in fetched && keep(x.text) && r[k] == PostRow(x.uri, x.cid, x.indexedAt)
  {
    if fetched == [] then []
    else
      var x := fetched[0];
      (if x.uri != "" && keep(x.text) then [PostRow(x.uri, x.cid, x.indexedAt)] else [])
      + ManualRows(fetched[1..], keep)
  }

  /** One side-file check: when the file is `Due`, its check time becomes
      `now` and the file is processed; otherwise nothing is read. */
  datatype FileCheck = FileCheck(lastFileCheck: map<string, int>, read: Result<FileRead>)

  function CheckFile(last: map<string, int>, name: string, now: Millis, interval: int,
                     file: FileState, resolve: string -> Option<string>): (c: FileCheck)
    ensures Due(last, name, now, interval) ==> c.lastFileCheck == last[name := now]
    ensures !Due(last, name, now, interval) ==> c == FileCheck(last, Ok(FileRead([], false)))
  {
    if Due(last, name, now, interval) then FileCheck(last[name := now], ProcessFile(file, resolve))
    else FileCheck(last, Ok(FileRead([], false)))
  }

  /** The files a successful read emptied. */
  function EmptiedName(name: string, read: FileRead): seq<string>
  {
    if read.emptied then [name] else []
  }

  /** What the side-file part of a call contributes: uris to delete and
      rows to insert. */
  datatype Manual = Manual(deletes: seq<string>, creates: seq<PostRow>)

  /** The side-file part of `handleEvent`, checked in order: the delete
      file, then the insert file. An error in the delete file stops the
      call before the insert file is looked at. `emptied` lists the files
      emptied on the way, whatever the outcome: the delete file is
      emptied as soon as it is read, before the insert file can fail. */
  datatype SidePlan = SidePlan(lastFileCheck: map<string, int>, emptied: seq<string>, outcome: Result<Manual>)

  function SideFiles(last: map<string, int>, now: Millis, interval: int,
                     deleteFile: FileState, insertFile: FileState,
                     resolve: string -> Option<string>, fetch: string -> Option<Fetched>,
                     keep: string -> bool): SidePlan
  {
    var d := CheckFile(last, DeletePostsFile, now, interval, deleteFile, resolve);
    if d.read.Err? then SidePlan(d.lastFileCheck, [], Err(d.read.error))
    else
      var i := CheckFile(d.lastFileCheck, InsertPostsFile, now, interval, insertFile, resolve);
      if i.read.Err? then SidePlan(i.lastFileCheck, EmptiedName(DeletePostsFile, d.read.value), Err(i.read.error))
      else
        SidePlan(i.lastFileCheck,
          EmptiedName(DeletePostsFile, d.read.value) + EmptiedName(InsertPostsFile, i.read.value),
          Ok(Manual(d.read.value.uris, ManualRows(FetchPosts(i.read.value.uris, fetch), keep))))
  }

  /** Throttle, for the delete file: it is read only when due, and its
      check time becomes `now` exactly then. */
  lemma SideFilesThrottleDelete(last: map<string, int>, now: Millis, interval: int,
                                deleteFile: FileState, insertFile: FileState,
                                resolve: string -> Option<string>, fetch: string -> Option<Fetched>,
                                keep: string -> bool)
    ensures var p := SideFiles(last, now, interval, deleteFile, insertFile, resolve, fetch, keep);
      && (Due(last, DeletePostsFile, now, interval) ==> p.lastFileCheck[DeletePostsFile] == now)
      && (!Due(last, DeletePostsFile, now, interval) ==>
            (DeletePostsFile in p.lastFileCheck <==> DeletePostsFile in last)
            && (DeletePostsFile in last ==> p.lastFileCheck[DeletePostsFile] == last[DeletePostsFile]))
  {
    var d := CheckFile(last, DeletePostsFile, now, interval, deleteFile, resolve);
    var i := CheckFile(d.lastFileCheck, InsertPostsFile, now, interval, insertFile, resolve);
    var p := SideFiles(last, now, interval, deleteFile, insertFile, resolve, fetch, keep);
    assert p.lastFileCheck == if d.read.Err? then d.lastFileCheck else i.lastFileCheck;
    assert DeletePostsFile != InsertPostsFile;
  }

  /** Throttle, for the insert file: when it is not due its check time is
      left alone, and so are the entries of all other files. */
  lemma SideFilesThrottleOthers(last: map<string, int>, now: Millis, interval: int,
                                deleteFile: FileState, insertFile: FileState,
                                resolve: string -> Option<string>, fetch: string -> Option<Fetched>,
                                keep: string -> bool)
    ensures var p := SideFiles(last, now, interval, deleteFile, insertFile, resolve, fetch, keep);
      && (!Due(last, InsertPostsFile, now, interval) ==>
            (InsertPostsFile in p.lastFileCheck <==> InsertPostsFile in last)
            && (InsertPostsFile in last ==> p.lastFileCheck[InsertPostsFile] == last[InsertPostsFile]))
      && (forall f :: f != DeletePostsFile && f != InsertPostsFile ==>
            (f in p.lastFileCheck <==> f in last) && (f in last ==> p.lastFileCheck[f] == last[f]))
  {
    var d := CheckFile(last, DeletePostsFile, now, interval, deleteFile, resolve);
    SideFilesChecks(last, now, interval, deleteFile, insertFile, resolve, fetch, keep);
    CheckFileOthers(last, DeletePostsFile, now, interval, deleteFile, resolve);
    CheckFileOthers(d.lastFileCheck, InsertPostsFile, now, interval, insertFile, resolve);
  }

  /** The check times a call leaves are those of its one or two checks. */
  lemma SideFilesChecks(last: map<string, int>, now: Millis, interval: int,
                        deleteFile: FileState, insertFile: FileState,
                        resolve: string -> Option<string>, fetch: string -> Option<Fetched>,
                        keep: string -> bool)
    ensures var d := CheckFile(last, DeletePostsFile, now, interval, deleteFile, resolve);
      var i := CheckFile(d.lastFileCheck, InsertPostsFile, now, interval, insertFile, resolve);
      SideFiles(last, now, interval, deleteFile, insertFile, resolve, fetch, keep).lastFileCheck
        == if d.read.Err? then d.lastFileCheck else i.lastFileCheck
  {
  }

  /** A check touches the check time of its own file only. */
  lemma CheckFileOthers(last: map<string, int>, name: string, now: Millis, interval: int,
                        file: FileState, resolve: string -> Option<string>)
    ensures var c := CheckFile(last, name, now, interval, file, resolve);
      forall f :: f != name ==> (f in c.lastFileCheck <==> f in last) && (f in last ==> c.lastFileCheck[f] == last[f])
  {
  }

  /** A file that is not due contributes nothing; a missing file is due
      but contributes nothing either and is not emptied. */
  lemma SideFilesIdle(last: map<string, int>, now: Millis, interval: int,
                      resolve: string -> Option<string>, fetch: string -> Option<Fetched>,
                                keep: string -> bool)
    ensures var p := SideFiles(last, now, interval, Missing, Missing, resolve, fetch, keep);
      p.outcome == Ok(Manual([], [])) && p.emptied == []
  {
    var d := CheckFile(last, DeletePostsFile, now, interval, Missing, resolve);
    assert d.read == Ok(FileRead([], false));
    var i := CheckFile(d.lastFileCheck, InsertPostsFile, now, interval, Missing, resolve);
    assert i.read == Ok(FileRead([], false));
    assert FetchPosts([], fetch) == [];
    assert ManualRows([], keep) == [];
    assert EmptiedName(DeletePostsFile, d.read.value) + EmptiedName(InsertPostsFile, i.read.value) == [];
    assert d.read.value.uris == [];
  }

  /** A failing delete file rejects the call before the insert file is
      checked: the insert file's check time is left alone. */
  lemma SideFilesDeleteError(last: map<string, int>, now: Millis, interval: int,
                             deleteFile: FileState, insertFile: FileState,
                             resolve: string -> Option<string>, fetch: string -> Option<Fetched>,
                             keep: string -> bool)
    requires Due(last, DeletePostsFile, now, interval) && ProcessFile(deleteFile, resolve).Err?
    ensures var p := SideFiles(last, now, interval, deleteFile, insertFile, resolve, fetch, keep);
      p.outcome.Err? && p.lastFileCheck == last[DeletePostsFile := now] && p.emptied == []
  {
  }

  /** The lost deletes: when both files are due, the delete file reads
      successfully and the insert file then fails, the call rejects with
      the delete file already emptied. Its uris are not in the outcome,
      so the caller deletes none of them, and they are no longer in the
      file either. */
  lemma SideFilesLosesDeletes(last: map<string, int>, now: Millis, interval: int,
                              deleteFile: FileState, insertFile: FileState,
                              resolve: string -> Option<string>, fetch: string -> Option<Fetched>,
                              keep: string -> bool)
    requires Due(last, DeletePostsFile, now, interval) && deleteFile.Present?
    requires Due(last[DeletePostsFile := now], InsertPostsFile, now, interval)
    ensures ProcessFile(deleteFile, resolve).Ok? && ProcessFile(insertFile, resolve).Err? ==>
      var p := SideFiles(last, now, interval, deleteFile, insertFile, resolve, fetch, keep);
      && p.outcome == Err(ProcessFile(insertFile, resolve).error)
      && p.emptied == [DeletePostsFile]
      && p.lastFileCheck == last[DeletePostsFile := now][InsertPostsFile := now]
  {
    var d := CheckFile(last, DeletePostsFile, now, interval, deleteFile, resolve);
    if d.read.Ok? {
      assert d.read.value.emptied;
    }
  }

  /** The side-file part of `handleEvent`: the delete file, then the
      insert file, each read only when due and its check time set to
      `now` first; the fetched posts of the insert file are kept when they
      pass `keep`. Returns the new check times and the outcome. */
  method CheckSideFiles(lastFileCheck: map<string, int>, now: Millis, fileCheckInterval: int,
                        deleteFile: FileState, insertFile: FileState,
                        resolve: string -> Option<string>, fetch: string -> Option<Fetched>, keep: string -> bool)
    returns (last: map<string, int>, emptied: seq<string>, r: Result<Manual>)
    ensures SidePlan(last, emptied, r)
         == SideFiles(lastFileCheck, now, fileCheckInterval, deleteFile, insertFile, resolve, fetch, keep)
  {
    last := lastFileCheck;
    ghost var d := CheckFile(last, DeletePostsFile, now, fileCheckInterval, deleteFile, resolve);
    var deletes: seq<string> := [];
    var creates: seq<PostRow> := [];
    emptied := [];

    if Due(last, DeletePostsFile, now, fileCheckInterval) {
      last := last[DeletePostsFile := now];
      var read := ProcessFile(deleteFile, resolve);
      assert d == FileCheck(last, read);
      if read.Err? {
        return last, [], Err(read.error);
      }
      deletes := read.value.uris;
      emptied := EmptiedName(DeletePostsFile, read.value);
    }
    assert last == d.lastFileCheck && d.read.Ok?;

    ghost var i := CheckFile(last, InsertPostsFile, now, fileCheckInterval, insertFile, resolve);
    if Due(last, InsertPostsFile, now, fileCheckInterval) {
      last := last[InsertPostsFile := now];
      var read := ProcessFile(insertFile, resolve);
      assert i == FileCheck(last, read);
      if read.Err? {
        return last, emptied, Err(read.error);
      }
      var insertPosts := FetchPosts(read.value.uris, fetch);
      creates := ManualRows(insertPosts, keep);
      emptied := emptied + EmptiedName(InsertPostsFile, read.value);
    } else {
      assert ManualRows(FetchPosts([], fetch), keep) == [];
      Seqs.AppendEmpty(emptied);
    }
    return last, emptied, Ok(Manual(deletes, creates));
  }

  /** The handler of both stream adapters. */
  class FeedHandler {
    var lastFileCheck: map<string, int>
    const fileCheckInterval: int
    var db: Database?
    /** How many times `Initialize` was called. */
    ghost var initializations: nat

    constructor ()
      ensures lastFileCheck == map[] && fileCheckInterval == 60 * 1000
      ensures db == null && initializations == 0
    {
      lastFileCheck := map[];
      fileCheckInterval := 60 * 1000;
      db := null;
      initializations := 0;
    }

    method Initialize(db: Database)
      modifies this
      ensures this.db == db && initializations == old(initializations) + 1
      ensures lastFileCheck == old(lastFileCheck)
    {
      this.db := db;
      initializations := initializations + 1;
    }

    /** `handleEvent`: only the posts bucket is read. `stamp` gives the
        clock value of each stream row, `now` is `Date.now()`, the two file
        states are what the side files hold, `resolve` resolves handles and
        `fetch` answers `getPostThread`. Returns the side files it emptied,
        even when the call then rejects, and the error that rejected the
        call, if any; a rejected call writes nothing to the table.
        Otherwise the table is the old one with the deletes applied first
        and the inserts after. */
    method HandleEvent(ops: FeedOperationsByType, stamp: nat -> Millis, now: Millis,
                       deleteFile: FileState, insertFile: FileState,
                       resolve: string -> Option<string>, fetch: string -> Option<Fetched>)
      returns (emptied: seq<string>, r: Result<()>)
      requires db != null
      modifies this`lastFileCheck, db`post
      ensures
        var plan := SideFiles(old(lastFileCheck), now, fileCheckInterval, deleteFile, insertFile, resolve, fetch, FilterPost);
        && lastFileCheck == plan.lastFileCheck
        && emptied == plan.emptied
        && (r.Err? <==> plan.outcome.Err?)
        && (r.Err? ==> r.error == plan.outcome.error && db.post == old(db.post))
        && (r.Ok? ==>
              db.post == InsertIgnore(
                   DeleteUris(old(db.post), DeletedUris(ops.posts.deletes) + plan.outcome.value.deletes),
                   Stamped(Matching(ops.posts.creates, FilterPost), stamp) + plan.outcome.value.creates))
    {
      var postsToDelete := DeletedUris(ops.posts.deletes);
      var postsToCreate := Stamped(Matching(ops.posts.creates, FilterPost), stamp);
      ghost var table0 := db.post;

      var last, gone, manual := CheckSideFiles(lastFileCheck, now, fileCheckInterval, deleteFile, insertFile,
                                               resolve, fetch, FilterPost);
      lastFileCheck := last;
      emptied := gone;
      if manual.Err? {
        return emptied, Err(manual.error);
      }
      postsToDelete := postsToDelete + manual.value.deletes;
      postsToCreate := postsToCreate + manual.value.creates;

      if |postsToDelete| > 0 {
        db.DeletePosts(postsToDelete);
      } else {
        DeleteNothing(db.post);
      }
      if |postsToCreate| > 0 {
        db.InsertPosts(postsToCreate);
      }
      return emptied, Ok(());
    }
  }
}
