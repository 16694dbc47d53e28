/** The HTTP service of server.js: a read-through cache of the repository's
    open issues (`issuesCache`, `lastFetch`) and the route handlers that call
    GitHub and then reconcile the cache locally. Each GitHub request is an
    outcome passed in; each handler returns the request it made, if any. */
module Server {
  import opened Wrappers
  import opened Text
  import opened IssueMapper
  import Seqs

  /** Eight hours, in milliseconds. */
  const CacheDuration: int := 8 * 60 * 60 * 1000

  /** The GitHub requests the handlers make. */
  datatype GitHubCall =
    | ListOpenIssues                                  // GET issues?state=open&per_page=100
    | ListLabels                                      // GET labels
    | CreateIssue(payload: IssuePayload)              // POST issues
    | UpdateIssue(number: int, payload: IssuePayload) // PATCH issues/:id
    | CloseIssue(number: int)                         // PATCH issues/:id {state: 'closed'}
    | CreateLabel(tag: TagInfo)                       // POST labels

  /** The HTTP responses the handlers send. */
  datatype Reply =
    | BookmarkList(bookmarks: seq<Bookmark>)
    | Refreshed(count: nat)
    | LabelList(labels: seq<TagInfo>)
    | CreatedBookmark(bookmark: Bookmark)
    | UpdatedBookmark(bookmark: Bookmark)
    | DeletedBookmark
    | CreatedLabel(tag: TagInfo)
    | BadRequest(error: string)
    | ServerError(error: string)
  {
    function Status(): int {
      match this
      case CreatedBookmark(_) => 201
      case CreatedLabel(_) => 201
      case BadRequest(_) => 400
      case ServerError(_) => 500
      case _ => 200
    }
  }

  /** `issues.map(transformIssue)`. */
  function TransformIssues(issues: seq<Issue>): (bookmarks: seq<Bookmark>)
    ensures |bookmarks| == |issues|
    ensures forall i :: 0 <= i < |issues| ==> bookmarks[i] == TransformIssue(issues[i])
    ensures forall i :: 0 <= i < |issues| ==> bookmarks[i].id == issues[i].number
  {
    seq(|issues|, i requires 0 <= i < |issues| => TransformIssue(issues[i]))
  }

  /** The cache after `issuesCache.filter(item => item.id != id)`: every entry
      with that id is gone and the others keep their order. */
  function WithoutId(cache: seq<Bookmark>, id: int): (r: seq<Bookmark>)
    ensures forall i :: 0 <= i < |r| ==> r[i].id != id
    ensures forall j :: 0 <= j < |cache| && cache[j].id != id ==> cache[j] in r
    ensures Seqs.IsSubsequence(r, cache)
    ensures forall b :: multiset(r)[b] == if b.id != id then multiset(cache)[b] else 0
  {
    Seqs.Filter(cache, (b: Bookmark) => b.id != id)
  }

  /** The cache after `index = issuesCache.findIndex(item => item.id == id);
      if (index !== -1) issuesCache[index] = bookmark`: the first entry with
      that id is replaced, nothing else changes, and a miss changes nothing. */
  function ReplaceById(cache: seq<Bookmark>, id: int, bookmark: Bookmark): (r: seq<Bookmark>)
    ensures |r| == |cache|
    ensures (forall j :: 0 <= j < |cache| ==> cache[j].id != id) ==> r == cache
    ensures forall k :: 0 <= k < |cache| && cache[k].id == id && (forall j :: 0 <= j < k ==> cache[j].id != id) ==>
      r == cache[k := bookmark]
  {
    Seqs.ReplaceFirst(cache, (b: Bookmark) => b.id == id, bookmark)
  }

  /** The module state of server.js together with the handlers that use it. */
  class BookmarkServer {
    var issuesCache: seq<Bookmark>
    var lastFetch: int

    /** At start-up the cache is empty and was never fetched. */
    constructor ()
      ensures issuesCache == [] && lastFetch == 0
    {
      issuesCache := [];
      lastFetch := 0;
    }

    /** `fetchIssues` answers from memory: not forced, something cached, and
        the last fetch less than eight hours before `now`. */
    predicate CacheIsFresh(forceRefresh: bool, now: int)
      reads this
    {
      !forceRefresh && |issuesCache| > 0 && now - lastFetch < CacheDuration
    }

    /** `fetchIssues(forceRefresh)` at time `now` (read before the request):
        a fresh cache is returned without asking GitHub; otherwise the open
        issues are fetched, and on success they replace the cache and
        `lastFetch` becomes `now`, while on failure the old cache is returned
        unchanged, even when it is empty. It never fails, and what it
        returns is always the cache afterwards. */
    method FetchIssues(forceRefresh: bool, now: int, upstream: Upstream<seq<Issue>>)
      returns (result: seq<Bookmark>, call: Option<GitHubCall>)
      modifies this
      ensures result == issuesCache
      ensures call == None <==> old(CacheIsFresh(forceRefresh, now))
      ensures call != None ==> call == Some(ListOpenIssues)
      ensures call == None || upstream.Failure? ==>
        issuesCache == old(issuesCache) && lastFetch == old(lastFetch)
      ensures call != None && upstream.Success? ==>
        issuesCache == TransformIssues(upstream.value) && lastFetch == now
    {
      if CacheIsFresh(forceRefresh, now) {
        return issuesCache, None;
      }
      call := Some(ListOpenIssues);
      match upstream
      case Success(issues) =>
        issuesCache := TransformIssues(issues);
        lastFetch := now;
        result := issuesCache;
      case Failure(_) =>
        result := issuesCache;
    }

    /** `GET /api/bookmarks`: 200 with whatever `fetchIssues()` returns. */
    method GetBookmarks(now: int, upstream: Upstream<seq<Issue>>)
      returns (reply: Reply, call: Option<GitHubCall>)
      modifies this
      ensures reply == BookmarkList(issuesCache) && reply.Status() == 200
      ensures call == None <==> old(CacheIsFresh(false, now))
      ensures call != None ==> call == Some(ListOpenIssues)
      ensures call == None || upstream.Failure? ==>
        issuesCache == old(issuesCache) && lastFetch == old(lastFetch)
      ensures call != None && upstream.Success? ==>
        issuesCache == TransformIssues(upstream.value) && lastFetch == now
    {
      var bookmarks;
      bookmarks, call := FetchIssues(false, now, upstream);
      reply := BookmarkList(bookmarks);
    }

    /** `POST /api/bookmarks/refresh`: always asks GitHub, and answers 200
        with the size of the cache afterwards, even when the fetch failed. */
    method RefreshBookmarks(now: int, upstream: Upstream<seq<Issue>>)
      returns (reply: Reply, call: Option<GitHubCall>)
      modifies this
      ensures call == Some(ListOpenIssues)
      ensures reply == Refreshed(|issuesCache|) && reply.Status() == 200
      ensures upstream.Failure? ==> issuesCache == old(issuesCache) && lastFetch == old(lastFetch)
      ensures upstream.Success? ==> issuesCache == TransformIssues(upstream.value) && lastFetch == now
    {
      var bookmarks;
      bookmarks, call := FetchIssues(true, now, upstream);
      reply := Refreshed(|bookmarks|);
    }

    /** `POST /api/bookmarks`: 400 without calling GitHub when the title or
        link is missing; otherwise creates the issue and, on success, puts
        its bookmark at the front of the cache and answers 201. */
    method CreateBookmark(req: BookmarkRequest, upstream: Upstream<Issue>)
      returns (reply: Reply, call: Option<GitHubCall>)
      modifies this
      ensures lastFetch == old(lastFetch)
      ensures BuildIssuePayload(req) == None ==>
        reply == BadRequest(TitleAndLinkRequired) && call == None && issuesCache == old(issuesCache)
      ensures BuildIssuePayload(req).Some? ==> call == Some(CreateIssue(BuildIssuePayload(req).value))
      ensures BuildIssuePayload(req).Some? && upstream.Success? ==>
        reply == CreatedBookmark(TransformIssue(upstream.value))
        && issuesCache == [TransformIssue(upstream.value)] + old(issuesCache)
      ensures BuildIssuePayload(req).Some? && upstream.Failure? ==>
        reply == ServerError(upstream.message) && issuesCache == old(issuesCache)
    {
      var payload := BuildIssuePayload(req);
      if payload == None {
        return BadRequest(TitleAndLinkRequired), None;
      }
      call := Some(CreateIssue(payload.value));
      match upstream
      case Success(newIssue) =>
        var bookmark := TransformIssue(newIssue);
        issuesCache := [bookmark] + issuesCache;
        reply := CreatedBookmark(bookmark);
      case Failure(message) =>
        reply := ServerError(message);
    }

    /** `PUT /api/bookmarks/:id`: 400 without calling GitHub when the title
        or link is missing; otherwise updates issue `id` and, on success,
        overwrites the first cached bookmark with that id (a miss leaves the
        cache as it was) and answers 200. */
    method UpdateBookmark(id: int, req: BookmarkRequest, upstream: Upstream<Issue>)
      returns (reply: Reply, call: Option<GitHubCall>)
      modifies this
      ensures lastFetch == old(lastFetch)
      ensures BuildIssuePayload(req) == None ==>
        reply == BadRequest(TitleAndLinkRequired) && call == None && issuesCache == old(issuesCache)
      ensures BuildIssuePayload(req).Some? ==> call == Some(UpdateIssue(id, BuildIssuePayload(req).value))
      ensures BuildIssuePayload(req).Some? && upstream.Success? ==>
        reply == UpdatedBookmark(TransformIssue(upstream.value))
        && issuesCache == ReplaceById(old(issuesCache), id, TransformIssue(upstream.value))
      ensures BuildIssuePayload(req).Some? && upstream.Failure? ==>
        reply == ServerError(upstream.message) && issuesCache == old(issuesCache)
    {
      var payload := BuildIssuePayload(req);
      if payload == None {
        return BadRequest(TitleAndLinkRequired), None;
      }
      call := Some(UpdateIssue(id, payload.value));
      match upstream
      case Success(updatedIssue) =>
        var bookmark := TransformIssue(updatedIssue);
        issuesCache := ReplaceById(issuesCache, id, bookmark);
        reply := UpdatedBookmark(bookmark);
      case Failure(message) =>
        reply := ServerError(message);
    }

    /** `DELETE /api/bookmarks/:id`: closes issue `id` and, on success, drops
        every cached bookmark with that id. */
    method DeleteBookmark(id: int, upstream: Upstream<()>)
      returns (reply: Reply, call: Option<GitHubCall>)
      modifies this
      ensures lastFetch == old(lastFetch)
      ensures call == Some(CloseIssue(id))
      ensures upstream.Success? ==> reply == DeletedBookmark && issuesCache == WithoutId(old(issuesCache), id)
      ensures upstream.Failure? ==> reply == ServerError(upstream.message) && issuesCache == old(issuesCache)
    {
      call := Some(CloseIssue(id));
      match upstream
      case Success(_) =>
        issuesCache := WithoutId(issuesCache, id);
        reply := DeletedBookmark;
      case Failure(message) =>
        reply := ServerError(message);
    }
  }

  /** `GET /api/labels`: always lists the repository's labels, then answers
      with their names and colours. */
  function LabelsReply(upstream: Upstream<seq<Label>>): (r: (Reply, Option<GitHubCall>))
    ensures r.1 == Some(ListLabels)
    ensures upstream.Success? ==>
      && r.0.Status() == 200 && r.0.LabelList?
      && |r.0.labels| == |upstream.value|
      && forall i :: 0 <= i < |upstream.value| ==>
           r.0.labels[i] == TagInfo(upstream.value[i].name, upstream.value[i].color)
    ensures upstream.Failure? ==> r.0 == ServerError(upstream.message) && r.0.Status() == 500
  {
    match upstream
    case Success(labels) => (LabelList(ProjectLabels(labels)), Some(ListLabels))
    case Failure(message) => (ServerError(message), Some(ListLabels))
  }

  /** Largest value of `Math.floor(Math.random() * 16777215)`, plus one. */
  const ColorRolls: nat := 16777215

  /** `color || roll.toString(16).padStart(6, '0')`, where `roll` stands for
      `Math.floor(Math.random() * 16777215)`, the drawn whole number. A
      colour the client sent is kept as it is; a generated one is at least
      six characters long. */
  function LabelColor(color: Option<string>, roll: nat): (c: string)
    ensures !Missing(color) ==> c == color.value
    ensures Missing(color) ==> |c| >= 6
  {
    if Missing(color) then PadStart(ToHex(roll), 6, '0') else color.value
  }

  /** A generated colour is six lower-case hex digits that read back as the
      drawn number. */
  lemma GeneratedColorIsHex(roll: nat)
    requires roll < ColorRolls
    ensures var c := LabelColor(None, roll);
      |c| == 6 && AllHexDigits(c) && HexNumber(c) == roll
      && forall i :: 0 <= i < 6 ==> !('A' <= c[i] <= 'Z')
  {
    var h := ToHex(roll);
    SixHexDigits();
    ToHexLength(roll, 6);
    ZeroPadded(h);
  }

  /** Hex digits with no upper-case letter, at most six of them, padded with
      zeros to six: six such digits, read back as the same number. */
  lemma ZeroPadded(h: string)
    requires |h| <= 6 && AllHexDigits(h)
    requires forall i :: 0 <= i < |h| ==> !('A' <= h[i] <= 'Z')
    ensures var c := PadStart(h, 6, '0');
      |c| == 6 && AllHexDigits(c) && HexNumber(c) == HexNumber(h)
      && forall i :: 0 <= i < 6 ==> !('A' <= c[i] <= 'Z')
  {
    var c := PadStart(h, 6, '0');
    var z := c[..6 - |h|];
    assert c == z + h;
    LeadingZeros(z, h);
  }

  /** Six hex digits hold every draw. */
  lemma SixHexDigits()
    ensures Pow16(6) == 16777216
  {
    assert Pow16(1) == 16 && Pow16(2) == 256 && Pow16(3) == 4096 && Pow16(4) == 65536 && Pow16(5) == 1048576;
  }

  const LabelNameRequired: string := "Label name is required"

  /** `POST /api/labels`: 400 without calling GitHub when the name is
      missing; otherwise creates the label (with a generated colour when none
      is given) and answers 201 with the created label's name and colour. */
  function CreateLabelReply(name: Option<string>, color: Option<string>, roll: nat, upstream: Upstream<Label>)
    : (r: (Reply, Option<GitHubCall>))
    ensures Missing(name) ==> r.0 == BadRequest(LabelNameRequired) && r.1 == None
    ensures !Missing(name) ==> r.1 == Some(CreateLabel(TagInfo(name.value, LabelColor(color, roll))))
    ensures !Missing(name) && upstream.Success? ==>
      r.0 == CreatedLabel(TagInfo(upstream.value.name, upstream.value.color)) && r.0.Status() == 201
    ensures !Missing(name) && upstream.Failure? ==> r.0 == ServerError(upstream.message)
  {
    if Missing(name) then (BadRequest(LabelNameRequired), None)
    else
      var call := Some(CreateLabel(TagInfo(name.value, LabelColor(color, roll))));
      match upstream
      case Success(created) => (CreatedLabel(TagInfo(created.name, created.color)), call)
      case Failure(message) => (ServerError(message), call)
  }

  // ---------------------------------------------------------------------------
  // Sequences of requests against one server
  // ---------------------------------------------------------------------------

  /** After a fetch at `t0`, a bookmark created before the cache expires is
      listed first by `GET /api/bookmarks`, without another GitHub request. */
  method CreateThenList(issues: seq<Issue>, t0: int, req: BookmarkRequest, created: Issue,
                        t1: int, later: Upstream<seq<Issue>>)
    returns (listed: Reply, listCall: Option<GitHubCall>)
    requires BuildIssuePayload(req).Some?
    requires t1 - t0 < CacheDuration
    ensures listCall == None
    ensures listed == BookmarkList([TransformIssue(created)] + TransformIssues(issues))
  {
    var server := new BookmarkServer();
    var fetched, fetchCall := server.FetchIssues(true, t0, Success(issues));
    var createdReply, createCall := server.CreateBookmark(req, Success(created));
    listed, listCall := server.GetBookmarks(t1, later);
  }

  /** After a fetch at `t0` and a successful delete of `id`, a listing before
      the cache expires has no bookmark with that id and asks GitHub nothing,
      provided some other bookmark is left in the cache. */
  method DeleteThenList(issues: seq<Issue>, t0: int, id: int, t1: int, later: Upstream<seq<Issue>>)
    returns (listed: Reply, listCall: Option<GitHubCall>)
    requires exists i :: 0 <= i < |issues| && issues[i].number != id
    requires t1 - t0 < CacheDuration
    ensures listCall == None
    ensures listed.BookmarkList? && forall i :: 0 <= i < |listed.bookmarks| ==> listed.bookmarks[i].id != id
  {
    var server := new BookmarkServer();
    var fetched, fetchCall := server.FetchIssues(true, t0, Success(issues));
    var k :| 0 <= k < |issues| && issues[k].number != id;
    assert fetched[k].id != id;
    var deleted, deleteCall := server.DeleteBookmark(id, Success(()));
    assert fetched[k] in server.issuesCache;
    listed, listCall := server.GetBookmarks(t1, later);
  }

  /** A first listing whose fetch fails answers 200 with an empty list: the
      failure is never reported to the client. */
  method FailedFirstListing(now: int, message: string)
    returns (listed: Reply, call: Option<GitHubCall>)
    ensures call == Some(ListOpenIssues)
    ensures listed == BookmarkList([]) && listed.Status() == 200
  {
    var server := new BookmarkServer();
    listed, call := server.GetBookmarks(now, Failure(message));
  }
}
