/** The mapping between a bookmark and the GitHub issue that stores it
    (server.js): the issue body is built from `Link: `, `Description: ` and
    `Tags: ` lines, read back by scanning its lines, and the tags are the
    issue's label names. */
module IssueMapper {
  import opened Wrappers
  import opened Text

  /** A GitHub label as the API returns it. */
  datatype Label = Label(name: string, color: string, description: string)

  /** The fields of a GitHub issue the server reads; `body` is `null` when
      the issue has none. */
  datatype Issue = Issue(
    number: int, title: string, body: Option<string>, labels: seq<Label>,
    createdAt: string, updatedAt: string, state: string, htmlUrl: string)

  /** A bookmark as the server returns it: tags are plain label names. */
  datatype Bookmark = Bookmark(
    id: int, title: string, link: string, description: string, tags: seq<string>,
    created: string, updated: string, state: string, url: string)

  /** What `parseIssueBody` returns. */
  datatype BodyFields = BodyFields(link: string, description: string)

  /** A label as `GET /api/labels` and `POST /api/labels` report it. */
  datatype TagInfo = TagInfo(name: string, color: string)

  /** The fields of a create or update request body; `None` is a field the
      client left out. */
  datatype BookmarkRequest = BookmarkRequest(
    title: Option<string>, link: Option<string>, description: Option<string>,
    tags: Option<seq<string>>)

  /** The JSON sent to GitHub to create or update the backing issue. */
  datatype IssuePayload = IssuePayload(title: string, body: string, labels: seq<string>)

  const LinkPrefix: string := "Link: "
  const DescriptionPrefix: string := "Description: "
  const TagsPrefix: string := "Tags: "

  // ---------------------------------------------------------------------------
  // Reading a body: parseIssueBody
  // ---------------------------------------------------------------------------

  /** The `link` and `description` locals after the loop of `parseIssueBody`
      has visited `lines` in order: a `Link: ` line sets the link and a
      `Description: ` line the description, each to the trimmed rest of the
      line, so a later match overwrites an earlier one. */
  function ScanLines(lines: seq<string>): BodyFields {
    if lines == [] then BodyFields("", "")
    else
      var prev := ScanLines(lines[..|lines| - 1]);
      var line := lines[|lines| - 1];
      if StartsWith(line, LinkPrefix) then prev.(link := Trim(line[|LinkPrefix|..]))
      else if StartsWith(line, DescriptionPrefix) then prev.(description := Trim(line[|DescriptionPrefix|..]))
      else prev
  }

  /** Whatever the lines, the scan leaves no whitespace at either end of the
      link or the description. */
  lemma {:induction false} ScanLinesTrimmed(lines: seq<string>)
    ensures Trimmed(ScanLines(lines).link) && Trimmed(ScanLines(lines).description)
  {
    if lines != [] {
      ScanLinesTrimmed(lines[..|lines| - 1]);
    }
  }

  /** What `parseIssueBody(body)` returns: a link and a description with no
      whitespace at either end. */
  function ParseBody(body: string): (r: BodyFields)
    ensures Trimmed(r.link) && Trimmed(r.description)
  {
    ScanLinesTrimmed(SplitLines(body));
    ScanLines(SplitLines(body))
  }

  /** `parseIssueBody`: split the body into lines and scan them, reassigning
      `link` and `description` at each matching line. It never fails. */
  method ParseIssueBody(body: string) returns (link: string, description: string)
    ensures BodyFields(link, description) == ParseBody(body)
  {
    var lines := SplitLines(body);
    link, description := "", "";
    var i := 0;
    while i < |lines|
      invariant 0 <= i <= |lines|
      invariant BodyFields(link, description) == ScanLines(lines[..i])
    {
      var line := lines[i];
      assert lines[..i + 1][..i] == lines[..i];
      if StartsWith(line, LinkPrefix) {
        link := Trim(line[|LinkPrefix|..]);
      } else if StartsWith(line, DescriptionPrefix) {
        description := Trim(line[|DescriptionPrefix|..]);
      }
      i := i + 1;
    }
    assert lines[..i] == lines;
  }

  /** The link is the trimmed rest of the LAST line that starts with `Link: `. */
  lemma {:induction false} LastLinkLineWins(lines: seq<string>, k: nat)
    requires k < |lines| && StartsWith(lines[k], LinkPrefix)
    requires forall j :: k < j < |lines| ==> !StartsWith(lines[j], LinkPrefix)
    ensures ScanLines(lines).link == Trim(lines[k][|LinkPrefix|..])
  {
    if k < |lines| - 1 {
      var init := lines[..|lines| - 1];
      assert init[k] == lines[k];
      assert forall j :: k < j < |init| ==> init[j] == lines[j];
      LastLinkLineWins(init, k);
    }
  }

  /** Without a `Link: ` line the link is empty. */
  lemma {:induction false} NoLinkLine(lines: seq<string>)
    requires forall j :: 0 <= j < |lines| ==> !StartsWith(lines[j], LinkPrefix)
    ensures ScanLines(lines).link == ""
  {
    if lines != [] {
      var init := lines[..|lines| - 1];
      assert forall j :: 0 <= j < |init| ==> init[j] == lines[j];
      NoLinkLine(init);
    }
  }

  /** A line that starts with `Description: ` does not start with `Link: `. */
  lemma DescriptionLineIsNotLinkLine(line: string)
    requires StartsWith(line, DescriptionPrefix)
    ensures !StartsWith(line, LinkPrefix)
  {
    assert line[0] == DescriptionPrefix[0];
  }

  /** The description is the trimmed rest of the LAST line that starts with
      `Description: `. */
  lemma {:induction false} LastDescriptionLineWins(lines: seq<string>, k: nat)
    requires k < |lines| && StartsWith(lines[k], DescriptionPrefix)
    requires forall j :: k < j < |lines| ==> !StartsWith(lines[j], DescriptionPrefix)
    ensures ScanLines(lines).description == Trim(lines[k][|DescriptionPrefix|..])
  {
    if k == |lines| - 1 {
      DescriptionLineIsNotLinkLine(lines[k]);
    } else {
      var init := lines[..|lines| - 1];
      assert init[k] == lines[k];
      assert forall j :: k < j < |init| ==> init[j] == lines[j];
      LastDescriptionLineWins(init, k);
    }
  }

  /** Without a `Description: ` line the description is empty. */
  lemma {:induction false} NoDescriptionLine(lines: seq<string>)
    requires forall j :: 0 <= j < |lines| ==> !StartsWith(lines[j], DescriptionPrefix)
    ensures ScanLines(lines).description == ""
  {
    if lines != [] {
      var init := lines[..|lines| - 1];
      assert forall j :: 0 <= j < |init| ==> init[j] == lines[j];
      NoDescriptionLine(init);
    }
  }

  /** A line with neither prefix, such as the `Tags: ` line, can be removed
      from anywhere without changing what the scan finds. */
  lemma {:induction false} OtherLineIgnored(before: seq<string>, line: string, after: seq<string>)
    requires !StartsWith(line, LinkPrefix) && !StartsWith(line, DescriptionPrefix)
    ensures ScanLines(before + [line] + after) == ScanLines(before + after)
  {
    if after == [] {
      assert (before + [line] + after)[..|before| + 1 - 1] == before;
      assert before + after == before;
    } else {
      var init := after[..|after| - 1];
      OtherLineIgnored(before, line, init);
      assert (before + [line] + after)[..|before + [line] + after| - 1] == before + [line] + init;
      assert (before + after)[..|before + after| - 1] == before + init;
    }
  }

  // ---------------------------------------------------------------------------
  // From an issue to a bookmark: transformIssue
  // ---------------------------------------------------------------------------

  /** `issue.body || ''`. */
  function BodyText(body: Option<string>): string {
    if body.Some? then body.value else ""
  }

  /** `issue.labels.map(label => label.name)`. */
  function LabelNames(labels: seq<Label>): (names: seq<string>)
    ensures |names| == |labels|
    ensures forall i :: 0 <= i < |labels| ==> names[i] == labels[i].name
  {
    seq(|labels|, i requires 0 <= i < |labels| => labels[i].name)
  }

  /** `transformIssue`: the id is the issue number, the tags are the label
      names in label order (duplicates kept), link and description come from
      the body, and an issue without a body has an empty link and description. */
  function TransformIssue(issue: Issue): (b: Bookmark)
    ensures b.id == issue.number && b.title == issue.title
    ensures |b.tags| == |issue.labels|
    ensures forall i :: 0 <= i < |issue.labels| ==> b.tags[i] == issue.labels[i].name
    ensures BodyFields(b.link, b.description) == ParseBody(BodyText(issue.body))
    ensures issue.body == None ==> b.link == "" && b.description == ""
    ensures b.created == issue.createdAt && b.updated == issue.updatedAt
    ensures b.state == issue.state && b.url == issue.htmlUrl
  {
    var fields := ParseBody(BodyText(issue.body));
    assert issue.body == None ==> SplitLines("") == [""];
    Bookmark(issue.number, issue.title, fields.link, fields.description,
             LabelNames(issue.labels), issue.createdAt, issue.updatedAt,
             issue.state, issue.htmlUrl)
  }

  /** `labels.map(label => ({ name: label.name, color: label.color }))`. */
  function ProjectLabels(labels: seq<Label>): (tags: seq<TagInfo>)
    ensures |tags| == |labels|
    ensures forall i :: 0 <= i < |labels| ==>
      tags[i].name == labels[i].name && tags[i].color == labels[i].color
  {
    seq(|labels|, i requires 0 <= i < |labels| => TagInfo(labels[i].name, labels[i].color))
  }

  // ---------------------------------------------------------------------------
  // From a request to an issue: the body and labels built by the route handlers
  // ---------------------------------------------------------------------------

  /** JavaScript's `!field` on an optional string: absent or empty. */
  predicate Missing(field: Option<string>) {
    field == None || field == Some("")
  }

  /** `description || ''`. */
  function OrEmpty(field: Option<string>): string {
    if field.Some? then field.value else ""
  }

  /** `tags ? tags.join(' ') : ''`. */
  function TagsText(tags: Option<seq<string>>): string {
    if tags.Some? then JoinWith(tags.value, " ") else ""
  }

  /** `tags || []`. */
  function TagList(tags: Option<seq<string>>): seq<string> {
    if tags.Some? then tags.value else []
  }

  /** The issue body the create and update handlers write: it opens with
      the `Link: ` line and a blank line, and closes with the `Tags: ` line. */
  function IssueBody(link: string, description: Option<string>, tags: Option<seq<string>>): (body: string)
    ensures StartsWith(body, LinkPrefix + link + "\n\n")
    ensures var last := TagsPrefix + TagsText(tags);
      |last| <= |body| && body[|body| - |last|..] == last
  {
    var head := LinkPrefix + link + "\n\n";
    var last := TagsPrefix + TagsText(tags);
    var body := head + (DescriptionPrefix + OrEmpty(description) + "\n\n") + last;
    assert body == (LinkPrefix + link) + "\n\n" + (DescriptionPrefix + OrEmpty(description)) + "\n\n" + last;
    assert body[..|head|] == head;
    assert body[|body| - |last|..] == last;
    body
  }

  const TitleAndLinkRequired: string := "Title and link are required"

  /** The issue the create and update handlers send to GitHub, or `None` when
      the title or the link is missing (the handlers then answer 400 without
      calling GitHub). */
  function BuildIssuePayload(req: BookmarkRequest): (p: Option<IssuePayload>)
    ensures p == None <==> Missing(req.title) || Missing(req.link)
    ensures p.Some? ==> p.value.title == req.title.value && p.value.labels == TagList(req.tags)
    ensures p.Some? ==> StartsWith(p.value.body, LinkPrefix + req.link.value)
  {
    if Missing(req.title) || Missing(req.link) then None
    else
      var body := IssueBody(req.link.value, req.description, req.tags);
      var head := LinkPrefix + req.link.value;
      assert body[..|head|] == (body[..|head| + 2])[..|head|] == (head + "\n\n")[..|head|] == head;
      Some(IssuePayload(req.title.value, body, TagList(req.tags)))
  }

  /** Tag names without newlines joined by spaces hold no newline. */
  lemma {:induction false} JoinedTagsOneLine(tags: seq<string>)
    requires forall i :: 0 <= i < |tags| ==> '\n' !in tags[i]
    ensures '\n' !in JoinWith(tags, " ")
  {
    if |tags| > 1 {
      JoinedTagsOneLine(tags[1..]);
    }
  }

  /** Joining five pieces puts the separator between neighbours. */
  lemma JoinFive(a: string, b: string, c: string, d: string, e: string, sep: string)
    ensures JoinWith([a, b, c, d, e], sep) == a + sep + b + sep + c + sep + d + sep + e
  {
    assert JoinWith([d, e], sep) == d + sep + e by { assert [d, e][1..] == [e]; }
    assert JoinWith([c, d, e], sep) == c + sep + (d + sep + e) by { assert [c, d, e][1..] == [d, e]; }
    assert JoinWith([b, c, d, e], sep) == b + sep + (c + sep + (d + sep + e)) by {
      assert [b, c, d, e][1..] == [c, d, e];
    }
    assert JoinWith([a, b, c, d, e], sep) == a + sep + (b + sep + (c + sep + (d + sep + e))) by {
      assert [a, b, c, d, e][1..] == [b, c, d, e];
    }
  }

  /** Five lines joined with newlines, the second and fourth blank. */
  lemma JoinBlankSeparated(a: string, c: string, e: string)
    ensures JoinWith([a, "", c, "", e], "\n") == a + "\n\n" + c + "\n\n" + e
  {
    JoinFive(a, "", c, "", e, "\n");
    var head := a + "\n" + "" + "\n";
    assert head == a + "\n\n";
    assert head + c + "\n" + "" + "\n" == head + c + "\n\n";
  }

  /** The five lines of a built body: link, blank, description, blank, tags. */
  lemma BodyLines(link: string, description: Option<string>, tags: Option<seq<string>>)
    ensures IssueBody(link, description, tags) ==
      JoinWith([LinkPrefix + link, "", DescriptionPrefix + OrEmpty(description), "", TagsPrefix + TagsText(tags)], "\n")
  {
    JoinBlankSeparated(LinkPrefix + link, DescriptionPrefix + OrEmpty(description), TagsPrefix + TagsText(tags));
  }

  /** A built description line is recognised as one, and not as a link. */
  lemma DescriptionLine(desc: string)
    ensures StartsWith(DescriptionPrefix + desc, DescriptionPrefix)
    ensures (DescriptionPrefix + desc)[|DescriptionPrefix|..] == desc
    ensures !StartsWith(DescriptionPrefix + desc, LinkPrefix)
  {
    var line := DescriptionPrefix + desc;
    assert line[0] == 'D';
  }

  /** One more line for the scan: a built `Link: ` line sets the link. */
  lemma ScanLinkLine(lines: seq<string>, link: string)
    requires Trimmed(link)
    ensures ScanLines(lines + [LinkPrefix + link]) == ScanLines(lines).(link := link)
  {
    var line := LinkPrefix + link;
    assert StartsWith(line, LinkPrefix) && line[|LinkPrefix|..] == link;
    assert (lines + [line])[..|lines|] == lines;
  }

  /** One more line for the scan: a built `Description: ` line sets the
      description. */
  lemma ScanDescriptionLine(lines: seq<string>, desc: string)
    requires Trimmed(desc)
    ensures ScanLines(lines + [DescriptionPrefix + desc]) == ScanLines(lines).(description := desc)
  {
    var line := DescriptionPrefix + desc;
    DescriptionLine(desc);
    assert (lines + [line])[..|lines|] == lines;
  }

  /** One more line for the scan: any other line changes nothing. */
  lemma ScanOtherLine(lines: seq<string>, line: string)
    requires !StartsWith(line, LinkPrefix) && !StartsWith(line, DescriptionPrefix)
    ensures ScanLines(lines + [line]) == ScanLines(lines)
  {
    assert (lines + [line])[..|lines|] == lines;
  }

  /** Scanning the five lines of a built body finds its link and description. */
  lemma ScanBuiltLines(link: string, desc: string, last: string)
    requires Trimmed(link) && Trimmed(desc)
    requires !StartsWith(last, LinkPrefix) && !StartsWith(last, DescriptionPrefix)
    ensures ScanLines([LinkPrefix + link, "", DescriptionPrefix + desc, "", last]) == BodyFields(link, desc)
  {
    var s0: seq<string> := [];
    var s1 := s0 + [LinkPrefix + link];
    var s2 := s1 + [""];
    var s3 := s2 + [DescriptionPrefix + desc];
    var s4 := s3 + [""];
    ScanLinkLine(s0, link);
    ScanOtherLine(s1, "");
    ScanDescriptionLine(s2, desc);
    ScanOtherLine(s3, "");
    ScanOtherLine(s4, last);
    assert s4 + [last] == [LinkPrefix + link, "", DescriptionPrefix + desc, "", last];
  }

  /** Round trip: parsing a body the handlers built gives back the link and
      the description, as long as both are single trimmed lines and no tag
      name holds a newline. */
  lemma BodyRoundTrip(link: string, description: Option<string>, tags: Option<seq<string>>)
    requires '\n' !in link && Trimmed(link)
    requires '\n' !in OrEmpty(description) && Trimmed(OrEmpty(description))
    requires tags.Some? ==> forall i :: 0 <= i < |tags.value| ==> '\n' !in tags.value[i]
    ensures ParseBody(IssueBody(link, description, tags)) == BodyFields(link, OrEmpty(description))
  {
    if tags.Some? {
      JoinedTagsOneLine(tags.value);
    }
    BodyLines(link, description, tags);
    ParseFiveLines(link, OrEmpty(description), TagsText(tags));
  }

  /** Parsing the newline-joined five lines of a body finds its link and
      description. */
  lemma ParseFiveLines(link: string, desc: string, tagsText: string)
    requires '\n' !in link && Trimmed(link)
    requires '\n' !in desc && Trimmed(desc)
    requires '\n' !in tagsText
    ensures ParseBody(JoinWith([LinkPrefix + link, "", DescriptionPrefix + desc, "", TagsPrefix + tagsText], "\n"))
      == BodyFields(link, desc)
  {
    var l5 := TagsPrefix + tagsText;
    var lines := [LinkPrefix + link, "", DescriptionPrefix + desc, "", l5];
    assert '\n' !in l5;
    JoinThenSplit(lines);
    assert !StartsWith(l5, LinkPrefix) && !StartsWith(l5, DescriptionPrefix) by { assert l5[0] == 'T'; }
    ScanBuiltLines(link, desc, l5);
  }

  /** End to end: when GitHub stores the payload a valid request produced, the
      bookmark read back from the issue carries the request's title, link,
      description and tags. */
  lemma IssueRoundTrip(req: BookmarkRequest, issue: Issue)
    requires BuildIssuePayload(req).Some?
    requires '\n' !in req.link.value && Trimmed(req.link.value)
    requires '\n' !in OrEmpty(req.description) && Trimmed(OrEmpty(req.description))
    requires req.tags.Some? ==> forall i :: 0 <= i < |req.tags.value| ==> '\n' !in req.tags.value[i]
    requires issue.title == BuildIssuePayload(req).value.title
    requires issue.body == Some(BuildIssuePayload(req).value.body)
    requires LabelNames(issue.labels) == BuildIssuePayload(req).value.labels
    ensures TransformIssue(issue).title == req.title.value
    ensures TransformIssue(issue).link == req.link.value
    ensures TransformIssue(issue).description == OrEmpty(req.description)
    ensures TransformIssue(issue).tags == TagList(req.tags)
  {
    BodyRoundTrip(req.link.value, req.description, req.tags);
  }
}
