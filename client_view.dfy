/** The pure rules of the browser client (public/app.js): which bookmarks the
    list shows, which tags the filter bar offers and in what order, what the
    tag dropdown suggests, the text colour for a tag chip, and the attribute
    escaping used in the generated markup. The client sees a bookmark's tags
    as objects with a name and a colour. */
module ClientView {
  import opened Wrappers
  import opened Text
  import Seqs

  /** A tag as the client reads it; the empty colour stands for a missing one. */
  datatype Tag = Tag(name: string, color: string)

  /** A bookmark as the client holds it in its global list. */
  datatype ClientBookmark = ClientBookmark(
    id: int, title: string, link: string, description: string, tags: seq<Tag>,
    created: string, updated: string, state: string, url: string)

  function NameOf(t: Tag): string {
    t.name
  }

  /** `tags.map(t => t.name)`. */
  function TagNames(tags: seq<Tag>): (names: seq<string>)
    ensures |names| == |tags|
    ensures forall i :: 0 <= i < |tags| ==> names[i] == tags[i].name
  {
    Seqs.Keys(tags, NameOf)
  }

  lemma TagNamesAppend(a: seq<Tag>, b: seq<Tag>)
    ensures TagNames(a + b) == TagNames(a) + TagNames(b)
  {
    assert forall i :: 0 <= i < |a + b| ==> TagNames(a + b)[i] == (TagNames(a) + TagNames(b))[i];
  }

  // ---------------------------------------------------------------------
  // The bookmark filter of renderBookmarks
  // ---------------------------------------------------------------------

  /** Title, description, link and the space-joined tag names, separated by
      single spaces. */
  function SearchText(b: ClientBookmark): (text: string)
    ensures |b.title| < |text| && text[..|b.title|] == b.title && text[|b.title|] == ' '
  {
    var text := b.title + " " + b.description + " " + b.link + " " + JoinWith(TagNames(b.tags), " ");
    assert text == b.title + (" " + b.description + " " + b.link + " " + JoinWith(TagNames(b.tags), " "));
    text
  }

  /** Some tag of `b` is one of the active filter tags. */
  predicate HasActiveTag(b: ClientBookmark, activeTags: set<string>) {
    exists k :: 0 <= k < |b.tags| && b.tags[k].name in activeTags
  }

  /** The predicate handed to `bookmarks.filter`: with a non-empty query the
      lower-cased search text must contain it; with active tags at least one
      of them must be on the bookmark (any one suffices). */
  function Passes(b: ClientBookmark, searchQuery: string, activeTags: set<string>): (keep: bool)
    ensures keep <==>
      && (searchQuery == [] || exists i :: OccursAt(ToLower(SearchText(b)), searchQuery, i))
      && (activeTags == {} || HasActiveTag(b, activeTags))
  {
    if searchQuery != [] && !Contains(ToLower(SearchText(b)), searchQuery) then false
    else if |activeTags| > 0 && !Seqs.Any(b.tags, (t: Tag) => t.name in activeTags) then false
    else true
  }

  /** The list renderBookmarks draws: the bookmarks that pass, in list order;
      with no query and no active tag it is the whole list. */
  function VisibleBookmarks(bookmarks: seq<ClientBookmark>, searchQuery: string, activeTags: set<string>)
    : (shown: seq<ClientBookmark>)
    ensures Seqs.IsSubsequence(shown, bookmarks)
    ensures forall i :: 0 <= i < |shown| ==> shown[i] in bookmarks && Passes(shown[i], searchQuery, activeTags)
    ensures forall j :: 0 <= j < |bookmarks| && Passes(bookmarks[j], searchQuery, activeTags) ==>
      bookmarks[j] in shown
    ensures forall b :: multiset(shown)[b] == if Passes(b, searchQuery, activeTags) then multiset(bookmarks)[b] else 0
    ensures searchQuery == [] && activeTags == {} ==> shown == bookmarks
  {
    var keep := (b: ClientBookmark) => Passes(b, searchQuery, activeTags);
    if searchQuery == [] && activeTags == {} then
      Seqs.FilterKeepsAll(bookmarks, keep);
      Seqs.Filter(bookmarks, keep)
    else
      Seqs.Filter(bookmarks, keep)
  }

  /** Lower-casing keeps an occurrence where it was. */
  lemma LowerKeepsOccurrence(s: string, sub: string, i: int)
    requires OccursAt(s, sub, i)
    ensures OccursAt(ToLower(s), ToLower(sub), i)
  {
    forall k | 0 <= k < |sub| ensures ToLower(s)[i + k] == ToLower(sub)[k] {
      assert s[i + k] == s[i..i + |sub|][k];
    }
    assert ToLower(s)[i..i + |sub|] == ToLower(sub);
  }

  /** Search ignores ASCII case: a bookmark whose title contains the typed
      text, once both are lower-cased, stays visible under the query the input
      handler stores (title "Foo" and typed "FOO", say). */
  lemma TitleMatchIsShown(b: ClientBookmark, typed: string)
    requires Contains(ToLower(b.title), ToLower(typed))
    ensures Passes(b, ToLower(typed), {})
  {
    var q := ToLower(typed);
    var i :| OccursAt(ToLower(b.title), q, i);
    var text := SearchText(b);
    assert text[..|b.title|] == b.title;
    var lower := ToLower(text);
    assert lower[..|b.title|] == ToLower(b.title);
    assert lower[i..i + |q|] == ToLower(b.title)[i..i + |q|];
    assert OccursAt(lower, q, i);
  }

  /** With a tag filter and no query, a bookmark is shown exactly when one of
      its tags is active: several active tags widen the list (OR). */
  lemma TagFilterIsDisjunctive(b: ClientBookmark, activeTags: set<string>, more: set<string>, name: string)
    requires name in activeTags && name in TagNames(b.tags)
    ensures Passes(b, [], activeTags)
    ensures Passes(b, [], activeTags + more)
  {
    var k :| 0 <= k < |b.tags| && TagNames(b.tags)[k] == name;
    assert b.tags[k].name in activeTags && b.tags[k].name in activeTags + more;
  }

  // ---------------------------------------------------------------------
  // toggleTagFilter
  // ---------------------------------------------------------------------

  /** The active-tag set after clicking `tag`: its membership flips, every
      other name keeps its membership. */
  function Toggled(activeTags: set<string>, tag: string): (r: set<string>)
    ensures tag in r <==> tag !in activeTags
    ensures forall t :: t != tag ==> (t in r <==> t in activeTags)
  {
    if tag in activeTags then activeTags - {tag} else activeTags + {tag}
  }

  /** Clicking the same tag twice restores the filter. */
  lemma ToggleTwice(activeTags: set<string>, tag: string)
    ensures Toggled(Toggled(activeTags, tag), tag) == activeTags
  {
  }

  // ---------------------------------------------------------------------
  // The used-tag list of renderFilterTags
  // ---------------------------------------------------------------------

  /** `bookmarks.flatMap(b => b.tags)`. */
  function FlatTags(bookmarks: seq<ClientBookmark>): (all: seq<Tag>)
    ensures forall j, k :: 0 <= j < |bookmarks| && 0 <= k < |bookmarks[j].tags| ==> bookmarks[j].tags[k] in all
    ensures forall i :: 0 <= i < |all| ==> exists j :: 0 <= j < |bookmarks| && all[i] in bookmarks[j].tags
  {
    if bookmarks == [] then []
    else
      var rest := FlatTags(bookmarks[1..]);
      var all := bookmarks[0].tags + rest;
      assert forall j :: 1 <= j < |bookmarks| ==> bookmarks[j] == bookmarks[1..][j - 1];
      assert forall i :: |bookmarks[0].tags| <= i < |all| ==> all[i] == rest[i - |bookmarks[0].tags|];
      all
  }

  /** The values of `usedTagsMap` in insertion order: a tag is kept only when
      no tag of its name was kept before. */
  function UsedTagOrder(all: seq<Tag>): (order: seq<Tag>)
    ensures Seqs.IsSubsequence(order, all)
  {
    Seqs.FirstOccurrencesInOrder(all, NameOf);
    Seqs.FirstOccurrences(all, NameOf)
  }

  /** One step of the `forEach` that fills `usedTagsMap`. */
  lemma UsedTagOrderStep(all: seq<Tag>, i: nat)
    requires i < |all|
    ensures UsedTagOrder(all[..i + 1]) ==
      if all[i].name in TagNames(UsedTagOrder(all[..i])) then UsedTagOrder(all[..i])
      else UsedTagOrder(all[..i]) + [all[i]]
  {
    assert all[..i + 1][..i] == all[..i];
  }

  /** `a.localeCompare(b) <= 0`, approximated by code-point order. */
  predicate LexLe(a: string, b: string) {
    |a| == 0 || (|b| > 0 && (a[0] < b[0] || (a[0] == b[0] && LexLe(a[1..], b[1..]))))
  }

  lemma {:induction false} LexLeTotal(a: string, b: string)
    ensures LexLe(a, b) || LexLe(b, a)
  {
    if |a| > 0 && |b| > 0 && a[0] == b[0] {
      LexLeTotal(a[1..], b[1..]);
    }
  }

  lemma {:induction false} LexLeTransitive(a: string, b: string, c: string)
    requires LexLe(a, b) && LexLe(b, c)
    ensures LexLe(a, c)
  {
    if |a| > 0 && |b| > 0 && |c| > 0 && a[0] == b[0] && b[0] == c[0] {
      LexLeTransitive(a[1..], b[1..], c[1..]);
    }
  }

  predicate SortedByName(tags: seq<Tag>) {
    forall i, j :: 0 <= i < j < |tags| ==> LexLe(tags[i].name, tags[j].name)
  }

  predicate DistinctNames(tags: seq<Tag>) {
    forall i, j :: 0 <= i < j < |tags| ==> tags[i].name != tags[j].name
  }

  /** `t` placed before the first tag whose name it does not follow. */
  function InsertByName(t: Tag, sorted: seq<Tag>): (r: seq<Tag>)
    ensures multiset(r) == multiset(sorted) + multiset{t}
  {
    if sorted == [] then [t]
    else if LexLe(t.name, sorted[0].name) then [t] + sorted
    else
      assert sorted == [sorted[0]] + sorted[1..];
      [sorted[0]] + InsertByName(t, sorted[1..])
  }

  lemma {:induction false} InsertKeepsOrder(t: Tag, sorted: seq<Tag>)
    requires SortedByName(sorted)
    ensures SortedByName(InsertByName(t, sorted))
  {
    if sorted != [] {
      if LexLe(t.name, sorted[0].name) {
        forall j | 1 <= j < |sorted| ensures LexLe(t.name, sorted[j].name) {
          LexLeTransitive(t.name, sorted[0].name, sorted[j].name);
        }
      } else {
        LexLeTotal(t.name, sorted[0].name);
        InsertKeepsOrder(t, sorted[1..]);
        var rest := InsertByName(t, sorted[1..]);
        forall k | 0 <= k < |rest| ensures LexLe(sorted[0].name, rest[k].name) {
          assert rest[k] in multiset(rest);
          if rest[k] != t {
            var m :| 0 <= m < |sorted| - 1 && sorted[1..][m] == rest[k];
            assert sorted[m + 1] == rest[k];
          }
        }
        assert InsertByName(t, sorted) == [sorted[0]] + rest;
      }
    }
  }

  /** Reordering tags keeps the set of their names. */
  lemma PermutedNames(a: seq<Tag>, b: seq<Tag>)
    requires multiset(a) == multiset(b)
    ensures forall n :: n in TagNames(a) <==> n in TagNames(b)
  {
    forall n | n in TagNames(a) ensures n in TagNames(b) {
      var i :| 0 <= i < |a| && TagNames(a)[i] == n;
      assert a[i] in multiset(b);
      var j :| 0 <= j < |b| && b[j] == a[i];
      assert TagNames(b)[j] == n;
    }
    forall n | n in TagNames(b) ensures n in TagNames(a) {
      var j :| 0 <= j < |b| && TagNames(b)[j] == n;
      assert b[j] in multiset(a);
      var i :| 0 <= i < |a| && a[i] == b[j];
      assert TagNames(a)[i] == n;
    }
  }

  /** A tag whose name the rest lacks can go in front of it. */
  lemma DistinctCons(x: Tag, rest: seq<Tag>)
    requires DistinctNames(rest) && x.name !in TagNames(rest)
    ensures DistinctNames([x] + rest)
  {
    forall j | 0 <= j < |rest| ensures rest[j].name != x.name {
      assert TagNames(rest)[j] == rest[j].name;
    }
  }

  /** Inserting a tag of a new name keeps the names distinct. */
  lemma {:induction false} InsertKeepsNamesDistinct(t: Tag, sorted: seq<Tag>)
    requires DistinctNames(sorted) && t.name !in TagNames(sorted)
    ensures DistinctNames(InsertByName(t, sorted))
  {
    if sorted == [] {
    } else if LexLe(t.name, sorted[0].name) {
      DistinctCons(t, sorted);
    } else {
      var tail := sorted[1..];
      var rest := InsertByName(t, tail);
      assert TagNames(tail) == TagNames(sorted)[1..];
      InsertKeepsNamesDistinct(t, tail);
      assert sorted[0].name !in TagNames(tail) by {
        assert TagNames(sorted)[0] == sorted[0].name;
      }
      assert sorted[0].name != t.name by {
        assert TagNames(sorted)[0] == sorted[0].name;
      }
      PermutedNames(rest, tail + [t]);
      TagNamesAppend(tail, [t]);
      DistinctCons(sorted[0], rest);
    }
  }

  /** `.sort((a, b) => a.name.localeCompare(b.name))`, as insertion sort: a
      reordering of its input, sorted by name. */
  function SortByName(tags: seq<Tag>): (r: seq<Tag>)
    ensures multiset(r) == multiset(tags)
    ensures SortedByName(r)
  {
    if tags == [] then []
    else
      var rest := SortByName(tags[1..]);
      InsertKeepsOrder(tags[0], rest);
      assert tags == [tags[0]] + tags[1..];
      InsertByName(tags[0], rest)
  }

  /** Sorting keeps the set of names, and distinct names stay distinct. */
  lemma {:induction false} SortKeepsNames(tags: seq<Tag>)
    ensures forall n :: n in TagNames(SortByName(tags)) <==> n in TagNames(tags)
    ensures DistinctNames(tags) ==> DistinctNames(SortByName(tags))
  {
    PermutedNames(SortByName(tags), tags);
    if tags != [] && DistinctNames(tags) {
      var tail := tags[1..];
      var rest := SortByName(tail);
      SortKeepsNames(tail);
      PermutedNames(rest, tail);
      assert forall k :: 0 <= k < |tail| ==> TagNames(tail)[k] == TagNames(tags)[k + 1];
      assert tags[0].name !in TagNames(rest);
      InsertKeepsNamesDistinct(tags[0], rest);
    }
  }

  /** The chips of the filter bar, before rendering. */
  function UsedTags(bookmarks: seq<ClientBookmark>): (used: seq<Tag>)
    ensures SortedByName(used)
    ensures multiset(used) == multiset(UsedTagOrder(FlatTags(bookmarks)))
  {
    SortByName(UsedTagOrder(FlatTags(bookmarks)))
  }

  /** The map's insertion order has distinct names, holds every name met,
      and holds each tag where its name is met first. */
  lemma {:induction false} UsedTagOrderSpec(all: seq<Tag>)
    ensures DistinctNames(UsedTagOrder(all))
    ensures forall k :: 0 <= k < |all| ==> all[k].name in TagNames(UsedTagOrder(all))
    ensures forall i :: 0 <= i < |UsedTagOrder(all)| ==>
      exists k :: 0 <= k < |all| && all[k] == UsedTagOrder(all)[i]
        && forall j :: 0 <= j < k ==> all[j].name != all[k].name
  {
    var order := UsedTagOrder(all);
    Seqs.FirstOccurrencesSpec(all, NameOf);
    assert TagNames(order) == Seqs.Keys(order, NameOf);
    forall i, j | 0 <= i < j < |order| ensures order[i].name != order[j].name {
      assert TagNames(order)[i] != TagNames(order)[j];
    }
    forall k | 0 <= k < |all| ensures all[k].name in TagNames(order) {
      assert NameOf(all[k]) in Seqs.Keys(order, NameOf);
    }
  }

  /** The filter bar is sorted by name and lists no name twice. */
  lemma UsedTagsSortedAndDistinct(bookmarks: seq<ClientBookmark>)
    ensures SortedByName(UsedTags(bookmarks))
    ensures DistinctNames(UsedTags(bookmarks))
  {
    UsedTagOrderSpec(FlatTags(bookmarks));
    SortKeepsNames(UsedTagOrder(FlatTags(bookmarks)));
  }

  /** Every tag name on some bookmark gets a chip. */
  lemma UsedTagsCoverEveryName(bookmarks: seq<ClientBookmark>)
    ensures forall j, k :: 0 <= j < |bookmarks| && 0 <= k < |bookmarks[j].tags| ==>
      bookmarks[j].tags[k].name in TagNames(UsedTags(bookmarks))
  {
    var all := FlatTags(bookmarks);
    UsedTagOrderSpec(all);
    SortKeepsNames(UsedTagOrder(all));
    forall j, k | 0 <= j < |bookmarks| && 0 <= k < |bookmarks[j].tags|
      ensures bookmarks[j].tags[k].name in TagNames(UsedTags(bookmarks))
    {
      assert bookmarks[j].tags[k] in all;
      var m :| 0 <= m < |all| && all[m] == bookmarks[j].tags[k];
      assert all[m].name in TagNames(UsedTagOrder(all));
    }
  }

  /** `t` occurs in `all` with no tag of its name before it. */
  predicate FirstOfItsName(all: seq<Tag>, t: Tag) {
    exists k :: 0 <= k < |all| && all[k] == t && forall j :: 0 <= j < k ==> all[j].name != t.name
  }

  /** Each chip is the first tag of its name met when the bookmarks' tags
      are read in list order, so its colour is that tag's colour. */
  lemma UsedTagsAreFirstOccurrences(bookmarks: seq<ClientBookmark>)
    ensures forall i :: 0 <= i < |UsedTags(bookmarks)| ==> FirstOfItsName(FlatTags(bookmarks), UsedTags(bookmarks)[i])
  {
    var all := FlatTags(bookmarks);
    var order := UsedTagOrder(all);
    var used := UsedTags(bookmarks);
    UsedTagOrderSpec(all);
    forall i | 0 <= i < |used| ensures FirstOfItsName(all, used[i]) {
      assert used[i] in multiset(order);
      var p :| 0 <= p < |order| && order[p] == used[i];
      var k :| 0 <= k < |all| && all[k] == order[p] && forall j :: 0 <= j < k ==> all[j].name != all[k].name;
      assert all[k] == used[i];
    }
  }

  // ---------------------------------------------------------------------
  // The tag dropdown of showTagDropdown
  // ---------------------------------------------------------------------

  /** The existing tags the dropdown lists: not yet selected, and whose
      lower-cased name contains the lower-cased query. */
  function Suggestions(allTags: seq<Tag>, selected: seq<string>, query: string): (r: seq<Tag>)
    ensures Seqs.IsSubsequence(r, allTags)
    ensures forall i :: 0 <= i < |r| ==>
      r[i].name !in selected && exists p :: OccursAt(ToLower(r[i].name), ToLower(query), p)
    ensures forall j ::
      (0 <= j < |allTags| && allTags[j].name !in selected
       && exists p :: OccursAt(ToLower(allTags[j].name), ToLower(query), p)) ==> allTags[j] in r
    ensures forall t ::
              multiset(r)[t] == if t.name !in selected && Contains(ToLower(t.name), ToLower(query))
                                then multiset(allTags)[t] else 0
  {
    Seqs.Filter(allTags, (t: Tag) => t.name !in selected && Contains(ToLower(t.name), ToLower(query)))
  }

  /** An empty query suggests every tag not yet selected. */
  lemma EmptyQuerySuggestsAllUnselected(allTags: seq<Tag>, selected: seq<string>)
    ensures forall j :: 0 <= j < |allTags| && allTags[j].name !in selected ==>
      allTags[j] in Suggestions(allTags, selected, "")
  {
    forall j | 0 <= j < |allTags| && allTags[j].name !in selected
      ensures allTags[j] in Suggestions(allTags, selected, "")
    {
      assert OccursAt(ToLower(allTags[j].name), ToLower(""), 0);
    }
  }

  /** The "+ Create" entry: offered exactly when the query is non-empty and
      no existing tag has that name up to ASCII case. */
  function OffersCreate(allTags: seq<Tag>, query: string): (offer: bool)
    ensures offer <==> query != [] && forall j :: 0 <= j < |allTags| ==> ToLower(allTags[j].name) != ToLower(query)
  {
    query != [] && !Seqs.Any(allTags, (t: Tag) => ToLower(t.name) == ToLower(query))
  }

  /** When a tag with exactly the queried name exists, creation is not
      offered. */
  lemma ExistingNameNotOffered(allTags: seq<Tag>, query: string, k: nat)
    requires k < |allTags| && allTags[k].name == query
    ensures !OffersCreate(allTags, query)
  {
    assert ToLower(allTags[k].name) == ToLower(query);
  }

  // ---------------------------------------------------------------------
  // getContrastColor and the tag colour default
  // ---------------------------------------------------------------------

  /** A GitHub label colour: six hex digits without the `#`. */
  predicate IsHexColor(hex: string) {
    |hex| == 6 && AllHexDigits(hex)
  }

  /** `parseInt(hex.substr(2 * k, 2), 16)` for channel k (0 red, 1 green,
      2 blue). */
  function Channel(hex: string, k: nat): (level: nat)
    requires IsHexColor(hex) && k < 3
    ensures level < 256
  {
    assert Pow16(2) == 256 by { assert Pow16(1) == 16; }
    HexNumber(hex[2 * k..2 * k + 2])
  }

  /** Black text on light chips, white text on dark ones: black exactly when
      the weighted sum 299 r + 587 g + 114 b exceeds 128000, i.e. when the
      brightness, that sum divided by 1000, exceeds 128. */
  function ContrastColor(hex: string): (c: string)
    requires IsHexColor(hex)
    ensures c == "#000000" || c == "#ffffff"
    ensures c == "#000000" <==> Channel(hex, 0) * 299 + Channel(hex, 1) * 587 + Channel(hex, 2) * 114 > 128000
  {
    var brightness := (Channel(hex, 0) * 299 + Channel(hex, 1) * 587 + Channel(hex, 2) * 114) as real / 1000.0;
    if brightness > 128.0 then "#000000" else "#ffffff"
  }

  /** A chip at least as bright in every channel as one drawn with black text
      is drawn with black text too. */
  lemma ContrastMonotone(dark: string, light: string)
    requires IsHexColor(dark) && IsHexColor(light)
    requires forall k :: 0 <= k < 3 ==> Channel(dark, k) <= Channel(light, k)
    requires ContrastColor(dark) == "#000000"
    ensures ContrastColor(light) == "#000000"
  {
    assert Channel(dark, 0) <= Channel(light, 0);
    assert Channel(dark, 1) <= Channel(light, 1);
    assert Channel(dark, 2) <= Channel(light, 2);
  }

  /** `tag.color || '666666'`. */
  function ChipColor(t: Tag): (color: string)
    ensures t.color != [] ==> color == t.color
    ensures IsHexColor(t.color) || t.color == [] ==> IsHexColor(color)
  {
    if t.color == [] then "666666" else t.color
  }

  /** A tag without a colour is drawn grey (0x66 in each channel) with white
      text. */
  lemma DefaultChipHasWhiteText(t: Tag)
    requires t.color == []
    ensures ContrastColor(ChipColor(t)) == "#ffffff"
  {
    var hex := ChipColor(t);
    assert hex[0..2] == "66" && hex[2..4] == "66" && hex[4..6] == "66";
    assert HexNumber("66") == 102 by {
      assert "66"[..1] == "6";
      assert "6"[..0] == "";
    }
  }

  // ---------------------------------------------------------------------
  // escapeAttribute
  // ---------------------------------------------------------------------

  /** `s.replace(/c/g, rep)`: each `c` replaced by `rep`. */
  function ReplaceAll(s: string, c: char, rep: string): (r: string)
    ensures c !in s ==> r == s
    ensures forall d :: d in r ==> (d in s && d != c) || d in rep
  {
    if s == [] then []
    else (if s[0] == c then rep else [s[0]]) + ReplaceAll(s[1..], c, rep)
  }

  /** On one character: `c` becomes `rep`, any other character stays. With
      `ReplaceAllAppend` this gives the replacement character by character. */
  lemma ReplaceAllSingle(d: char, c: char, rep: string)
    ensures ReplaceAll([d], c, rep) == if d == c then rep else [d]
  {
    assert [d][1..] == [];
  }

  /** Replacement works piece by piece over a concatenation. */
  lemma {:induction false} ReplaceAllAppend(a: string, b: string, c: char, rep: string)
    ensures ReplaceAll(a + b, c, rep) == ReplaceAll(a, c, rep) + ReplaceAll(b, c, rep)
  {
    if a == [] {
      assert a + b == b;
    } else {
      assert (a + b)[1..] == a[1..] + b;
      ReplaceAllAppend(a[1..], b, c, rep);
    }
  }

  /** What escapeAttribute writes for one character. */
  function EscapeChar(c: char): string {
    if c == '\'' then "&#39;" else if c == '"' then "&quot;" else [c]
  }

  /** The character-by-character reference for escapeAttribute. */
  function EscapeEach(s: string): string {
    if s == [] then [] else EscapeChar(s[0]) + EscapeEach(s[1..])
  }

  /** `text.replace(/'/g, '&#39;').replace(/"/g, '&quot;')`: no quote of
      either kind survives, and a string without quotes comes back as is. */
  function EscapeAttribute(s: string): (r: string)
    ensures '\'' !in r && '"' !in r
    ensures '\'' !in s && '"' !in s ==> r == s
  {
    ReplaceAll(ReplaceAll(s, '\'', "&#39;"), '"', "&quot;")
  }

  /** On a single character the two passes write what `EscapeChar` does. */
  lemma EscapeOneChar(x: char)
    ensures ReplaceAll(ReplaceAll([x], '\'', "&#39;"), '"', "&quot;") == EscapeChar(x)
  {
    assert [x][1..] == [];
    var first := ReplaceAll([x], '\'', "&#39;");
    assert first == (if x == '\'' then "&#39;" else [x]);
    if x == '"' {
      assert first[1..] == [];
    }
  }

  /** The two passes together escape each character on its own: the second
      pass never touches what the first one wrote. */
  lemma {:induction false} EscapeAttributeIsPerCharacter(s: string)
    ensures EscapeAttribute(s) == EscapeEach(s)
  {
    if s != [] {
      var first := ReplaceAll([s[0]], '\'', "&#39;");
      var rest := ReplaceAll(s[1..], '\'', "&#39;");
      assert s == [s[0]] + s[1..];
      ReplaceAllAppend([s[0]], s[1..], '\'', "&#39;");
      ReplaceAllAppend(first, rest, '"', "&quot;");
      EscapeOneChar(s[0]);
      EscapeAttributeIsPerCharacter(s[1..]);
    }
  }

  // ---------------------------------------------------------------------
  // The local list edits and notices of handleFormSubmit / deleteBookmark
  // ---------------------------------------------------------------------

  /** `bookmarks.find(b => b.id === id)`: the first bookmark with that id. */
  function FindById(bookmarks: seq<ClientBookmark>, id: int): (found: Option<ClientBookmark>)
    ensures found == None <==> forall j :: 0 <= j < |bookmarks| ==> bookmarks[j].id != id
    ensures found.Some? ==>
      exists k :: (0 <= k < |bookmarks| && bookmarks[k] == found.value && found.value.id == id
                   && forall j :: 0 <= j < k ==> bookmarks[j].id != id)
  {
    var k := Seqs.FindIndex(bookmarks, (b: ClientBookmark) => b.id == id);
    if k == -1 then None else Some(bookmarks[k])
  }

  /** `bookmarks.filter(b => b.id !== id)`. */
  function WithoutId(bookmarks: seq<ClientBookmark>, id: int): (r: seq<ClientBookmark>)
    ensures forall i :: 0 <= i < |r| ==> r[i].id != id
    ensures forall j :: 0 <= j < |bookmarks| && bookmarks[j].id != id ==> bookmarks[j] in r
    ensures Seqs.IsSubsequence(r, bookmarks)
    ensures forall b :: multiset(r)[b] == if b.id != id then multiset(bookmarks)[b] else 0
  {
    Seqs.Filter(bookmarks, (b: ClientBookmark) => b.id != id)
  }

  /** `index = bookmarks.findIndex(b => b.id === id); if (index !== -1)
      bookmarks[index] = saved`. */
  function ReplaceById(bookmarks: seq<ClientBookmark>, id: int, saved: ClientBookmark): (r: seq<ClientBookmark>)
    ensures |r| == |bookmarks|
    ensures (forall j :: 0 <= j < |bookmarks| ==> bookmarks[j].id != id) ==> r == bookmarks
    ensures forall k ::
      (0 <= k < |bookmarks| && bookmarks[k].id == id && forall j :: 0 <= j < k ==> bookmarks[j].id != id)
      ==> r == bookmarks[k := saved]
  {
    Seqs.ReplaceFirst(bookmarks, (b: ClientBookmark) => b.id == id, saved)
  }

  /** The message meant after a successful save. */
  function SaveNotice(wasEditing: bool): (message: string)
    ensures wasEditing <==> message == "Bookmark updated successfully!"
  {
    if wasEditing then "Bookmark updated successfully!" else "Bookmark created successfully!"
  }

  /** The message as the handler computes it: from whatever `editingBookmark`
      holds when line 453 reads it. */
  function SaveNoticeAsWritten(editingWhenRead: Option<ClientBookmark>): (message: string)
    ensures message == "Bookmark created successfully!" <==> editingWhenRead == None
  {
    SaveNotice(editingWhenRead.Some?)
  }
}
