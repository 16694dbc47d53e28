/** The browser client's global state (public/app.js) and the handlers that
    change it: the search box, the tag filter, the tag chooser of the
    bookmark form, saving and deleting. Network replies are parameters; the
    DOM is not modelled, except that the chosen tags are kept as the list the
    form would read back. */
module ClientApp {
  import opened Wrappers
  import opened Text
  import opened ClientView
  import Seqs

  /** A notification the handler shows, if any. */
  datatype Notice = Quiet | ShowSuccess(message: string) | ShowError(message: string)

  /** The JSON body the form sends. */
  datatype FormData = FormData(title: string, link: string, description: string, tags: seq<string>)

  /** The request the form sends: POST for a new bookmark, PUT for an edit. */
  datatype SaveRequest = CreateRequest(data: FormData) | UpdateRequest(id: int, data: FormData)

  /** The names left after adding `names` one by one to an empty chooser
      that refuses a name it already holds. */
  function ChosenNames(names: seq<string>): (chosen: seq<string>)
    ensures Seqs.IsSubsequence(chosen, names)
  {
    Seqs.FirstOccurrencesInOrder(names, (n: string) => n);
    Seqs.FirstOccurrences(names, (n: string) => n)
  }

  /** One addSelectedTag call on top of the names chosen so far. */
  lemma ChosenNamesStep(names: seq<string>, i: nat)
    requires i < |names|
    ensures ChosenNames(names[..i + 1]) ==
      if names[i] in ChosenNames(names[..i]) then ChosenNames(names[..i]) else ChosenNames(names[..i]) + [names[i]]
  {
    assert names[..i + 1][..i] == names[..i];
    var prev := ChosenNames(names[..i]);
    assert Seqs.Keys(prev, (n: string) => n) == prev;
  }

  /** Editing a bookmark selects each of its tag names once, in tag order,
      and nothing else. */
  lemma ChosenNamesSpec(names: seq<string>)
    ensures Seqs.NoDuplicates(ChosenNames(names))
    ensures forall n :: n in ChosenNames(names) <==> n in names
  {
    var chosen := ChosenNames(names);
    Seqs.FirstOccurrencesSpec(names, (n: string) => n);
    assert Seqs.Keys(chosen, (n: string) => n) == chosen;
    forall n | n in chosen ensures n in names {
      var i :| 0 <= i < |chosen| && chosen[i] == n;
      var k :| 0 <= k < |names| && names[k] == chosen[i] && forall j :: 0 <= j < k ==> names[j] != names[k];
    }
  }

  /** `usedTagsMap` has exactly the names of `inserted` as keys, each
      mapped to its tag: `inserted` lists the map's values in insertion order. */
  ghost predicate MapHolds(usedTagsMap: map<string, Tag>, inserted: seq<Tag>) {
    && (forall n :: n in usedTagsMap <==> n in TagNames(inserted))
    && (forall k :: 0 <= k < |inserted| ==> inserted[k].name in usedTagsMap && usedTagsMap[inserted[k].name] == inserted[k])
  }

  lemma MapHoldsAdd(usedTagsMap: map<string, Tag>, inserted: seq<Tag>, tag: Tag)
    requires MapHolds(usedTagsMap, inserted) && tag.name !in usedTagsMap
    ensures MapHolds(usedTagsMap[tag.name := tag], inserted + [tag])
  {
    TagNamesAppend(inserted, [tag]);
    assert TagNames([tag]) == [tag.name];
  }

  /** The first bookmark with a given id is the one `find` returns. */
  lemma FindFirstWithId(bookmarks: seq<ClientBookmark>, k: nat)
    requires k < |bookmarks| && forall j :: 0 <= j < k ==> bookmarks[j].id != bookmarks[k].id
    ensures FindById(bookmarks, bookmarks[k].id) == Some(bookmarks[k])
  {
    var found := FindById(bookmarks, bookmarks[k].id);
    assert found != None;
    var m :| 0 <= m < |bookmarks| && bookmarks[m] == found.value && found.value.id == bookmarks[k].id
      && forall j :: 0 <= j < m ==> bookmarks[j].id != bookmarks[k].id;
    assert m == k;
  }

  /** The error messages the page shows. */
  const LoadFailed: string := "Failed to load bookmarks"
  const FieldsRequired: string := "Title and link are required"
  const SaveFailed: string := "Failed to save bookmark"
  const DeleteFailed: string := "Failed to delete bookmark"

  /** The form fields handleFormSubmit sends: the trimmed inputs and the
      chosen tags, or nothing when the trimmed title or link is blank. */
  function FormFields(titleInput: string, linkInput: string, descriptionInput: string, tags: seq<string>)
    : (data: Option<FormData>)
    ensures data == None <==> Trim(titleInput) == [] || Trim(linkInput) == []
    ensures data.Some? ==>
      data.value == FormData(Trim(titleInput), Trim(linkInput), Trim(descriptionInput), tags)
  {
    var title := Trim(titleInput);
    var link := Trim(linkInput);
    if title == [] || link == [] then None else Some(FormData(title, link, Trim(descriptionInput), tags))
  }

  /** PUT to the edited bookmark's id, or POST for a new one. */
  function RequestFor(editing: Option<ClientBookmark>, data: FormData): (request: SaveRequest)
    ensures request.data == data
    ensures request.UpdateRequest? <==> editing.Some?
    ensures request.UpdateRequest? ==> request.id == editing.value.id
  {
    if editing.Some? then UpdateRequest(editing.value.id, data) else CreateRequest(data)
  }

  /** The list after a successful save: a new bookmark goes first and the
      others shift by one; an edited one replaces the first entry with its id,
      keeping the length. */
  function AfterSave(bookmarks: seq<ClientBookmark>, editing: Option<ClientBookmark>, saved: ClientBookmark)
    : (r: seq<ClientBookmark>)
    ensures editing == None ==> |r| == |bookmarks| + 1 && r[0] == saved && r[1..] == bookmarks
    ensures editing.Some? ==> r == ReplaceById(bookmarks, editing.value.id, saved) && |r| == |bookmarks|
  {
    if editing.Some? then ReplaceById(bookmarks, editing.value.id, saved) else [saved] + bookmarks
  }

  class App {
    var bookmarks: seq<ClientBookmark>
    var allTags: seq<Tag>
    var activeTags: set<string>
    var searchQuery: string
    /** The tag names in the form's chooser. */
    var selectedTags: seq<string>
    var editingBookmark: Option<ClientBookmark>

    /** The chooser never holds a name twice. */
    predicate Valid()
      reads this
    {
      Seqs.NoDuplicates(selectedTags)
    }

    /** The list renderBookmarks draws from the current state. */
    function Visible(): (shown: seq<ClientBookmark>)
      reads this
      ensures Seqs.IsSubsequence(shown, bookmarks)
      ensures forall i :: 0 <= i < |shown| ==> Passes(shown[i], searchQuery, activeTags)
    {
      VisibleBookmarks(bookmarks, searchQuery, activeTags)
    }

    constructor ()
      ensures Valid()
      ensures bookmarks == [] && allTags == [] && activeTags == {} && searchQuery == []
      ensures selectedTags == [] && editingBookmark == None
    {
      bookmarks := [];
      allTags := [];
      activeTags := {};
      searchQuery := [];
      selectedTags := [];
      editingBookmark := None;
    }

    /** loadBookmarks: the list is replaced by the reply; a failed request
        keeps the old list and shows an error. */
    method LoadBookmarks(reply: Upstream<seq<ClientBookmark>>) returns (notice: Notice)
      modifies this`bookmarks
      ensures reply.Success? ==> bookmarks == reply.value && notice == Quiet
      ensures reply.Failure? ==> bookmarks == old(bookmarks) && notice == ShowError(LoadFailed)
    {
      if reply.Success? {
        bookmarks := reply.value;
        notice := Quiet;
      } else {
        notice := ShowError(LoadFailed);
      }
    }

    /** loadTags: the tag list is replaced by the reply; a failure is silent. */
    method LoadTags(reply: Upstream<seq<Tag>>)
      modifies this`allTags
      ensures allTags == if reply.Success? then reply.value else old(allTags)
    {
      if reply.Success? {
        allTags := reply.value;
      }
    }

    /** The search box's input handler stores the lower-cased text. */
    method SetSearchQuery(value: string)
      modifies this`searchQuery
      ensures searchQuery == ToLower(value)
    {
      searchQuery := ToLower(value);
    }

    method ClearSearch()
      modifies this`searchQuery
      ensures searchQuery == []
    {
      searchQuery := [];
    }

    /** clearAllFilters: no query, no active tag, so every bookmark shows. */
    method ClearAllFilters() returns (notice: Notice)
      modifies this`searchQuery, this`activeTags
      ensures searchQuery == [] && activeTags == {}
      ensures Visible() == bookmarks
      ensures notice == ShowSuccess("All filters cleared!")
    {
      ClearSearch();
      activeTags := {};
      notice := ShowSuccess("All filters cleared!");
    }

    /** toggleTagFilter: the clicked tag's membership flips. */
    method ToggleTagFilter(tag: string)
      modifies this`activeTags
      ensures activeTags == Toggled(old(activeTags), tag)
    {
      if tag in activeTags {
        activeTags := activeTags - {tag};
      } else {
        activeTags := activeTags + {tag};
      }
    }

    /** renderFilterTags: the first tag of each name goes into a map keyed by
        name; the map's values, in insertion order, are sorted by name. */
    method RenderFilterTags() returns (usedTags: seq<Tag>)
      ensures usedTags == UsedTags(bookmarks)
    {
      var all := FlatTags(bookmarks);
      var usedTagsMap: map<string, Tag> := map[];
      var inserted: seq<Tag> := [];
      var i := 0;
      while i < |all|
        invariant 0 <= i <= |all|
        invariant inserted == UsedTagOrder(all[..i])
        invariant MapHolds(usedTagsMap, inserted)
      {
        var tag := all[i];
        UsedTagOrderStep(all, i);
        if tag.name !in usedTagsMap {
          MapHoldsAdd(usedTagsMap, inserted, tag);
          usedTagsMap := usedTagsMap[tag.name := tag];
          inserted := inserted + [tag];
        }
        i := i + 1;
      }
      assert all[..|all|] == all;
      usedTags := SortByName(inserted);
    }

    /** openCreateModal: no bookmark under edit and an empty chooser. */
    method OpenCreateModal()
      modifies this`editingBookmark, this`selectedTags
      ensures Valid()
      ensures editingBookmark == None && selectedTags == []
    {
      editingBookmark := None;
      selectedTags := [];
    }

    /** addSelectedTag: a name already chosen is ignored, any other is added
        at the end. */
    method AddSelectedTag(tag: string)
      requires Valid()
      modifies this`selectedTags
      ensures Valid()
      ensures selectedTags == if tag in old(selectedTags) then old(selectedTags) else old(selectedTags) + [tag]
    {
      if tag in selectedTags {
        return;
      }
      selectedTags := selectedTags + [tag];
    }

    /** The tag input's Enter key: the trimmed text, unless blank, is added
        to the chooser like a dropdown choice. */
    method AddTagFromInput(value: string)
      requires Valid()
      modifies this`selectedTags
      ensures Valid()
      ensures Trim(value) == [] ==> selectedTags == old(selectedTags)
      ensures Trim(value) != [] ==>
        selectedTags == if Trim(value) in old(selectedTags) then old(selectedTags) else old(selectedTags) + [Trim(value)]
    {
      var trimmed := Trim(value);
      if trimmed != [] {
        AddSelectedTag(trimmed);
      }
    }

    /** editBookmark: the first bookmark with that id goes under edit and its
        tag names fill the chooser; an unknown id changes nothing. */
    method EditBookmark(id: int)
      requires Valid()
      modifies this`editingBookmark, this`selectedTags
      ensures Valid()
      ensures FindById(bookmarks, id) == None ==>
        editingBookmark == old(editingBookmark) && selectedTags == old(selectedTags)
      ensures FindById(bookmarks, id).Some? ==>
        && editingBookmark == FindById(bookmarks, id)
        && selectedTags == ChosenNames(TagNames(editingBookmark.value.tags))
    {
      var found := FindById(bookmarks, id);
      if found == None {
        return;
      }
      editingBookmark := found;
      selectedTags := [];
      var names := TagNames(found.value.tags);
      var i := 0;
      while i < |names|
        invariant 0 <= i <= |names|
        invariant Valid()
        invariant editingBookmark == found
        invariant selectedTags == ChosenNames(names[..i])
      {
        ChosenNamesStep(names, i);
        AddSelectedTag(names[i]);
        i := i + 1;
      }
      assert names[..|names|] == names;
    }

    /** closeModal: nothing is under edit any more. */
    method CloseModal()
      modifies this`editingBookmark
      ensures editingBookmark == None
    {
      editingBookmark := None;
    }

    /** The save half of handleFormSubmit, once the fields are accepted:
        the request goes out as an update of the bookmark under edit or as a
        new bookmark. On success the list takes the saved bookmark, the form
        closes, the tags are reloaded and the message says which of the two
        happened. On failure the state is kept and an error is shown. */
    method Save(data: FormData, saved: Upstream<ClientBookmark>, reloadedTags: Upstream<seq<Tag>>)
      returns (request: SaveRequest, notice: Notice)
      modifies this`bookmarks, this`editingBookmark, this`allTags
      ensures request == RequestFor(old(editingBookmark), data)
      ensures saved.Failure? ==>
        && notice == ShowError(SaveFailed)
        && bookmarks == old(bookmarks) && editingBookmark == old(editingBookmark) && allTags == old(allTags)
      ensures saved.Success? ==>
        && bookmarks == AfterSave(old(bookmarks), old(editingBookmark), saved.value)
        && editingBookmark == None
        && allTags == (if reloadedTags.Success? then reloadedTags.value else old(allTags))
        && notice == ShowSuccess(SaveNotice(old(editingBookmark).Some?))
    {
      var wasEditing := editingBookmark.Some?;
      request := RequestFor(editingBookmark, data);
      if saved.Failure? {
        return request, ShowError(SaveFailed);
      }
      bookmarks := AfterSave(bookmarks, editingBookmark, saved.value);
      CloseModal();
      LoadTags(reloadedTags);
      notice := ShowSuccess(SaveNotice(wasEditing));
    }

    /** The save half of handleFormSubmit as written: the same request and
        state changes as `Save`, but the success message is built from
        `editingBookmark` after `closeModal()` has cleared it, so every
        successful save, an edit included, is reported as a creation. */
    method SaveAsWritten(data: FormData, saved: Upstream<ClientBookmark>, reloadedTags: Upstream<seq<Tag>>)
      returns (request: SaveRequest, notice: Notice)
      modifies this`bookmarks, this`editingBookmark, this`allTags
      ensures request == RequestFor(old(editingBookmark), data)
      ensures saved.Failure? ==>
        && notice == ShowError(SaveFailed)
        && bookmarks == old(bookmarks) && editingBookmark == old(editingBookmark) && allTags == old(allTags)
      ensures saved.Success? ==>
        && bookmarks == AfterSave(old(bookmarks), old(editingBookmark), saved.value)
        && editingBookmark == None
        && allTags == (if reloadedTags.Success? then reloadedTags.value else old(allTags))
        && notice == ShowSuccess("Bookmark created successfully!")
      ensures saved.Success? && old(editingBookmark).Some? ==>
        notice != ShowSuccess(SaveNotice(old(editingBookmark).Some?))
    {
      request := RequestFor(editingBookmark, data);
      if saved.Failure? {
        return request, ShowError(SaveFailed);
      }
      bookmarks := AfterSave(bookmarks, editingBookmark, saved.value);
      CloseModal();
      LoadTags(reloadedTags);
      notice := ShowSuccess(SaveNoticeAsWritten(editingBookmark));
    }

    /** handleFormSubmit. A title or link that is blank once trimmed is
        refused before any request and nothing changes; otherwise the trimmed
        fields and the chosen tags are saved as `Save` describes. */
    method SubmitForm(titleInput: string, linkInput: string, descriptionInput: string,
                      saved: Upstream<ClientBookmark>, reloadedTags: Upstream<seq<Tag>>)
      returns (request: Option<SaveRequest>, notice: Notice)
      modifies this`bookmarks, this`editingBookmark, this`allTags
      ensures FormFields(titleInput, linkInput, descriptionInput, selectedTags) == None ==>
        && request == None && notice == ShowError(FieldsRequired)
        && bookmarks == old(bookmarks) && editingBookmark == old(editingBookmark) && allTags == old(allTags)
      ensures FormFields(titleInput, linkInput, descriptionInput, selectedTags).Some? ==>
        request == Some(RequestFor(old(editingBookmark), FormFields(titleInput, linkInput, descriptionInput, selectedTags).value))
      ensures FormFields(titleInput, linkInput, descriptionInput, selectedTags).Some? && saved.Failure? ==>
        && notice == ShowError(SaveFailed)
        && bookmarks == old(bookmarks) && editingBookmark == old(editingBookmark) && allTags == old(allTags)
      ensures FormFields(titleInput, linkInput, descriptionInput, selectedTags).Some? && saved.Success? ==>
        && bookmarks == AfterSave(old(bookmarks), old(editingBookmark), saved.value)
        && editingBookmark == None
        && allTags == (if reloadedTags.Success? then reloadedTags.value else old(allTags))
        && notice == ShowSuccess(SaveNotice(old(editingBookmark).Some?))
    {
      var data := FormFields(titleInput, linkInput, descriptionInput, selectedTags);
      if data == None {
        return None, ShowError(FieldsRequired);
      }
      var sent;
      sent, notice := Save(data.value, saved, reloadedTags);
      request := Some(sent);
    }

    /** deleteBookmark: nothing happens unless confirmed; a confirmed delete
        that succeeds drops every entry with that id and keeps the rest in
        order. */
    method DeleteBookmark(id: int, confirmed: bool, reply: Upstream<()>)
      returns (requested: bool, notice: Notice)
      modifies this`bookmarks
      ensures requested == confirmed
      ensures !confirmed ==> bookmarks == old(bookmarks) && notice == Quiet
      ensures confirmed && reply.Failure? ==>
        bookmarks == old(bookmarks) && notice == ShowError(DeleteFailed)
      ensures confirmed && reply.Success? ==>
        bookmarks == WithoutId(old(bookmarks), id) && notice == ShowSuccess("Bookmark deleted successfully!")
    {
      if !confirmed {
        return false, Quiet;
      }
      requested := true;
      if reply.Failure? {
        notice := ShowError(DeleteFailed);
      } else {
        bookmarks := WithoutId(bookmarks, id);
        notice := ShowSuccess("Bookmark deleted successfully!");
      }
    }
  }

  /** A freshly loaded page: clicking one tag chip twice shows the whole
      list again. */
  method ToggleTwiceShowsAll(loaded: seq<ClientBookmark>, tag: string) returns (shown: seq<ClientBookmark>)
    ensures shown == loaded
  {
    var app := new App();
    var _ := app.LoadBookmarks(Success(loaded));
    app.ToggleTagFilter(tag);
    app.ToggleTagFilter(tag);
    ToggleTwice({}, tag);
    shown := app.Visible();
  }

  /** Edit an existing bookmark on a freshly loaded page (no filter set) and
      save it: the list keeps its length, the edited entry is replaced where
      it stood, and the message says the bookmark was updated. */
  method EditThenSave(loaded: seq<ClientBookmark>, k: nat, title: string, link: string,
                      saved: ClientBookmark) returns (shown: seq<ClientBookmark>, notice: Notice)
    requires k < |loaded| && forall j :: 0 <= j < k ==> loaded[j].id != loaded[k].id
    requires Trim(title) != [] && Trim(link) != []
    ensures shown == loaded[k := saved]
    ensures notice == ShowSuccess("Bookmark updated successfully!")
  {
    var app := new App();
    var _ := app.LoadBookmarks(Success(loaded));
    FindFirstWithId(loaded, k);
    app.EditBookmark(loaded[k].id);
    assert app.editingBookmark == Some(loaded[k]);
    var request;
    request, notice := app.SubmitForm(title, link, "", Success(saved), Failure("offline"));
    assert app.bookmarks == AfterSave(loaded, Some(loaded[k]), saved) == loaded[k := saved];
    shown := VisibleBookmarks(app.bookmarks, [], {});
  }

  /** The handler as written, on the same edit: the list is updated in place
      as for an edit, yet the message announces a creation. */
  method EditReportedAsCreated(loaded: seq<ClientBookmark>, k: nat, title: string, link: string,
                               saved: ClientBookmark) returns (shown: seq<ClientBookmark>, notice: Notice)
    requires k < |loaded| && forall j :: 0 <= j < k ==> loaded[j].id != loaded[k].id
    requires Trim(title) != [] && Trim(link) != []
    ensures shown == loaded[k := saved]
    ensures notice == ShowSuccess("Bookmark created successfully!")
    ensures notice != ShowSuccess(SaveNotice(true))
  {
    var app := new App();
    var _ := app.LoadBookmarks(Success(loaded));
    FindFirstWithId(loaded, k);
    app.EditBookmark(loaded[k].id);
    assert app.editingBookmark == Some(loaded[k]);
    var request;
    request, notice := app.SaveAsWritten(FormData(Trim(title), Trim(link), "", app.selectedTags), Success(saved), Failure("offline"));
    assert app.bookmarks == AfterSave(loaded, Some(loaded[k]), saved) == loaded[k := saved];
    shown := VisibleBookmarks(app.bookmarks, [], {});
  }

  /** Delete a bookmark on a freshly loaded page: no entry with its id is
      left on screen. */
  method DeleteThenShow(loaded: seq<ClientBookmark>, id: int) returns (shown: seq<ClientBookmark>)
    ensures forall i :: 0 <= i < |shown| ==> shown[i].id != id
    ensures forall j :: 0 <= j < |loaded| && loaded[j].id != id ==> loaded[j] in shown
    ensures forall b :: multiset(shown)[b] == if b.id != id then multiset(loaded)[b] else 0
  {
    var app := new App();
    var _ := app.LoadBookmarks(Success(loaded));
    var requested, notice := app.DeleteBookmark(id, true, Success(()));
    var left := app.bookmarks;
    assert left == WithoutId(loaded, id);
    shown := VisibleBookmarks(left, [], {});
  }
}
