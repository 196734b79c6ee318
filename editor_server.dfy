/** The editor's server side (src/controllers/editor.controller.js): opening a
    file in the editor, saving its content with an automatic version of the
    previous content, and replacing its tags. Each handler returns the remote
    calls it makes, in order, with the reply; the outcome of each call is a
    parameter. */
module EditorServer {
  import opened Common

  /** The remote calls of the editor handlers. */
  datatype EditorCall =
    | ReadFile(fileId: string)
    | CreateVersion(fileId: string, content: Option<string>)
    | WriteContent(fileId: string, content: Option<string>)
    | WriteRecord(fileId: string, entry: FileEntry)

  // ---------------------------------------------------------------------
  // getEditorView
  // ---------------------------------------------------------------------

  /** The rendered page: the editor with the file (its tags defaulted) and the
      preview, or the error page with a status. */
  datatype EditorView =
    | EditorPage(title: string, file: FileEntry, preview: string)
    | ErrorPage(status: int, message: string)

  /** Lines 13-67. `render` is the markdown renderer. */
  function GetEditorView(fileId: Option<string>, read: Outcome<FileEntry>, render: string -> string): (r: (seq<EditorCall>, EditorView))
    ensures !Present(fileId) ==> r == ([], ErrorPage(400, "File ID is required"))
    ensures Present(fileId) ==> r.0 == [ReadFile(fileId.value)]
    ensures r.1.EditorPage? <==> Present(fileId) && read.Ok? && read.value.kind == "file"
    ensures Present(fileId) && read.Ok? && read.value.kind != "file" ==>
              r.1 == ErrorPage(400, "Only text files can be edited")
    ensures Present(fileId) && read.Fail? ==>
              r.1 == ErrorPage(StatusOr500(read.error), StringOr(read.error.message, "Failed to load file"))
    ensures r.1.EditorPage? ==>
              && r.1.title == "BDPADrive - Editor - " + read.value.name
              && r.1.file.tags.Some?
              && (read.value.tags.Some? ==> r.1.file.tags == read.value.tags)
              && (read.value.tags.None? ==> r.1.file.tags == Some([]))
              && r.1.file == read.value.(tags := r.1.file.tags)
              && r.1.preview == render(StringOr(read.value.content, ""))
  {
    if !Present(fileId) then ([], ErrorPage(400, "File ID is required"))
    else
      var calls := [ReadFile(fileId.value)];
      match read
      case Fail(e) => (calls, ErrorPage(StatusOr500(e), StringOr(e.message, "Failed to load file")))
      case Ok(stored) =>
        if stored.kind != "file" then (calls, ErrorPage(400, "Only text files can be edited"))
        else
          var tags := if stored.tags.Some? then stored.tags.value else [];
          (calls, EditorPage("BDPADrive - Editor - " + stored.name, stored.(tags := Some(tags)),
                             render(StringOr(stored.content, ""))))
  }

  // ---------------------------------------------------------------------
  // saveFile
  // ---------------------------------------------------------------------

  /** The JSON body of a save: `content` and `createVersion` as sent. */
  datatype SaveBody = SaveBody(content: Option<string>, createVersion: Option<Json>)

  /** Line 89: a version is wanted unless the client sent `createVersion: false`,
      and only when the content changed (`undefined` equals `undefined`). */
  predicate SnapshotWanted(body: SaveBody, stored: Option<string>)
  {
    body.createVersion != Some(JBool(false)) && stored != body.content
  }

  /** Lines 72-117. The outcome of the version call is read by nothing: its
      failure is logged and the write goes on. */
  function SaveFile(fileId: Option<string>, body: SaveBody, read: Outcome<FileEntry>,
                    snapshot: Outcome<()>, write: Outcome<()>): (r: (seq<EditorCall>, Reply))
    ensures !Present(fileId) ==> r == ([], Reply(400, false, "File ID is required"))
    ensures Present(fileId) && read.Fail? ==>
              r == ([ReadFile(fileId.value)], FailureReply(read.error, "Failed to save file"))
    ensures Present(fileId) && read.Ok? ==>
              && |r.0| == (if SnapshotWanted(body, read.value.content) then 3 else 2)
              && r.0[0] == ReadFile(fileId.value)
              && r.0[|r.0| - 1] == WriteContent(fileId.value, body.content)
              && (|r.0| == 3 ==> r.0[1] == CreateVersion(fileId.value, read.value.content))
              && r.1 == (if write.Ok? then Reply(200, true, "File saved successfully")
                         else FailureReply(write.error, "Failed to save file"))
  {
    if !Present(fileId) then ([], Reply(400, false, "File ID is required"))
    else
      var id := fileId.value;
      match read
      case Fail(e) => ([ReadFile(id)], FailureReply(e, "Failed to save file"))
      case Ok(stored) =>
        var version := if SnapshotWanted(body, stored.content) then [CreateVersion(id, stored.content)] else [];
        var calls := [ReadFile(id)] + version + [WriteContent(id, body.content)];
        match write
        case Ok(_) => (calls, Reply(200, true, "File saved successfully"))
        case Fail(e) => (calls, FailureReply(e, "Failed to save file"))
  }

  /** The number of content writes in a trace. */
  function Writes(calls: seq<EditorCall>): (n: nat)
    ensures n <= |calls|
  {
    if calls == [] then 0 else (if calls[0].WriteContent? then 1 else 0) + Writes(calls[1..])
  }

  /** The number of version calls in a trace. */
  function Versions(calls: seq<EditorCall>): (n: nat)
    ensures n <= |calls|
  {
    if calls == [] then 0 else (if calls[0].CreateVersion? then 1 else 0) + Versions(calls[1..])
  }

  /** A save that read the file writes exactly once, the submitted content,
      last; every version call carries the stored (old) content, and there is
      one exactly when the content changed and versions were not turned off. */
  lemma SaveWritesOnceAfterSnapshot(fileId: Option<string>, body: SaveBody, stored: FileEntry,
                                    snapshot: Outcome<()>, write: Outcome<()>)
    requires Present(fileId)
    ensures var calls := SaveFile(fileId, body, Ok(stored), snapshot, write).0;
            && Writes(calls) == 1
            && Versions(calls) == (if SnapshotWanted(body, stored.content) then 1 else 0)
            && (forall i :: 0 <= i < |calls| && calls[i].CreateVersion? ==> calls[i].content == stored.content)
            && (forall i :: 0 <= i < |calls| && calls[i].WriteContent? ==> calls[i].content == body.content && i == |calls| - 1)
  {
    var calls := SaveFile(fileId, body, Ok(stored), snapshot, write).0;
    var id := fileId.value;
    if SnapshotWanted(body, stored.content) {
      assert calls == [ReadFile(id), CreateVersion(id, stored.content), WriteContent(id, body.content)];
      assert calls[1..] == [CreateVersion(id, stored.content), WriteContent(id, body.content)];
      assert calls[1..][1..] == [WriteContent(id, body.content)];
      assert calls[1..][1..][1..] == [];
      assert Writes(calls[1..][1..]) == 1 && Versions(calls[1..][1..]) == 0;
      assert Writes(calls[1..]) == 1 && Versions(calls[1..]) == 1;
    } else {
      assert calls == [ReadFile(id), WriteContent(id, body.content)];
      assert calls[1..] == [WriteContent(id, body.content)];
      assert calls[1..][1..] == [];
      assert Writes(calls[1..]) == 1 && Versions(calls[1..]) == 0;
    }
  }

  /** A failed version call changes neither the calls made nor the reply. */
  lemma SnapshotFailureIgnored(fileId: Option<string>, body: SaveBody, read: Outcome<FileEntry>,
                               s1: Outcome<()>, s2: Outcome<()>, write: Outcome<()>)
    ensures SaveFile(fileId, body, read, s1, write) == SaveFile(fileId, body, read, s2, write)
  {
  }

  /** Saving the unchanged content makes no version, whatever `createVersion` says. */
  lemma UnchangedContentMakesNoVersion(fileId: Option<string>, body: SaveBody, stored: FileEntry,
                                       snapshot: Outcome<()>, write: Outcome<()>)
    requires Present(fileId) && stored.content == body.content
    ensures SaveFile(fileId, body, Ok(stored), snapshot, write).0 ==
            [ReadFile(fileId.value), WriteContent(fileId.value, body.content)]
  {
  }

  // ---------------------------------------------------------------------
  // updateFileTags
  // ---------------------------------------------------------------------

  /** `Array.isArray(tags) ? tags : []` */
  function TagList(tags: Option<Json>): (r: seq<Json>)
    ensures tags.Some? && tags.value.JArr? ==> r == tags.value.items
    ensures !(tags.Some? && tags.value.JArr?) ==> r == []
  {
    if tags.Some? && tags.value.JArr? then tags.value.items else []
  }

  /** Lines 147-181: the stored record is written back with only its tags replaced. */
  function UpdateFileTags(fileId: Option<string>, tags: Option<Json>, read: Outcome<FileEntry>,
                          write: Outcome<()>): (r: (seq<EditorCall>, Reply))
    ensures !Present(fileId) ==> r == ([], Reply(400, false, "File ID is required"))
    ensures Present(fileId) && read.Fail? ==>
              r == ([ReadFile(fileId.value)], FailureReply(read.error, "Failed to update tags"))
    ensures Present(fileId) && read.Ok? ==>
              && |r.0| == 2 && r.0[0] == ReadFile(fileId.value) && r.0[1].WriteRecord?
              && r.0[1].fileId == fileId.value
              && r.0[1].entry.tags == Some(TagList(tags))
              && r.0[1].entry.(tags := read.value.tags) == read.value
              && r.1 == (if write.Ok? then Reply(200, true, "Tags updated successfully")
                         else FailureReply(write.error, "Failed to update tags"))
  {
    if !Present(fileId) then ([], Reply(400, false, "File ID is required"))
    else
      var id := fileId.value;
      match read
      case Fail(e) => ([ReadFile(id)], FailureReply(e, "Failed to update tags"))
      case Ok(stored) =>
        var calls := [ReadFile(id), WriteRecord(id, stored.(tags := Some(TagList(tags))))];
        match write
        case Ok(_) => (calls, Reply(200, true, "Tags updated successfully"))
        case Fail(e) => (calls, FailureReply(e, "Failed to update tags"))
  }

  /** Writing the tags a record already has writes the record back unchanged. */
  lemma RetaggingIsIdentity(fileId: Option<string>, stored: FileEntry, write: Outcome<()>)
    requires Present(fileId) && stored.tags.Some?
    ensures UpdateFileTags(fileId, Some(JArr(stored.tags.value)), Ok(stored), write).0[1].entry == stored
  {
  }
}
