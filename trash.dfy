/** The trash controller (src/controllers/trash.controller.js): the trash
    listing, newest deletion first, and the restore and permanent-delete
    handlers. */
module Trash {
  import opened Common
  import opened Explorer
  import Sorting

  /** The comparator `(a, b) => new Date(b.deletedAt) - new Date(a.deletedAt)`
      read as "a may stay before b": a was deleted no earlier than b. */
  predicate NewerFirst(a: Listed, b: Listed)
  {
    a.entry.deletedAt >= b.entry.deletedAt
  }

  lemma NewerFirstTotalPreorder()
    ensures Sorting.TotalPreorder(NewerFirst)
  {
  }

  /** The rendered trash page: the flagged entries and the error line. */
  datatype TrashView = TrashView(files: seq<Listed>, error: Option<string>)

  /** Lines 11-52. */
  function GetTrashView(listing: Outcome<seq<FileEntry>>): (r: TrashView)
    ensures listing.Fail? ==> r == TrashView([], Some(StringOr(listing.error.message, "Failed to load trash")))
    ensures listing.Ok? ==>
              && r.error.None?
              && multiset(r.files) == multiset(FlagAll(listing.value))
              && Sorting.SortedBy(r.files, NewerFirst)
  {
    match listing
    case Fail(e) => TrashView([], Some(StringOr(e.message, "Failed to load trash")))
    case Ok(files) =>
      NewerFirstTotalPreorder();
      Sorting.SortBySorted(FlagAll(files), NewerFirst);
      TrashView(Sorting.SortBy(FlagAll(files), NewerFirst), None)
  }

  /** The listed entries are the trashed ones, each with its flags derived
      from its type, at most one flag set, newest deletion first. */
  lemma TrashListingShape(files: seq<FileEntry>)
    ensures var shown := GetTrashView(Ok(files)).files;
            && |shown| == |files|
            && (forall x :: x in shown <==> exists i :: 0 <= i < |files| && x == Flag(files[i]))
            && (forall x :: x in shown ==>
                  && x.isDirectory == (x.entry.kind == "directory")
                  && x.isFile == (x.entry.kind == "file")
                  && x.isSymlink == (x.entry.kind == "symlink"))
            && (forall x :: x in shown ==>
                  !(x.isDirectory && x.isFile) && !(x.isDirectory && x.isSymlink) && !(x.isFile && x.isSymlink))
            && (forall i, j :: 0 <= i < j < |shown| ==> shown[i].entry.deletedAt >= shown[j].entry.deletedAt)
  {
    var flagged := FlagAll(files);
    var shown := GetTrashView(Ok(files)).files;
    assert multiset(shown) == multiset(flagged);
    forall x ensures x in shown <==> exists i :: 0 <= i < |files| && x == Flag(files[i]) {
      assert x in shown <==> x in multiset(shown);
      assert x in flagged <==> x in multiset(flagged);
      if x in flagged {
        var i :| 0 <= i < |flagged| && flagged[i] == x;
        assert x == Flag(files[i]);
      }
      if exists i :: 0 <= i < |files| && x == Flag(files[i]) {
        var i :| 0 <= i < |files| && x == Flag(files[i]);
        assert flagged[i] == x;
      }
    }
    assert |shown| == |multiset(shown)| == |multiset(flagged)| == |flagged|;
  }

  /** `restoreFile` (lines 57-84) and `deleteFilePermanently` (lines 89-116):
      the one call a trash action makes. */
  datatype TrashCall = Restore(fileId: string) | DeleteForever(fileId: string)

  function RestoreFile(fileId: Option<string>, restored: Outcome<()>): (r: (seq<TrashCall>, Reply))
    ensures !Present(fileId) ==> r == ([], Reply(400, false, "File ID is required"))
    ensures Present(fileId) ==> r.0 == [Restore(fileId.value)]
    ensures Present(fileId) && restored.Ok? ==> r.1 == Reply(200, true, "File restored successfully")
    ensures Present(fileId) && restored.Fail? ==> r.1 == FailureReply(restored.error, "Failed to restore file")
  {
    if !Present(fileId) then ([], Reply(400, false, "File ID is required"))
    else
      match restored
      case Ok(_) => ([Restore(fileId.value)], Reply(200, true, "File restored successfully"))
      case Fail(e) => ([Restore(fileId.value)], FailureReply(e, "Failed to restore file"))
  }

  function DeleteFilePermanently(fileId: Option<string>, deleted: Outcome<()>): (r: (seq<TrashCall>, Reply))
    ensures !Present(fileId) ==> r == ([], Reply(400, false, "File ID is required"))
    ensures Present(fileId) ==> r.0 == [DeleteForever(fileId.value)]
    ensures Present(fileId) && deleted.Ok? ==> r.1 == Reply(200, true, "File permanently deleted")
    ensures Present(fileId) && deleted.Fail? ==> r.1 == FailureReply(deleted.error, "Failed to delete file")
  {
    if !Present(fileId) then ([], Reply(400, false, "File ID is required"))
    else
      match deleted
      case Ok(_) => ([DeleteForever(fileId.value)], Reply(200, true, "File permanently deleted"))
      case Fail(e) => ([DeleteForever(fileId.value)], FailureReply(e, "Failed to delete file"))
  }

  /** Either action succeeds exactly when the id is given and its call succeeded. */
  lemma TrashActionSucceedsIffCalled(fileId: Option<string>, o: Outcome<()>)
    ensures RestoreFile(fileId, o).1.success <==> Present(fileId) && o.Ok?
    ensures DeleteFilePermanently(fileId, o).1.success <==> Present(fileId) && o.Ok?
  {
  }
}
