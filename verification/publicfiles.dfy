/**
  The public file page: the list of files it shows and how a fetch, an upload
  and a delete change it.
 */
module PublicFiles {
  import opened Entities
  import opened Events
  import FileList

  const FetchFallback: string := "Failed to fetch files"

  /** The page's state: the files shown and whether a fetch is running. */
  datatype FilesPage = FilesPage(files: seq<FileMeta>, isLoading: bool)

  /** The page when first shown: no files yet, fetching. */
  function InitialFilesPage(): (p: FilesPage)
    ensures p.files == [] && p.isLoading
  {
    FilesPage([], true)
  }

  /** How `getPublicFiles` ended: the server's reply, or the HTTP client's error. */
  datatype FetchResponse =
    | FetchReplied(success: bool, data: seq<FileMeta>, message: Option<string>)
    | FetchFailed(error: string)

  /** The page after a fetch, and the notification shown. */
  datatype Fetched = Fetched(page: FilesPage, toast: Option<Toast>)

  /** `fetchFiles`: a successful reply replaces the list wholesale; any failure
      keeps the list and says why; loading ends either way. */
  function FetchFiles(p: FilesPage, resp: FetchResponse): (r: Fetched)
    ensures !r.page.isLoading
    ensures resp.FetchReplied? && resp.success ==> r.page.files == resp.data && r.toast.None?
    ensures resp.FetchReplied? && !resp.success ==>
      r.page.files == p.files && r.toast == Some(Toast(ErrorToast, "Failed to load files: " + OrElse(resp.message, FetchFallback)))
    ensures resp.FetchFailed? ==>
      r.page.files == p.files && r.toast == Some(Toast(ErrorToast, "Failed to load files: " + resp.error))
  {
    match resp
    case FetchReplied(success, data, message) =>
      if success then Fetched(FilesPage(data, false), None)
      else Fetched(FilesPage(p.files, false), Some(Toast(ErrorToast, "Failed to load files: " + OrElse(message, FetchFallback))))
    case FetchFailed(error) =>
      Fetched(FilesPage(p.files, false), Some(Toast(ErrorToast, "Failed to load files: " + error)))
  }

  /** A fetch's outcome does not depend on what was shown before, when it succeeds. */
  lemma FetchReplaces(p: FilesPage, q: FilesPage, data: seq<FileMeta>, message: Option<string>)
    ensures FetchFiles(p, FetchReplied(true, data, message)) == FetchFiles(q, FetchReplied(true, data, message))
  {
  }

  /** `handleUploadSuccess`: the new file is shown first. */
  function Upload(p: FilesPage, file: FileMeta): (r: FilesPage)
    ensures |r.files| == |p.files| + 1 && r.files[0] == file && r.files[1..] == p.files
    ensures r.isLoading == p.isLoading
  {
    p.(files := [file] + p.files)
  }

  /** The files whose public id differs from the deleted file's, in order. Two
      files without a public id count as having the same one. */
  function RemoveFile(files: seq<FileMeta>, deleted: FileMeta): (r: seq<FileMeta>)
    ensures |r| <= |files|
    ensures forall i :: 0 <= i < |r| ==> r[i].publicId != deleted.publicId
  {
    if files == [] then []
    else if files[0].publicId != deleted.publicId then [files[0]] + RemoveFile(files[1..], deleted)
    else RemoveFile(files[1..], deleted)
  }

  /** Every file with another public id is kept, as often as it was listed. */
  lemma {:induction false} RemoveFileKeepsOthers(files: seq<FileMeta>, deleted: FileMeta, f: FileMeta)
    requires f.publicId != deleted.publicId
    ensures multiset(RemoveFile(files, deleted))[f] == multiset(files)[f]
    decreases |files|
  {
    if files != [] {
      RemoveFileKeepsOthers(files[1..], deleted, f);
      assert files == [files[0]] + files[1..];
    }
  }

  /** Removing is done piecewise: the kept files stay in their order. */
  lemma {:induction false} RemoveFileAppend(a: seq<FileMeta>, b: seq<FileMeta>, deleted: FileMeta)
    ensures RemoveFile(a + b, deleted) == RemoveFile(a, deleted) + RemoveFile(b, deleted)
    decreases |a|
  {
    if a == [] {
      assert a + b == b;
    } else {
      assert (a + b)[0] == a[0];
      assert (a + b)[1..] == a[1..] + b;
      RemoveFileAppend(a[1..], b, deleted);
    }
  }

  /** No file of the list has this public id. */
  predicate Absent(files: seq<FileMeta>, publicId: Option<string>) {
    forall i :: 0 <= i < |files| ==> files[i].publicId != publicId
  }

  /** Removing a file whose id is not listed changes nothing. */
  lemma {:induction false} RemoveAbsentFile(files: seq<FileMeta>, deleted: FileMeta)
    requires Absent(files, deleted.publicId)
    ensures RemoveFile(files, deleted) == files
    decreases |files|
  {
    if files != [] {
      RemoveAbsentFile(files[1..], deleted);
    }
  }

  /** `handleDelete`: every file with the deleted file's public id leaves the
      list, the others stay, and the loading flag is untouched. */
  function Delete(p: FilesPage, deleted: FileMeta): (r: FilesPage)
    ensures r.files == RemoveFile(p.files, deleted) && r.isLoading == p.isLoading
    ensures Absent(r.files, deleted.publicId)
    ensures |r.files| <= |p.files|
  {
    p.(files := RemoveFile(p.files, deleted))
  }

  /** Deleting is idempotent. */
  lemma DeleteTwice(p: FilesPage, deleted: FileMeta)
    ensures Delete(Delete(p, deleted), deleted) == Delete(p, deleted)
  {
    RemoveAbsentFile(RemoveFile(p.files, deleted), deleted);
  }

  /** Uploading a file with a new public id and then deleting it gives back the
      page as it was. */
  lemma UploadThenDelete(p: FilesPage, file: FileMeta)
    requires Absent(p.files, file.publicId)
    ensures Delete(Upload(p, file), file) == p
  {
    RemoveFileAppend([file], p.files, file);
    RemoveAbsentFile(p.files, file);
  }

  /** A delete through the file table: the page drops the file only when the
      server confirmed it, and then no file with its public id is left. */
  lemma DeleteThroughTable(p: FilesPage, deleting: set<string>, file: FileMeta, resp: FileList.DeleteResponse)
    requires Truthy(file.publicId)
    ensures var start := FileList.BeginDelete(deleting, file);
      var end := FileList.FinishDelete(start.deleting, start.request.value, resp);
      var after := if end.removed then Delete(p, file) else p;
      && (end.removed <==> resp.DeleteReplied? && resp.success)
      && (end.removed ==> Absent(after.files, file.publicId))
      && (!end.removed ==> after == p)
  {
  }
}
