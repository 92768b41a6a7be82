/**
  The file table: the icon chosen for each file, and the delete button's
  bookkeeping (which files are being deleted, what the user is told, and when
  the page is asked to drop the file).
 */
module FileList {
  import opened Entities
  import opened JsString
  import opened Events

  /** The seven icons the table can show. */
  datatype Icon = ImageIcon | AudioIcon | VideoIcon | PdfIcon | ArchiveIcon | CodeIcon | GenericIcon

  /** The extensions of the archive pattern `\.(zip|rar|tar|gz|7z)$`. */
  const ArchiveExtensions: seq<string> := ["zip", "rar", "tar", "gz", "7z"]

  /** The extensions of the code pattern. */
  const CodeExtensions: seq<string> :=
    ["html", "css", "js", "jsx", "ts", "tsx", "json", "php", "py", "java", "c", "cpp", "h", "rb", "go", "rs", "swift"]

  /** The name ends with a dot and one of `exts`, ignoring ASCII case: what the
      case-insensitive, end-anchored pattern matches. */
  predicate HasExtension(name: string, exts: seq<string>) {
    exists i :: 0 <= i < |exts| && EndsWithIgnoreCase(name, "." + exts[i])
  }

  /** The mimetype starts with `prefix`; an absent or empty mimetype matches nothing. */
  predicate MimeStarts(mimetype: Option<string>, prefix: string) {
    Truthy(mimetype) && StartsWith(mimetype.value, prefix)
  }

  /** The mimetype mentions "pdf" anywhere. */
  predicate MimePdf(mimetype: Option<string>) {
    Truthy(mimetype) && Includes(mimetype.value, "pdf")
  }

  /** `getFileIcon(name, mimetype)`: the first rule that matches wins, the four
      mimetype rules before the two name rules. */
  function FileIcon(name: string, mimetype: Option<string>): (icon: Icon)
    ensures icon == ImageIcon <==> MimeStarts(mimetype, "image/")
    ensures icon == AudioIcon <==> !MimeStarts(mimetype, "image/") && MimeStarts(mimetype, "audio/")
    ensures icon == VideoIcon <==>
      !MimeStarts(mimetype, "image/") && !MimeStarts(mimetype, "audio/") && MimeStarts(mimetype, "video/")
    ensures icon == PdfIcon <==>
      && !MimeStarts(mimetype, "image/") && !MimeStarts(mimetype, "audio/") && !MimeStarts(mimetype, "video/")
      && MimePdf(mimetype)
    ensures icon in {ArchiveIcon, CodeIcon, GenericIcon} ==>
      && !MimeStarts(mimetype, "image/") && !MimeStarts(mimetype, "audio/") && !MimeStarts(mimetype, "video/")
      && !MimePdf(mimetype)
    ensures icon == ArchiveIcon ==> HasExtension(name, ArchiveExtensions)
    ensures icon == CodeIcon ==> HasExtension(name, CodeExtensions) && !HasExtension(name, ArchiveExtensions)
    ensures icon == GenericIcon ==> !HasExtension(name, CodeExtensions) && !HasExtension(name, ArchiveExtensions)
  {
    if MimeStarts(mimetype, "image/") then ImageIcon
    else if MimeStarts(mimetype, "audio/") then AudioIcon
    else if MimeStarts(mimetype, "video/") then VideoIcon
    else if MimePdf(mimetype) then PdfIcon
    else if HasExtension(name, ArchiveExtensions) then ArchiveIcon
    else if HasExtension(name, CodeExtensions) then CodeIcon
    else GenericIcon
  }

  /** Without a usable mimetype the icon depends on the name alone: absent and
      empty mimetypes give the same icon, one of the three name-based ones. */
  lemma MissingMimetypeUsesName(name: string)
    ensures FileIcon(name, None) == FileIcon(name, Some(""))
    ensures FileIcon(name, None) in {ArchiveIcon, CodeIcon, GenericIcon}
  {
  }

  /** Upper-casing the ASCII letters of a name. */
  function UpperName(name: string): (u: string)
    ensures |u| == |name|
    ensures forall i :: 0 <= i < |name| ==> u[i] == AsciiUpper(name[i])
  {
    if name == [] then [] else [AsciiUpper(name[0])] + UpperName(name[1..])
  }

  /** The name rules ignore ASCII case: "REPORT.ZIP" and "report.zip" get the
      same icon, whatever the mimetype. */
  lemma NameRulesIgnoreCase(name: string, mimetype: Option<string>)
    ensures FileIcon(UpperName(name), mimetype) == FileIcon(name, mimetype)
  {
    HasExtensionUpper(name, ArchiveExtensions);
    HasExtensionUpper(name, CodeExtensions);
  }

  /** Upper-casing the name does not change whether a name rule matches. */
  lemma HasExtensionUpper(name: string, exts: seq<string>)
    ensures HasExtension(UpperName(name), exts) <==> HasExtension(name, exts)
  {
    forall i | 0 <= i < |exts| {
      EndsWithUpper(name, "." + exts[i]);
    }
  }

  lemma EndsWithUpper(name: string, suffix: string)
    ensures EndsWithIgnoreCase(UpperName(name), suffix) <==> EndsWithIgnoreCase(name, suffix)
  {
    var u := UpperName(name);
    if |suffix| <= |name| {
      forall j | 0 <= j < |suffix|
        ensures SameIgnoringCase(u[|u| - |suffix| + j], suffix[j]) <==> SameIgnoringCase(name[|name| - |suffix| + j], suffix[j])
      {
        UpperIgnoringCase(name[|name| - |suffix| + j], suffix[j]);
      }
    }
  }

  lemma UpperIgnoringCase(c: char, d: char)
    ensures SameIgnoringCase(AsciiUpper(c), d) <==> SameIgnoringCase(c, d)
  {
  }

  /** The text has no dot. */
  predicate NoDot(s: string) {
    forall i :: 0 <= i < |s| ==> s[i] != '.'
  }

  /** The two texts are equal up to ASCII case. */
  predicate CaseEqual(a: string, b: string) {
    |a| == |b| && forall i :: 0 <= i < |a| ==> SameIgnoringCase(a[i], b[i])
  }

  /** What follows the last dot of a name, or `None` when it has no dot. */
  function Extension(name: string): (e: Option<string>)
    ensures e.None? <==> NoDot(name)
    ensures e.Some? ==> |e.value| < |name| && name[|name| - |e.value| - 1] == '.'
    ensures e.Some? ==> e.value == name[|name| - |e.value|..] && NoDot(e.value)
    decreases |name|
  {
    if name == [] then None
    else if name[|name| - 1] == '.' then Some([])
    else
      var init := name[..|name| - 1];
      match Extension(init)
      case None => None
      case Some(e) =>
        assert init[|init| - |e|..] + [name[|name| - 1]] == name[|name| - |e| - 1..];
        Some(e + [name[|name| - 1]])
  }

  /** A dot followed by dot-free text at the end of a name marks its extension. */
  lemma {:induction false} ExtensionAfterDot(name: string, k: nat)
    requires k < |name| && name[k] == '.' && NoDot(name[k + 1..])
    ensures Extension(name) == Some(name[k + 1..])
    decreases |name|
  {
    if k < |name| - 1 {
      var init := name[..|name| - 1];
      assert init[k + 1..] == name[k + 1..|name| - 1];
      ExtensionAfterDot(init, k);
      assert name[k + 1..] == init[k + 1..] + [name[|name| - 1]];
    }
  }

  /** A character that matches a dot ignoring case is a dot, and one that
      matches a non-dot is not. */
  lemma DotMatchesOnlyDot(c: char, d: char)
    requires SameIgnoringCase(c, d)
    ensures c == '.' <==> d == '.'
  {
  }

  lemma MatchGivesExtension(name: string, ext: string)
    requires NoDot(ext) && EndsWithIgnoreCase(name, "." + ext)
    ensures Extension(name) == Some(name[|name| - |ext|..])
    ensures CaseEqual(name[|name| - |ext|..], ext)
  {
    var suffix := "." + ext;
    var k := |name| - |suffix|;
    DotMatchesOnlyDot(name[k], suffix[0]);
    var e := name[k + 1..];
    forall i | 0 <= i < |e| ensures e[i] != '.' && SameIgnoringCase(e[i], ext[i]) {
      assert e[i] == name[k + 1 + i] && suffix[i + 1] == ext[i];
      DotMatchesOnlyDot(name[k + 1 + i], suffix[i + 1]);
    }
    ExtensionAfterDot(name, k);
  }

  lemma ExtensionGivesMatch(name: string, ext: string)
    requires Extension(name).Some? && CaseEqual(Extension(name).value, ext)
    ensures EndsWithIgnoreCase(name, "." + ext)
  {
    var suffix := "." + ext;
    var e := Extension(name).value;
    var k := |name| - |suffix|;
    forall i | 0 <= i < |suffix| ensures SameIgnoringCase(name[k + i], suffix[i]) {
      if i > 0 {
        assert name[k + i] == e[i - 1] && suffix[i] == ext[i - 1];
      }
    }
  }

  /** Matching `\.ext$` ignoring case is the same as having `ext`, up to case,
      as the text after the last dot. */
  lemma EndsWithExtensionIff(name: string, ext: string)
    requires NoDot(ext)
    ensures EndsWithIgnoreCase(name, "." + ext) <==> Extension(name).Some? && CaseEqual(Extension(name).value, ext)
  {
    if EndsWithIgnoreCase(name, "." + ext) {
      MatchGivesExtension(name, ext);
    }
    if Extension(name).Some? && CaseEqual(Extension(name).value, ext) {
      ExtensionGivesMatch(name, ext);
    }
  }

  /** No extension of either list contains a dot. */
  lemma ExtensionListsDotFree()
    ensures forall i :: 0 <= i < |ArchiveExtensions| ==> NoDot(ArchiveExtensions[i])
    ensures forall i :: 0 <= i < |CodeExtensions| ==> NoDot(CodeExtensions[i])
  {
  }

  /** The name rules, restated: a file is an archive or code file exactly when
      the text after its last dot is, up to case, one of the listed extensions. */
  lemma HasExtensionIff(name: string, exts: seq<string>)
    requires forall i :: 0 <= i < |exts| ==> NoDot(exts[i])
    ensures HasExtension(name, exts) <==>
      Extension(name).Some? && exists i :: 0 <= i < |exts| && CaseEqual(Extension(name).value, exts[i])
  {
    forall i | 0 <= i < |exts| {
      EndsWithExtensionIff(name, exts[i]);
    }
  }

  /** The dot is required: without a mimetype, a name with no dot at all —
      "zip" or "js" among them — gets the generic icon. */
  lemma ExtensionNeedsDot(name: string)
    requires NoDot(name)
    ensures FileIcon(name, None) == GenericIcon
  {
    ExtensionListsDotFree();
    HasExtensionIff(name, ArchiveExtensions);
    HasExtensionIff(name, CodeExtensions);
  }

  /** Without a mimetype, a name whose extension is none of the listed ones,
      up to case, gets the generic icon. */
  lemma UnlistedIsGeneric(name: string)
    requires Extension(name).Some?
    requires forall i :: 0 <= i < |ArchiveExtensions| ==> !CaseEqual(Extension(name).value, ArchiveExtensions[i])
    requires forall i :: 0 <= i < |CodeExtensions| ==> !CaseEqual(Extension(name).value, CodeExtensions[i])
    ensures FileIcon(name, None) == GenericIcon
  {
    ExtensionListsDotFree();
    HasExtensionIff(name, ArchiveExtensions);
    HasExtensionIff(name, CodeExtensions);
  }

  /** "txt" is not one of the listed extensions. */
  lemma TxtIsUnlisted()
    ensures forall i :: 0 <= i < |ArchiveExtensions| ==> !CaseEqual("txt", ArchiveExtensions[i])
    ensures forall i :: 0 <= i < |CodeExtensions| ==> !CaseEqual("txt", CodeExtensions[i])
  {
    var t := "txt";
    assert AsciiUpper(t[1]) == 'X';
    forall i | 0 <= i < |ArchiveExtensions| ensures !CaseEqual(t, ArchiveExtensions[i]) {
      var e := ArchiveExtensions[i];
      assert |e| != 3 || !SameIgnoringCase(t[1], e[1]);
    }
    forall i | 0 <= i < |CodeExtensions| ensures !CaseEqual(t, CodeExtensions[i]) {
      var e := CodeExtensions[i];
      assert |e| != 3 || !SameIgnoringCase(t[1], e[1]);
    }
  }

  /** The match is anchored at the end: "notes.zip.txt" is not an archive. */
  lemma ExtensionIsAtTheEnd()
    ensures FileIcon("notes.zip.txt", None) == GenericIcon
  {
    var name := "notes.zip.txt";
    ExtensionAfterDot(name, 9);
    assert Extension(name) == Some("txt");
    TxtIsUnlisted();
    UnlistedIsGeneric(name);
  }

  const MissingPublicId: string := "Cannot delete file: missing public ID"
  const Deleted: string := "File deleted successfully"
  const DeleteFailedFallback: string := "Failed to delete file"

  /** The id a delete request is sent for: the file's `publicId` when it is truthy. */
  function DeleteId(file: FileMeta): (id: Option<string>)
    ensures id.Some? <==> Truthy(file.publicId)
    ensures id.Some? ==> id.value == file.publicId.value
  {
    if Truthy(file.publicId) then file.publicId else None
  }

  /** The first half of `handleDelete`, up to the request. */
  datatype DeleteStart = DeleteStart(deleting: set<string>, request: Option<string>, toast: Option<Toast>)

  /** A file without a public id is refused with an error and nothing else
      happens; otherwise its id joins the set of files being deleted and the
      request for it goes out. */
  function BeginDelete(deleting: set<string>, file: FileMeta): (r: DeleteStart)
    ensures r.request == DeleteId(file)
    ensures r.request.None? ==> r.deleting == deleting && r.toast == Some(Toast(ErrorToast, MissingPublicId))
    ensures r.request.Some? ==> r.deleting == deleting + {r.request.value} && r.toast.None?
  {
    match DeleteId(file)
    case None => DeleteStart(deleting, None, Some(Toast(ErrorToast, MissingPublicId)))
    case Some(id) => DeleteStart(deleting + {id}, Some(id), None)
  }

  /** How the delete request ended: the server's reply, or an error thrown by
      the HTTP client with the reply's `message` if there was a reply. */
  datatype DeleteResponse =
    | DeleteReplied(success: bool, message: Option<string>)
    | DeleteFailed(replyMessage: Option<string>, errorMessage: string)

  /** The second half: the user's notification, whether `onDelete` is called,
      and the set of files being deleted once the `finally` block ran. */
  datatype DeleteEnd = DeleteEnd(deleting: set<string>, toast: Toast, removed: bool)

  /** The message shown after "Delete failed: ": a rejected reply's message is
      thrown as the error, so it reaches the user; a transport error shows the
      reply's message when there was one, else its own. */
  function FailureText(resp: DeleteResponse): string {
    match resp
    case DeleteReplied(_, message) => OrElse(message, DeleteFailedFallback)
    case DeleteFailed(replyMessage, errorMessage) => OrElse(replyMessage, errorMessage)
  }

  /** Success is reported, and the page told to drop the file, only on a reply
      with `success`; either way the id leaves the set and every other entry
      stays. */
  function FinishDelete(deleting: set<string>, id: string, resp: DeleteResponse): (r: DeleteEnd)
    ensures r.deleting == deleting - {id}
    ensures r.removed <==> resp.DeleteReplied? && resp.success
    ensures r.removed ==> r.toast == Toast(SuccessToast, Deleted)
    ensures !r.removed ==> r.toast == Toast(ErrorToast, "Delete failed: " + FailureText(resp))
  {
    if resp.DeleteReplied? && resp.success then DeleteEnd(deleting - {id}, Toast(SuccessToast, Deleted), true)
    else DeleteEnd(deleting - {id}, Toast(ErrorToast, "Delete failed: " + FailureText(resp)), false)
  }

  /** The delete button is disabled while the file's id is in the set; a file
      with no id never is. */
  predicate DeleteDisabled(deleting: set<string>, file: FileMeta)
    ensures deleting == {} ==> !DeleteDisabled(deleting, file)
    ensures Truthy(file.publicId) ==> (DeleteDisabled(deleting, file) <==> DeleteId(file).value in deleting)
  {
    file.publicId.Some? && file.publicId.value in deleting
  }

  /** A whole delete: while the request is out the file's button is disabled;
      afterwards the set is what it was before, on success and on failure. */
  lemma DeleteRestoresSet(deleting: set<string>, file: FileMeta, resp: DeleteResponse)
    requires Truthy(file.publicId) && file.publicId.value !in deleting
    ensures DeleteDisabled(BeginDelete(deleting, file).deleting, file)
    ensures FinishDelete(BeginDelete(deleting, file).deleting, file.publicId.value, resp).deleting == deleting
  {
  }
}
