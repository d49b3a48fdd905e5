/** The invoice card's download link and date label.  The locale date
    formatting is the parameter `render`. */
module InvoiceCard {
  import opened Common
  import opened StoredName
  import FixLocalPath

  const DefaultApiBase: string := "http://localhost:4000"
  const FilesRoute: string := "/uploads/vat_files/"
  const NoDate: string := "N/A"

  /** `getFileUrl`: no link for an empty `localPath`; otherwise the static
      files route followed by the last `/`-separated segment of the path. */
  function FileUrl(apiBase: string, localPath: string): (r: Option<string>)
    ensures r.None? <==> localPath == ""
    ensures r.Some? ==> StartsWith(r.value, apiBase + FilesRoute)
    ensures r.Some? ==> EndsWith(localPath, r.value[|apiBase + FilesRoute|..])
    ensures r.Some? ==> NoneIn(r.value[|apiBase + FilesRoute|..], {'/'})
  {
    if localPath == "" then None
    else
      var filename := LastSegment(localPath, {'/'});
      LastSegmentProperties(localPath, {'/'});
      assert (apiBase + FilesRoute + filename)[|apiBase + FilesRoute|..] == filename;
      Some(apiBase + FilesRoute + filename)
  }

  /** Any path ending in `/x`, with `x` free of `/`, links to `x`. */
  lemma FileUrlOfLastSegment(apiBase: string, pre: string, x: string)
    requires NoneIn(x, {'/'})
    ensures FileUrl(apiBase, pre + "/" + x) == Some(apiBase + FilesRoute + x)
  {
    assert pre + "/" + x == pre + ['/'] + x;
    LastSegmentAfter(pre, '/', x, {'/'});
  }

  /** A path under the upload directory links to the same file as its bare
      name. */
  lemma PrefixedPathSameUrl(apiBase: string, x: string)
    requires x != ""
    ensures FileUrl(apiBase, "uploads/vat_files/" + x) == FileUrl(apiBase, x)
  {
    var tail := "vat_files" + ['/'] + x;
    assert "uploads/vat_files/" == "uploads" + ['/'] + "vat_files" + ['/'];
    assert "uploads/vat_files/" + x == "uploads" + ['/'] + tail;
    LastSegmentAfterFree("uploads", '/', tail, {'/'});
    LastSegmentAfterFree("vat_files", '/', x, {'/'});
  }

  /** The path the server stores for an uploaded file links to that file,
      and so does what the path-fixing script turns it into. */
  lemma StoredPathLinksToFile(apiBase: string, name: string)
    requires name != "" && NoneIn(name, FixLocalPath.PathSeps)
    ensures FileUrl(apiBase, UploadPath(name)) == Some(apiBase + FilesRoute + name)
    ensures FileUrl(apiBase, FixLocalPath.Normalise(UploadPath(name))) == FileUrl(apiBase, UploadPath(name))
  {
    assert UploadPath(name) == "uploads/vat_files/" + name;
    PrefixedPathSameUrl(apiBase, name);
    assert NoneIn(name, {'/'});
    LastSegmentProperties(name, {'/'});
    assert UploadPath(name) == FixLocalPath.Prefix + name;
    FixLocalPath.NormalisePrefixed(name);
    FixLocalPath.NormaliseOfBare(name);
  }

  /** `formatDate`: "N/A" without a date, the locale rendering otherwise. */
  function FormatDate(date: Option<int>, render: int -> string): (r: string)
    ensures date.None? ==> r == NoDate
    ensures date.Some? ==> r == render(date.value)
  {
    match date
    case None => NoDate
    case Some(d) => render(d)
  }
}
