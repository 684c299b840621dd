/** The part of file upload that runs before the client is called: the
    file's name and its MIME type, found from the lower-cased extension. */
module FileUpload {
  import opened Values
  import opened Text

  /** `Path(p).name`: the last component, ignoring empty and `.` components. */
  function PathName(path: string): (r: string)
    ensures '/' !in r
  {
    var parts := Named(SplitOn(path, '/'));
    if parts == [] then "" else parts[|parts| - 1]
  }

  function Named(parts: seq<string>): (r: seq<string>)
    ensures forall i :: 0 <= i < |r| ==> r[i] in parts
    decreases |parts|
  {
    if parts == [] then []
    else (if parts[0] == "" || parts[0] == "." then [] else [parts[0]]) + Named(parts[1..])
  }

  /** The index of the last `.` in `s`, or -1 (`str.rfind`). */
  function LastDot(s: string): (r: int)
    ensures -1 <= r < |s|
    ensures r >= 0 ==> s[r] == '.' && forall k :: r < k < |s| ==> s[k] != '.'
    ensures r == -1 ==> '.' !in s
    decreases |s|
  {
    if s == [] then -1
    else if s[|s| - 1] == '.' then |s| - 1
    else LastDot(s[..|s| - 1])
  }

  /** `Path(p).suffix`: from the last dot of the name, unless that dot
      starts or ends the name. */
  function Suffix(path: string): (r: string)
    ensures r == "" || (r[0] == '.' && '.' !in r[1..] && |r| >= 2)
  {
    var name := PathName(path);
    var i := LastDot(name);
    if 0 < i < |name| - 1 then
      assert forall k :: 0 <= k < |name[i..][1..]| ==> name[i..][1..][k] == name[i + 1 + k];
      name[i..]
    else ""
  }

  const MimeTypes: map<string, string> := map[
    ".pdf" := "application/pdf",
    ".txt" := "text/plain",
    ".md" := "text/plain",
    ".py" := "text/plain",
    ".js" := "text/plain",
    ".html" := "text/plain",
    ".css" := "text/plain",
    ".csv" := "text/csv",
    ".json" := "application/json",
    ".xml" := "application/xml",
    ".xlsx" := "application/vnd.openxmlformats-officedocument.spreadsheetml.sheet",
    ".xls" := "application/vnd.ms-excel",
    ".jpeg" := "image/jpeg",
    ".jpg" := "image/jpeg",
    ".png" := "image/png",
    ".gif" := "image/gif",
    ".webp" := "image/webp"
  ]

  /** What `upload` hands to the client: the file's name and MIME type. An
      extension not in the table (the empty one included) is a ValueError,
      raised before the file is opened. */
  function UploadTarget(path: string): (r: Result<(string, string)>)
    ensures r.Err? <==> Lower(Suffix(path)) !in MimeTypes
    ensures r.Err? ==> r.error == ValueError
    ensures r.Ok? ==> r.value == (PathName(path), MimeTypes[Lower(Suffix(path))])
  {
    var extension := Lower(Suffix(path));
    if extension !in MimeTypes then Err(ValueError) else Ok((PathName(path), MimeTypes[extension]))
  }

  /** A path without an extension cannot be uploaded. */
  lemma NoExtensionRejected(path: string)
    requires Suffix(path) == ""
    ensures UploadTarget(path) == Err(ValueError)
  {
    assert Lower("") == "";
    assert "" !in MimeTypes;
  }
}
