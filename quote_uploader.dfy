/**
 * The quote uploader's file list (src/components/quotes/QuoteUploader.tsx):
 * adding dropped files, removing one, and the upload run that sends each
 * file not yet complete to the upload route and then creates a pending quote
 * from its text, recording each file's status as it goes.
 */
module QuoteUploader {

  import opened Wrappers
  import opened Text
  import opened Js

  /** A selected file: its name and its MIME type. */
  datatype FileInfo = FileInfo(name: string, mimeType: string)

  datatype Status = Pending | Uploading | Complete | Failed

  /** One list entry; `error` is the message of its last failure, kept across later attempts. */
  datatype Entry = Entry(file: FileInfo, status: Status, error: Option<string>)

  /** The MIME types the uploader accepts: PDF, xlsx and xls. */
  predicate Accepted(file: FileInfo) {
    file.mimeType in ["application/pdf", "application/vnd.openxmlformats-officedocument.spreadsheetml.sheet", "application/vnd.ms-excel"]
  }

  /** `selectedFiles.filter(...)`, each wrapped as a pending entry. */
  function NewEntries(selected: seq<FileInfo>): (r: seq<Entry>)
    ensures |r| <= |selected|
    ensures forall e :: e in r ==> e.status == Pending && e.error.None? && Accepted(e.file) && e.file in selected
    ensures forall f :: f in selected && Accepted(f) ==> Entry(f, Pending, None) in r
  {
    if |selected| == 0 then []
    else
      var init := NewEntries(selected[..|selected| - 1]);
      var last := selected[|selected| - 1];
      assert forall f :: f in selected <==> f in selected[..|selected| - 1] || f == last;
      if Accepted(last) then init + [Entry(last, Pending, None)] else init
  }

  /** One dropped batch after another gives the entries of both, in order. */
  lemma {:induction false} NewEntriesAppend(a: seq<FileInfo>, b: seq<FileInfo>)
    ensures NewEntries(a + b) == NewEntries(a) + NewEntries(b)
    decreases |b|
  {
    if |b| == 0 {
      assert a + b == a;
    } else {
      var b' := b[..|b| - 1];
      assert (a + b)[..|a + b| - 1] == a + b';
      assert (a + b)[|a + b| - 1] == b[|b| - 1];
      NewEntriesAppend(a, b');
    }
  }

  /**
   * The supplier name taken from a file name: `name.replace(/\.[^/.]+$/, '')`
   * removes a final dot and the non-empty run after it that holds no '/' or '.'.
   */
  function FilenameStem(name: string): (stem: string)
    ensures StartsWith(name, stem)
    ensures stem == name || exists ext :: name == stem + "." + ext && ext != [] && forall j :: 0 <= j < |ext| ==> ext[j] != '.' && ext[j] != '/'
  {
    match LastIndexOf(name, '.')
    case None => name
    case Some(k) =>
      var ext := name[k + 1..];
      if ext != [] && forall j :: 0 <= j < |ext| ==> ext[j] != '/' then
        assert name == name[..k] + "." + ext;
        name[..k]
      else name
  }

  /** The stem is shorter exactly when the name ends in such an extension. */
  lemma StemCases(name: string)
    ensures FilenameStem(name) != name <==>
      exists k :: 0 <= k < |name| - 1 && name[k] == '.' && forall j :: k < j < |name| ==> name[j] != '.' && name[j] != '/'
  {
    if FilenameStem(name) != name {
      var k := LastIndexOf(name, '.').value;
      assert forall j :: k < j < |name| ==> name[k + 1..][j - k - 1] == name[j];
    }
    if exists k :: 0 <= k < |name| - 1 && name[k] == '.' && forall j :: k < j < |name| ==> name[j] != '.' && name[j] != '/' {
      var k :| 0 <= k < |name| - 1 && name[k] == '.' && forall j :: k < j < |name| ==> name[j] != '.' && name[j] != '/';
      assert LastIndexOf(name, '.') == Some(k);
      var ext := name[k + 1..];
      assert forall j :: 0 <= j < |ext| ==> ext[j] == name[k + 1 + j];
    }
  }

  /** Only the last extension goes, and names without one, or ending in a dot, stay as they are. */
  lemma StemExamples()
    ensures FilenameStem("a.b.pdf") == "a.b"
    ensures FilenameStem("offert") == "offert"
    ensures FilenameStem("offert.") == "offert."
    ensures FilenameStem("v1.2/offert") == "v1.2/offert"
  {
    assert "a.b.pdf"[3] == '.' && "a.b.pdf"[4..] == "pdf";
    assert LastIndexOf("a.b.pdf", '.') == Some(3);
    assert "a.b.pdf"[..3] == "a.b";
    assert LastIndexOf("offert", '.') == None;
    assert LastIndexOf("offert.", '.') == Some(6);
    assert "v1.2/offert"[2] == '.';
    assert LastIndexOf("v1.2/offert", '.') == Some(2);
    assert "v1.2/offert"[3..][1] == '/';
  }

  /** How a `fetch` ends: an OK response with its JSON, another response with its JSON, or an exception. */
  datatype Reply = Answered(body: Value) | Refused(body: Value) | Threw(thrown: Thrown)

  /** `new Error(data.error || fallback)`; reading `error` of a `null` body throws instead. */
  function RefusalError(body: Value, fallback: string): Thrown {
    match Read(body, "error")
    case Failure(e) => e
    case Success(v) => ErrorInstance(ToJsString(Or(v, Str(fallback))))
  }

  /** The quote created for an uploaded file: the category, the stem as supplier, the text, status 'pending'. */
  function QuoteBody(categoryId: string, file: FileInfo, extractedText: Value): (r: Row)
    ensures Col(r, "status") == Str("pending")
    ensures Col(r, "supplier_name") == Str(FilenameStem(file.name))
    ensures Col(r, "extracted_text") == extractedText && Col(r, "category_id") == Str(categoryId)
  {
    map["category_id" := Str(categoryId), "supplier_name" := Str(FilenameStem(file.name)),
        "extracted_text" := extractedText, "status" := Str("pending")]
  }

  /**
   * The services one run talks to: the upload route's reply for the entry at
   * an index, and the quotes route's reply to a created quote.
   */
  datatype Services = Services(upload: nat -> Reply, create: (nat, Row) -> Reply)

  /** One entry's attempt: `None` when both requests succeed, else what was thrown. */
  function Attempt(categoryId: string, i: nat, file: FileInfo, services: Services): (r: Option<Thrown>)
    ensures services.upload(i).Threw? ==> r == Some(services.upload(i).thrown)
    ensures services.upload(i).Refused? ==> r == Some(RefusalError(services.upload(i).body, "Kunde inte ladda upp filen"))
    ensures r.None? ==>
      services.upload(i).Answered? && !IsNullish(services.upload(i).body)
      && services.create(i, QuoteBody(categoryId, file, Get(services.upload(i).body, "extractedText"))).Answered?
  {
    match services.upload(i)
    case Threw(t) => Some(t)
    case Refused(body) => Some(RefusalError(body, "Kunde inte ladda upp filen"))
    case Answered(body) =>
      match Read(body, "extractedText")
      case Failure(e) => Some(e)
      case Success(text) =>
        match services.create(i, QuoteBody(categoryId, file, text))
        case Threw(t) => Some(t)
        case Refused(b) => Some(RefusalError(b, "Kunde inte spara offerten"))
        case Answered(_) => None
  }

  /** The message an entry shows: an `Error`'s message, or 'Något gick fel'. */
  function FailureMessage(t: Thrown): string {
    match t
    case ErrorInstance(m) => m
    case Raised(_) => "Något gick fel"
  }

  /** An entry after the run: complete ones untouched, the others complete or failed with a message. */
  function Settled(e: Entry, categoryId: string, i: nat, services: Services): (r: Entry)
    ensures r.file == e.file
    ensures e.status == Complete ==> r == e
    ensures e.status != Complete ==> (r.status == Complete <==> Attempt(categoryId, i, e.file, services).None?)
    ensures e.status != Complete ==> r.status in {Complete, Failed}
  {
    if e.status == Complete then e
    else
      match Attempt(categoryId, i, e.file, services)
      case None => e.(status := Complete)
      case Some(t) => e.(status := Failed, error := Some(FailureMessage(t)))
  }

  /** The entry at `i` is attempted by this run and both of its requests succeed. */
  predicate Succeeds(e: Entry, categoryId: string, i: nat, services: Services) {
    e.status != Complete && Attempt(categoryId, i, e.file, services).None?
  }

  /** How many of the first `n` entries this run brought to 'complete'. */
  function Succeeded(entries: seq<Entry>, n: nat, categoryId: string, services: Services): (c: nat)
    requires n <= |entries|
    ensures c <= n
  {
    if n == 0 then 0
    else
      Succeeded(entries, n - 1, categoryId, services)
        + (if Succeeds(entries[n - 1], categoryId, n - 1, services) then 1 else 0)
  }

  /** How many of the first `n` entries were already complete. */
  function CompleteBefore(entries: seq<Entry>, n: nat): (c: nat)
    requires n <= |entries|
    ensures c <= n
  {
    if n == 0 then 0 else CompleteBefore(entries, n - 1) + (if entries[n - 1].status == Complete then 1 else 0)
  }

  /** Successes never exceed the entries that were not complete yet. */
  lemma {:induction false} SucceededBound(entries: seq<Entry>, n: nat, categoryId: string, services: Services)
    requires n <= |entries|
    ensures Succeeded(entries, n, categoryId, services) + CompleteBefore(entries, n) <= n
    decreases n
  {
    if n > 0 {
      SucceededBound(entries, n - 1, categoryId, services);
    }
  }

  /** A list with an entry complete before the run is never cleared by it. */
  lemma RetryNeverClears(entries: seq<Entry>, categoryId: string, services: Services, j: nat)
    requires j < |entries| && entries[j].status == Complete
    ensures Succeeded(entries, |entries|, categoryId, services) < |entries|
  {
    CompleteMeansCounted(entries, |entries|, j);
    SucceededBound(entries, |entries|, categoryId, services);
  }

  lemma {:induction false} CompleteMeansCounted(entries: seq<Entry>, n: nat, j: nat)
    requires j < n <= |entries| && entries[j].status == Complete
    ensures CompleteBefore(entries, n) >= 1
    decreases n
  {
    if j < n - 1 {
      CompleteMeansCounted(entries, n - 1, j);
    }
  }

  class Uploader {
    var files: seq<Entry>
    var isUploading: bool

    constructor ()
      ensures files == [] && !isUploading
    {
      files := [];
      isUploading := false;
    }

    /** `handleFiles`: the accepted files are appended as pending, after the existing entries. */
    method HandleFiles(selected: seq<FileInfo>)
      modifies this
      ensures files == old(files) + NewEntries(selected)
      ensures isUploading == old(isUploading)
    {
      files := files + NewEntries(selected);
    }

    /** `removeFile`: only the entry at `index` goes; an index outside the list removes nothing. */
    method RemoveFile(index: int)
      modifies this
      ensures 0 <= index < |old(files)| ==> files == old(files)[..index] + old(files)[index + 1..]
      ensures !(0 <= index < |old(files)|) ==> files == old(files)
      ensures isUploading == old(isUploading)
    {
      if 0 <= index < |files| {
        files := files[..index] + files[index + 1..];
      }
    }

    /**
     * One pass of the loop body: an entry not yet complete is marked
     * uploading, then complete or failed with the attempt's message.
     */
    method UploadOne(i: nat, categoryId: string, services: Services) returns (completed: bool)
      requires i < |files|
      modifies this
      ensures files == old(files)[i := Settled(old(files)[i], categoryId, i, services)]
      ensures completed <==> Succeeds(old(files)[i], categoryId, i, services)
      ensures isUploading == old(isUploading)
    {
      var item := files[i];
      if item.status == Complete {
        return false;
      }
      files := files[i := item.(status := Uploading)];
      var outcome := Attempt(categoryId, i, item.file, services);
      match outcome {
        case None =>
          files := files[i := files[i].(status := Complete)];
          completed := true;
        case Some(t) =>
          files := files[i := files[i].(status := Failed, error := Some(FailureMessage(t)))];
          completed := false;
      }
    }

    /**
     * `uploadAllFiles`: every entry not yet complete is marked uploading and
     * then complete or failed; `successCount` counts the completions of this
     * run, and the list is cleared when that count is the whole list.
     */
    method UploadAll(categoryId: string, services: Services) returns (successCount: nat, cleared: bool)
      modifies this
      ensures old(files) == [] ==> files == [] && successCount == 0 && !cleared && isUploading == old(isUploading)
      ensures old(files) != [] ==> !isUploading
      ensures successCount == Succeeded(old(files), |old(files)|, categoryId, services)
      ensures cleared <==> old(files) != [] && successCount == |old(files)|
      ensures cleared ==> files == []
      ensures !cleared && old(files) != [] ==>
        |files| == |old(files)|
        && forall i :: 0 <= i < |files| ==> files[i] == Settled(old(files)[i], categoryId, i, services)
    {
      if |files| == 0 {
        return 0, false;
      }
      isUploading := true;
      successCount := 0;
      var i := 0;
      ghost var start := files;
      while i < |files|
        invariant |files| == |start| && 0 <= i <= |start|
        invariant forall j :: 0 <= j < i ==> files[j] == Settled(start[j], categoryId, j, services)
        invariant forall j :: i <= j < |files| ==> files[j] == start[j]
        invariant successCount == Succeeded(start, i, categoryId, services)
      {
        ghost var before := files;
        var completed := UploadOne(i, categoryId, services);
        assert before[i] == start[i];
        if completed {
          successCount := successCount + 1;
        }
        assert successCount == Succeeded(start, i + 1, categoryId, services);
        i := i + 1;
      }
      isUploading := false;
      cleared := successCount == |files|;
      if cleared {
        files := [];
      }
    }
  }
}
