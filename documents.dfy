// The single-document handlers: read (counts a view), download (counts a
// download), update, delete, upload and the summary with its model fallback.
module Documents {
  import opened Common
  import opened Text
  import opened Records
  import Search

  // ---------------------------------------------------------------------------
  // File type of an upload, from the extension of its original name
  // ---------------------------------------------------------------------------

  const ImageExtensions: seq<string> := [".jpg", ".jpeg", ".png", ".gif", ".bmp"]
  const TextExtensions: seq<string> := [".txt", ".doc", ".docx"]

  /** The position of the last `c` in `s`. */
  function LastIndexOf(s: string, c: char): (r: Option<nat>)
    ensures r.Some? ==> r.value < |s| && s[r.value] == c
    ensures r.Some? ==> forall j :: r.value < j < |s| ==> s[j] != c
    ensures r.None? ==> forall j :: 0 <= j < |s| ==> s[j] != c
  {
    if |s| == 0 then None
    else if s[|s| - 1] == c then Some(|s| - 1)
    else LastIndexOf(s[..|s| - 1], c)
  }

  /** The part of a name after its last '/'. */
  function BaseName(name: string): string {
    match LastIndexOf(name, '/')
    case None => name
    case Some(i) => name[i + 1..]
  }

  /**
   * `path.extname`: the base name from its last '.' on, or "" when the base
   * name has no '.', starts with its only dot-run's last dot, or is "..".
   */
  function ExtName(name: string): (r: string)
    ensures r == "" || (r[0] == '.' && forall j :: 0 < j < |r| ==> r[j] != '.' && r[j] != '/')
    ensures r != "" ==> |r| <= |name| && r == name[|name| - |r|..]
  {
    var b := BaseName(name);
    match LastIndexOf(b, '.')
    case None => ""
    case Some(i) => if i == 0 || b == ".." then "" else b[i..]
  }

  /** The `fileType` an upload is stored with. */
  function FileType(originalName: string): (t: string)
    ensures t == "image" || t == "text" || t == "pdf"
    ensures t == "image" <==> Lower(ExtName(originalName)) in ImageExtensions
    ensures t == "text" <==> Lower(ExtName(originalName)) in TextExtensions
  {
    var ext := Lower(ExtName(originalName));
    ExtensionListsDisjoint(ext);
    if ext in ImageExtensions then "image"
    else if ext in TextExtensions then "text"
    else "pdf"
  }

  /** No extension names both an image and a text file. */
  lemma ExtensionListsDisjoint(ext: string)
    ensures !(ext in ImageExtensions && ext in TextExtensions)
  {
    if ext in TextExtensions {
      assert ext[1] in "tdx" by {
        var i :| 0 <= i < |TextExtensions| && TextExtensions[i] == ext;
      }
      assert ext[1] !in "jpgb";
    }
  }

  lemma {:induction false} LowerPrefix(s: string, k: nat)
    requires k <= |s|
    ensures Lower(s)[..k] == Lower(s[..k])
    ensures Lower(s)[k..] == Lower(s[k..])
  {
  }

  lemma {:induction false} LastIndexOfLower(s: string, c: char)
    requires !('a' <= c <= 'z') && !('A' <= c <= 'Z')
    ensures LastIndexOf(Lower(s), c) == LastIndexOf(s, c)
    decreases |s|
  {
    if |s| > 0 {
      var n := |s| - 1;
      assert Lower(s)[n] == LowerChar(s[n]);
      assert LowerChar(s[n]) == c <==> s[n] == c;
      LowerPrefix(s, n);
      LastIndexOfLower(s[..n], c);
    }
  }

  lemma BaseNameLower(name: string)
    ensures BaseName(Lower(name)) == Lower(BaseName(name))
  {
    LastIndexOfLower(name, '/');
    match LastIndexOf(name, '/')
    case None =>
    case Some(i) => LowerPrefix(name, i + 1);
  }

  lemma ExtNameLower(name: string)
    ensures ExtName(Lower(name)) == Lower(ExtName(name))
  {
    BaseNameLower(name);
    var b := BaseName(name);
    LastIndexOfLower(b, '.');
    DotDotLower(b);
    match LastIndexOf(b, '.')
    case None =>
    case Some(i) => LowerPrefix(b, i);
  }

  lemma DotDotLower(b: string)
    ensures Lower(b) == ".." <==> b == ".."
  {
    if b == ".." { assert Lower(b) == [LowerChar('.'), LowerChar('.')]; }
    if Lower(b) == ".." { assert |b| == 2 && LowerChar(b[0]) == '.' && LowerChar(b[1]) == '.'; }
  }

  /** Characters after the last `c` do not move it. */
  lemma {:induction false} LastIndexOfAppend(s: string, t: string, c: char)
    requires forall j :: 0 <= j < |t| ==> t[j] != c
    ensures LastIndexOf(s + t, c) == LastIndexOf(s, c)
    decreases |t|
  {
    if t == [] {
      assert s + t == s;
    } else {
      var n := |s + t| - 1;
      assert (s + t)[..n] == s + t[..|t| - 1];
      LastIndexOfAppend(s, t[..|t| - 1], c);
    }
  }

  /** A dot inside the base name starts the extension: `extname("a/photo.JPG")` is ".JPG". */
  lemma ExtNameOf(stem: string, ext: string)
    requires stem != "" && stem[|stem| - 1] != '/'
    requires ext != "" && forall j :: 0 <= j < |ext| ==> ext[j] != '.' && ext[j] != '/'
    ensures ExtName(stem + "." + ext) == "." + ext
  {
    BaseNameKeepsTail(stem, ext);
    var p :| p != "" && BaseName(stem + "." + ext) == p + "." + ext;
    ExtOfBase(p, ext);
  }

  /** With no '/' after the stem, the base name is a non-empty part of the stem followed by the rest. */
  lemma BaseNameKeepsTail(stem: string, ext: string)
    requires stem != "" && stem[|stem| - 1] != '/'
    requires forall j :: 0 <= j < |ext| ==> ext[j] != '/'
    ensures exists p :: p != "" && BaseName(stem + "." + ext) == p + "." + ext
  {
    var name := stem + "." + ext;
    assert name == stem + ("." + ext);
    LastIndexOfAppend(stem, "." + ext, '/');
    match LastIndexOf(stem, '/')
    case None =>
      assert BaseName(name) == stem + "." + ext;
    case Some(k) =>
      assert BaseName(name) == stem[k + 1..] + "." + ext;
  }

  /** The last dot of `p + "." + ext` is the one before `ext`, and it is not leading. */
  lemma ExtOfBase(p: string, ext: string)
    requires p != ""
    requires ext != "" && forall j :: 0 <= j < |ext| ==> ext[j] != '.'
    ensures var b := p + "." + ext;
            LastIndexOf(b, '.') == Some(|p|) && b != ".." && b[|p|..] == "." + ext
  {
    LastIndexOfAppend(p + ".", ext, '.');
    assert LastIndexOf(p + ".", '.') == Some(|p|);
  }

  /** An upload named "photo.JPG" is stored as an image. */
  lemma PhotoIsImage()
    ensures FileType("photo" + "." + "JPG") == "image"
  {
    ExtNameOf("photo", "JPG");
    LowerJpg();
    assert ImageExtensions[0] == ".jpg";
  }

  lemma LowerJpg()
    ensures Lower(".JPG") == ".jpg"
  {
    assert Lower(".JPG") == [LowerChar('.'), LowerChar('J'), LowerChar('P'), LowerChar('G')];
  }

  /** The extension is matched without regard to ASCII case: "SCAN.PNG" is an image. */
  lemma FileTypeIgnoresCase(name: string)
    ensures FileType(Lower(name)) == FileType(name)
  {
    ExtNameLower(name);
    LowerIdempotent(ExtName(name));
  }

  // ---------------------------------------------------------------------------
  // Summary generation: try each model in turn
  // ---------------------------------------------------------------------------

  const Models: seq<string> := ["gemini-2.5-flash", "gemini-2.5-pro", "gemini-2.0-flash", "gemini-2.0-flash-lite"]

  /** What one call to a model gave: generated text, or an error with its message. */
  datatype Attempt = Generated(text: string) | Failed(message: string)

  /** Overload and rate-limit errors send the request on to the next model. */
  predicate Retryable(message: string) {
    Contains(message, "503") || Contains(message, "429") || Contains(message, "overload")
  }

  /** The error thrown once no model produced a summary. */
  function Exhausted(lastError: Option<string>): (r: Result<string>)
    ensures r.Err? && r.status == ServerError
  {
    var detail := if lastError.Some? && lastError.value != "" then lastError.value else "Unknown error";
    Err(ServerError, "All models failed. Last error: " + detail)
  }

  /**
   * The fallback chain over `models`, `lastError` being the message of the
   * last retryable failure so far: the first generated text ends the chain (an
   * empty one ends it without a summary), a retryable failure moves on, any
   * other failure is the answer.
   */
  function Fallback(models: seq<string>, attempt: string -> Attempt, lastError: Option<string>): (r: Result<string>)
    ensures r.Ok? ==> r.value != ""
    ensures r.Err? ==> r.status == ServerError
  {
    if models == [] then Exhausted(lastError)
    else match attempt(models[0])
      case Generated(t) => if t != "" then Ok(t) else Exhausted(lastError)
      case Failed(m) => if Retryable(m) then Fallback(models[1..], attempt, Some(m)) else Err(ServerError, m)
  }

  /** Model `k` is the first one that does not fail retryably, and it generates text. */
  predicate FirstUsable(models: seq<string>, attempt: string -> Attempt, k: int) {
    && 0 <= k < |models|
    && attempt(models[k]).Generated? && attempt(models[k]).text != ""
    && forall j :: 0 <= j < k ==> attempt(models[j]).Failed? && Retryable(attempt(models[j]).message)
  }

  /** When some model is the first usable one, its text is the summary. */
  lemma {:induction false} FallbackPicksFirstUsable(models: seq<string>, attempt: string -> Attempt,
                                                    lastError: Option<string>, k: int)
    requires FirstUsable(models, attempt, k)
    ensures Fallback(models, attempt, lastError) == Ok(attempt(models[k]).text)
    decreases k
  {
    if k > 0 {
      assert attempt(models[0]).Failed? && Retryable(attempt(models[0]).message);
      assert FirstUsable(models[1..], attempt, k - 1) by {
        forall j | 0 <= j < k - 1
          ensures attempt(models[1..][j]).Failed? && Retryable(attempt(models[1..][j]).message)
        {
          assert models[1..][j] == models[j + 1];
        }
      }
      FallbackPicksFirstUsable(models[1..], attempt, Some(attempt(models[0]).message), k - 1);
    }
  }

  /** A summary is produced only when some model is the first usable one. */
  lemma {:induction false} FallbackNeedsUsable(models: seq<string>, attempt: string -> Attempt,
                                               lastError: Option<string>) returns (k: int)
    requires Fallback(models, attempt, lastError).Ok?
    ensures FirstUsable(models, attempt, k)
    ensures Fallback(models, attempt, lastError).value == attempt(models[k]).text
    decreases |models|
  {
    if attempt(models[0]).Generated? {
      k := 0;
    } else {
      var k' := FallbackNeedsUsable(models[1..], attempt, Some(attempt(models[0]).message));
      k := k' + 1;
      forall j | 0 <= j < k
        ensures attempt(models[j]).Failed? && Retryable(attempt(models[j]).message)
      {
        if j > 0 { assert models[j] == models[1..][j - 1]; }
      }
    }
  }

  /** Failing only retryably on every model reports the last model's error. */
  lemma {:induction false} AllOverloaded(models: seq<string>, attempt: string -> Attempt, lastError: Option<string>)
    requires models != []
    requires forall j :: 0 <= j < |models| ==> attempt(models[j]).Failed? && Retryable(attempt(models[j]).message)
    ensures Fallback(models, attempt, lastError)
            == Exhausted(Some(attempt(models[|models| - 1]).message))
    decreases |models|
  {
    assert attempt(models[0]).Failed?;
    if |models| > 1 {
      forall j | 0 <= j < |models[1..]|
        ensures attempt(models[1..][j]).Failed? && Retryable(attempt(models[1..][j]).message)
      {
        assert models[1..][j] == models[j + 1];
      }
      AllOverloaded(models[1..], attempt, Some(attempt(models[0]).message));
      assert models[1..][|models[1..]| - 1] == models[|models| - 1];
    }
  }

  /** The model loop of the summary handler. */
  method TryModels(attempt: string -> Attempt) returns (r: Result<string>)
    ensures r == Fallback(Models, attempt, None)
  {
    var summary := "";
    var lastError: Option<string> := None;
    var i := 0;
    while i < |Models|
      invariant 0 <= i <= |Models| && summary == ""
      invariant Fallback(Models, attempt, None) == Fallback(Models[i..], attempt, lastError)
      decreases |Models| - i
    {
      match attempt(Models[i]) {
        case Generated(t) =>
          summary := t;
          break;
        case Failed(m) =>
          lastError := Some(m);
          if !Retryable(m) {
            return Err(ServerError, m);
          }
          assert Models[i..][1..] == Models[i + 1..];
      }
      i := i + 1;
    }
    if summary == "" {
      r := Exhausted(lastError);
    } else {
      r := Ok(summary);
    }
  }

  // ---------------------------------------------------------------------------
  // Update, delete and upload as transitions of the collection
  // ---------------------------------------------------------------------------

  /** The answer of a handler together with the collection it leaves behind. */
  datatype Answer<T> = Answer(result: Result<T>, docs: map<Id, Document>)

  /** Every stored document is filed under its own id and passes validation. */
  ghost predicate Consistent(docs: map<Id, Document>) {
    forall id :: id in docs ==> docs[id].id == id && StoredDocument(docs[id])
  }

  /** The body of an update request; each text field applies only when truthy. */
  datatype Changes = Changes(title: Option<string>, description: Option<string>,
                             category: Option<Id>, tags: Option<seq<Id>>, notes: Option<string>)

  /** The record after the assignments of an update; a title goes through the trim setter. */
  function Apply(d: Document, c: Changes): (r: Document)
    ensures r.id == d.id && r.uploadedBy == d.uploadedBy && r.fileUrl == d.fileUrl
    ensures r.views == d.views && r.downloads == d.downloads && r.isPublic == d.isPublic
    ensures r.summary == d.summary && r.folder == d.folder && r.fileName == d.fileName
    ensures r.title == (if Truthy(c.title) then Trim(c.title.value) else d.title)
    ensures r.notes == (if Truthy(c.notes) then c.notes.value else d.notes)
    ensures r.description == (if Truthy(c.description) then c.description.value else d.description)
    ensures r.category == c.category.GetOr(d.category) && r.tags == c.tags.GetOr(d.tags)
  {
    d.(title := if Truthy(c.title) then Trim(c.title.value) else d.title,
       description := if Truthy(c.description) then c.description.value else d.description,
       category := c.category.GetOr(d.category),
       tags := c.tags.GetOr(d.tags),
       notes := if Truthy(c.notes) then c.notes.value else d.notes)
  }

  lemma ApplyKeepsTitleTrimmed(d: Document, c: Changes)
    requires Trim(d.title) == d.title
    ensures Trim(Apply(d, c).title) == Apply(d, c).title
  {
    if Truthy(c.title) {
      TrimIdempotent(c.title.value);
    }
  }

  /** `updateDocument`: only the uploader may change a document. */
  function Updated(docs: map<Id, Document>, caller: Id, id: Id, c: Changes): (r: Answer<Document>)
    requires Consistent(docs)
    ensures id !in docs ==> r.result == Err(NotFound, "Document not found")
    ensures id in docs && docs[id].uploadedBy != caller ==>
              r.result == Err(Forbidden, "You do not have permission to update this document")
    ensures r.result.Ok? <==> id in docs && docs[id].uploadedBy == caller
                              && !(Truthy(c.title) && Trim(c.title.value) == "")
    ensures r.result.Err? ==> r.docs == docs
    ensures r.result.Ok? ==> r.result.value == Apply(docs[id], c) && r.docs == docs[id := r.result.value]
    ensures r.docs.Keys == docs.Keys
    ensures forall other :: other in docs && other != id ==> r.docs[other] == docs[other]
  {
    if id !in docs then Answer(Err(NotFound, "Document not found"), docs)
    else if docs[id].uploadedBy != caller then
      Answer(Err(Forbidden, "You do not have permission to update this document"), docs)
    else
      var d := Apply(docs[id], c);
      ApplyKeepsTitleTrimmed(docs[id], c);
      assert StoredDocument(d) <==> !(Truthy(c.title) && Trim(c.title.value) == "");
      SaveEdit(docs, id, d)
  }

  /** `document.save()` on an edited record: on success it replaces the stored one. */
  function SaveEdit(docs: map<Id, Document>, id: Id, d: Document): (r: Answer<Document>)
    requires id in docs
    requires d.ocrContent.None? && d.fileUrl != "" && Trim(d.title) == d.title
    ensures r.result.Ok? <==> StoredDocument(d)
    ensures r.result.Err? ==> r.docs == docs
    ensures r.result.Ok? ==> r.result.value == d && r.docs == docs[id := d]
    ensures r.docs.Keys == docs.Keys
    ensures forall other :: other in docs && other != id ==> r.docs[other] == docs[other]
  {
    match SaveDocument(d)
    case Ok(saved) => Answer(Ok(saved), docs[id := saved])
    case Err(s, m) => Answer(Err(s, m), docs)
  }

  /** Sending the same update twice leaves the document as sending it once. */
  lemma UpdateIdempotent(d: Document, c: Changes)
    requires Trimmed(d.title)
    ensures Apply(Apply(d, c), c) == Apply(d, c)
  {
    var a := Apply(d, c);
    if Truthy(c.title) {
      TrimIdempotent(c.title.value);
      assert a.title == Trim(c.title.value);
    }
    assert Apply(a, c).title == a.title;
    assert Apply(a, c).description == a.description;
    assert Apply(a, c).notes == a.notes;
  }

  /** An update keeps the collection consistent. */
  lemma UpdateKeepsConsistent(docs: map<Id, Document>, caller: Id, id: Id, c: Changes)
    requires Consistent(docs)
    ensures Consistent(Updated(docs, caller, id, c).docs)
  {
    var a := Updated(docs, caller, id, c);
    if a.result.Ok? {
      var d := a.result.value;
      ApplyKeepsStored(docs[id], c);
      StoreKeepsConsistent(docs, d);
    }
  }

  /** A change that leaves the title non-empty keeps a valid record valid. */
  lemma ApplyKeepsStored(d: Document, c: Changes)
    requires StoredDocument(d) && !(Truthy(c.title) && Trim(c.title.value) == "")
    ensures StoredDocument(Apply(d, c))
  {
    ApplyKeepsTitleTrimmed(d, c);
    assert Apply(d, c).ocrContent == d.ocrContent;
  }

  /** Storing a valid record under its own id keeps the collection consistent. */
  lemma StoreKeepsConsistent(docs: map<Id, Document>, d: Document)
    requires Consistent(docs) && StoredDocument(d)
    ensures Consistent(docs[d.id := d])
  {
    var m := docs[d.id := d];
    forall i | i in m ensures m[i].id == i && StoredDocument(m[i]) {
      if i != d.id { assert m[i] == docs[i]; }
    }
  }

  /** `deleteDocument`: the uploader or an administrator may delete. */
  function Deleted(docs: map<Id, Document>, caller: Caller, id: Id): (r: Answer<()>)
    ensures r.result.Ok? <==> id in docs && (docs[id].uploadedBy == caller.userId || caller.role == Admin)
    ensures id !in docs ==> r.result == Err(NotFound, "Document not found")
    ensures r.result.Err? && id in docs ==>
              r.result == Err(Forbidden, "You do not have permission to delete this document")
    ensures r.result.Ok? ==> r.docs.Keys == docs.Keys - {id}
    ensures r.result.Err? ==> r.docs == docs
    ensures forall other :: other in r.docs ==> other in docs && r.docs[other] == docs[other]
  {
    if id !in docs then Answer(Err(NotFound, "Document not found"), docs)
    else if docs[id].uploadedBy != caller.userId && caller.role != Admin then
      Answer(Err(Forbidden, "You do not have permission to delete this document"), docs)
    else Answer(Ok(()), map other | other in docs && other != id :: docs[other])
  }

  /** The file multer stored: the client's name, the name on disk and the size. */
  datatype UploadedFile = UploadedFile(originalName: string, storedName: string, size: nat)

  /** The body of an upload request; `tagIds` defaults to the empty list. */
  datatype UploadForm = UploadForm(title: Option<string>, description: Option<string>,
                                   category: Option<Id>, tags: seq<Id>, folder: Option<Id>)

  /** `uploadDocument`'s checks, in order, and the record it saves under `newId`. */
  function Uploaded(docs: map<Id, Document>, categories: set<Id>, folders: map<Id, Folder>,
                    caller: Id, file: Option<UploadedFile>, form: UploadForm,
                    newId: Id, now: nat): (r: Answer<Document>)
    ensures file.None? ==> r.result == Err(BadRequest, "No file uploaded")
    ensures file.Some? && (!Truthy(form.title) || form.category.None?) ==>
              r.result == Err(BadRequest, "Title and category are required")
    ensures r.result.Ok? <==>
              && file.Some? && Truthy(form.title) && form.category.Some?
              && form.category.value in categories
              && (form.folder.Some? ==> form.folder.value in folders && folders[form.folder.value].owner == caller)
              && Trim(form.title.value) != "" && file.value.originalName != ""
    ensures r.result.Err? ==> r.docs == docs
    ensures r.result.Ok? ==>
              var d := r.result.value;
              && r.docs == docs[newId := d] && StoredDocument(d) && d.id == newId
              && d.uploadedBy == caller && d.title == Trim(form.title.value)
              && d.category == form.category.value && d.folder == form.folder && d.tags == form.tags
              && d.fileName == file.value.originalName && d.fileType == FileType(d.fileName)
              && !d.isPublic && d.views == 0 && d.downloads == 0 && d.summary == ""
  {
    if file.None? then Answer(Err(BadRequest, "No file uploaded"), docs)
    else if !Truthy(form.title) || form.category.None? then
      Answer(Err(BadRequest, "Title and category are required"), docs)
    else if form.category.value !in categories then Answer(Err(NotFound, "Category not found"), docs)
    else if form.folder.Some? && form.folder.value !in folders then Answer(Err(NotFound, "Folder not found"), docs)
    else if form.folder.Some? && folders[form.folder.value].owner != caller then
      Answer(Err(Forbidden, "Access denied to this folder"), docs)
    else SaveUpload(docs, caller, file.value, form.title.value, form, newId, now)
  }

  /** The record `uploadDocument` builds from the request, and its `save()`. */
  function SaveUpload(docs: map<Id, Document>, caller: Id, f: UploadedFile, title: string,
                      form: UploadForm, newId: Id, now: nat): (r: Answer<Document>)
    requires form.category.Some?
    ensures r.result.Ok? <==> Trim(title) != "" && f.originalName != ""
    ensures r.result.Err? ==> r.docs == docs && r.result.status == ServerError
    ensures r.result.Ok? ==>
              var d := r.result.value;
              && r.docs == docs[newId := d] && StoredDocument(d) && d.id == newId
              && d.uploadedBy == caller && d.title == Trim(title)
              && d.category == form.category.value && d.folder == form.folder && d.tags == form.tags
              && d.fileName == f.originalName && d.fileType == FileType(d.fileName)
              && !d.isPublic && d.views == 0 && d.downloads == 0 && d.summary == ""
  {
    var d := NewDocument(newId, title, form.description, f.originalName,
                         "/uploads/documents/" + f.storedName, f.size, FileType(f.originalName),
                         form.folder, form.category.value, form.tags, caller, now);
    assert Trim(d.title) == d.title by { TrimIdempotent(title); }
    match SaveDocument(d)
    case Ok(saved) => Answer(Ok(saved), docs[newId := saved])
    case Err(s, m) => Answer(Err(s, m), docs)
  }

  /** A fresh upload is private: only its uploader sees it among the search results. */
  lemma FreshUploadVisibleOnlyToUploader(docs: map<Id, Document>, categories: set<Id>, folders: map<Id, Folder>,
                                         caller: Id, file: Option<UploadedFile>, form: UploadForm,
                                         newId: Id, now: nat, viewer: Option<Caller>)
    requires Consistent(docs) && newId !in docs
    requires Uploaded(docs, categories, folders, caller, file, form, newId, now).result.Ok?
    ensures var d := Uploaded(docs, categories, folders, caller, file, form, newId, now).result.value;
            Search.Visible(viewer, d) <==> viewer.Some? && viewer.value.userId == caller
  {
  }

  /** An upload keeps the collection consistent and adds exactly the new record. */
  lemma UploadKeepsConsistent(docs: map<Id, Document>, categories: set<Id>, folders: map<Id, Folder>,
                              caller: Id, file: Option<UploadedFile>, form: UploadForm,
                              newId: Id, now: nat)
    requires Consistent(docs) && newId !in docs
    ensures Consistent(Uploaded(docs, categories, folders, caller, file, form, newId, now).docs)
  {
    var a := Uploaded(docs, categories, folders, caller, file, form, newId, now);
    if a.result.Ok? {
      StoreKeepsConsistent(docs, a.result.value);
    }
  }

  // ---------------------------------------------------------------------------
  // The collection as the handlers change it in place
  // ---------------------------------------------------------------------------

  /** What the summary handler answers with. */
  datatype SummaryReply = SummaryReply(documentId: Id, summary: string, cached: bool)

  class DocumentStore {
    var docs: map<Id, Document>

    ghost predicate Valid()
      reads this
    {
      Consistent(docs)
    }

    constructor ()
      ensures docs == map[] && Valid()
    {
      docs := map[];
    }

    /** `getDocument`: answers with the record, its view count raised by one. */
    method GetDocument(id: Id) returns (r: Result<Document>)
      requires Valid()
      modifies this
      ensures Valid()
      ensures id !in old(docs) ==> r == Err(NotFound, "Document not found") && docs == old(docs)
      ensures id in old(docs) ==>
                var d := old(docs)[id].(views := old(docs)[id].views + 1);
                r == Ok(d) && docs == old(docs)[id := d]
    {
      if id !in docs {
        return Err(NotFound, "Document not found");
      }
      var d := docs[id];
      d := d.(views := d.views + 1);
      docs := docs[id := d];
      r := Ok(d);
    }

    /** `downloadDocument`: raises the download count; the file transfer is not modelled. */
    method DownloadDocument(id: Id) returns (r: Result<Document>)
      requires Valid()
      modifies this
      ensures Valid()
      ensures id !in old(docs) ==> r == Err(NotFound, "Document not found") && docs == old(docs)
      ensures id in old(docs) ==>
                var d := old(docs)[id].(downloads := old(docs)[id].downloads + 1);
                r == Ok(d) && docs == old(docs)[id := d]
    {
      if id !in docs {
        return Err(NotFound, "Document not found");
      }
      var d := docs[id];
      d := d.(downloads := d.downloads + 1);
      docs := docs[id := d];
      r := Ok(d);
    }

    method UpdateDocument(caller: Id, id: Id, c: Changes) returns (r: Result<Document>)
      requires Valid()
      modifies this
      ensures Valid()
      ensures Answer(r, docs) == Updated(old(docs), caller, id, c)
    {
      UpdateKeepsConsistent(docs, caller, id, c);
      var a := Updated(docs, caller, id, c);
      docs := a.docs;
      r := a.result;
    }

    method DeleteDocument(caller: Caller, id: Id) returns (r: Result<()>)
      requires Valid()
      modifies this
      ensures Valid()
      ensures Answer(r, docs) == Deleted(old(docs), caller, id)
    {
      var a := Deleted(docs, caller, id);
      docs := a.docs;
      r := a.result;
    }

    method UploadDocument(categories: set<Id>, folders: map<Id, Folder>, caller: Id,
                          file: Option<UploadedFile>, form: UploadForm, newId: Id, now: nat)
      returns (r: Result<Document>)
      requires Valid() && newId !in docs
      modifies this
      ensures Valid()
      ensures Answer(r, docs) == Uploaded(old(docs), categories, folders, caller, file, form, newId, now)
    {
      UploadKeepsConsistent(docs, categories, folders, caller, file, form, newId, now);
      var a := Uploaded(docs, categories, folders, caller, file, form, newId, now);
      docs := a.docs;
      r := a.result;
    }

    /**
     * `summarizeDocument`: a stored summary is answered from the record; with
     * the file on disk the models are tried in order and a produced summary is
     * saved; every failure leaves the record as it was.
     */
    method Summarize(id: Id, fileExists: bool, attempt: string -> Attempt) returns (r: Result<SummaryReply>)
      requires Valid()
      modifies this
      ensures Valid()
      ensures id !in old(docs) ==> r == Err(NotFound, "Document not found")
      ensures id in old(docs) && old(docs)[id].summary != "" ==>
                r == Ok(SummaryReply(id, old(docs)[id].summary, true))
      ensures id in old(docs) && old(docs)[id].summary == "" && !fileExists ==>
                r == Err(BadRequest, "Document file not found")
      ensures id in old(docs) && old(docs)[id].summary == "" && fileExists ==>
                match Fallback(Models, attempt, None)
                case Ok(s) => r == Ok(SummaryReply(id, s, false)) && docs == old(docs)[id := old(docs)[id].(summary := s)]
                case Err(st, m) => r == Err(st, m)
      ensures r.Err? || (r.Ok? && r.value.cached) ==> docs == old(docs)
    {
      if id !in docs {
        return Err(NotFound, "Document not found");
      }
      var d := docs[id];
      if d.summary != "" {
        return Ok(SummaryReply(id, d.summary, true));
      }
      if !fileExists {
        return Err(BadRequest, "Document file not found");
      }
      var generated := TryModels(attempt);
      match generated {
        case Ok(s) =>
          docs := docs[id := d.(summary := s)];
          r := Ok(SummaryReply(id, s, false));
        case Err(st, m) =>
          r := Err(st, m);
      }
    }
  }
}
