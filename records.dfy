// The stored records (the mongoose schemas) with their defaults and the
// validation `save()` performs on required and trimmed paths.
module Records {
  import opened Common
  import opened Text

  /** A document record. `ocrContent` is not a path of the schema: the search
      pipeline still reads it, and for a stored record it is always absent. */
  datatype Document = Document(
    id: Id,
    title: string,
    description: string,
    fileName: string,
    fileUrl: string,
    fileSize: nat,
    fileType: string,
    folder: Option<Id>,
    category: Id,
    tags: seq<Id>,
    uploadedBy: Id,
    views: nat,
    downloads: nat,
    isPublic: bool,
    notes: string,
    summary: string,
    ocrContent: Option<string>,
    createdAt: nat)

  datatype Folder = Folder(
    id: Id,
    name: string,
    description: string,
    parent: Option<Id>,
    owner: Id,
    isPublic: bool,
    isRoot: bool,
    createdAt: nat)

  datatype Category = Category(
    id: Id,
    name: string,
    description: string,
    icon: Option<string>,
    color: string,
    sortOrder: int,
    createdAt: nat)

  datatype Tag = Tag(id: Id, name: string, color: string, createdAt: nat)

  /** A document as the schema can store it: required paths non-empty, the title
      trimmed, and no ocrContent path. */
  predicate StoredDocument(d: Document) {
    && d.title != "" && Trim(d.title) == d.title
    && d.fileName != "" && d.fileUrl != ""
    && d.ocrContent.None?
  }

  const TitleRequired := "Document validation failed: title: Path `title` is required."
  const FileNameRequired := "Document validation failed: fileName: Path `fileName` is required."
  const FolderNameRequired := "Folder validation failed: name: Path `name` is required."
  const CategoryNameRequired := "Category validation failed: name: Path `name` is required."
  const TagNameRequired := "Tag validation failed: name: Path `name` is required."

  /**
   * `new Document({...})`: the given paths (the title through its trim setter),
   * schema defaults for the rest, and the undeclared ocrContent dropped.
   */
  function NewDocument(id: Id, title: string, description: Option<string>, fileName: string,
                       fileUrl: string, fileSize: nat, fileType: string, folder: Option<Id>,
                       category: Id, tags: seq<Id>, uploadedBy: Id, now: nat): Document
  {
    Document(id, Trim(title), description.GetOr(""), fileName, fileUrl, fileSize, fileType,
             folder, category, tags, uploadedBy, 0, 0, false, "", "", None, now)
  }

  /** `document.save()`: rejects a record whose required paths are empty. */
  function SaveDocument(d: Document): (r: Result<Document>)
    requires d.ocrContent.None? && d.fileUrl != "" && Trim(d.title) == d.title
    ensures r.Ok? <==> StoredDocument(d)
    ensures r.Ok? ==> r.value == d
    ensures r.Err? ==> r.status == ServerError
  {
    if d.title == "" then Err(ServerError, TitleRequired)
    else if d.fileName == "" then Err(ServerError, FileNameRequired)
    else Ok(d)
  }

  /** A new document has zero counters, is private, has no notes and no summary. */
  lemma NewDocumentDefaults(id: Id, title: string, description: Option<string>, fileName: string,
                            fileUrl: string, fileSize: nat, fileType: string, folder: Option<Id>,
                            category: Id, tags: seq<Id>, uploadedBy: Id, now: nat)
    ensures var d := NewDocument(id, title, description, fileName, fileUrl, fileSize, fileType,
                                 folder, category, tags, uploadedBy, now);
            && d.views == 0 && d.downloads == 0 && !d.isPublic
            && d.summary == "" && d.notes == "" && d.ocrContent.None?
            && Trimmed(d.title) && (description.None? ==> d.description == "")
  {
    TrimIsTrimmed(title);
  }

  /** `new Folder({...})`: isPublic defaults to false; the caller chooses the rest. */
  function NewFolder(id: Id, name: string, description: string, parent: Option<Id>,
                     owner: Id, isRoot: bool, now: nat): Folder
  {
    Folder(id, Trim(name), description, parent, owner, false, isRoot, now)
  }

  /** A folder as the schema can store it: a trimmed, non-empty name. */
  predicate StoredFolder(f: Folder) {
    f.name != "" && Trim(f.name) == f.name
  }

  /** `sort({ createdAt: -1 })` as an order on records. */
  function NewerFolder(): (Folder, Folder) -> bool {
    (a: Folder, b: Folder) => a.createdAt >= b.createdAt
  }

  function NewerDocument(): (Document, Document) -> bool {
    (a: Document, b: Document) => a.createdAt >= b.createdAt
  }
}
