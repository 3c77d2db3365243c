# Document manager core, in Dafny

A model of the rule-heavy part of an Express/Mongo document-management
backend, with each Mongo collection replaced by an in-memory map from id to record:

- **Document search and rank** (`getDocuments`). The handler pushes conditions onto the
  match stage one at a time: visibility, category, folder and tags. A search then adds
  either an exact-phrase clause or an all-tokens-in-one-field clause, built from
  `escapeRegex`-escaped input. The store scores rows 10/5/1 for title, description and
  OCR text, applies the chosen sort, and cuts a skip/limit page. The handler reports the
  total and the page count.
- **Single-document operations**:
  - the view and download counters;
  - owner-only partial update and owner-or-admin delete;
  - upload, with its checks, the file-type choice from the lower-cased extension and the
    schema defaults;
  - the summary handler's cache and its fallback over a list of generation models.
- **The folder tree**, as a class over a folder map and a document map:
  - the root listing, the hierarchy read and the breadcrumb walk;
  - create, with the parent defaulting to the caller's root;
  - update, with the ancestor-walk cycle check;
  - the cascading delete over the subtree, and share.
- **Per-user statistics** (`getStats`): counts, sums, the distinct categories, the
  per-category distribution with its name lookup, and the five newest documents.
- **The category and tag tables**: listing order, guarded insert, partial update, delete,
  and the tag name's duplicate check.
- **`generateSlug`**, as a chain of string passes.

Modules:

- `Common`: ids, options, status codes, callers.
- `Text`: JavaScript's `\s`, `trim`, `split(/\s+/)` and ASCII `toLowerCase`.
- `Collation`: code-unit string order.
- `Seqs`: filter, a stable insertion sort by a total preorder, sums, and map selection in
  id order.
- `Escape`: `escapeRegex` and the literal patterns it produces.
- `Records`: the mongoose schemas with their defaults and validation.
- `Search`, `Documents`, `Folders`, `Stats`, `Categories`, `Tags` and `Slug`: one per
  controller or utility.

Handlers that change a collection are methods of a class whose fields are the
collections (`DocumentStore`, `FolderTree`, `CategoryTable`, `TagTable`). Each method
is proved equal to a function giving the answer and the collection afterwards. The
properties the system promises are proved about those functions:

- an error changes nothing;
- exactly one record changes or goes;
- the tree stays acyclic;
- the cascade removes exactly the subtree.

Store-assigned values are parameters: a fresh id (`newId`) and the creation time
(`now`). Only an absent request field is `None`. A field the source tests for
truthiness treats `Some("")` like an absent one. A field it tests against `undefined`,
such as the folder description in `updateFolder`, applies an empty string.

The cycle check in `updateFolder` walks up from the new parent and rejects the move when
it meets the folder being moved. Moving a folder under itself therefore passes the check
and stores a self-loop. `Folders.SelfMoveAccepted` states this behaviour.
`UpdateFolder` promises an acyclic tree afterwards only for moves to another folder.

The tag duplicate check looks up `name.toLowerCase()`. The query casts that value through
the name path's `trim` and `lowercase` setters, as it would a stored value, so the lookup
asks for exactly the name that would be stored. `Tags.LookupIsStoredName` states this,
`Tags.CreateKeepsUnique` proves that creation never stores a name twice, and
`Tags.PaddedNameRejected` shows that a stored name with a space before it is rejected.

## Model

| member | source | states |
|---|---|---|
| Escape.EscapeRoundTrip | src/api/controllers/document.controller.js:6-8 | Reading the escaped text back as a literal pattern gives exactly the original text. |
| Escape.LiteralCanonical | src/api/controllers/document.controller.js:6-8 | Any literal pattern that reads as `s` is exactly `escapeRegex(s)`: the escaping is the only encoding. |
| Escape.EscapeOne | src/api/controllers/document.controller.js:6-8 | One character gets a backslash before it exactly when it is a special character or whitespace; any other character is unchanged. |
| Escape.EscapeAppend | src/api/controllers/document.controller.js:6-8 | Escaping is character by character: escaping `a + b` gives escape(a) + escape(b). |
| Escape.EscapedPatternMatches | src/api/controllers/document.controller.js:63-64 | A case-insensitive test of an escaped pattern succeeds iff the field is present and contains the raw text, ignoring ASCII case. |
| Search.BuildMatchStage | src/api/controllers/document.controller.js:28-93 | The conditions pushed onto the match stage all hold for a document iff it is visible to the caller, passes the category, folder and tag filters, and matches the search. |
| Search.ExactConditionMeaning | src/api/controllers/document.controller.js:55-72 | The exact-phrase clause holds iff the title, description or file name contains the input with every `"` removed, ignoring case. |
| Search.TokenConditionMeaning | src/api/controllers/document.controller.js:76-90 | The token clause holds iff all whitespace-separated tokens occur in the title, or all in the description, or all in the OCR text. |
| Search.AllPatternsMeaning | src/api/controllers/document.controller.js:76-88 | A field matches every escaped token pattern iff it is present and contains every token. |
| Search.RemoveQuotes | src/api/controllers/document.controller.js:63 | Every `"` is removed and every other character is kept with its multiplicity. |
| Search.Score | src/api/controllers/document.controller.js:97-113 | The score lies in {0,1,5,6,10,11,15,16}; its 10, 5 and 1 parts are present iff the title, description or OCR text contains the keyword. |
| Search.SortOrderOf | src/api/controllers/document.controller.js:21-131 | Relevance iff there is a search and the sort is explicitly empty or `relevance`; title order iff the sort is `a-z`; newest first when no sort is given. |
| Search.RowLeTotalPreorder | src/api/controllers/document.controller.js:126-133 | Each of the three orders (score then date, title, date) is a total preorder. |
| Search.PageOf | src/api/controllers/document.controller.js:140-141 | A page holds at most `limit` rows: the window after `(page-1)*limit` rows, or nothing past the end. |
| Search.PageCount | src/api/controllers/document.controller.js:196 | `pages` is the ceiling of total/limit: the least count of pages that holds the total. |
| Search.GetDocuments | src/api/controllers/document.controller.js:12-208 | The handler's answer equals the specification: the selected documents, ranked and paged, with their total and page count; a page or limit below one is a 500. |
| Search.SearchSound | src/api/controllers/document.controller.js:28-197 | Every returned row is a stored document the query selects, with its computed score; `total` counts every selected document. |
| Search.RankedIsSortedPermutation | src/api/controllers/document.controller.js:126-136 | The ranked rows are sorted by the chosen order and are a permutation of the selected documents' rows; every selected document is ranked. |
| Search.AnonymousSeesOnlyPublic | src/api/controllers/document.controller.js:31-40 | A caller who is not signed in receives only public documents. |
| Search.OwnerFindsOwn | src/api/controllers/document.controller.js:31-37 | A signed-in caller's own document is ranked, public or not, when it passes the filters and the search. |
| Search.PageWindow | src/api/controllers/document.controller.js:140-197 | A page past the last is empty with the same total; every page up to the last is non-empty; no page exceeds the limit. |
| Search.PagesCoverAll | src/api/controllers/document.controller.js:140-196 | Pages 1 to `pages`, laid end to end, are exactly the ranked matches in order. |
| Search.PageWithin | src/api/controllers/document.controller.js:140-141 | A page holds only rows of the ranked list. |
| Search.RankedRowIsMatch | src/api/controllers/document.controller.js:28-136 | Every ranked row is a stored document the query selects, with its computed score. |
| Search.PageBeyondLast | src/api/controllers/document.controller.js:140-196 | A page number is past the last page iff its page is empty. |
| Records.SaveDocument | src/schemas/document.schema.js:5-21 | Saving succeeds iff the required paths are non-empty; it then stores the record unchanged, and otherwise fails with a 500. |
| Records.NewDocumentDefaults | src/schemas/document.schema.js:3-78 | A new record has zero views and downloads, is private, has empty notes and summary, no OCR text, and a trimmed title; the description defaults to empty. |
| Documents.LastIndexOf | src/api/controllers/document.controller.js:292 | The last position of a character, or none when it does not occur. |
| Documents.ExtName | src/api/controllers/document.controller.js:292 | The extension is empty or a dot followed by no dot or slash, and it is a suffix of the name. |
| Documents.ExtNameOf | src/api/controllers/document.controller.js:292 | A name ending in a dot and a non-empty run without dot or slash, after a non-empty stem not ending in a slash, has that dot and run as its extension. |
| Documents.FileType | src/api/controllers/document.controller.js:292-298 | The type is `image` iff the lower-cased extension is an image extension, `text` iff it is a text extension, and `pdf` otherwise. |
| Documents.PhotoIsImage | src/api/controllers/document.controller.js:292-298 | An upload named `photo.JPG` is stored as an image. |
| Documents.FileTypeIgnoresCase | src/api/controllers/document.controller.js:292-298 | Lower-casing the file name does not change its type. |
| Documents.ExtNameLower | src/api/controllers/document.controller.js:292 | The extension of the lower-cased name is the lower-cased extension. |
| Documents.Exhausted | src/api/controllers/document.controller.js:701-703 | Running out of models is a 500. |
| Documents.Fallback | src/api/controllers/document.controller.js:610-703 | A summary is non-empty text; every failure is a 500. |
| Documents.FallbackPicksFirstUsable | src/api/controllers/document.controller.js:615-698 | When every earlier model failed retryably and model k answers with text, that text is the summary. |
| Documents.FallbackNeedsUsable | src/api/controllers/document.controller.js:615-703 | A summary is produced only by the first model that did not fail retryably, and it is that model's text. |
| Documents.AllOverloaded | src/api/controllers/document.controller.js:686-703 | When every model fails with a 503, 429 or overload message, the answer is the all-failed error carrying the last model's message. |
| Documents.TryModels | src/api/controllers/document.controller.js:610-703 | The model loop's result equals the fallback rule over the four models in order. |
| Documents.Apply | src/api/controllers/document.controller.js:362-368 | An update overwrites title (trimmed), description and notes only when truthy, and category and tags when given; everything else is kept. |
| Documents.ApplyKeepsTitleTrimmed | src/api/controllers/document.controller.js:362-368 | An update keeps a trimmed title trimmed. |
| Documents.Updated | src/api/controllers/document.controller.js:339-385 | 404 for a missing document, 403 for anyone but the uploader; otherwise the edited record replaces the old one; an error changes nothing; no other document changes and no id is added or removed. |
| Documents.UpdateIdempotent | src/api/controllers/document.controller.js:362-368 | Sending the same update twice gives the same record as sending it once. |
| Documents.SaveEdit | src/api/controllers/document.controller.js:368 | The save succeeds iff the edited record passes validation; it then replaces the old record, otherwise it is a 500 and nothing changes; other records and the set of ids stay. |
| Documents.ApplyKeepsStored | src/api/controllers/document.controller.js:362-368 | An update whose title does not trim to empty turns a valid record into a valid record. |
| Documents.UpdateKeepsConsistent | src/api/controllers/document.controller.js:339-385 | An update keeps every record valid. |
| Documents.Deleted | src/api/controllers/document.controller.js:388-427 | Deletion succeeds iff the document exists and the caller is its uploader or an administrator; it removes exactly that document, and an error changes nothing. |
| Documents.Uploaded | src/api/controllers/document.controller.js:244-336 | 400 without a file, title or category, 404 for an unknown category or folder, 403 for another user's folder, 500 when validation fails; otherwise exactly one valid, private record with zero counters and the file's type is added under the new id; an error changes nothing. |
| Documents.SaveUpload | src/api/controllers/document.controller.js:301-317 | The save succeeds iff the trimmed title and the file name are non-empty; the new record is valid, owned by the caller, carries the form's category, folder and tags, and is the only addition; a failure is a 500 that changes nothing. |
| Documents.FreshUploadVisibleOnlyToUploader | src/schemas/document.schema.js:59-62 | A fresh upload is private and owned by the uploader, so only the uploader's searches can select it. |
| Documents.UploadKeepsConsistent | src/api/controllers/document.controller.js:301-317 | An upload keeps every stored record valid. |
| Documents.DocumentStore.GetDocument | src/api/controllers/document.controller.js:211-241 | 404 for a missing id; otherwise the answer is the record with its views raised by exactly one, and nothing else changes. |
| Documents.DocumentStore.DownloadDocument | src/api/controllers/document.controller.js:536-566 | 404 for a missing id; otherwise the downloads are raised by exactly one, and nothing else changes. |
| Documents.DocumentStore.UpdateDocument | src/api/controllers/document.controller.js:339-385 | The answer and the collection afterwards are those of `Updated`. |
| Documents.DocumentStore.DeleteDocument | src/api/controllers/document.controller.js:388-427 | The answer and the collection afterwards are those of `Deleted`. |
| Documents.DocumentStore.UploadDocument | src/api/controllers/document.controller.js:244-336 | The answer and the collection afterwards are those of `Uploaded`. |
| Documents.DocumentStore.Summarize | src/api/controllers/document.controller.js:569-723 | 404 for a missing id; a stored summary is returned as cached and unchanged; a missing file is a 400; otherwise the fallback result is saved as the summary; errors change nothing. |
| Folders.UpAdd | src/api/controllers/folder.controller.js:95-108 | Walking n + m parent links is walking n links and then m more. |
| Folders.NoSelfDescendant | src/api/controllers/folder.controller.js:219-228 | In an acyclic tree no folder lies below itself. |
| Folders.DescendantsSplit | src/api/controllers/folder.controller.js:281-289 | A folder lies below `a` iff its parent is `a` or it lies below a child of `a`, which is the recursion of `getAllSubfolders`. |
| Folders.ChildDescendantsSmaller | src/api/controllers/folder.controller.js:281-289 | A child has strictly fewer descendants than its parent, so the recursion ends on an acyclic tree. |
| Folders.SubtreeIsRootAndDescendants | src/api/controllers/folder.controller.js:291-292 | The deleted set is the folder together with its descendants. |
| Folders.RootOf | src/api/controllers/folder.controller.js:10 | The caller's root folder, when one exists; the one with the least id when there are several. |
| Folders.RootFolders | src/api/controllers/folder.controller.js:5-35 | The root exists iff the caller owns a root folder; the listing is exactly the caller's non-root folders whose parent is the root's id (or null without a root), newest first. |
| Folders.FolderHierarchy | src/api/controllers/folder.controller.js:38-88 | 404 for a missing folder, 403 unless the caller owns it or it is public; otherwise every folder whose parent it is and every document filed in it, each newest first. |
| Folders.FolderTree.Breadcrumb | src/api/controllers/folder.controller.js:91-120 | The loop builds the breadcrumb: the stored folders met walking up the parent links, topmost first, up to a null or missing parent. |
| Folders.BreadcrumbShape | src/api/controllers/folder.controller.js:95-108 | The breadcrumb is empty iff the folder is missing; otherwise it ends with the folder itself and starts with a folder whose parent is null or missing. |
| Folders.BreadcrumbUnique | src/api/controllers/folder.controller.js:95-108 | At most one crumb sequence fits a folder. |
| Folders.CrumbsExtend | src/api/controllers/folder.controller.js:100-106 | Prepending the next ancestor keeps the crumbs a tail of the walk, the loop's invariant. |
| Folders.Created | src/api/controllers/folder.controller.js:123-176 | The parent is the one named, else the caller's root, else none; 404 or 403 for a missing or foreign parent; otherwise one private, non-root folder with a trimmed name is added; an error changes nothing. |
| Folders.CreateKeepsConsistent | src/api/controllers/folder.controller.js:123-176 | Creating a folder under a fresh id keeps every folder valid. |
| Folders.CreateKeepsAcyclic | src/api/controllers/folder.controller.js:128-164 | Creating a folder under a fresh id keeps the tree acyclic. |
| Folders.LeafKeepsAcyclic | src/api/controllers/folder.controller.js:153-164 | Adding a leaf that nothing names as parent keeps the tree acyclic. |
| Folders.FolderTree.CreateFolder | src/api/controllers/folder.controller.js:123-176 | The answer and the folders afterwards are those of `Created`; documents are unchanged. |
| Folders.FolderTree.CheckMove | src/api/controllers/folder.controller.js:219-228 | The loop's verdict is that of the ancestor walk from the new parent: rejected when it meets the moved folder, failed when it meets a missing folder, passed when it reaches the top. |
| Folders.Updated | src/api/controllers/folder.controller.js:179-247 | On an acyclic tree: 404 or 403 for the folder. The update succeeds iff the folder is the caller's, any move names an existing parent of the caller's that the walk passes, and the name does not trim to empty. It then saves exactly `Edited(F[fid], c)`: the new parent, the trimmed name when truthy, and the description whenever given. A 400 comes exactly when the walk meets the folder. Every rejection changes nothing. |
| Folders.UpdatedOwned | src/api/controllers/folder.controller.js:202-235 | For the caller's own folder, a move to a missing parent is a 404 "Parent folder not found". A move to another user's folder is a 403 "Access denied to parent folder". A walk that meets the folder is a 400, and one that loads a missing ancestor is a 500. A permitted move, or none, goes to the save. |
| Folders.SaveEdited | src/api/controllers/folder.controller.js:229-235 | The save succeeds iff a given name does not trim to empty; it stores the edited folder under its id, and otherwise is a 500 that changes nothing. |
| Folders.AssignChanges | src/api/controllers/folder.controller.js:229-233 | The field-by-field assignments produce the edited record: the new parent on a move, the trimmed name when truthy, the description whenever given. |
| Folders.UpdateKeepsConsistent | src/api/controllers/folder.controller.js:179-247 | An update keeps every folder valid. |
| Folders.MoveKeepsAcyclic | src/api/controllers/folder.controller.js:219-229 | Moving a folder under a folder that is not below it, and is not itself, keeps the tree acyclic. |
| Folders.UpdateKeepsAcyclic | src/api/controllers/folder.controller.js:203-235 | An update that does not name the folder as its own parent keeps the tree acyclic. |
| Folders.SelfMoveAccepted | src/api/controllers/folder.controller.js:203-229 | Naming the folder itself as its new parent passes the check, and the folder is stored as its own parent. |
| Folders.WalkEndsAtTop | src/api/controllers/folder.controller.js:221-228 | A walk that reaches a null parent without meeting the folder passes. |
| Folders.WalkEndsAtMissing | src/api/controllers/folder.controller.js:221-228 | A walk that meets a missing parent fails. |
| Folders.FolderTree.PlanUpdate | src/api/controllers/folder.controller.js:185-235 | The checks and edits decided before saving give the answer of `Updated`. |
| Folders.FolderTree.UpdateFolder | src/api/controllers/folder.controller.js:179-247 | The answer and the folders afterwards are those of `Updated`; a move to another folder leaves the tree acyclic. |
| Folders.ChildIds | src/api/controllers/folder.controller.js:282 | Exactly the ids of the folders whose parent is `a`. |
| Folders.FolderTree.AllSubfolders | src/api/controllers/folder.controller.js:281-289 | The collected ids are exactly the folders strictly below `a`. |
| Folders.WithoutFolders | src/api/controllers/folder.controller.js:300-302 | Exactly the folders in the set are removed; the rest are unchanged. |
| Folders.WithoutDocumentsIn | src/api/controllers/folder.controller.js:295-297 | Exactly the documents filed in the set are removed; the rest are unchanged. |
| Folders.RemovalKeepsAcyclic | src/api/controllers/folder.controller.js:295-302 | Removing folders never creates a cycle. |
| Folders.SubtreeRemovalLeavesNoOrphans | src/api/controllers/folder.controller.js:291-302 | After the cascade no remaining folder has a deleted parent and no remaining document is in a deleted folder. |
| Folders.FolderDeleted | src/api/controllers/folder.controller.js:250-314 | 404, 403, and 400 for a root folder; otherwise the folders are those outside the folder's subtree and the documents those not filed in it, each unchanged; an error changes nothing. |
| Folders.FolderTree.DeleteFolder | src/api/controllers/folder.controller.js:250-314 | The answer and both collections afterwards are those of `FolderDeleted`, and the tree stays acyclic. |
| Folders.FolderTree.ShareFolder | src/api/controllers/folder.controller.js:317-353 | 404 or 403 otherwise; the owner's call sets the public flag to the given value, and nothing else changes. |
| Stats.Owned | src/api/controllers/stats.controller.js:18-20 | Exactly the caller's documents. |
| Stats.TotalDocuments | src/api/controllers/stats.controller.js:11-13 | The number of stored documents uploaded by the caller. |
| Stats.TotalViews | src/api/controllers/stats.controller.js:16-29 | The sum of the caller's views: 0 without documents and at least each document's own views. |
| Stats.TotalDownloads | src/api/controllers/stats.controller.js:32-45 | The sum of the caller's downloads: 0 without documents and at least each document's own downloads. |
| Stats.EditChangesSum | src/api/controllers/stats.controller.js:16-45 | Replacing one record changes the caller's sum by exactly the difference when the caller owns it, and not at all otherwise. |
| Stats.ViewCountedOnce | src/api/controllers/stats.controller.js:16-29 | One more view raises the caller's total by one iff the caller owns that document. |
| Stats.DownloadCountedOnce | src/api/controllers/stats.controller.js:32-45 | One more download raises the caller's total by one iff the caller owns that document. |
| Stats.Distinct | src/api/controllers/stats.controller.js:55-57 | The same ids, each once. |
| Stats.CategoryKeys | src/api/controllers/stats.controller.js:55-57 | Each category used by the caller's documents, once. |
| Stats.TotalCategories | src/api/controllers/stats.controller.js:48-63 | The number of distinct categories among the caller's documents. |
| Stats.Count | src/api/controllers/stats.controller.js:73-76 | At most the number of documents, and positive iff some document has the category. |
| Stats.GroupsPartition | src/api/controllers/stats.controller.js:72-77 | When every document's category is one of the distinct keys, the group counts add up to the number of documents. |
| Stats.DocumentsByCategory | src/api/controllers/stats.controller.js:66-103 | One entry per used category, named from the category table or `Uncategorized`, counting its documents, largest count first. |
| Stats.GroupsDescribeCategories | src/api/controllers/stats.controller.js:66-103 | Each entry names a category some of the caller's documents use, with its looked-up name and its positive count, and every used category has an entry. |
| Stats.CategoryCountsAddUp | src/api/controllers/stats.controller.js:66-103 | The counts add up to `totalDocuments`, and there are `totalCategories` entries. |
| Stats.RecentDocuments | src/api/controllers/stats.controller.js:106-112 | Min(5, total) of the caller's documents, newest first. |
| Stats.RecentAreNewest | src/api/controllers/stats.controller.js:106-112 | None of the caller's documents left out is newer than one that is shown. |
| Stats.GetStats | src/api/controllers/stats.controller.js:6-124 | The distribution adds up to the total; there are no more categories than documents; at most five recent documents; no documents means zero views, zero downloads and an empty distribution. |
| Categories.ListOrderIsPreorder | src/api/controllers/category.controller.js:7 | Sort order ascending, then newest first, is a total preorder. |
| Categories.Listing | src/api/controllers/category.controller.js:5-19 | Every stored category exactly once, by sort order and then newest first. |
| Categories.Found | src/api/controllers/category.controller.js:22-45 | The stored category for a known id, 404 otherwise. |
| Categories.Created | src/api/controllers/category.controller.js:48-80 | 400 without a name; otherwise one category is added with a trimmed name, default colour `#1890ff` and sort order 0, unless the trimmed name is empty (500); an error changes nothing. |
| Categories.CreatedDefaults | src/schemas/category.schema.js:10-25 | Absent fields get an empty description, no icon, colour `#1890ff` and sort order 0. |
| Categories.CreateKeepsConsistent | src/schemas/category.schema.js:5-9 | Creation keeps every stored name trimmed and non-empty. |
| Categories.Edit | src/api/controllers/category.controller.js:97-101 | The id and creation time are kept; name, description, icon and colour are replaced when truthy, and the sort order whenever it is given. |
| Categories.Updated | src/api/controllers/category.controller.js:83-116 | 404 for a missing id; a name that trims to empty is a 500; otherwise `Edit(cats[id], form)` replaces the old record: truthy text fields apply, and a sortOrder applies whenever given. An error changes nothing. |
| Categories.EditIdempotent | src/api/controllers/category.controller.js:97-101 | Applying the same form to a record it already edited changes nothing, through the trim setter on the name. |
| Categories.ZeroSortOrderApplies | src/api/controllers/category.controller.js:101 | A sort order of 0 is applied, even though it is falsy. |
| Categories.EmptyFieldsKeepRecord | src/api/controllers/category.controller.js:97-101 | An update that gives no field leaves the record as it was. |
| Categories.UpdateIdempotent | src/api/controllers/category.controller.js:88-103 | Applying the same update twice leaves the table as applying it once. |
| Categories.Deleted | src/api/controllers/category.controller.js:119-132 | 404 for a missing id; otherwise exactly that category is removed. |
| Categories.DeleteUndoesCreate | src/api/controllers/category.controller.js:59-132 | Deleting a category just created restores the table. |
| Categories.CategoryTable.GetCategories | src/api/controllers/category.controller.js:5-19 | Every stored category exactly once, sorted by sort order and then newest first; the answer is `Listing`. |
| Categories.CategoryTable.GetCategory | src/api/controllers/category.controller.js:22-45 | The stored record iff the id is known, and 404 `Category not found` otherwise; the answer is `Found`. |
| Categories.CategoryTable.CreateCategory | src/api/controllers/category.controller.js:48-80 | The answer and the table afterwards are those of `Created`. |
| Categories.CategoryTable.UpdateCategory | src/api/controllers/category.controller.js:83-116 | The field-by-field assignments give the answer and the table of `Updated`. |
| Categories.CategoryTable.DeleteCategory | src/api/controllers/category.controller.js:119-140 | The answer and the table afterwards are those of `Deleted`. |
| Tags.Listing | src/api/controllers/tag.controller.js:5-19 | Every stored tag exactly once, newest first. |
| Tags.Created | src/api/controllers/tag.controller.js:22-60 | 400 without a name, 400 when a stored name equals the lower-cased request name as the setters cast it; otherwise one tag is added, named by the trimmed, lower-cased name, with default colour `#2db7f5`, unless that name is empty (500); an error changes nothing. |
| Tags.SaveTag | src/schemas/tag.schema.js:5-15 | Saving succeeds iff the trimmed, lower-cased name is non-empty; the stored name is trimmed and lower-case. |
| Tags.StoredNameIsStored | src/schemas/tag.schema.js:5-10 | The trim and lowercase setters yield a name both leave unchanged. |
| Tags.LookupIsStoredName | src/api/controllers/tag.controller.js:34 | The lookup asks for exactly the name the setters would store. |
| Tags.CreateKeepsUnique | src/api/controllers/tag.controller.js:34-47 | Creation never stores a name twice. |
| Tags.InsertKeepsUnique | src/api/controllers/tag.controller.js:34-47 | Inserting a tag whose name no stored tag has keeps the names unique. |
| Tags.PaddedNameRejected | src/api/controllers/tag.controller.js:34-40 | A stored name with a space before it is found by the lookup and rejected with 400. |
| Tags.CreateKeepsConsistent | src/schemas/tag.schema.js:5-10 | Creation keeps every stored name non-empty, trimmed and lower-case. |
| Tags.Deleted | src/api/controllers/tag.controller.js:63-76 | 404 for a missing id; otherwise exactly that tag is removed. |
| Tags.DeleteFreesName | src/api/controllers/tag.controller.js:76 | Deleting keeps names unique and frees the deleted name for a new tag. |
| Tags.TagTable.GetTags | src/api/controllers/tag.controller.js:5-19 | Every stored tag exactly once, newest first; the answer is `Listing`. |
| Tags.TagTable.CreateTag | src/api/controllers/tag.controller.js:22-60 | The answer and the table afterwards are those of `Created`. |
| Tags.TagTable.DeleteTag | src/api/controllers/tag.controller.js:63-80 | The answer and the table afterwards are those of `Deleted`. |
| Slug.StripMarks | src/utils/index.js:8 | No combining mark U+0300–U+036F is left; no new character appears; text without marks is unchanged. |
| Slug.KeepSlugChars | src/utils/index.js:9 | Only `[a-z0-9\s-]` is left; text made of those is unchanged. |
| Slug.Hyphenate | src/utils/index.js:10 | No whitespace is left, and every character is a hyphen or came from the input; text without whitespace is unchanged. |
| Slug.Collapse | src/utils/index.js:11 | No two hyphens in a row; the same characters and the same first character; text without a double hyphen is unchanged. |
| Slug.GenerateSlug | src/utils/index.js:4-13 | The slug is made of `[a-z0-9-]` with no double hyphen. |
| Slug.FinalTrimIsIdentity | src/utils/index.js:12 | The final `trim('-')` changes nothing: it trims whitespace only, and none is left. |
| Slug.SlugFixed | src/utils/index.js:4-13 | A slug is its own slug, given that decomposition leaves `[a-z0-9-]` alone. |
| Slug.SlugIdempotent | src/utils/index.js:4-13 | slug(slug(x)) == slug(x). |
| Slug.EdgeHyphensKept | src/utils/index.js:10-12 | `" a "` becomes `"-a-"`: the surrounding hyphens survive. |
| Slug.TrimmedSlug | src/utils/index.js:4-13 | The corrected slug is a slug with no leading or trailing hyphen. |
| Slug.TrimmedSlugIdempotent | src/utils/index.js:4-13 | The corrected slug is idempotent. |
| Slug.TrimmedSlugExample | src/utils/index.js:12 | The corrected slug of `" a "` is `"a"`. |

## Left out

- Mongo and mongoose plumbing: connections, `populate`, `select`/`$project` of the
  returned fields, and the `$lookup` of category and tag names in the search page. A
  returned row is the stored record with its score.
- Server setup, routing, multer storage, and the authentication and administrator
  middleware. Callers arrive as an optional `Caller`, and the administrator-only routes
  are not guarded in the model.
- The legacy `searchDocuments`. It compiles raw user input as a regular expression,
  whose semantics are outside this model, and `getDocuments` supersedes it.
- The generation client, prompts, file reads, base64 encoding, file unlinking and
  `res.download`. Each model call is an `attempt` parameter returning text or an error
  message. Whether the file exists is a parameter.
- Unicode: `toLowerCase` is ASCII-only. `normalize('NFD')` is the `decompose`
  parameter of `Slug.GenerateSlug`. `\s` is JavaScript's whitespace set.
- Malformed ObjectIds (cast errors) and `parseInt` producing `NaN` are not modelled. Ids
  and page numbers are integers.
- The `Folder` model is not exported from src/schemas/index.js:6-11, and the folder routes
  are not registered in src/api/routes/index.js. As written, every `FolderController`
  handler, and `uploadDocument` with a `folderId`, throws a TypeError that becomes a 500.
  The model gives these handlers an abstract folder store. `Documents.Uploaded`'s folder
  404 and 403 and all of `Folders` model the intended behaviour, not the as-written one.
- Mock constants such as `aiConfidence`, and timestamps other than `createdAt`.
- Concurrency: each handler is one atomic step. Races between the cycle check and the
  save, and between the cascade's two deletions, are not modelled.
- Folders.FolderTree.Breadcrumb: requires an acyclic tree, because the loop does not end
  on a cycle.
- Folders.FolderTree.AllSubfolders: requires an acyclic tree, because the recursion does
  not end on a cycle.
- Folders.FolderTree.DeleteFolder: requires an acyclic tree, because the recursion does
  not end on a cycle.
- Folders.Updated and Folders.UpdateKeepsConsistent: require an acyclic tree, because
  the ancestor walk does not end on a cycle. An accepted self-move makes one, and
  updates on the tree after it are not modelled.
- Folders.FolderTree.UpdateFolder: requires an acyclic tree. It promises the tree stays
  acyclic only for a move to another folder, because a self-move is accepted.
- Folders.RootOf: when a caller has several root folders, the model picks the one with
  the least id. The store returns whichever it finds first.
- Documents.ExtName: a name ending in `/` is not treated specially. Multer file names
  never contain one.
- Documents.DocumentStore.UploadDocument, Folders.FolderTree.CreateFolder,
  Categories.CategoryTable.CreateCategory and Tags.TagTable.CreateTag: each requires
  a fresh id, as the store guarantees.
- Sorting ties: equal keys keep the id order of the map, as a stable sort would. The
  store's order among ties is unspecified.

## Findings

| source | as written | input that shows it | evidently intended | confidence | as-written member | corrected member |
|---|---|---|---|---|---|---|
| src/utils/index.js:12 | `.trim('-')` is `String.prototype.trim`: it ignores its argument and removes whitespace only, of which none is left | `" a "` gives `"-a-"` | remove leading and trailing hyphens, giving `"a"` | high; not executed | Slug.EdgeHyphensKept | Slug.TrimmedSlug |
