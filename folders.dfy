// The folder tree: folders linked to their parent folder, each user's root
// folder ("My Drive"), and the documents filed in folders. The handlers list,
// walk, create, move, share and delete folders.
module Folders {
  import opened Common
  import opened Text
  import opened Records
  import opened Seqs
  import Documents

  type FolderMap = map<Id, Folder>
  type DocumentMap = map<Id, Document>

  // ---------------------------------------------------------------------------
  // Parent links
  // ---------------------------------------------------------------------------

  /** The parent link of a stored folder; nothing for an id with no folder. */
  function Step(F: FolderMap, x: Id): Option<Id> {
    if x in F then F[x].parent else None
  }

  /**
   * Where `n` parent links lead from `x`: `x` itself for n = 0; nothing once a
   * link is null or the walk has reached an id with no folder.
   */
  function Up(F: FolderMap, x: Id, n: nat): Option<Id>
    decreases n
  {
    if n == 0 then Some(x)
    else match Step(F, x)
      case None => None
      case Some(p) => Up(F, p, n - 1)
  }

  lemma {:induction false} UpAdd(F: FolderMap, x: Id, n: nat, m: nat)
    ensures Up(F, x, n + m) == match Up(F, x, n) case None => None case Some(y) => Up(F, y, m)
    decreases n
  {
    if n > 0 {
      match Step(F, x) {
        case None =>
        case Some(p) => UpAdd(F, p, n - 1, m);
      }
    }
  }

  /** One more link: the walk of n + 1 steps is the walk of n steps and one `Step`. */
  lemma UpSplit(F: FolderMap, x: Id, n: nat)
    ensures Up(F, x, n + 1) == match Up(F, x, n) case None => None case Some(y) => Step(F, y)
  {
    UpAdd(F, x, n, 1);
  }

  lemma UpNoneStays(F: FolderMap, x: Id, n: nat, m: nat)
    requires Up(F, x, n).None? && n <= m
    ensures Up(F, x, m).None?
  {
    UpAdd(F, x, n, m - n);
  }

  /** `rank` grows along every stored parent link, from parent to child. */
  ghost predicate RankedBy(F: FolderMap, rank: Id -> nat) {
    forall x :: x in F && F[x].parent.Some? && F[x].parent.value in F ==> rank(F[x].parent.value) < rank(x)
  }

  /** No folder is its own ancestor: some ranking orders every link. */
  ghost predicate Acyclic(F: FolderMap) {
    exists rank: Id -> nat :: RankedBy(F, rank)
  }

  /** `x` lies strictly below `a`. */
  ghost predicate IsDescendant(F: FolderMap, x: Id, a: Id) {
    exists n: nat :: 1 <= n && Up(F, x, n) == Some(a)
  }

  /** `x` is `a` or lies below it. */
  ghost predicate InSubtree(F: FolderMap, x: Id, a: Id) {
    exists n: nat :: Up(F, x, n) == Some(a)
  }

  /** Walking up from `x` meets a parent id with no folder behind it. */
  ghost predicate ReachesMissing(F: FolderMap, x: Id) {
    exists n: nat :: Up(F, x, n).Some? && Up(F, x, n).value !in F
  }

  ghost function Descendants(F: FolderMap, a: Id): set<Id> {
    set x | x in F && IsDescendant(F, x, a)
  }

  ghost function Subtree(F: FolderMap, a: Id): set<Id> {
    set x | x in F && InSubtree(F, x, a)
  }

  lemma {:induction false} RankAlongWalk(F: FolderMap, rank: Id -> nat, x: Id, n: nat)
    requires RankedBy(F, rank) && x in F && 1 <= n
    requires Up(F, x, n).Some? && Up(F, x, n).value in F
    ensures rank(Up(F, x, n).value) < rank(x)
    decreases n
  {
    var p := Step(F, x).value;
    if n > 1 {
      assert Step(F, p).Some?;
      RankAlongWalk(F, rank, p, n - 1);
    }
  }

  /** In an acyclic tree no folder lies below itself. */
  lemma NoSelfDescendant(F: FolderMap, x: Id)
    requires Acyclic(F)
    ensures !IsDescendant(F, x, x)
  {
    if x in F && IsDescendant(F, x, x) {
      var rank :| RankedBy(F, rank);
      var n: nat :| 1 <= n && Up(F, x, n) == Some(x);
      RankAlongWalk(F, rank, x, n);
    }
  }

  /** A folder lies below `a` exactly when its parent is `a` or it lies below a child of `a`. */
  lemma DescendantsSplit(F: FolderMap, a: Id, x: Id)
    ensures x in Descendants(F, a) <==>
            x in F && (F[x].parent == Some(a)
                       || exists c :: c in F && F[c].parent == Some(a) && x in Descendants(F, c))
  {
    if x in Descendants(F, a) {
      var n: nat :| 1 <= n && Up(F, x, n) == Some(a);
      if n == 1 {
        assert Step(F, x) == Some(a);
      } else {
        UpSplit(F, x, n - 1);
        var c := Up(F, x, n - 1).value;
        assert c in F && F[c].parent == Some(a);
        assert x in Descendants(F, c);
      }
    }
    if x in F && F[x].parent == Some(a) {
      assert Up(F, x, 1) == Some(a);
    }
    if x in F && exists c :: c in F && F[c].parent == Some(a) && x in Descendants(F, c) {
      var c :| c in F && F[c].parent == Some(a) && x in Descendants(F, c);
      var m: nat :| 1 <= m && Up(F, x, m) == Some(c);
      UpAdd(F, x, m, 1);
      assert Up(F, c, 1) == Some(a);
      assert Up(F, x, m + 1) == Some(a);
    }
  }

  /** A child's descendants are strictly fewer than its parent's. */
  lemma ChildDescendantsSmaller(F: FolderMap, c: Id, a: Id)
    requires Acyclic(F) && c in F && F[c].parent == Some(a)
    ensures Descendants(F, c) < Descendants(F, a)
  {
    forall x | x in Descendants(F, c) ensures x in Descendants(F, a) {
      DescendantsSplit(F, a, x);
    }
    assert Up(F, c, 1) == Some(a);
    assert c in Descendants(F, a);
    NoSelfDescendant(F, c);
  }

  lemma SubtreeIsRootAndDescendants(F: FolderMap, a: Id)
    requires a in F
    ensures Subtree(F, a) == {a} + Descendants(F, a)
  {
    assert Up(F, a, 0) == Some(a);
    forall x | x in Subtree(F, a) ensures x in {a} + Descendants(F, a) {
      var n: nat :| Up(F, x, n) == Some(a);
      if n == 0 { assert x == a; }
    }
  }

  // ---------------------------------------------------------------------------
  // Reads: root listing, hierarchy, breadcrumb
  // ---------------------------------------------------------------------------

  /** Every folder is filed under its own id and has a trimmed, non-empty name. */
  ghost predicate FoldersConsistent(F: FolderMap) {
    forall x :: x in F ==> F[x].id == x && StoredFolder(F[x])
  }

  /** `findOne({owner, isRoot: true})`: the caller's first root folder in natural order. */
  function RootOf(F: FolderMap, user: Id): (r: Option<Id>)
    ensures r.Some? ==> r.value in F && F[r.value].owner == user && F[r.value].isRoot
    ensures r.Some? ==> forall x :: x in F && F[x].owner == user && F[x].isRoot ==> r.value <= x
    ensures r.None? ==> forall x :: x in F ==> !(F[x].owner == user && F[x].isRoot)
  {
    var roots := set x | x in F && F[x].owner == user && F[x].isRoot;
    assert forall x :: x in F && F[x].owner == user && F[x].isRoot ==> x in roots;
    if roots == {} then None else Some(MinOf(roots))
  }

  lemma NewestFirstIsPreorder()
    ensures TotalPreorder(NewerFolder()) && TotalPreorder(NewerDocument())
  {
  }

  datatype RootListing = RootListing(rootFolder: Option<Folder>, folders: seq<Folder>)

  /**
   * `getRootFolders`: the caller's root folder, and the caller's non-root
   * folders directly under it (directly under nothing when there is no
   * root), newest first.
   */
  function RootFolders(F: FolderMap, user: Id): (r: RootListing)
    ensures r.rootFolder.Some? <==> exists x :: x in F && F[x].owner == user && F[x].isRoot
    ensures r.rootFolder.Some? ==> r.rootFolder.value in F.Values
                                   && r.rootFolder.value.isRoot && r.rootFolder.value.owner == user
    ensures forall f :: f in r.folders <==>
              && f in F.Values && f.owner == user && !f.isRoot
              && f.parent == (if r.rootFolder.Some? then Some(r.rootFolder.value.id) else None)
    ensures SortedBy(r.folders, NewerFolder())
  {
    var root := RootOf(F, user);
    var rootFolder := if root.Some? then Some(F[root.value]) else None;
    var parent := if rootFolder.Some? then Some(rootFolder.value.id) else None;
    var children := ValuesWhere(F, (f: Folder) => f.owner == user && f.parent == parent && !f.isRoot);
    NewestFirstIsPreorder();
    var sorted := SortBy(children, NewerFolder());
    assert forall f :: f in sorted <==> f in children by {
      forall f ensures f in sorted <==> f in children {
        assert f in sorted <==> f in multiset(sorted);
      }
    }
    RootListing(rootFolder, sorted)
  }

  datatype Hierarchy = Hierarchy(folder: Folder, subfolders: seq<Folder>, documents: seq<Document>)

  /**
   * `getFolderHierarchy`: for the owner, or anyone when the folder is public,
   * the folder, every folder whose parent it is (whoever owns them) and every
   * document filed in it, each newest first.
   */
  function FolderHierarchy(F: FolderMap, D: DocumentMap, caller: Id, fid: Id): (r: Result<Hierarchy>)
    ensures fid !in F ==> r == Err(NotFound, "Folder not found")
    ensures fid in F && F[fid].owner != caller && !F[fid].isPublic ==> r == Err(Forbidden, "Access denied")
    ensures r.Ok? <==> fid in F && (F[fid].owner == caller || F[fid].isPublic)
    ensures r.Ok? ==> r.value.folder == F[fid]
    ensures r.Ok? ==> forall f :: f in r.value.subfolders <==> f in F.Values && f.parent == Some(fid)
    ensures r.Ok? ==> forall d :: d in r.value.documents <==> d in D.Values && d.folder == Some(fid)
    ensures r.Ok? ==> SortedBy(r.value.subfolders, NewerFolder()) && SortedBy(r.value.documents, NewerDocument())
  {
    if fid !in F then Err(NotFound, "Folder not found")
    else if F[fid].owner != caller && !F[fid].isPublic then Err(Forbidden, "Access denied")
    else
      NewestFirstIsPreorder();
      var subs := SortedWhere(F, (f: Folder) => f.parent == Some(fid), NewerFolder());
      var docs := SortedWhere(D, (d: Document) => d.folder == Some(fid), NewerDocument());
      Ok(Hierarchy(F[fid], subs, docs))
  }

  /** One element of a breadcrumb. */
  datatype Crumb = Crumb(id: Id, name: string)

  /**
   * `crumbs` lists the stored folders met walking up from `fid`, topmost
   * first and `fid` last; the walk stops at a null parent or at a parent id
   * with no folder.
   */
  predicate IsBreadcrumb(F: FolderMap, fid: Id, crumbs: seq<Crumb>) {
    CrumbsBelow(F, fid, crumbs) && (Up(F, fid, |crumbs|).None? || Up(F, fid, |crumbs|).value !in F)
  }

  /** The last `|crumbs|` crumbs of a breadcrumb for `fid`, without the end of the walk. */
  predicate CrumbsBelow(F: FolderMap, fid: Id, crumbs: seq<Crumb>) {
    forall k :: 0 <= k < |crumbs| ==>
      && Up(F, fid, k).Some? && Up(F, fid, k).value in F
      && crumbs[|crumbs| - 1 - k] == Crumb(Up(F, fid, k).value, F[Up(F, fid, k).value].name)
  }

  lemma CrumbsExtend(F: FolderMap, fid: Id, crumbs: seq<Crumb>, x: Id)
    requires CrumbsBelow(F, fid, crumbs) && Up(F, fid, |crumbs|) == Some(x) && x in F
    ensures CrumbsBelow(F, fid, [Crumb(x, F[x].name)] + crumbs)
  {
    var c' := [Crumb(x, F[x].name)] + crumbs;
    forall k | 0 <= k < |c'|
      ensures && Up(F, fid, k).Some? && Up(F, fid, k).value in F
              && c'[|c'| - 1 - k] == Crumb(Up(F, fid, k).value, F[Up(F, fid, k).value].name)
    {
      if k < |crumbs| {
        assert c'[|c'| - 1 - k] == crumbs[|crumbs| - 1 - k];
      }
    }
  }

  /** At most one breadcrumb fits a folder. */
  lemma BreadcrumbUnique(F: FolderMap, fid: Id, a: seq<Crumb>, b: seq<Crumb>)
    requires IsBreadcrumb(F, fid, a) && IsBreadcrumb(F, fid, b)
    ensures a == b
  {
    assert |a| == |b|;
    {
      forall i | 0 <= i < |a| ensures a[i] == b[i] {
        var k := |a| - 1 - i;
        assert a[|a| - 1 - k] == Crumb(Up(F, fid, k).value, F[Up(F, fid, k).value].name);
        assert b[|b| - 1 - k] == Crumb(Up(F, fid, k).value, F[Up(F, fid, k).value].name);
      }
    }
  }

  /**
   * A breadcrumb is empty exactly for a missing folder, ends with the folder
   * itself, and starts with a folder whose parent is null or missing.
   */
  lemma BreadcrumbShape(F: FolderMap, fid: Id, crumbs: seq<Crumb>)
    requires FoldersConsistent(F) && IsBreadcrumb(F, fid, crumbs)
    ensures crumbs == [] <==> fid !in F
    ensures fid in F ==> crumbs[|crumbs| - 1] == Crumb(fid, F[fid].name)
    ensures crumbs != [] ==>
              crumbs[0].id in F && (F[crumbs[0].id].parent.None? || F[crumbs[0].id].parent.value !in F)
  {
    assert Up(F, fid, 0) == Some(fid);
    if crumbs != [] {
      var n := |crumbs| - 1;
      assert Up(F, fid, n).Some? && crumbs[0].id == Up(F, fid, n).value;
      UpSplit(F, fid, n);
    }
  }

  // ---------------------------------------------------------------------------
  // Writes: create, move, delete, as transitions of the folder map
  // ---------------------------------------------------------------------------

  datatype FolderAnswer<T> = FolderAnswer(result: Result<T>, folders: FolderMap)

  /** The body of a create request. */
  datatype NewFolderForm = NewFolderForm(name: Option<string>, description: Option<string>, parent: Option<Id>)

  /** The parent a new folder gets: the one named, else the caller's root, else none. */
  function ParentFor(F: FolderMap, caller: Id, form: NewFolderForm): Option<Id> {
    if form.parent.Some? then form.parent else RootOf(F, caller)
  }

  /** `createFolder`: under a parent the caller owns, never a root, private. */
  function Created(F: FolderMap, caller: Id, form: NewFolderForm, newId: Id, now: nat): (r: FolderAnswer<Folder>)
    requires newId !in F
    ensures ParentFor(F, caller, form).Some? && ParentFor(F, caller, form).value !in F ==>
              r.result == Err(NotFound, "Parent folder not found")
    ensures ParentFor(F, caller, form).Some? && ParentFor(F, caller, form).value in F
            && F[ParentFor(F, caller, form).value].owner != caller ==>
              r.result == Err(Forbidden, "Access denied to parent folder")
    ensures r.result.Ok? <==>
              && (ParentFor(F, caller, form).Some? ==>
                    ParentFor(F, caller, form).value in F && F[ParentFor(F, caller, form).value].owner == caller)
              && form.name.Some? && Trim(form.name.value) != ""
    ensures r.result.Err? ==> r.folders == F
    ensures r.result.Ok? ==>
              && r.folders == F[newId := r.result.value] && r.result.value.id == newId
              && StoredFolder(r.result.value) && r.result.value.parent == ParentFor(F, caller, form)
              && r.result.value.owner == caller && !r.result.value.isRoot && !r.result.value.isPublic
              && r.result.value.name == Trim(form.name.value)
              && r.result.value.description == (if Truthy(form.description) then form.description.value else "")
  {
    var p := ParentFor(F, caller, form);
    if p.Some? && p.value !in F then FolderAnswer(Err(NotFound, "Parent folder not found"), F)
    else if p.Some? && F[p.value].owner != caller then FolderAnswer(Err(Forbidden, "Access denied to parent folder"), F)
    else
      var description := if Truthy(form.description) then form.description.value else "";
      var f := NewFolder(newId, form.name.GetOr(""), description, p, caller, false, now);
      TrimIdempotent(form.name.GetOr(""));
      SaveFolder(F, f)
  }

  /** `folder.save()`: the required check on the (already trimmed) name. */
  function SaveFolder(F: FolderMap, f: Folder): (r: FolderAnswer<Folder>)
    ensures r.result.Ok? <==> f.name != ""
    ensures r.result.Err? ==> r == FolderAnswer(Err(ServerError, FolderNameRequired), F)
    ensures r.result.Ok? ==> r == FolderAnswer(Ok(f), F[f.id := f])
  {
    if f.name == "" then FolderAnswer(Err(ServerError, FolderNameRequired), F)
    else FolderAnswer(Ok(f), F[f.id := f])
  }

  /** Creation keeps every folder filed under its own id with a stored name. */
  lemma CreateKeepsConsistent(F: FolderMap, caller: Id, form: NewFolderForm, newId: Id, now: nat)
    requires FoldersConsistent(F) && newId !in F
    ensures FoldersConsistent(Created(F, caller, form, newId, now).folders)
  {
    var r := Created(F, caller, form, newId, now);
    if r.result.Ok? {
      StoreKeepsConsistent(F, r.result.value);
    }
  }

  /** Storing a valid folder under its own id keeps the map consistent. */
  lemma StoreKeepsConsistent(F: FolderMap, f: Folder)
    requires FoldersConsistent(F) && StoredFolder(f)
    ensures FoldersConsistent(F[f.id := f])
  {
    var m := F[f.id := f];
    forall x | x in m ensures m[x].id == x && StoredFolder(m[x]) {
      if x != f.id { assert m[x] == F[x]; }
    }
  }

  /** A new leaf, which no folder names as its parent and which is not its own parent, keeps the tree acyclic. */
  lemma LeafKeepsAcyclic(F: FolderMap, newId: Id, f: Folder)
    requires Acyclic(F) && newId !in F && f.parent != Some(newId)
    requires forall x :: x in F ==> F[x].parent != Some(newId)
    ensures Acyclic(F[newId := f])
  {
    var rank :| RankedBy(F, rank);
    var top := if f.parent.Some? && f.parent.value in F then rank(f.parent.value) + 1 else 0;
    var rank' := (x: Id) => if x == newId then top else rank(x);
    var F' := F[newId := f];
    forall x | x in F' && F'[x].parent.Some? && F'[x].parent.value in F'
      ensures rank'(F'[x].parent.value) < rank'(x)
    {
      if x != newId {
        assert F'[x] == F[x] && F[x].parent.value != newId;
      }
    }
    assert RankedBy(F', rank');
  }

  /** Creating a folder under a fresh id keeps the tree acyclic. */
  lemma CreateKeepsAcyclic(F: FolderMap, caller: Id, form: NewFolderForm, newId: Id, now: nat)
    requires Acyclic(F) && newId !in F
    requires forall x :: x in F ==> F[x].parent != Some(newId)
    ensures Acyclic(Created(F, caller, form, newId, now).folders)
  {
    var r := Created(F, caller, form, newId, now);
    if r.result.Ok? {
      LeafKeepsAcyclic(F, newId, r.result.value);
    }
  }

  /** The body of an update request. */
  datatype FolderChanges = FolderChanges(name: Option<string>, description: Option<string>, parent: Option<Id>)

  /** The request names a parent other than the current one. */
  predicate Moves(f: Folder, c: FolderChanges) {
    c.parent.Some? && c.parent != f.parent
  }

  /** The record after the assignments of an update; the name goes through the trim setter. */
  function Edited(f: Folder, c: FolderChanges): Folder {
    f.(parent := if Moves(f, c) then c.parent else f.parent,
       name := if Truthy(c.name) then Trim(c.name.value) else f.name,
       description := c.description.GetOr(f.description))
  }

  /** The assignments of `updateFolder`, one field at a time. */
  method AssignChanges(f: Folder, c: FolderChanges) returns (g: Folder)
    ensures g == Edited(f, c)
  {
    g := f;
    if Moves(f, c) {
      g := g.(parent := c.parent);
    }
    if Truthy(c.name) {
      g := g.(name := Trim(c.name.value));
    }
    if c.description.Some? {
      g := g.(description := c.description.value);
    }
  }

  /** What the ancestor walk of the move check concludes. */
  datatype Verdict = Passed | Circular | Dangling

  /**
   * The walk starts at the new parent `p` and compares each parent link it
   * follows with `fid`: it finds `fid` when `p` lies below `fid`, and fails
   * on the first link to a missing folder otherwise. `p` itself is never
   * compared with `fid`.
   */
  ghost function MoveVerdict(F: FolderMap, fid: Id, p: Id): Verdict {
    if IsDescendant(F, p, fid) then Circular
    else if ReachesMissing(F, p) then Dangling
    else Passed
  }

  /** The error the walk raises when it loads a missing parent. */
  const NullParent := "Cannot read properties of null (reading 'parent')"

  /** A move, if the request asks for one, names an existing parent of the caller's outside the subtree. */
  ghost predicate MoveAllowed(F: FolderMap, caller: Id, fid: Id, c: FolderChanges)
    requires fid in F
  {
    Moves(F[fid], c) ==>
      && c.parent.value in F && F[c.parent.value].owner == caller
      && MoveVerdict(F, fid, c.parent.value) == Passed
  }

  /** The trim setter does not leave the required name empty. */
  predicate NameAccepted(c: FolderChanges) {
    !(Truthy(c.name) && Trim(c.name.value) == "")
  }

  /**
   * `updateFolder`: every rejection comes before any assignment is saved. The
   * tree must be acyclic, because the ancestor walk does not end on a cycle.
   */
  ghost function Updated(F: FolderMap, caller: Id, fid: Id, c: FolderChanges): (r: FolderAnswer<Folder>)
    requires FoldersConsistent(F) && Acyclic(F)
    ensures fid !in F ==> r.result == Err(NotFound, "Folder not found")
    ensures fid in F && F[fid].owner != caller ==> r.result == Err(Forbidden, "Access denied")
    ensures fid in F && F[fid].owner == caller ==> r == UpdatedOwned(F, caller, fid, c)
    ensures r.result.Ok? <==>
              fid in F && F[fid].owner == caller && MoveAllowed(F, caller, fid, c) && NameAccepted(c)
    ensures r.result.Err? && r.result.status == BadRequest ==>
              r.result.message == "Cannot move folder to its own subfolder"
    ensures r.result.Err? && r.result.status == BadRequest <==>
              && fid in F && F[fid].owner == caller && Moves(F[fid], c)
              && c.parent.value in F && F[c.parent.value].owner == caller
              && IsDescendant(F, c.parent.value, fid)
    ensures r.result.Err? ==> r.folders == F
    ensures r.result.Ok? ==>
              var f := r.result.value;
              && fid in F && f == Edited(F[fid], c) && r.folders == F[fid := f] && StoredFolder(f)
              && f.id == fid && f.owner == caller && f.isRoot == F[fid].isRoot
              && f.isPublic == F[fid].isPublic && f.createdAt == F[fid].createdAt
              && (Moves(F[fid], c) ==>
                    && f.parent == c.parent && c.parent.value in F && F[c.parent.value].owner == caller
                    && !IsDescendant(F, c.parent.value, fid))
              && (!Moves(F[fid], c) ==> f.parent == F[fid].parent)
  {
    if fid !in F then FolderAnswer(Err(NotFound, "Folder not found"), F)
    else if F[fid].owner != caller then FolderAnswer(Err(Forbidden, "Access denied"), F)
    else UpdatedOwned(F, caller, fid, c)
  }

  /** `updateFolder` once the folder is known to be the caller's: the checks on the new parent, then the save. */
  ghost function UpdatedOwned(F: FolderMap, caller: Id, fid: Id, c: FolderChanges): (r: FolderAnswer<Folder>)
    requires FoldersConsistent(F) && Acyclic(F) && fid in F && F[fid].owner == caller
    ensures Moves(F[fid], c) && c.parent.value !in F ==>
              r == FolderAnswer(Err(NotFound, "Parent folder not found"), F)
    ensures Moves(F[fid], c) && c.parent.value in F && F[c.parent.value].owner != caller ==>
              r == FolderAnswer(Err(Forbidden, "Access denied to parent folder"), F)
    ensures Moves(F[fid], c) && c.parent.value in F && F[c.parent.value].owner == caller ==>
              && (IsDescendant(F, c.parent.value, fid) ==>
                    r == FolderAnswer(Err(BadRequest, "Cannot move folder to its own subfolder"), F))
              && (!IsDescendant(F, c.parent.value, fid) && ReachesMissing(F, c.parent.value) ==>
                    r == FolderAnswer(Err(ServerError, NullParent), F))
    ensures MoveAllowed(F, caller, fid, c) ==> r == SaveEdited(F, fid, c)
  {
    var moving := Moves(F[fid], c);
    if moving && c.parent.value !in F then FolderAnswer(Err(NotFound, "Parent folder not found"), F)
    else if moving && F[c.parent.value].owner != caller then
      FolderAnswer(Err(Forbidden, "Access denied to parent folder"), F)
    else if moving && MoveVerdict(F, fid, c.parent.value) == Circular then
      FolderAnswer(Err(BadRequest, "Cannot move folder to its own subfolder"), F)
    else if moving && MoveVerdict(F, fid, c.parent.value) == Dangling then
      FolderAnswer(Err(ServerError, NullParent), F)
    else SaveEdited(F, fid, c)
  }

  /** The assignments of `updateFolder` and `folder.save()`, once every check has passed. */
  function SaveEdited(F: FolderMap, fid: Id, c: FolderChanges): (r: FolderAnswer<Folder>)
    requires FoldersConsistent(F) && fid in F
    ensures r.result.Ok? <==> NameAccepted(c)
    ensures r.result.Err? ==> r == FolderAnswer(Err(ServerError, FolderNameRequired), F)
    ensures r.result.Ok? ==> r == FolderAnswer(Ok(Edited(F[fid], c)), F[fid := Edited(F[fid], c)])
    ensures r.result.Ok? ==> StoredFolder(r.result.value)
  {
    var f := Edited(F[fid], c);
    assert f.id == fid && StoredFolder(F[fid]);
    assert Trim(f.name) == f.name by {
      if Truthy(c.name) { TrimIdempotent(c.name.value); }
    }
    SaveFolder(F, f)
  }

  lemma UpdateKeepsConsistent(F: FolderMap, caller: Id, fid: Id, c: FolderChanges)
    requires FoldersConsistent(F) && Acyclic(F)
    ensures FoldersConsistent(Updated(F, caller, fid, c).folders)
  {
    var r := Updated(F, caller, fid, c);
    if r.result.Ok? {
      StoreKeepsConsistent(F, r.result.value);
    }
  }

  /**
   * Re-parenting `fid` under `p`, where `p` is neither `fid` nor below it,
   * keeps the tree acyclic: the moved subtree is lifted above `p`'s rank.
   */
  lemma MoveKeepsAcyclic(F: FolderMap, fid: Id, p: Id, g: Folder)
    requires Acyclic(F) && fid in F && p in F && p != fid && !IsDescendant(F, p, fid)
    requires g.parent == Some(p)
    ensures Acyclic(F[fid := g])
  {
    var rank :| RankedBy(F, rank);
    var F' := F[fid := g];
    var lift := rank(p) + 1;
    var rank' := (x: Id) => if InSubtree(F, x, fid) then rank(x) + lift else rank(x);
    assert !InSubtree(F, p, fid);
    assert Up(F, fid, 0) == Some(fid);
    forall x | x in F' && F'[x].parent.Some? && F'[x].parent.value in F'
      ensures rank'(F'[x].parent.value) < rank'(x)
    {
      if x != fid {
        var y := F[x].parent.value;
        assert Step(F, x) == Some(y);
        if InSubtree(F, x, fid) {
          var n: nat :| Up(F, x, n) == Some(fid);
          assert Up(F, y, n - 1) == Some(fid);
        } else if InSubtree(F, y, fid) {
          var n: nat :| Up(F, y, n) == Some(fid);
          assert Up(F, x, n + 1) == Some(fid);
        }
      }
    }
    assert RankedBy(F', rank');
  }

  /** What an update leaves behind: the saved folder under its id, or the tree unchanged. */
  lemma UpdateOutcome(F: FolderMap, caller: Id, fid: Id, c: FolderChanges)
    requires FoldersConsistent(F) && Acyclic(F)
    ensures var r := Updated(F, caller, fid, c);
      && r.folders == (if r.result.Ok? then F[fid := r.result.value] else F)
      && FoldersConsistent(r.folders)
      && (c.parent != Some(fid) ==> Acyclic(r.folders))
  {
    UpdateKeepsConsistent(F, caller, fid, c);
    if c.parent != Some(fid) {
      UpdateKeepsAcyclic(F, caller, fid, c);
    }
  }

  /** An accepted update that does not make a folder its own parent keeps the tree acyclic. */
  lemma UpdateKeepsAcyclic(F: FolderMap, caller: Id, fid: Id, c: FolderChanges)
    requires FoldersConsistent(F) && Acyclic(F)
    requires c.parent != Some(fid)
    ensures Acyclic(Updated(F, caller, fid, c).folders)
  {
    var r := Updated(F, caller, fid, c);
    if r.result.Ok? {
      if Moves(F[fid], c) {
        MoveKeepsAcyclic(F, fid, c.parent.value, r.result.value);
      } else {
        SameParentKeepsAcyclic(F, fid, r.result.value);
      }
    }
  }

  /** Replacing a folder by one with the same parent keeps every link ranked. */
  lemma SameParentKeepsAcyclic(F: FolderMap, fid: Id, g: Folder)
    requires Acyclic(F) && fid in F && g.parent == F[fid].parent
    ensures Acyclic(F[fid := g])
  {
    var rank :| RankedBy(F, rank);
    var m := F[fid := g];
    forall x | x in m && m[x].parent.Some? && m[x].parent.value in m
      ensures rank(m[x].parent.value) < rank(x)
    {
      assert m[x].parent == F[x].parent;
    }
    assert RankedBy(m, rank);
  }

  /**
   * Moving a folder under itself passes the walk, which starts above the new
   * parent, and leaves a folder that is its own parent.
   */
  lemma SelfMoveAccepted(F: FolderMap, caller: Id, fid: Id)
    requires FoldersConsistent(F) && Acyclic(F)
    requires fid in F && F[fid].owner == caller && F[fid].parent != Some(fid)
    requires !ReachesMissing(F, fid)
    ensures var r := Updated(F, caller, fid, FolderChanges(None, None, Some(fid)));
            && r.result.Ok? && r.folders[fid].parent == Some(fid)
            && !Acyclic(r.folders)
  {
    NoSelfDescendant(F, fid);
    var r := Updated(F, caller, fid, FolderChanges(None, None, Some(fid)));
    assert r.result.Ok?;
    forall rank: Id -> nat ensures !RankedBy(r.folders, rank) {
      assert fid in r.folders && r.folders[fid].parent == Some(fid);
    }
  }

  /** The first `k` links of the walk from `x` stay on stored folders other than `fid`. */
  ghost predicate WalkClear(F: FolderMap, x: Id, k: nat, fid: Id) {
    && (forall j :: 0 <= j <= k ==> Up(F, x, j).Some? && Up(F, x, j).value in F)
    && (forall j :: 1 <= j <= k ==> Up(F, x, j) != Some(fid))
  }

  lemma WalkClearStep(F: FolderMap, x: Id, k: nat, fid: Id, q: Id)
    requires WalkClear(F, x, k, fid) && Up(F, x, k + 1) == Some(q) && q in F && q != fid
    ensures WalkClear(F, x, k + 1, fid)
  {
  }

  /** The walk from `x` stayed on stored folders other than `fid` and then met a null parent. */
  lemma WalkEndsAtTop(F: FolderMap, x: Id, k: nat, fid: Id)
    requires WalkClear(F, x, k, fid)
    requires Up(F, x, k + 1).None?
    ensures MoveVerdict(F, fid, x) == Passed
  {
    if IsDescendant(F, x, fid) {
      var n: nat :| 1 <= n && Up(F, x, n) == Some(fid);
      if n > k { UpNoneStays(F, x, k + 1, n); }
    }
    if ReachesMissing(F, x) {
      var n: nat :| Up(F, x, n).Some? && Up(F, x, n).value !in F;
      if n > k { UpNoneStays(F, x, k + 1, n); }
    }
  }

  /** The walk from `x` stayed on stored folders other than `fid` and then met a missing parent. */
  lemma WalkEndsAtMissing(F: FolderMap, x: Id, k: nat, fid: Id, q: Id)
    requires WalkClear(F, x, k, fid)
    requires Up(F, x, k + 1) == Some(q) && q !in F && q != fid
    ensures MoveVerdict(F, fid, x) == Dangling
  {
    UpSplit(F, x, k + 1);
    if IsDescendant(F, x, fid) {
      var n: nat :| 1 <= n && Up(F, x, n) == Some(fid);
      if n > k + 1 { UpNoneStays(F, x, k + 2, n); }
    }
  }

  /** The ids whose folder names `a` as parent, in natural order. */
  function ChildIds(F: FolderMap, a: Id): (r: seq<Id>)
    ensures forall x :: x in r <==> x in F && F[x].parent == Some(a)
  {
    NaturalOrder(set x | x in F && F[x].parent == Some(a))
  }

  /** `x` lies below one of the first `i` folders of `subs`. */
  ghost predicate BelowSome(F: FolderMap, subs: seq<Id>, i: nat, x: Id)
    requires i <= |subs|
  {
    exists j :: 0 <= j < i && x in Descendants(F, subs[j])
  }

  lemma BelowSomeStep(F: FolderMap, subs: seq<Id>, i: nat)
    requires i < |subs|
    ensures forall x :: BelowSome(F, subs, i + 1, x) <==> BelowSome(F, subs, i, x) || x in Descendants(F, subs[i])
  {
    forall x | BelowSome(F, subs, i + 1, x) && !BelowSome(F, subs, i, x)
      ensures x in Descendants(F, subs[i])
    {
      var j :| 0 <= j < i + 1 && x in Descendants(F, subs[j]);
      assert j == i;
    }
  }

  /** The descendants of `a` are its children and whatever lies below one of them. */
  lemma ChildrenCoverDescendants(F: FolderMap, a: Id, subs: seq<Id>, x: Id)
    requires forall y :: y in subs <==> y in F && F[y].parent == Some(a)
    ensures x in Descendants(F, a) <==> x in subs || BelowSome(F, subs, |subs|, x)
  {
    DescendantsSplit(F, a, x);
    if x in Descendants(F, a) && x !in subs {
      var c :| c in F && F[c].parent == Some(a) && x in Descendants(F, c);
      var j :| 0 <= j < |subs| && subs[j] == c;
    }
    if x in subs {
      assert Up(F, x, 1) == Some(a);
    }
    if BelowSome(F, subs, |subs|, x) {
      var j :| 0 <= j < |subs| && x in Descendants(F, subs[j]);
      assert subs[j] in F && F[subs[j]].parent == Some(a);
    }
  }

  /** The folder map without the folders in `S` (`Folder.deleteMany` on `_id`). */
  function WithoutFolders(F: FolderMap, S: set<Id>): (r: FolderMap)
    ensures r.Keys == F.Keys - S && forall x :: x in r ==> r[x] == F[x]
  {
    map x | x in F && x !in S :: F[x]
  }

  /** The document map without the documents filed in `S` (`Document.deleteMany` on `folder`). */
  function WithoutDocumentsIn(D: DocumentMap, S: set<Id>): (r: DocumentMap)
    ensures forall id :: id in r <==> id in D && !(D[id].folder.Some? && D[id].folder.value in S)
    ensures forall id :: id in r ==> r[id] == D[id]
  {
    map id | id in D && !(D[id].folder.Some? && D[id].folder.value in S) :: D[id]
  }

  /** The child of a folder in a subtree is in the subtree. */
  lemma ChildInSubtree(F: FolderMap, x: Id, a: Id)
    requires x in F && F[x].parent.Some? && InSubtree(F, F[x].parent.value, a)
    ensures InSubtree(F, x, a)
  {
    var n: nat :| Up(F, F[x].parent.value, n) == Some(a);
    assert Up(F, x, n + 1) == Some(a);
  }

  /** Removing folders never creates a cycle. */
  lemma RemovalKeepsAcyclic(F: FolderMap, S: set<Id>)
    requires Acyclic(F)
    ensures Acyclic(WithoutFolders(F, S))
  {
    var rank :| RankedBy(F, rank);
    assert RankedBy(WithoutFolders(F, S), rank);
  }

  /**
   * Removing a whole subtree leaves no folder whose parent was stored before
   * and is gone now, and no document filed in a removed folder.
   */
  lemma SubtreeRemovalLeavesNoOrphans(F: FolderMap, D: DocumentMap, fid: Id)
    ensures var F' := WithoutFolders(F, Subtree(F, fid));
            forall x :: x in F' && F[x].parent.Some? && F[x].parent.value in F ==> F[x].parent.value in F'
    ensures var D' := WithoutDocumentsIn(D, Subtree(F, fid));
            forall id :: id in D' && D'[id].folder.Some? ==> D'[id].folder.value !in Subtree(F, fid)
  {
    var S := Subtree(F, fid);
    forall x | x in F && x !in S && F[x].parent.Some? && F[x].parent.value in F
      ensures F[x].parent.value !in S
    {
      if F[x].parent.value in S {
        ChildInSubtree(F, x, fid);
      }
    }
  }

  datatype TreeAnswer = TreeAnswer(result: Result<()>, folders: FolderMap, documents: DocumentMap)

  /**
   * `deleteFolder`: the owner may delete any folder but a root; the folder,
   * everything below it and every document filed in any of them go.
   */
  ghost function FolderDeleted(F: FolderMap, D: DocumentMap, caller: Id, fid: Id): (r: TreeAnswer)
    ensures fid !in F ==> r.result == Err(NotFound, "Folder not found")
    ensures fid in F && F[fid].owner != caller ==> r.result == Err(Forbidden, "Access denied")
    ensures r.result.Ok? <==> fid in F && F[fid].owner == caller && !F[fid].isRoot
    ensures r.result.Err? ==> r.folders == F && r.documents == D
    ensures r.result.Ok? ==> fid !in r.folders && r.folders.Keys == F.Keys - Subtree(F, fid)
    ensures r.result.Ok? ==>
              && r.folders == WithoutFolders(F, Subtree(F, fid))
              && r.documents == WithoutDocumentsIn(D, Subtree(F, fid))
  {
    if fid !in F then TreeAnswer(Err(NotFound, "Folder not found"), F, D)
    else if F[fid].owner != caller then TreeAnswer(Err(Forbidden, "Access denied"), F, D)
    else if F[fid].isRoot then TreeAnswer(Err(BadRequest, "Cannot delete root folder (My Drive)"), F, D)
    else
      assert Up(F, fid, 0) == Some(fid);
      var S := Subtree(F, fid);
      TreeAnswer(Ok(()), WithoutFolders(F, S), WithoutDocumentsIn(D, S))
  }

  // ---------------------------------------------------------------------------
  // The two collections as the handlers change them in place
  // ---------------------------------------------------------------------------

  class FolderTree {
    var folders: FolderMap
    var docs: DocumentMap

    ghost predicate Valid()
      reads this
    {
      FoldersConsistent(folders) && Documents.Consistent(docs)
    }

    constructor ()
      ensures folders == map[] && docs == map[] && Valid()
    {
      folders := map[];
      docs := map[];
    }

    method GetRootFolders(caller: Id) returns (r: RootListing)
      ensures r == RootFolders(folders, caller)
    {
      r := RootFolders(folders, caller);
    }

    method GetFolderHierarchy(caller: Id, fid: Id) returns (r: Result<Hierarchy>)
      ensures r == FolderHierarchy(folders, docs, caller, fid)
    {
      r := FolderHierarchy(folders, docs, caller, fid);
    }

    /** `getFolderBreadcrumb`: prepends each folder met walking up the parent links. */
    method Breadcrumb(fid: Id) returns (crumbs: seq<Crumb>)
      requires Valid() && Acyclic(folders)
      ensures IsBreadcrumb(folders, fid, crumbs)
    {
      ghost var rank :| RankedBy(folders, rank);
      crumbs := [];
      var current: Option<Folder> := if fid in folders then Some(folders[fid]) else None;
      ghost var k: nat := 0;
      while current.Some?
        invariant |crumbs| == k
        invariant current.Some? ==>
                    && current.value.id in folders && folders[current.value.id] == current.value
                    && Up(folders, fid, k) == Some(current.value.id)
        invariant current.None? ==> Up(folders, fid, k).None? || Up(folders, fid, k).value !in folders
        invariant CrumbsBelow(folders, fid, crumbs)
        decreases if current.Some? then rank(current.value.id) + 1 else 0
      {
        var f := current.value;
        CrumbsExtend(folders, fid, crumbs, f.id);
        crumbs := [Crumb(f.id, f.name)] + crumbs;
        UpSplit(folders, fid, k);
        if f.parent.Some? {
          current := if f.parent.value in folders then Some(folders[f.parent.value]) else None;
        } else {
          current := None;
        }
        k := k + 1;
      }
    }

    /** The ancestor walk of `updateFolder`, from the new parent `p` upwards. */
    method CheckMove(fid: Id, p: Id) returns (v: Verdict)
      requires Valid() && Acyclic(folders) && p in folders
      ensures v == MoveVerdict(folders, fid, p)
    {
      ghost var rank :| RankedBy(folders, rank);
      var check := folders[p];
      ghost var k: nat := 0;
      while check.parent.Some?
        invariant check.id in folders && folders[check.id] == check
        invariant Up(folders, p, k) == Some(check.id)
        invariant WalkClear(folders, p, k, fid)
        decreases rank(check.id)
      {
        var q := check.parent.value;
        UpSplit(folders, p, k);
        if q == fid {
          return Circular;
        }
        if q !in folders {
          WalkEndsAtMissing(folders, p, k, fid, q);
          return Dangling;
        }
        WalkClearStep(folders, p, k, fid, q);
        check := folders[q];
        k := k + 1;
      }
      UpSplit(folders, p, k);
      WalkEndsAtTop(folders, p, k, fid);
      v := Passed;
    }

    method CreateFolder(caller: Id, form: NewFolderForm, newId: Id, now: nat) returns (r: Result<Folder>)
      requires Valid() && newId !in folders
      modifies this
      ensures Valid() && docs == old(docs)
      ensures FolderAnswer(r, folders) == Created(old(folders), caller, form, newId, now)
    {
      var a := Created(folders, caller, form, newId, now);
      CreateKeepsConsistent(folders, caller, form, newId, now);
      folders := a.folders;
      r := a.result;
    }

    /** The checks and the edit of the update, decided before anything is saved. */
    method PlanUpdate(caller: Id, fid: Id, c: FolderChanges) returns (r: Result<Folder>)
      requires Valid() && Acyclic(folders)
      ensures r == Updated(folders, caller, fid, c).result
    {
      ghost var spec := Updated(folders, caller, fid, c);
      if fid !in folders {
        return Err(NotFound, "Folder not found");
      }
      var f := folders[fid];
      if f.owner != caller {
        return Err(Forbidden, "Access denied");
      }
      if c.parent.Some? && c.parent != f.parent {
        var p := c.parent.value;
        if p !in folders {
          return Err(NotFound, "Parent folder not found");
        }
        if folders[p].owner != caller {
          return Err(Forbidden, "Access denied to parent folder");
        }
        var v := CheckMove(fid, p);
        if v == Circular {
          assert spec.result == Err(BadRequest, "Cannot move folder to its own subfolder");
          return Err(BadRequest, "Cannot move folder to its own subfolder");
        }
        if v == Dangling {
          assert spec.result == Err(ServerError, NullParent);
          return Err(ServerError, NullParent);
        }
      }
      f := AssignChanges(f, c);
      if f.name == "" {
        return Err(ServerError, FolderNameRequired);
      }
      r := Ok(f);
    }

    method UpdateFolder(caller: Id, fid: Id, c: FolderChanges) returns (r: Result<Folder>)
      requires Valid() && Acyclic(folders)
      modifies this
      ensures Valid() && docs == old(docs)
      ensures FolderAnswer(r, folders) == Updated(old(folders), caller, fid, c)
      ensures c.parent != Some(fid) ==> Acyclic(folders)
    {
      UpdateOutcome(folders, caller, fid, c);
      r := PlanUpdate(caller, fid, c);
      if r.Ok? {
        folders := folders[fid := r.value];
      }
    }

    /** The recursive `getAllSubfolders`: every folder strictly below `a`. */
    method AllSubfolders(a: Id) returns (all: seq<Id>)
      requires Valid() && Acyclic(folders) && a in folders
      ensures forall x :: x in all <==> x in Descendants(folders, a)
      decreases Descendants(folders, a)
    {
      var subs := ChildIds(folders, a);
      all := subs;
      var i := 0;
      while i < |subs|
        invariant 0 <= i <= |subs|
        invariant forall x :: x in all <==> x in subs || BelowSome(folders, subs, i, x)
      {
        ChildDescendantsSmaller(folders, subs[i], a);
        var nested := AllSubfolders(subs[i]);
        BelowSomeStep(folders, subs, i);
        all := all + nested;
        i := i + 1;
      }
      forall x ensures x in all <==> x in Descendants(folders, a) {
        ChildrenCoverDescendants(folders, a, subs, x);
      }
    }

    method DeleteFolder(caller: Id, fid: Id) returns (r: Result<()>)
      requires Valid() && Acyclic(folders)
      modifies this
      ensures Valid() && Acyclic(folders)
      ensures TreeAnswer(r, folders, docs) == FolderDeleted(old(folders), old(docs), caller, fid)
    {
      if fid !in folders {
        return Err(NotFound, "Folder not found");
      }
      var f := folders[fid];
      if f.owner != caller {
        return Err(Forbidden, "Access denied");
      }
      if f.isRoot {
        return Err(BadRequest, "Cannot delete root folder (My Drive)");
      }
      var subfolders := AllSubfolders(fid);
      var folderIds := [fid] + subfolders;
      var S := set x | x in folderIds;
      SubtreeIsRootAndDescendants(folders, fid);
      assert S == Subtree(folders, fid);
      RemovalKeepsAcyclic(folders, S);
      docs := WithoutDocumentsIn(docs, S);
      folders := WithoutFolders(folders, S);
      r := Ok(());
    }

    /** `shareFolder`: the owner sets the public flag; nothing else changes. */
    method ShareFolder(caller: Id, fid: Id, isPublic: bool) returns (r: Result<Folder>)
      requires Valid()
      modifies this
      ensures Valid() && docs == old(docs)
      ensures fid !in old(folders) ==> r == Err(NotFound, "Folder not found") && folders == old(folders)
      ensures fid in old(folders) && old(folders)[fid].owner != caller ==>
                r == Err(Forbidden, "Access denied") && folders == old(folders)
      ensures fid in old(folders) && old(folders)[fid].owner == caller ==>
                var f := old(folders)[fid].(isPublic := isPublic);
                r == Ok(f) && folders == old(folders)[fid := f]
      ensures Acyclic(old(folders)) ==> Acyclic(folders)
    {
      if fid !in folders {
        return Err(NotFound, "Folder not found");
      }
      var f := folders[fid];
      if f.owner != caller {
        return Err(Forbidden, "Access denied");
      }
      f := f.(isPublic := isPublic);
      if Acyclic(folders) {
        ghost var rank :| RankedBy(folders, rank);
        assert RankedBy(folders[fid := f], rank);
      }
      folders := folders[fid := f];
      r := Ok(f);
    }
  }
}
