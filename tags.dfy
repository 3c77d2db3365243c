// The tag table: list, create with a duplicate check, and delete.
module Tags {
  import opened Common
  import opened Text
  import opened Records
  import opened Seqs

  type TagMap = map<Id, Tag>

  const DefaultTagColor := "#2db7f5"
  const NameRequired := "Name is required"
  const TagExists := "Tag already exists"
  const TagNotFound := "Tag not found"

  /** The `trim` and `lowercase` setters of the name path, in schema order. */
  function StoredName(name: string): string {
    Lower(Trim(name))
  }

  /** A tag as the schema can store it: a non-empty, trimmed, lower-case name. */
  predicate StoredTag(t: Tag) {
    t.name != "" && Trim(t.name) == t.name && Lower(t.name) == t.name
  }

  ghost predicate TagsConsistent(tags: TagMap) {
    forall id :: id in tags ==> tags[id].id == id && StoredTag(tags[id])
  }

  /** No two stored tags share a name. */
  ghost predicate UniqueNames(tags: TagMap) {
    forall a, b :: a in tags && b in tags && tags[a].name == tags[b].name ==> a == b
  }

  /** `Tag.findOne({ name })`. */
  predicate NameTaken(tags: TagMap, name: string) {
    exists id :: id in tags && tags[id].name == name
  }

  /**
   * The value `createTag` looks up: `name.toLowerCase()`, which the query
   * casts through the name path's setters as it would a stored value.
   */
  function LookupName(name: string): string {
    StoredName(Lower(name))
  }

  /** The lookup asks for exactly the name the setters would store. */
  lemma LookupIsStoredName(name: string)
    ensures LookupName(name) == StoredName(name)
  {
    TrimLower(name);
    LowerIdempotent(Trim(name));
  }

  datatype TagAnswer<T> = TagAnswer(result: Result<T>, tags: TagMap)

  /** `getTags`: every stored tag once, newest first. */
  function Listing(tags: TagMap): (r: seq<Tag>)
    ensures |r| == |tags|
    ensures forall t :: t in r <==> t in tags.Values
    ensures SortedBy(r, NewerTag())
  {
    assert KeysWhere(tags, AnyTag()) == tags.Keys;
    NewestFirst();
    SortedWhere(tags, AnyTag(), NewerTag())
  }

  lemma NewestFirst()
    ensures TotalPreorder(NewerTag())
  {
  }

  function AnyTag(): Tag -> bool { (t: Tag) => true }

  function NewerTag(): (Tag, Tag) -> bool {
    (a: Tag, b: Tag) => a.createdAt >= b.createdAt
  }

  /**
   * `createTag`: 400 without a name, 400 when a stored tag has the name the
   * lookup asks for; otherwise the record is saved under a fresh id
   * with its name trimmed and lower-cased, unless that leaves it empty (500).
   */
  function Created(tags: TagMap, name: Option<string>, color: Option<string>, newId: Id, now: nat)
    : (r: TagAnswer<Tag>)
    ensures !Truthy(name) ==> r.result == Err(BadRequest, NameRequired)
    ensures Truthy(name) && NameTaken(tags, LookupName(name.value)) ==> r.result == Err(BadRequest, TagExists)
    ensures r.result.Ok? <==>
              Truthy(name) && !NameTaken(tags, LookupName(name.value)) && StoredName(name.value) != ""
    ensures r.result.Err? ==> r.tags == tags
    ensures r.result.Ok? ==>
              && r.tags == tags[newId := r.result.value] && StoredTag(r.result.value)
              && r.result.value.id == newId && r.result.value.createdAt == now
              && r.result.value.name == StoredName(name.value)
              && r.result.value.color == color.GetOr(DefaultTagColor)
  {
    if !Truthy(name) then TagAnswer(Err(BadRequest, NameRequired), tags)
    else if NameTaken(tags, LookupName(name.value)) then TagAnswer(Err(BadRequest, TagExists), tags)
    else SaveTag(tags, name.value, color, newId, now)
  }

  /** `new Tag({ name, color }).save()`: the setters, the color default and the required check. */
  function SaveTag(tags: TagMap, name: string, color: Option<string>, newId: Id, now: nat): (r: TagAnswer<Tag>)
    ensures r.result.Ok? <==> StoredName(name) != ""
    ensures r.result.Err? ==> r == TagAnswer(Err(ServerError, TagNameRequired), tags)
    ensures r.result.Ok? ==>
              && r.tags == tags[newId := r.result.value] && StoredTag(r.result.value)
              && r.result.value.id == newId && r.result.value.createdAt == now
              && r.result.value.name == StoredName(name)
              && r.result.value.color == color.GetOr(DefaultTagColor)
  {
    var stored := StoredName(name);
    StoredNameIsStored(name);
    if stored == "" then TagAnswer(Err(ServerError, TagNameRequired), tags)
    else
      var t := Tag(newId, stored, color.GetOr(DefaultTagColor), now);
      TagAnswer(Ok(t), tags[newId := t])
  }

  /** The setters produce a trimmed, lower-case name. */
  lemma StoredNameIsStored(name: string)
    ensures var n := StoredName(name); Trim(n) == n && Lower(n) == n
  {
    var t := Trim(name);
    TrimIsTrimmed(name);
    LowerIdempotent(t);
    LowerKeepsTrimmed(t);
    TrimmedFixed(Lower(t));
  }

  lemma LowerKeepsTrimmed(s: string)
    requires Trimmed(s)
    ensures Trimmed(Lower(s))
  {
    if s != [] {
      assert Lower(s)[0] == LowerChar(s[0]);
      assert Lower(s)[|s| - 1] == LowerChar(s[|s| - 1]);
    }
  }

  /** The duplicate check is exact: a created tag never repeats a stored name. */
  lemma CreateKeepsUnique(tags: TagMap, name: Option<string>, color: Option<string>, newId: Id, now: nat)
    requires TagsConsistent(tags) && UniqueNames(tags) && newId !in tags
    ensures TagsConsistent(Created(tags, name, color, newId, now).tags)
    ensures UniqueNames(Created(tags, name, color, newId, now).tags)
  {
    var r := Created(tags, name, color, newId, now);
    if r.result.Ok? {
      var t := r.result.value;
      LookupIsStoredName(name.value);
      InsertKeepsConsistent(tags, t);
      InsertKeepsUnique(tags, t);
    }
  }

  /** Storing a tag under its own fresh id, with a name no stored tag has, keeps names unique. */
  lemma InsertKeepsUnique(tags: TagMap, t: Tag)
    requires UniqueNames(tags) && t.id !in tags && !NameTaken(tags, t.name)
    ensures UniqueNames(tags[t.id := t])
  {
    var m := tags[t.id := t];
    forall a, b | a in m && b in m && m[a].name == m[b].name ensures a == b {
    }
  }

  lemma InsertKeepsConsistent(tags: TagMap, t: Tag)
    requires TagsConsistent(tags) && StoredTag(t)
    ensures TagsConsistent(tags[t.id := t])
  {
  }

  /** A stored name with a space before it is still found, and rejected as a duplicate. */
  lemma PaddedNameRejected(tags: TagMap, id: Id, color: Option<string>, newId: Id, now: nat)
    requires TagsConsistent(tags) && id in tags
    ensures Created(tags, Some([' '] + tags[id].name), color, newId, now).result == Err(BadRequest, TagExists)
  {
    var n := tags[id].name;
    assert StoredTag(tags[id]);
    PadKeepsLower(n);
    PadTrimsAway(n);
    assert LookupName([' '] + n) == n;
  }

  lemma PadKeepsLower(n: string)
    requires Lower(n) == n
    ensures Lower([' '] + n) == [' '] + n
  {
    LowerAppend([' '], n);
    assert Lower([' ']) == [' '];
  }

  lemma PadTrimsAway(n: string)
    requires n != "" && Trim(n) == n
    ensures Trim([' '] + n) == n
  {
    var padded := [' '] + n;
    assert padded[1..] == n;
    TrimIsTrimmed(n);
    assert TrimStart(n) == n;
    assert TrimStart(padded) == n;
  }

  lemma CreateKeepsConsistent(tags: TagMap, name: Option<string>, color: Option<string>, newId: Id, now: nat)
    requires TagsConsistent(tags)
    ensures TagsConsistent(Created(tags, name, color, newId, now).tags)
  {
    var r := Created(tags, name, color, newId, now);
    if r.result.Ok? {
      InsertKeepsConsistent(tags, r.result.value);
    }
  }

  /** `deleteTag`: 404 for an unknown id, otherwise exactly that tag is removed. */
  function Deleted(tags: TagMap, id: Id): (r: TagAnswer<()>)
    ensures r.result.Ok? <==> id in tags
    ensures r.result.Err? ==> r.result == Err(NotFound, TagNotFound) && r.tags == tags
    ensures r.result.Ok? ==> r.tags.Keys == tags.Keys - {id} && forall k :: k in r.tags ==> r.tags[k] == tags[k]
  {
    if id !in tags then TagAnswer(Err(NotFound, TagNotFound), tags)
    else TagAnswer(Ok(()), tags - {id})
  }

  /** Deleting keeps names unique, and a deleted tag's name can be created again. */
  lemma DeleteFreesName(tags: TagMap, id: Id)
    requires UniqueNames(tags) && id in tags
    ensures UniqueNames(Deleted(tags, id).tags)
    ensures !NameTaken(Deleted(tags, id).tags, tags[id].name)
  {
  }

  class TagTable {
    var tags: TagMap

    /** Every stored tag is valid, and no two share a name. */
    ghost predicate Valid()
      reads this
    {
      TagsConsistent(tags) && UniqueNames(tags)
    }

    constructor()
      ensures Valid() && tags == map[]
    {
      tags := map[];
    }

    /** `getTags`: every stored tag once, newest first. */
    method GetTags() returns (r: seq<Tag>)
      ensures |r| == |tags|
      ensures forall t :: t in r <==> t in tags.Values
      ensures SortedBy(r, NewerTag())
      ensures r == Listing(tags)
    {
      r := Listing(tags);
    }

    /** `newId` is the fresh ObjectId the store assigns and `now` the creation time. */
    method CreateTag(name: Option<string>, color: Option<string>, newId: Id, now: nat) returns (r: Result<Tag>)
      requires Valid() && newId !in tags
      modifies this
      ensures Valid()
      ensures TagAnswer(r, tags) == Created(old(tags), name, color, newId, now)
    {
      CreateKeepsUnique(tags, name, color, newId, now);
      if !Truthy(name) {
        return Err(BadRequest, NameRequired);
      }
      var query := LookupName(name.value);
      if exists id :: id in tags && tags[id].name == query {
        return Err(BadRequest, TagExists);
      }
      var t := Tag(newId, StoredName(name.value), color.GetOr(DefaultTagColor), now);
      if t.name == "" {
        return Err(ServerError, TagNameRequired);
      }
      tags := tags[newId := t];
      r := Ok(t);
    }

    method DeleteTag(id: Id) returns (r: Result<()>)
      requires Valid()
      modifies this
      ensures Valid()
      ensures TagAnswer(r, tags) == Deleted(old(tags), id)
    {
      if id !in tags {
        return Err(NotFound, TagNotFound);
      }
      tags := tags - {id};
      r := Ok(());
    }
  }
}
