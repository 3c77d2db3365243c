// The category table: list, read, create, partial update and delete.
module Categories {
  import opened Common
  import opened Text
  import opened Records
  import opened Seqs

  type CategoryMap = map<Id, Category>

  const DefaultColor := "#1890ff"
  const CategoryNotFound := "Category not found"
  const NameRequired := "Name is required"

  /** A category as the schema can store it: a trimmed, non-empty name. */
  predicate StoredCategory(c: Category) {
    c.name != "" && Trim(c.name) == c.name
  }

  ghost predicate CategoriesConsistent(cats: CategoryMap) {
    forall id :: id in cats ==> cats[id].id == id && StoredCategory(cats[id])
  }

  /** The answer of a handler together with the table it leaves behind. */
  datatype TableAnswer<T> = TableAnswer(result: Result<T>, cats: CategoryMap)

  // ---------------------------------------------------------------------------
  // Listing
  // ---------------------------------------------------------------------------

  /** `sort({ sortOrder: 1, createdAt: -1 })`. */
  function ListOrder(): (Category, Category) -> bool {
    (a: Category, b: Category) =>
      a.sortOrder < b.sortOrder || (a.sortOrder == b.sortOrder && a.createdAt >= b.createdAt)
  }

  lemma ListOrderIsPreorder()
    ensures TotalPreorder(ListOrder())
  {
  }

  function Any(): Category -> bool { (c: Category) => true }

  /** `getCategories`: every stored category once, by sortOrder and then newest first. */
  function Listing(cats: CategoryMap): (r: seq<Category>)
    ensures |r| == |cats|
    ensures forall c :: c in r <==> c in cats.Values
    ensures SortedBy(r, ListOrder())
  {
    assert KeysWhere(cats, Any()) == cats.Keys;
    ListOrderIsPreorder();
    SortedWhere(cats, Any(), ListOrder())
  }

  /** `getCategory`. */
  function Found(cats: CategoryMap, id: Id): (r: Result<Category>)
    ensures r.Ok? <==> id in cats
    ensures r.Ok? ==> r.value == cats[id]
    ensures r.Err? ==> r == Err(NotFound, CategoryNotFound)
  {
    if id in cats then Ok(cats[id]) else Err(NotFound, CategoryNotFound)
  }

  // ---------------------------------------------------------------------------
  // Create
  // ---------------------------------------------------------------------------

  /** The body of a create or update request; an absent field is `None`. */
  datatype CategoryForm = CategoryForm(
    name: Option<string>,
    description: Option<string>,
    icon: Option<string>,
    color: Option<string>,
    sortOrder: Option<int>)

  /** `new Category({...})`: the name through its trim setter, schema defaults for absent fields. */
  function NewCategory(id: Id, name: string, form: CategoryForm, now: nat): Category {
    Category(id, Trim(name), form.description.GetOr(""), form.icon,
             form.color.GetOr(DefaultColor), form.sortOrder.GetOr(0), now)
  }

  /**
   * `createCategory`: 400 without a name; otherwise the new record is saved
   * under a fresh id, unless its trimmed name is empty (500).
   */
  function Created(cats: CategoryMap, form: CategoryForm, newId: Id, now: nat): (r: TableAnswer<Category>)
    ensures !Truthy(form.name) ==> r.result == Err(BadRequest, NameRequired)
    ensures r.result.Ok? <==> Truthy(form.name) && Trim(form.name.value) != ""
    ensures r.result.Err? ==> r.cats == cats
    ensures r.result.Ok? ==>
              && r.cats == cats[newId := r.result.value]
              && r.result.value.id == newId && r.result.value.createdAt == now
              && StoredCategory(r.result.value)
  {
    if !Truthy(form.name) then TableAnswer(Err(BadRequest, NameRequired), cats)
    else
      var name := Trim(form.name.value);
      var c := NewCategory(newId, form.name.value, form, now);
      assert c.name == name;
      TrimIdempotent(form.name.value);
      if name == "" then TableAnswer(Err(ServerError, CategoryNameRequired), cats)
      else TableAnswer(Ok(c), cats[newId := c])
  }

  /** A new category is blue (`#1890ff`), first in order (0), undescribed and without an icon unless told otherwise. */
  lemma CreatedDefaults(cats: CategoryMap, form: CategoryForm, newId: Id, now: nat)
    requires Created(cats, form, newId, now).result.Ok?
    ensures var c := Created(cats, form, newId, now).result.value;
            && (form.color.None? ==> c.color == DefaultColor)
            && (form.sortOrder.None? ==> c.sortOrder == 0)
            && (form.description.None? ==> c.description == "")
            && (form.icon.None? ==> c.icon.None?)
            && c.name == Trim(form.name.value)
  {
  }

  lemma CreateKeepsConsistent(cats: CategoryMap, form: CategoryForm, newId: Id, now: nat)
    requires CategoriesConsistent(cats)
    ensures CategoriesConsistent(Created(cats, form, newId, now).cats)
  {
    var r := Created(cats, form, newId, now);
    if r.result.Ok? {
      StoreKeepsConsistent(cats, r.result.value);
    }
  }

  /** Storing a valid record under its own id keeps the table consistent. */
  lemma StoreKeepsConsistent(cats: CategoryMap, c: Category)
    requires CategoriesConsistent(cats) && StoredCategory(c)
    ensures CategoriesConsistent(cats[c.id := c])
  {
    var m := cats[c.id := c];
    forall i | i in m ensures m[i].id == i && StoredCategory(m[i]) {
      if i != c.id { assert m[i] == cats[i]; }
    }
  }

  // ---------------------------------------------------------------------------
  // Update
  // ---------------------------------------------------------------------------

  /** The assignments of `updateCategory`: truthy text fields, and a sortOrder whenever it is given. */
  function Edit(c: Category, form: CategoryForm): (r: Category)
    ensures r.id == c.id && r.createdAt == c.createdAt
  {
    c.(name := if Truthy(form.name) then Trim(form.name.value) else c.name,
       description := if Truthy(form.description) then form.description.value else c.description,
       icon := if Truthy(form.icon) then form.icon else c.icon,
       color := if Truthy(form.color) then form.color.value else c.color,
       sortOrder := if form.sortOrder.Some? then form.sortOrder.value else c.sortOrder)
  }

  /** Applying the same form to an edited record changes nothing more. */
  lemma EditIdempotent(c: Category, form: CategoryForm)
    ensures Edit(Edit(c, form), form) == Edit(c, form)
  {
    if Truthy(form.name) {
      TrimIdempotent(form.name.value);
    }
  }

  /** `updateCategory`: 404 for an unknown id; the edited record is saved unless its name trimmed to nothing. */
  function Updated(cats: CategoryMap, id: Id, form: CategoryForm): (r: TableAnswer<Category>)
    requires CategoriesConsistent(cats)
    ensures id !in cats ==> r.result == Err(NotFound, CategoryNotFound)
    ensures r.result.Ok? <==> id in cats && (Truthy(form.name) ==> Trim(form.name.value) != "")
    ensures r.result.Err? ==> r.cats == cats
    ensures r.result.Ok? ==> r.cats == cats[id := r.result.value] && StoredCategory(r.result.value)
    ensures r.result.Ok? ==> r.result.value == Edit(cats[id], form) && r.result.value.id == id
    ensures id in cats && r.result.Err? ==> r.result == Err(ServerError, CategoryNameRequired)
  {
    if id !in cats then TableAnswer(Err(NotFound, CategoryNotFound), cats)
    else
      var c := Edit(cats[id], form);
      assert Truthy(form.name) ==> Trim(c.name) == c.name by {
        if Truthy(form.name) { TrimIdempotent(form.name.value); }
      }
      if c.name == "" then TableAnswer(Err(ServerError, CategoryNameRequired), cats)
      else TableAnswer(Ok(c), cats[id := c])
  }

  /** A sortOrder of 0 is applied: it is tested against `undefined`, not for truthiness. */
  lemma ZeroSortOrderApplies(cats: CategoryMap, id: Id, form: CategoryForm)
    requires CategoriesConsistent(cats)
    requires form.sortOrder == Some(0) && Updated(cats, id, form).result.Ok?
    ensures Updated(cats, id, form).result.value.sortOrder == 0
  {
  }

  /** An empty string never overwrites a field, and a request without fields saves the record unchanged. */
  lemma EmptyFieldsKeepRecord(cats: CategoryMap, id: Id, form: CategoryForm)
    requires CategoriesConsistent(cats) && id in cats
    requires !Truthy(form.name) && !Truthy(form.description) && !Truthy(form.icon)
    requires !Truthy(form.color) && form.sortOrder.None?
    ensures Updated(cats, id, form) == TableAnswer(Ok(cats[id]), cats)
  {
    assert Edit(cats[id], form) == cats[id];
    assert cats[id := cats[id]] == cats;
  }

  /** Sending the same update twice leaves the table as sending it once. */
  lemma UpdateIdempotent(cats: CategoryMap, id: Id, form: CategoryForm)
    requires CategoriesConsistent(cats)
    ensures CategoriesConsistent(Updated(cats, id, form).cats)
    ensures Updated(Updated(cats, id, form).cats, id, form).cats == Updated(cats, id, form).cats
  {
    var once := Updated(cats, id, form);
    if once.result.Ok? {
      var c := once.result.value;
      StoreKeepsConsistent(cats, c);
      EditIdempotent(cats[id], form);
      assert once.cats[id := c] == once.cats;
    }
  }

  // ---------------------------------------------------------------------------
  // Delete
  // ---------------------------------------------------------------------------

  /** `deleteCategory`: 404 for an unknown id, otherwise exactly that category is removed. */
  function Deleted(cats: CategoryMap, id: Id): (r: TableAnswer<()>)
    ensures r.result.Ok? <==> id in cats
    ensures r.result.Err? ==> r.result == Err(NotFound, CategoryNotFound) && r.cats == cats
    ensures r.result.Ok? ==> r.cats.Keys == cats.Keys - {id} && forall k :: k in r.cats ==> r.cats[k] == cats[k]
  {
    if id !in cats then TableAnswer(Err(NotFound, CategoryNotFound), cats)
    else TableAnswer(Ok(()), cats - {id})
  }

  /** Deleting a category just created restores the table. */
  lemma DeleteUndoesCreate(cats: CategoryMap, form: CategoryForm, newId: Id, now: nat)
    requires newId !in cats
    requires Created(cats, form, newId, now).result.Ok?
    ensures Deleted(Created(cats, form, newId, now).cats, newId).cats == cats
  {
    var r := Created(cats, form, newId, now);
    RemoveUndoesInsert(cats, newId, r.result.value);
    assert Deleted(r.cats, newId).cats == r.cats - {newId};
  }

  // ---------------------------------------------------------------------------
  // The collection
  // ---------------------------------------------------------------------------

  class CategoryTable {
    var cats: CategoryMap

    ghost predicate Valid()
      reads this
    {
      CategoriesConsistent(cats)
    }

    constructor()
      ensures Valid() && cats == map[]
    {
      cats := map[];
    }

    /** `getCategories`: every stored category once, by sort order and then newest first. */
    method GetCategories() returns (r: seq<Category>)
      ensures |r| == |cats|
      ensures forall c :: c in r <==> c in cats.Values
      ensures SortedBy(r, ListOrder())
      ensures r == Listing(cats)
    {
      r := Listing(cats);
    }

    /** `getCategory`: the stored record, or 404 for an unknown id. */
    method GetCategory(id: Id) returns (r: Result<Category>)
      ensures r.Ok? <==> id in cats
      ensures r.Ok? ==> r.value == cats[id]
      ensures r.Err? ==> r == Err(NotFound, CategoryNotFound)
      ensures r == Found(cats, id)
    {
      if id !in cats {
        return Err(NotFound, CategoryNotFound);
      }
      r := Ok(cats[id]);
    }

    /** `newId` is the fresh ObjectId the store assigns and `now` the creation time. */
    method CreateCategory(form: CategoryForm, newId: Id, now: nat) returns (r: Result<Category>)
      requires Valid() && newId !in cats
      modifies this
      ensures Valid()
      ensures TableAnswer(r, cats) == Created(old(cats), form, newId, now)
    {
      CreateKeepsConsistent(cats, form, newId, now);
      if !Truthy(form.name) {
        return Err(BadRequest, NameRequired);
      }
      var c := NewCategory(newId, form.name.value, form, now);
      if c.name == "" {
        return Err(ServerError, CategoryNameRequired);
      }
      cats := cats[newId := c];
      r := Ok(c);
    }

    method UpdateCategory(id: Id, form: CategoryForm) returns (r: Result<Category>)
      requires Valid()
      modifies this
      ensures Valid()
      ensures TableAnswer(r, cats) == Updated(old(cats), id, form)
    {
      UpdateIdempotent(cats, id, form);
      if id !in cats {
        return Err(NotFound, CategoryNotFound);
      }
      var c := cats[id];
      if Truthy(form.name) {
        c := c.(name := Trim(form.name.value));
      }
      if Truthy(form.description) {
        c := c.(description := form.description.value);
      }
      if Truthy(form.icon) {
        c := c.(icon := form.icon);
      }
      if Truthy(form.color) {
        c := c.(color := form.color.value);
      }
      if form.sortOrder.Some? {
        c := c.(sortOrder := form.sortOrder.value);
      }
      assert c == Edit(cats[id], form);
      if c.name == "" {
        return Err(ServerError, CategoryNameRequired);
      }
      cats := cats[id := c];
      r := Ok(c);
    }

    method DeleteCategory(id: Id) returns (r: Result<()>)
      requires Valid()
      modifies this
      ensures Valid()
      ensures TableAnswer(r, cats) == Deleted(old(cats), id)
    {
      if id !in cats {
        return Err(NotFound, CategoryNotFound);
      }
      cats := cats - {id};
      r := Ok(());
    }
  }
}
