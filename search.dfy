// `getDocuments`: the visibility filter, the exact filters, the two search
// modes, the relevance score, the sort selection and skip/limit pagination.
module Search {
  import opened Common
  import opened Text
  import opened Collation
  import opened Seqs
  import opened Escape
  import opened Records

  /** The query string after defaults are known: None stands for an absent (or empty) parameter. */
  datatype Query = Query(
    category: Option<Id>,
    tags: Option<seq<Id>>,
    search: Option<string>,
    page: Option<int>,
    limit: Option<int>,
    folder: Option<Id>,
    sort: Option<string>)

  // ---------------------------------------------------------------------------
  // The match stage as the controller assembles it
  // ---------------------------------------------------------------------------

  datatype Field = Title | Description | FileName | OcrContent

  function FieldValue(d: Document, f: Field): Option<string> {
    match f
    case Title => Some(d.title)
    case Description => Some(d.description)
    case FileName => Some(d.fileName)
    case OcrContent => d.ocrContent
  }

  /** One entry of `matchStage.$and`. */
  datatype Cond =
    | PublicOnly
    | PublicOrUploadedBy(user: Id)
    | CategoryIs(category: Id)
    | FolderIs(folder: Id)
    | TagsIn(tagIds: seq<Id>)
      /** `{$or: [{f: regex}, ...]}` */
    | AnyFieldMatches(fields: seq<Field>, pattern: string)
      /** `{$or: [{f: {$all: regexes}}, ...]}` */
    | AnyFieldMatchesAll(fields: seq<Field>, patterns: seq<string>)

  predicate Holds(c: Cond, d: Document) {
    match c
    case PublicOnly => d.isPublic
    case PublicOrUploadedBy(u) => d.isPublic || d.uploadedBy == u
    case CategoryIs(cat) => d.category == cat
    case FolderIs(f) => d.folder == Some(f)
    case TagsIn(ts) => exists i :: 0 <= i < |ts| && ts[i] in d.tags
    case AnyFieldMatches(fs, p) =>
      exists i :: 0 <= i < |fs| && RegexTestCI(p, FieldValue(d, fs[i]))
    case AnyFieldMatchesAll(fs, ps) =>
      exists i :: 0 <= i < |fs| && MatchesAllPatterns(ps, FieldValue(d, fs[i]))
  }

  /** `{f: {$all: regexes}}` on one field. */
  predicate MatchesAllPatterns(ps: seq<string>, field: Option<string>) {
    forall j :: 0 <= j < |ps| ==> RegexTestCI(ps[j], field)
  }

  predicate AllHold(stage: seq<Cond>, d: Document) {
    forall i :: 0 <= i < |stage| ==> Holds(stage[i], d)
  }

  // ---------------------------------------------------------------------------
  // What the stage is meant to select, stated on the raw query text
  // ---------------------------------------------------------------------------

  predicate HasSearch(q: Query) {
    Truthy(q.search)
  }

  function CleanSearch(q: Query): string
    requires HasSearch(q)
  {
    Trim(q.search.value)
  }

  /** `cleanSearch.startsWith('"') && cleanSearch.endsWith('"')`; a lone `"` qualifies. */
  predicate IsExactPhrase(t: string) {
    |t| >= 1 && t[0] == '"' && t[|t| - 1] == '"'
  }

  /** `replace(/"/g, '')`: every double quote removed, not only the outer ones. */
  function RemoveQuotes(t: string): (r: string)
    ensures '"' !in r
    ensures forall c :: c != '"' ==> multiset(r)[c] == multiset(t)[c]
  {
    if t == [] then []
    else
      assert t == [t[0]] + t[1..];
      (if t[0] == '"' then [] else [t[0]]) + RemoveQuotes(t[1..])
  }

  predicate AllTokensIn(field: string, tokens: seq<string>) {
    forall j :: 0 <= j < |tokens| ==> ContainsCI(field, tokens[j])
  }

  /** The caller sees public documents and, when signed in, their own. */
  predicate Visible(caller: Option<Caller>, d: Document) {
    d.isPublic || (caller.Some? && d.uploadedBy == caller.value.userId)
  }

  /** Each filter applies only when its parameter is present. */
  predicate PassesFilters(q: Query, d: Document) {
    && (q.category.Some? ==> d.category == q.category.value)
    && (q.folder.Some? ==> d.folder == Some(q.folder.value))
    && (q.tags.Some? ==> exists i :: 0 <= i < |q.tags.value| && q.tags.value[i] in d.tags)
  }

  /** Exact mode: the de-quoted phrase in title, description or fileName. Token
      mode: every token in the title, or every token in the description, or every
      token in the OCR content. */
  predicate MatchesSearch(q: Query, d: Document) {
    HasSearch(q) ==>
      var t := CleanSearch(q);
      if IsExactPhrase(t) then
        var phrase := RemoveQuotes(t);
        ContainsCI(d.title, phrase) || ContainsCI(d.description, phrase) || ContainsCI(d.fileName, phrase)
      else
        var tokens := SplitWs(t);
        || AllTokensIn(d.title, tokens)
        || AllTokensIn(d.description, tokens)
        || (d.ocrContent.Some? && AllTokensIn(d.ocrContent.value, tokens))
  }

  predicate Selected(caller: Option<Caller>, q: Query, d: Document) {
    Visible(caller, d) && PassesFilters(q, d) && MatchesSearch(q, d)
  }

  function EscapeAll(words: seq<string>): (r: seq<string>)
    ensures |r| == |words| && forall j :: 0 <= j < |r| ==> r[j] == EscapeRegex(words[j])
  {
    seq(|words|, j requires 0 <= j < |words| => EscapeRegex(words[j]))
  }

  lemma AllHoldPush(stage: seq<Cond>, c: Cond, d: Document)
    ensures AllHold(stage + [c], d) <==> AllHold(stage, d) && Holds(c, d)
  {
    if AllHold(stage, d) && Holds(c, d) {
      forall i | 0 <= i < |stage + [c]| ensures Holds((stage + [c])[i], d) {
        if i < |stage| { assert (stage + [c])[i] == stage[i]; }
      }
    }
    if AllHold(stage + [c], d) {
      forall i | 0 <= i < |stage| ensures Holds(stage[i], d) {
        assert (stage + [c])[i] == stage[i];
      }
      assert (stage + [c])[|stage|] == c;
    }
  }

  /** Exact mode's condition: the escaped, de-quoted phrase against title, description or fileName. */
  function ExactCondition(clean: string): Cond {
    AnyFieldMatches([Title, Description, FileName], EscapeRegex(RemoveQuotes(clean)))
  }

  /** Token mode's condition: every escaped token against the title, the description or the OCR content. */
  function TokenCondition(clean: string): Cond {
    AnyFieldMatchesAll([Title, Description, OcrContent], EscapeAll(SplitWs(clean)))
  }

  lemma ExactConditionMeaning(clean: string, d: Document)
    ensures var phrase := RemoveQuotes(clean);
            Holds(ExactCondition(clean), d)
            <==> ContainsCI(d.title, phrase) || ContainsCI(d.description, phrase) || ContainsCI(d.fileName, phrase)
  {
    var phrase := RemoveQuotes(clean);
    EscapedPatternMatches(phrase, Some(d.title));
    EscapedPatternMatches(phrase, Some(d.description));
    EscapedPatternMatches(phrase, Some(d.fileName));
    var fields := [Title, Description, FileName];
    assert fields[0] == Title && fields[1] == Description && fields[2] == FileName;
    AnyOfThreeMatch(fields, EscapeRegex(phrase), d);
  }

  /** An `$or` of one pattern over three fields holds when one of the three matches. */
  lemma AnyOfThreeMatch(fs: seq<Field>, p: string, d: Document)
    requires |fs| == 3
    ensures Holds(AnyFieldMatches(fs, p), d) <==>
              || RegexTestCI(p, FieldValue(d, fs[0]))
              || RegexTestCI(p, FieldValue(d, fs[1]))
              || RegexTestCI(p, FieldValue(d, fs[2]))
  {
    if Holds(AnyFieldMatches(fs, p), d) {
      var i :| 0 <= i < |fs| && RegexTestCI(p, FieldValue(d, fs[i]));
      assert i == 0 || i == 1 || i == 2;
    }
  }

  lemma AllPatternsMeaning(words: seq<string>, field: Option<string>)
    requires |words| >= 1
    ensures MatchesAllPatterns(EscapeAll(words), field) <==> field.Some? && AllTokensIn(field.value, words)
  {
    var regexes := EscapeAll(words);
    forall j | 0 <= j < |words|
      ensures RegexTestCI(regexes[j], field) <==> field.Some? && ContainsCI(field.value, words[j])
    {
      EscapedPatternMatches(words[j], field);
    }
    assert RegexTestCI(regexes[0], field) ==> field.Some?;
  }

  lemma TokenConditionMeaning(clean: string, d: Document)
    ensures var tokens := SplitWs(clean);
            Holds(TokenCondition(clean), d)
            <==> || AllTokensIn(d.title, tokens)
                 || AllTokensIn(d.description, tokens)
                 || (d.ocrContent.Some? && AllTokensIn(d.ocrContent.value, tokens))
  {
    var words := SplitWs(clean);
    var ps := EscapeAll(words);
    var fields := [Title, Description, OcrContent];
    assert TokenCondition(clean) == AnyFieldMatchesAll(fields, ps);
    AnyOfThreeMatchAll(fields, ps, d);
    assert FieldValue(d, fields[0]) == Some(d.title);
    assert FieldValue(d, fields[1]) == Some(d.description);
    assert FieldValue(d, fields[2]) == d.ocrContent;
    AllPatternsMeaning(words, Some(d.title));
    AllPatternsMeaning(words, Some(d.description));
    AllPatternsMeaning(words, d.ocrContent);
  }

  /** An `$or` over three fields holds when one of the three does. */
  lemma AnyOfThreeMatchAll(fs: seq<Field>, ps: seq<string>, d: Document)
    requires |fs| == 3
    ensures Holds(AnyFieldMatchesAll(fs, ps), d) <==>
              || MatchesAllPatterns(ps, FieldValue(d, fs[0]))
              || MatchesAllPatterns(ps, FieldValue(d, fs[1]))
              || MatchesAllPatterns(ps, FieldValue(d, fs[2]))
  {
    if Holds(AnyFieldMatchesAll(fs, ps), d) {
      var i :| 0 <= i < |fs| && MatchesAllPatterns(ps, FieldValue(d, fs[i]));
      assert i == 0 || i == 1 || i == 2;
    }
  }

  /** The `$and` list is pushed step by step; together its conditions select
      exactly the documents `Selected` describes. */
  method BuildMatchStage(caller: Option<Caller>, q: Query) returns (stage: seq<Cond>)
    ensures forall d :: AllHold(stage, d) <==> Selected(caller, q, d)
  {
    var access := if caller.Some? then PublicOrUploadedBy(caller.value.userId) else PublicOnly;
    forall d { AllHoldPush([], access, d); }
    stage := [] + [access];
    if q.category.Some? {
      forall d { AllHoldPush(stage, CategoryIs(q.category.value), d); }
      stage := stage + [CategoryIs(q.category.value)];
    }
    assert forall d :: AllHold(stage, d) <==>
      Visible(caller, d) && (q.category.Some? ==> d.category == q.category.value);
    if q.folder.Some? {
      forall d { AllHoldPush(stage, FolderIs(q.folder.value), d); }
      stage := stage + [FolderIs(q.folder.value)];
    }
    assert forall d :: AllHold(stage, d) <==>
      && Visible(caller, d)
      && (q.category.Some? ==> d.category == q.category.value)
      && (q.folder.Some? ==> d.folder == Some(q.folder.value));
    if q.tags.Some? {
      var c := TagsIn(q.tags.value);
      forall d ensures AllHold(stage + [c], d) <==> Visible(caller, d) && PassesFilters(q, d) {
        TagsStep(stage, caller, q, d);
      }
      stage := stage + [c];
    }
    assert forall d :: AllHold(stage, d) <==> Visible(caller, d) && PassesFilters(q, d);
    if HasSearch(q) {
      var clean := Trim(q.search.value);
      var c := if IsExactPhrase(clean) then ExactCondition(clean) else TokenCondition(clean);
      forall d ensures AllHold(stage + [c], d) <==> AllHold(stage, d) && MatchesSearch(q, d) {
        SearchStep(stage, q, d);
      }
      stage := stage + [c];
    }
  }

  /** Pushing the search condition adds exactly the search test. */
  lemma SearchStep(stage: seq<Cond>, q: Query, d: Document)
    requires HasSearch(q)
    ensures var clean := Trim(q.search.value);
            var c := if IsExactPhrase(clean) then ExactCondition(clean) else TokenCondition(clean);
            AllHold(stage + [c], d) <==> AllHold(stage, d) && MatchesSearch(q, d)
  {
    var clean := Trim(q.search.value);
    var c := if IsExactPhrase(clean) then ExactCondition(clean) else TokenCondition(clean);
    AllHoldPush(stage, c, d);
    if IsExactPhrase(clean) {
      ExactConditionMeaning(clean, d);
    } else {
      TokenConditionMeaning(clean, d);
    }
  }

  /** Pushing the tag condition completes the filters. */
  lemma TagsStep(stage: seq<Cond>, caller: Option<Caller>, q: Query, d: Document)
    requires q.tags.Some?
    requires AllHold(stage, d) <==>
      && Visible(caller, d)
      && (q.category.Some? ==> d.category == q.category.value)
      && (q.folder.Some? ==> d.folder == Some(q.folder.value))
    ensures AllHold(stage + [TagsIn(q.tags.value)], d) <==> Visible(caller, d) && PassesFilters(q, d)
  {
    AllHoldPush(stage, TagsIn(q.tags.value), d);
  }

  // ---------------------------------------------------------------------------
  // Relevance score
  // ---------------------------------------------------------------------------

  /** The score keyword: the de-quoted phrase in exact mode, else the whole trimmed input. */
  function ScoreKeyword(q: Query): string
    requires HasSearch(q)
  {
    var t := CleanSearch(q);
    if IsExactPhrase(t) then RemoveQuotes(t) else t
  }

  /** `$add` of the three `$cond`s over `$regexMatch` with the escaped keyword. */
  function Score(keyword: string, d: Document): (s: nat)
    ensures s in {0, 1, 5, 6, 10, 11, 15, 16}
    ensures s >= 10 <==> ContainsCI(d.title, keyword)
    ensures s % 10 >= 5 <==> ContainsCI(d.description, keyword)
    ensures s % 5 == 1 <==> d.ocrContent.Some? && ContainsCI(d.ocrContent.value, keyword)
  {
    var p := EscapeRegex(keyword);
    EscapedPatternMatches(keyword, Some(d.title));
    EscapedPatternMatches(keyword, Some(d.description));
    EscapedPatternMatches(keyword, d.ocrContent);
    (if RegexTestCI(p, Some(d.title)) then 10 else 0)
    + (if RegexTestCI(p, Some(d.description)) then 5 else 0)
    + (if RegexTestCI(p, d.ocrContent) then 1 else 0)
  }

  /** A result row: the document with its score, which exists only when searching. */
  datatype Row = Row(doc: Document, score: Option<nat>)

  function ToRow(q: Query, d: Document): Row {
    Row(d, if HasSearch(q) then Some(Score(ScoreKeyword(q), d)) else None)
  }

  function ToRows(q: Query, ds: seq<Document>): (r: seq<Row>)
    ensures |r| == |ds| && forall i :: 0 <= i < |r| ==> r[i] == ToRow(q, ds[i])
  {
    seq(|ds|, i requires 0 <= i < |ds| => ToRow(q, ds[i]))
  }

  // ---------------------------------------------------------------------------
  // Sorting
  // ---------------------------------------------------------------------------

  datatype SortOrder = ByRelevance | ByTitle | ByNewest

  /** `sort` defaults to 'newest': relevance only when searching and `sort` is
      given as 'relevance' or empty; 'a-z' orders by title; anything else by date. */
  function SortOrderOf(q: Query): (o: SortOrder)
    ensures o == ByRelevance <==> HasSearch(q) && q.sort.Some? && (q.sort.value == "" || q.sort.value == "relevance")
    ensures o == ByTitle <==> q.sort == Some("a-z")
    ensures q.sort.None? ==> o == ByNewest
  {
    var sort := q.sort.GetOr("newest");
    if HasSearch(q) && (sort == "" || sort == "relevance") then ByRelevance
    else if sort == "a-z" then ByTitle
    else ByNewest
  }

  /** `a` may precede `b` under the chosen `$sort` specification. */
  function RowLe(o: SortOrder): (Row, Row) -> bool {
    match o
    case ByRelevance => (a: Row, b: Row) =>
      a.score.GetOr(0) > b.score.GetOr(0)
      || (a.score.GetOr(0) == b.score.GetOr(0) && a.doc.createdAt >= b.doc.createdAt)
    case ByTitle => (a: Row, b: Row) => LexLe(a.doc.title, b.doc.title)
    case ByNewest => (a: Row, b: Row) => a.doc.createdAt >= b.doc.createdAt
  }

  lemma RowLeTotalPreorder(o: SortOrder)
    ensures TotalPreorder(RowLe(o))
  {
    if o == ByTitle {
      forall a: Row, b: Row ensures RowLe(o)(a, b) || RowLe(o)(b, a) {
        LexLeTotal(a.doc.title, b.doc.title);
      }
      forall a: Row, b: Row, c: Row | RowLe(o)(a, b) && RowLe(o)(b, c) ensures RowLe(o)(a, c) {
        LexLeTransitive(a.doc.title, b.doc.title, c.doc.title);
      }
    }
  }

  // ---------------------------------------------------------------------------
  // Pagination
  // ---------------------------------------------------------------------------

  /** `$skip: (page - 1) * limit` then `$limit: limit`. */
  function PageOf<T>(s: seq<T>, page: int, limit: int): (r: seq<T>)
    requires page >= 1 && limit >= 1
    ensures 0 <= (page - 1) * limit
    ensures |r| <= limit
    ensures (page - 1) * limit >= |s| ==> r == []
    ensures (page - 1) * limit < |s| ==> r == s[(page - 1) * limit..Min((page - 1) * limit + limit, |s|)]
  {
    var skip := (page - 1) * limit;
    SkipBounds(page, limit);
    if skip >= |s| then [] else
      TakeAfter(s, skip, limit);
      Take(s[skip..], limit)
  }

  /** Taking `n` rows after skipping `skip` is the slice between the two. */
  lemma TakeAfter<T>(s: seq<T>, skip: nat, n: nat)
    requires skip <= |s|
    ensures Take(s[skip..], n) == s[skip..Min(skip + n, |s|)]
  {
  }

  lemma PageWithin<T>(s: seq<T>, page: int, limit: int, x: T)
    requires page >= 1 && limit >= 1 && x in PageOf(s, page, limit)
    ensures x in s
  {
    var r := PageOf(s, page, limit);
    var skip := (page - 1) * limit;
    var i :| 0 <= i < |r| && r[i] == x;
    assert r[i] == s[skip + i];
  }

  lemma SkipBounds(page: int, limit: int)
    requires page >= 1 && limit >= 1
    ensures 0 <= (page - 1) * limit && page * limit == (page - 1) * limit + limit
  {
  }

  /** `Math.ceil(total / limit)`. */
  function PageCount(total: nat, limit: int): (p: nat)
    requires limit >= 1
    ensures p * limit >= total
    ensures p >= 1 ==> (p - 1) * limit < total
  {
    (total + limit - 1) / limit
  }

  datatype Pagination = Pagination(total: nat, page: int, limit: int, pages: nat)
  datatype Response = Response(data: seq<Row>, pagination: Pagination)

  const PaginationRejected := "invalid $skip or $limit stage"

  /** The documents that pass the match stage, in collection order. */
  function Matches(docs: seq<Document>, caller: Option<Caller>, q: Query): seq<Document> {
    Filter(docs, d => Selected(caller, q, d))
  }

  /** The scored matches in the order of the chosen sort. */
  function Ranked(docs: seq<Document>, caller: Option<Caller>, q: Query): seq<Row> {
    SortBy(ToRows(q, Matches(docs, caller, q)), RowLe(SortOrderOf(q)))
  }

  /** The whole request: a `$skip` below zero or a `$limit` below one makes the
      store reject the pipeline, which the handler reports as a 500. */
  function Search(docs: seq<Document>, caller: Option<Caller>, q: Query): Result<Response> {
    var page := q.page.GetOr(1);
    var limit := q.limit.GetOr(10);
    if page < 1 || limit < 1 then Err(ServerError, PaginationRejected)
    else
      var total := |Matches(docs, caller, q)|;
      Ok(Response(PageOf(Ranked(docs, caller, q), page, limit),
                  Pagination(total, page, limit, PageCount(total, limit))))
  }

  /** The handler: assembles the match stage, then lets the store filter, score,
      sort and cut the page. */
  method GetDocuments(docs: seq<Document>, caller: Option<Caller>, q: Query) returns (r: Result<Response>)
    ensures r == Search(docs, caller, q)
  {
    var page := q.page.GetOr(1);
    var limit := q.limit.GetOr(10);
    var stage := BuildMatchStage(caller, q);
    if page < 1 || limit < 1 {
      return Err(ServerError, PaginationRejected);
    }
    var matched := Filter(docs, d => AllHold(stage, d));
    FilterExtensional(docs, d => AllHold(stage, d), d => Selected(caller, q, d));
    var rows := SortBy(ToRows(q, matched), RowLe(SortOrderOf(q)));
    r := Ok(Response(PageOf(rows, page, limit),
                     Pagination(|matched|, page, limit, PageCount(|matched|, limit))));
  }

  // ---------------------------------------------------------------------------
  // Properties of the search
  // ---------------------------------------------------------------------------

  /** Every returned row is a stored document the query selects, scored with the
      keyword when searching; `total` counts every selected document. */
  lemma {:induction false} SearchSound(docs: seq<Document>, caller: Option<Caller>, q: Query)
    requires Search(docs, caller, q).Ok?
    ensures var resp := Search(docs, caller, q).value;
            && resp.pagination.total == |Matches(docs, caller, q)|
            && forall row :: row in resp.data ==>
                 && row.doc in docs && Selected(caller, q, row.doc)
                 && row == ToRow(q, row.doc)
  {
    var resp := Search(docs, caller, q).value;
    forall row | row in resp.data
      ensures row.doc in docs && Selected(caller, q, row.doc) && row == ToRow(q, row.doc)
    {
      PageWithin(Ranked(docs, caller, q), q.page.GetOr(1), q.limit.GetOr(10), row);
      RankedRowIsMatch(docs, caller, q, row);
    }
  }

  lemma RankedRowIsMatch(docs: seq<Document>, caller: Option<Caller>, q: Query, row: Row)
    requires row in Ranked(docs, caller, q)
    ensures row.doc in docs && Selected(caller, q, row.doc) && row == ToRow(q, row.doc)
  {
    var m := Matches(docs, caller, q);
    var rows := ToRows(q, m);
    assert row in multiset(rows);
    var i :| 0 <= i < |rows| && rows[i] == row;
    assert m[i] in m;
  }

  /** The ranked list holds each selected document exactly as often as the
      collection does, ordered by the chosen sort. */
  lemma RankedIsSortedPermutation(docs: seq<Document>, caller: Option<Caller>, q: Query)
    ensures SortedBy(Ranked(docs, caller, q), RowLe(SortOrderOf(q)))
    ensures multiset(Ranked(docs, caller, q)) == multiset(ToRows(q, Matches(docs, caller, q)))
    ensures forall d :: d in docs && Selected(caller, q, d) ==> ToRow(q, d) in Ranked(docs, caller, q)
  {
    RowLeTotalPreorder(SortOrderOf(q));
    var m := Matches(docs, caller, q);
    var rows := ToRows(q, m);
    forall d | d in docs && Selected(caller, q, d) ensures ToRow(q, d) in Ranked(docs, caller, q) {
      var i :| 0 <= i < |m| && m[i] == d;
      assert rows[i] == ToRow(q, d);
      assert ToRow(q, d) in multiset(rows);
    }
  }

  /** Anonymous callers never receive a private document. */
  lemma AnonymousSeesOnlyPublic(docs: seq<Document>, q: Query)
    requires Search(docs, None, q).Ok?
    ensures forall row :: row in Search(docs, None, q).value.data ==> row.doc.isPublic
  {
    SearchSound(docs, None, q);
  }

  /** A signed-in caller's own documents are ranked whenever they pass the
      filters and the search, public or not. */
  lemma OwnerFindsOwn(docs: seq<Document>, user: Caller, q: Query, d: Document)
    requires d in docs && d.uploadedBy == user.userId
    requires PassesFilters(q, d) && MatchesSearch(q, d)
    ensures ToRow(q, d) in Ranked(docs, Some(user), q)
  {
    RankedIsSortedPermutation(docs, Some(user), q);
  }

  lemma MulMono(a: int, b: int, k: int)
    requires a <= b && k >= 0
    ensures a * k <= b * k
  {
  }

  lemma PageBeyondLast<T>(s: seq<T>, page: int, limit: int)
    requires page >= 1 && limit >= 1
    ensures page > PageCount(|s|, limit) ==> PageOf(s, page, limit) == []
    ensures page <= PageCount(|s|, limit) ==> PageOf(s, page, limit) != []
  {
    SkipAgainstCount(|s|, page, limit);
    SkipBounds(page, limit);
    if page <= PageCount(|s|, limit) {
      assert |PageOf(s, page, limit)| == Min((page - 1) * limit + limit, |s|) - (page - 1) * limit;
    }
  }

  /** The first row a page skips to lies inside the total exactly up to the last page. */
  lemma SkipAgainstCount(total: nat, page: int, limit: int)
    requires page >= 1 && limit >= 1
    ensures page > PageCount(total, limit) ==> (page - 1) * limit >= total
    ensures page <= PageCount(total, limit) ==> (page - 1) * limit < total
  {
    var pages := PageCount(total, limit);
    if page > pages {
      MulMono(pages, page - 1, limit);
    } else {
      MulMono(page - 1, pages - 1, limit);
    }
  }

  /** A page past the last is empty and reports the same total; every page up to
      the last is non-empty; no page exceeds the limit. */
  lemma PageWindow(docs: seq<Document>, caller: Option<Caller>, q: Query)
    requires Search(docs, caller, q).Ok?
    ensures var p := Search(docs, caller, q).value.pagination;
            var data := Search(docs, caller, q).value.data;
            && p.total == |Ranked(docs, caller, q)|
            && |data| <= p.limit
            && (p.page > p.pages ==> data == [])
            && (p.page <= p.pages ==> data != [])
  {
    var ranked := Ranked(docs, caller, q);
    assert |ranked| == |ToRows(q, Matches(docs, caller, q))|;
    PageBeyondLast(ranked, q.page.GetOr(1), q.limit.GetOr(10));
  }

  /** The pages 1..k laid end to end. */
  function PagesUpTo<T>(s: seq<T>, k: nat, limit: int): seq<T>
    requires limit >= 1
  {
    if k == 0 then [] else PagesUpTo(s, k - 1, limit) + PageOf(s, k, limit)
  }

  lemma {:induction false} PagesUpToPrefix<T>(s: seq<T>, k: nat, limit: int)
    requires limit >= 1
    ensures PagesUpTo(s, k, limit) == s[..Min(k * limit, |s|)]
  {
    if k > 0 {
      PagesUpToPrefix(s, k - 1, limit);
      PageExtendsPrefix(s, k, limit);
    }
  }

  /** Page `k` continues the rows of the pages before it. */
  lemma PageExtendsPrefix<T>(s: seq<T>, k: nat, limit: int)
    requires k >= 1 && limit >= 1
    ensures s[..Min(k * limit, |s|)] == s[..Min((k - 1) * limit, |s|)] + PageOf(s, k, limit)
  {
    SkipBounds(k, limit);
    var lo := Min((k - 1) * limit, |s|);
    assert s[..Min(k * limit, |s|)] == s[..lo] + s[lo..Min(k * limit, |s|)];
  }

  /** Pages 1 to `pages` together are exactly the ranked matches, in order. */
  lemma PagesCoverAll(docs: seq<Document>, caller: Option<Caller>, q: Query, limit: int)
    requires limit >= 1
    ensures var ranked := Ranked(docs, caller, q);
            PagesUpTo(ranked, PageCount(|ranked|, limit), limit) == ranked
  {
    var ranked := Ranked(docs, caller, q);
    PagesUpToPrefix(ranked, PageCount(|ranked|, limit), limit);
  }
}
