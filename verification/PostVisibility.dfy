/** Which posts are published, scheduled or drafts: the administrator's SQL clauses, the public
    list's clause, the check on a loaded row and the admin page's own rule.

    SQL conditions are three-valued and a row is selected only when its condition is TRUE. Instants
    are whole microseconds, as timestamptz stores them. */
module PostVisibility {
  import opened Prelude
  import opened LikePatterns

  datatype Truth = True | False | Unknown

  function And3(a: Truth, b: Truth): Truth {
    if a == False || b == False then False else if a == Unknown || b == Unknown then Unknown else True
  }

  function Or3(a: Truth, b: Truth): Truth {
    if a == True || b == True then True else if a == Unknown || b == Unknown then Unknown else False
  }

  function Not3(a: Truth): Truth {
    match a
    case True => False
    case False => True
    case Unknown => Unknown
  }

  function Known(b: bool): Truth { if b then True else False }

  type Instant = int

  /** Title and content are not nullable. */
  datatype Post = Post(category: Option<string>, publishedAt: Option<Instant>, title: string, content: string)

  /** The conditions the repository builds. */
  datatype Clause =
    | CategoryIsNull
    | CategoryIn(names: seq<string>)
    | CategoryNotIn(names: seq<string>)
    | CategoryIs(name: string)
    | DateIsNull
    | DateIsNotNull
    | DateAtMost(now: Instant)
    | DateAfter(now: Instant)
    | TitleLike(pattern: string)
    | ContentLike(pattern: string)
    | And(left: Clause, right: Clause)
    | Or(left: Clause, right: Clause)

  /** A comparison with NULL is unknown; IS NULL never is. */
  function Eval(c: Clause, post: Post, fold: char -> char): Truth {
    match c
    case CategoryIsNull => Known(post.category.None?)
    case CategoryIn(names) => if post.category.None? then Unknown else Known(post.category.value in names)
    case CategoryNotIn(names) => if post.category.None? then Unknown else Known(post.category.value !in names)
    case CategoryIs(name) => if post.category.None? then Unknown else Known(post.category.value == name)
    case DateIsNull => Known(post.publishedAt.None?)
    case DateIsNotNull => Known(post.publishedAt.Some?)
    case DateAtMost(now) => if post.publishedAt.None? then Unknown else Known(post.publishedAt.value <= now)
    case DateAfter(now) => if post.publishedAt.None? then Unknown else Known(post.publishedAt.value > now)
    case TitleLike(pattern) => Known(ILike(post.title, pattern, fold))
    case ContentLike(pattern) => Known(ILike(post.content, pattern, fold))
    case And(l, r) => And3(Eval(l, post, fold), Eval(r, post, fold))
    case Or(l, r) => Or3(Eval(l, post, fold), Eval(r, post, fold))
  }

  // ---- the clauses ----

  const BOARD_POST_CATEGORIES := ["discussion", "question", "share", "congrats"]

  function AdminNonBoardCategoryClause(): Clause { Or(CategoryIsNull, CategoryNotIn(BOARD_POST_CATEGORIES)) }

  /** None is no condition: any other status, or none, selects every row. */
  function AdminStatusClause(status: Option<string>, now: Instant): Option<Clause> {
    var nonBoard := AdminNonBoardCategoryClause();
    if status == Some("published") then
      Some(Or(CategoryIn(BOARD_POST_CATEGORIES), And(nonBoard, And(DateIsNotNull, DateAtMost(now)))))
    else if status == Some("scheduled") then Some(And(nonBoard, DateAfter(now)))
    else if status == Some("draft") then Some(And(nonBoard, DateIsNull))
    else None
  }

  function PublicVisibilityClause(now: Instant): Clause {
    Or(CategoryIn(BOARD_POST_CATEGORIES), And(DateIsNotNull, DateAtMost(now)))
  }

  predicate IsPostPublic(post: Post, now: Instant) {
    if post.category.Some? && post.category.value in BOARD_POST_CATEGORIES then true
    else if post.publishedAt.None? then false
    else post.publishedAt.value <= now
  }

  predicate InStatus(post: Post, status: string, now: Instant, fold: char -> char) {
    var clause := AdminStatusClause(Some(status), now);
    clause.Some? && Eval(clause.value, post, fold) == True
  }

  /** One of the four board categories. */
  predicate OnBoard(post: Post) {
    && post.category.Some?
    && (post.category.value == "discussion" || post.category.value == "question"
        || post.category.value == "share" || post.category.value == "congrats")
  }

  lemma BoardMeaning(post: Post)
    ensures OnBoard(post) <==> post.category.Some? && post.category.value in BOARD_POST_CATEGORIES
  {
    var b := BOARD_POST_CATEGORIES;
    assert b[0] == "discussion" && b[1] == "question" && b[2] == "share" && b[3] == "congrats";
  }

  lemma StatusClauseCases(now: Instant)
    ensures AdminStatusClause(Some("published"), now)
         == Some(Or(CategoryIn(BOARD_POST_CATEGORIES),
                    And(AdminNonBoardCategoryClause(), And(DateIsNotNull, DateAtMost(now)))))
    ensures AdminStatusClause(Some("scheduled"), now) == Some(And(AdminNonBoardCategoryClause(), DateAfter(now)))
    ensures AdminStatusClause(Some("draft"), now) == Some(And(AdminNonBoardCategoryClause(), DateIsNull))
  {
    assert "scheduled"[0] != "published"[0] && "draft"[0] != "published"[0] && "draft"[0] != "scheduled"[0];
  }

  lemma PublishedValue(post: Post, now: Instant, fold: char -> char)
    ensures Eval(AdminNonBoardCategoryClause(), post, fold) == Known(!OnBoard(post))
    ensures Eval(And(DateIsNotNull, DateAtMost(now)), post, fold)
         == Known(post.publishedAt.Some? && post.publishedAt.value <= now)
    ensures Eval(CategoryIn(BOARD_POST_CATEGORIES), post, fold)
         == if post.category.None? then Unknown else Known(OnBoard(post))
  {
    BoardMeaning(post);
    hide OnBoard;
    assert Eval(CategoryNotIn(BOARD_POST_CATEGORIES), post, fold)
        == if post.category.None? then Unknown else Known(!OnBoard(post));
    assert Eval(CategoryIsNull, post, fold) == Known(post.category.None?);
    assert Eval(DateIsNotNull, post, fold) == Known(post.publishedAt.Some?);
  }

  /** Which rows each clause selects: board posts are published whatever their date, and any other
      post, with or without a category, goes by its date. */
  lemma StatusMeaning(post: Post, now: Instant, fold: char -> char)
    ensures InStatus(post, "published", now, fold) <==>
      OnBoard(post) || (post.publishedAt.Some? && post.publishedAt.value <= now)
    ensures InStatus(post, "scheduled", now, fold) <==>
      !OnBoard(post) && post.publishedAt.Some? && post.publishedAt.value > now
    ensures InStatus(post, "draft", now, fold) <==> !OnBoard(post) && post.publishedAt.None?
  {
    StatusClauseCases(now);
    PublishedValue(post, now, fold);
    assert Eval(And(AdminNonBoardCategoryClause(), And(DateIsNotNull, DateAtMost(now))), post, fold)
        == Known(!OnBoard(post) && post.publishedAt.Some? && post.publishedAt.value <= now);
    assert Eval(DateAfter(now), post, fold)
        == if post.publishedAt.None? then Unknown else Known(post.publishedAt.value > now);
    assert Eval(DateIsNull, post, fold) == Known(post.publishedAt.None?);
  }

  /** At one instant every post, with or without a category and a date, is in exactly one state. */
  lemma ExactlyOneStatus(post: Post, now: Instant, fold: char -> char)
    ensures var p, s, d := InStatus(post, "published", now, fold), InStatus(post, "scheduled", now, fold),
                           InStatus(post, "draft", now, fold);
      (p || s || d) && !(p && s) && !(p && d) && !(s && d)
  {
    StatusMeaning(post, now, fold);
  }

  /** Published means the same to the admin list, to the public list and to the check on a row. */
  lemma PublishedIsPublic(post: Post, now: Instant, fold: char -> char)
    ensures InStatus(post, "published", now, fold) <==> IsPostPublic(post, now)
    ensures Eval(PublicVisibilityClause(now), post, fold) == True <==> IsPostPublic(post, now)
    ensures IsPostPublic(post, now) <==> OnBoard(post) || (post.publishedAt.Some? && post.publishedAt.value <= now)
  {
    BoardMeaning(post);
    hide OnBoard;
    StatusMeaning(post, now, fold);
    PublishedValue(post, now, fold);
    hide InStatus;
  }

  /** The published clause must not be negated: for a post without a category it can be unknown,
      and then so is its negation. */
  lemma NegationLosesPosts(post: Post, now: Instant, fold: char -> char)
    ensures Not3(Eval(PublicVisibilityClause(now), post, fold)) == True
       <==> !IsPostPublic(post, now) && post.category.Some?
  {
    BoardMeaning(post);
    hide OnBoard;
    PublishedValue(post, now, fold);
  }

  // ---- counting ----

  datatype AdminPostFilters = AdminPostFilters(category: Option<string>, status: Option<string>, q: Option<string>)

  predicate Given(text: Option<string>) { text.Some? && text.value != "" }

  predicate AllTrue(clauses: seq<Clause>, post: Post, fold: char -> char) {
    forall i :: 0 <= i < |clauses| ==> Eval(clauses[i], post, fold) == True
  }

  function CategoryClauses(category: Option<string>): seq<Clause> {
    if Given(category) then [CategoryIs(category.value)] else []
  }

  function StatusClauses(status: Option<string>, now: Instant): seq<Clause> {
    var clause := AdminStatusClause(status, now);
    if clause.Some? then [clause.value] else []
  }

  function SearchClauses(q: Option<string>): seq<Clause> {
    if Given(q) then [Or(TitleLike(SearchPattern(q.value)), ContentLike(SearchPattern(q.value)))] else []
  }

  function Where(filters: AdminPostFilters, now: Instant): seq<Clause> {
    CategoryClauses(filters.category) + StatusClauses(filters.status, now) + SearchClauses(filters.q)
  }

  function Selects(clauses: seq<Clause>, fold: char -> char): Post -> bool {
    (post: Post) => AllTrue(clauses, post, fold)
  }

  function CountOf(posts: seq<Post>, filters: AdminPostFilters, now: Instant, fold: char -> char): nat {
    Count(posts, Selects(Where(filters, now), fold))
  }

  /** The title or the content holds q, ignoring case. */
  ghost predicate Found(post: Post, q: string, fold: char -> char) {
    Contains(Fold(post.title, fold), Fold(q, fold)) || Contains(Fold(post.content, fold), Fold(q, fold))
  }

  lemma AllTrueConcat(a: seq<Clause>, b: seq<Clause>, post: Post, fold: char -> char)
    ensures AllTrue(a + b, post, fold) <==> AllTrue(a, post, fold) && AllTrue(b, post, fold)
  {
    hide Eval;
    assert forall i :: 0 <= i < |a| ==> (a + b)[i] == a[i];
    assert forall i :: 0 <= i < |b| ==> (a + b)[|a| + i] == b[i];
  }

  lemma AllTrueOne(c: Clause, post: Post, fold: char -> char)
    ensures AllTrue([c], post, fold) <==> Eval(c, post, fold) == True
    ensures AllTrue([], post, fold)
  {
    assert [c][0] == c;
  }

  lemma StatusClausesMeaning(status: string, post: Post, now: Instant, fold: char -> char)
    requires AdminStatusClause(Some(status), now).Some?
    ensures AllTrue(StatusClauses(Some(status), now), post, fold) <==> InStatus(post, status, now, fold)
  {
    AllTrueOne(AdminStatusClause(Some(status), now).value, post, fold);
  }

  /** What a row has to satisfy, filter by filter: the category itself, the text in title or content, and the
      state: board posts are published, other posts go by their date, and any other status asks for nothing. */
  ghost predicate Wanted(filters: AdminPostFilters, now: Instant, post: Post, fold: char -> char) {
    && (Given(filters.category) ==> post.category == filters.category)
    && (Given(filters.q) ==> Found(post, filters.q.value, fold))
    && (filters.status == Some("published") ==>
          OnBoard(post) || (post.publishedAt.Some? && post.publishedAt.value <= now))
    && (filters.status == Some("scheduled") ==>
          !OnBoard(post) && post.publishedAt.Some? && post.publishedAt.value > now)
    && (filters.status == Some("draft") ==> !OnBoard(post) && post.publishedAt.None?)
  }

  lemma StatusesMeaning(status: Option<string>, post: Post, now: Instant, fold: char -> char)
    ensures AllTrue(StatusClauses(status, now), post, fold) <==>
      && (status == Some("published") ==>
            OnBoard(post) || (post.publishedAt.Some? && post.publishedAt.value <= now))
      && (status == Some("scheduled") ==> !OnBoard(post) && post.publishedAt.Some? && post.publishedAt.value > now)
      && (status == Some("draft") ==> !OnBoard(post) && post.publishedAt.None?)
  {
    StatusMeaning(post, now, fold);
    StatusClauseCases(now);
    AllTrueOne(CategoryIsNull, post, fold);
    if status.Some? && AdminStatusClause(status, now).Some? {
      StatusClausesMeaning(status.value, post, now, fold);
    }
    hide Eval, AllTrue, InStatus, OnBoard;
    assert "scheduled"[0] != "published"[0] && "draft"[0] != "published"[0] && "draft"[0] != "scheduled"[0];
  }

  lemma WhereMeaning(filters: AdminPostFilters, now: Instant, post: Post, fold: char -> char)
    requires KeepsSpecials(fold)
    ensures AllTrue(Where(filters, now), post, fold) <==> Wanted(filters, now, post, fold)
  {
    var c, s, q := CategoryClauses(filters.category), StatusClauses(filters.status, now), SearchClauses(filters.q);
    AllTrueConcat(c + s, q, post, fold);
    AllTrueConcat(c, s, post, fold);
    StatusesMeaning(filters.status, post, now, fold);
    if Given(filters.q) {
      SearchClauseMeaning(post, filters.q.value, fold);
    }
    AllTrueOne(CategoryIs(if Given(filters.category) then filters.category.value else ""), post, fold);
    AllTrueOne(if Given(filters.q) then SearchClauses(filters.q)[0] else CategoryIsNull, post, fold);
    hide AllTrue, OnBoard, StatusClauses;
  }

  /** So the count is the number of those rows. */
  lemma CountMeaning(posts: seq<Post>, filters: AdminPostFilters, now: Instant, fold: char -> char)
    requires KeepsSpecials(fold)
    ensures CountOf(posts, filters, now, fold) == |set i: nat | i < |posts| && Wanted(filters, now, posts[i], fold)|
  {
    forall i: nat | i < |posts|
      ensures AllTrue(Where(filters, now), posts[i], fold) <==> Wanted(filters, now, posts[i], fold)
    {
      WhereMeaning(filters, now, posts[i], fold);
    }
    hide AllTrue, Where, Wanted;
    var p := Selects(Where(filters, now), fold);
    CountIsSize(posts, p);
    assert Positions(posts, p) == set i: nat | i < |posts| && Wanted(filters, now, posts[i], fold);
  }

  lemma SearchClauseMeaning(post: Post, q: string, fold: char -> char)
    requires KeepsSpecials(fold)
    ensures Eval(Or(TitleLike(SearchPattern(q)), ContentLike(SearchPattern(q))), post, fold) == True <==>
      Found(post, q, fold)
  {
    InsensitiveSearch(post.title, q, fold);
    InsensitiveSearch(post.content, q, fold);
    hide Contains, Fold, ILike, KeepsSpecials, SearchPattern;
  }

  /** For any table, category and search text the three filtered counts add up to the count
      without a status. */
  lemma CountsAddUp(posts: seq<Post>, category: Option<string>, q: Option<string>, now: Instant, fold: char -> char)
    ensures CountOf(posts, AdminPostFilters(category, Some("published"), q), now, fold)
          + CountOf(posts, AdminPostFilters(category, Some("scheduled"), q), now, fold)
          + CountOf(posts, AdminPostFilters(category, Some("draft"), q), now, fold)
         == CountOf(posts, AdminPostFilters(category, None, q), now, fold)
  {
    var all := Selects(Where(AdminPostFilters(category, None, q), now), fold);
    var published := Selects(Where(AdminPostFilters(category, Some("published"), q), now), fold);
    var scheduled := Selects(Where(AdminPostFilters(category, Some("scheduled"), q), now), fold);
    var draft := Selects(Where(AdminPostFilters(category, Some("draft"), q), now), fold);
    var rest := (post: Post) => scheduled(post) || draft(post);
    forall i | 0 <= i < |posts|
      ensures all(posts[i]) <==> published(posts[i]) || scheduled(posts[i]) || draft(posts[i])
      ensures !(published(posts[i]) && scheduled(posts[i]))
      ensures !(published(posts[i]) && draft(posts[i]))
      ensures !(scheduled(posts[i]) && draft(posts[i]))
    {
      StatusPartition(posts[i], category, q, now, fold);
    }
    hide Selects, Where;
    CountSplit(posts, all, published, rest);
    CountSplit(posts, rest, scheduled, draft);
  }

  lemma StatusPartition(post: Post, category: Option<string>, q: Option<string>, now: Instant, fold: char -> char)
    ensures var all := AllTrue(Where(AdminPostFilters(category, None, q), now), post, fold);
      var p := AllTrue(Where(AdminPostFilters(category, Some("published"), q), now), post, fold);
      var s := AllTrue(Where(AdminPostFilters(category, Some("scheduled"), q), now), post, fold);
      var d := AllTrue(Where(AdminPostFilters(category, Some("draft"), q), now), post, fold);
      (all <==> (p || s || d)) && !(p && s) && !(p && d) && !(s && d)
  {
    ExactlyOneStatus(post, now, fold);
    StatusClauseCases(now);
    StatusClausesMeaning("published", post, now, fold);
    StatusClausesMeaning("scheduled", post, now, fold);
    StatusClausesMeaning("draft", post, now, fold);
    AllTrueOne(CategoryIsNull, post, fold);
    hide Eval, AllTrue, InStatus, Where;
    StatusAlone(post, category, None, q, now, fold);
    StatusAlone(post, category, Some("published"), q, now, fold);
    StatusAlone(post, category, Some("scheduled"), q, now, fold);
    StatusAlone(post, category, Some("draft"), q, now, fold);
  }

  lemma StatusAlone(post: Post, category: Option<string>, status: Option<string>, q: Option<string>, now: Instant,
      fold: char -> char)
    ensures AllTrue(Where(AdminPostFilters(category, status, q), now), post, fold) <==>
      && AllTrue(CategoryClauses(category), post, fold)
      && AllTrue(SearchClauses(q), post, fold)
      && AllTrue(StatusClauses(status, now), post, fold)
  {
    hide AllTrue;
    AllTrueConcat(CategoryClauses(category) + StatusClauses(status, now), SearchClauses(q), post, fold);
    AllTrueConcat(CategoryClauses(category), StatusClauses(status, now), post, fold);
  }

  /** The table and the admin count, which adds one condition after another to its query. */
  class PostRepository {
    var posts: seq<Post>

    constructor (posts: seq<Post>)
      ensures this.posts == posts
    {
      this.posts := posts;
    }

    method CountPosts(filters: Option<AdminPostFilters>, now: Instant, fold: char -> char) returns (count: nat)
      ensures filters.None? ==> count == |posts|
      ensures filters.Some? ==> count == CountOf(posts, filters.value, now, fold)
      ensures filters.Some? && KeepsSpecials(fold) ==>
        count == |set i: nat | i < |posts| && Wanted(filters.value, now, posts[i], fold)|
    {
      hide Wanted, KeepsSpecials, AdminStatusClause, AllTrue, SearchPattern;
      if filters.Some? && KeepsSpecials(fold) {
        CountMeaning(posts, filters.value, now, fold);
      }
      var stmt: seq<Clause> := [];
      if filters.Some? {
        var f := filters.value;
        if Given(f.category) {
          stmt := stmt + [CategoryIs(f.category.value)];
        }
        var status := AdminStatusClause(f.status, now);
        if status.Some? {
          stmt := stmt + [status.value];
        }
        if Given(f.q) {
          var pattern := SearchPattern(f.q.value);
          stmt := stmt + [Or(TitleLike(pattern), ContentLike(pattern))];
        }
        assert stmt == Where(f, now);
      }
      count := 0;
      for i := 0 to |posts|
        invariant count == Count(posts[..i], Selects(stmt, fold))
        invariant filters.None? ==> count == i
      {
        assert posts[..i + 1][..i] == posts[..i];
        AllTrueOne(CategoryIsNull, posts[i], fold);
        if AllTrue(stmt, posts[i], fold) {
          count := count + 1;
        }
      }
      assert posts[..|posts|] == posts;
    }
  }

  // ---- the admin page ----

  datatype PublicationState = Published | Scheduled | Draft

  const BOARD_CATEGORY_KEYS := ["discussion", "question", "share", "congrats"]

  predicate IsBoardCategory(value: Option<string>) {
    exists i :: 0 <= i < |BOARD_CATEGORY_KEYS| && value == Some(BOARD_CATEGORY_KEYS[i])
  }

  /** parse is Date.parse: milliseconds, or None for a text that is no date. nowMs is also in
      milliseconds. */
  function GetAdminPostPublicationState(category: Option<string>, publishedAt: Option<string>, nowMs: int,
                                        parse: string -> Option<int>): PublicationState {
    if IsBoardCategory(category) then Published
    else if !Given(publishedAt) then Draft
    else
      var timestamp := parse(publishedAt.value);
      if timestamp.None? then Draft else if timestamp.value > nowMs then Scheduled else Published
  }

  /** The row's date as the page receives it: no text without a date, and otherwise a text that
      parses to the date's millisecond. */
  predicate Denotes(text: Option<string>, at: Option<Instant>, parse: string -> Option<int>) {
    if at.None? then text.None? else Given(text) && parse(text.value) == Some(at.value / 1000)
  }

  /** The date is still to come, but within the millisecond the clock is in. */
  predicate DueThisMillisecond(at: Option<Instant>, now: Instant) {
    at.Some? && now < at.value && at.value / 1000 == now / 1000
  }

  function StatusName(state: PublicationState): string {
    match state
    case Published => "published"
    case Scheduled => "scheduled"
    case Draft => "draft"
  }

  /** At any instant the page, whose clock has whole milliseconds, shows the state the database filters
      by, except for a post that falls due later within the current millisecond: the page already calls
      it published. */
  lemma PageAgreesIff(post: Post, text: Option<string>, now: Instant, parse: string -> Option<int>, fold: char -> char)
    requires Denotes(text, post.publishedAt, parse)
    ensures var shown := StatusName(GetAdminPostPublicationState(post.category, text, now / 1000, parse));
      InStatus(post, shown, now, fold) <==> IsBoardCategory(post.category) || !DueThisMillisecond(post.publishedAt, now)
  {
    BoardListsAgree(post.category);
    BoardMeaning(post);
    StatusMeaning(post, now, fold);
    hide InStatus, IsBoardCategory, OnBoard;
  }

  lemma BoardListsAgree(category: Option<string>)
    ensures IsBoardCategory(category) <==> category.Some? && category.value in BOARD_POST_CATEGORIES
  {
    if category.Some? && category.value in BOARD_POST_CATEGORIES {
      var i :| 0 <= i < |BOARD_POST_CATEGORIES| && BOARD_POST_CATEGORIES[i] == category.value;
      assert category == Some(BOARD_CATEGORY_KEYS[i]);
    }
  }
}
